/** Indices of addresses.  `&a[i]` reads `i` when the program runs, but the analysis does not visit the index of an
  * address: so the read is not recorded, and nothing keeps another operand from writing `i`.  That does no harm where
  * the index is the variable of a loop around it, which nothing may write. */
module Addresses {
  import opened Language
  import opened Semantics
  import opened Footprint
  import opened Facts
  import opened Effects
  import opened Analysis
  import opened Gamma
  import opened StandIns
  import opened Soundness

  // --- indices that are loop variables

  /** Every index of an address in `e` is among `ivs`. */
  predicate ExprGuarded(e: Expr, ivs: set<Variable>)
    decreases e
  {
    match e
    case AddrOf(_, ix) => ix.By? ==> ix.v in ivs
    case Assign(_, _, rhs) => ExprGuarded(rhs, ivs)
    case Comma(a, b) => ExprGuarded(a, ivs) && ExprGuarded(b, ivs)
    case Short(_, a, b) => ExprGuarded(a, ivs) && ExprGuarded(b, ivs)
    case Op(_, args) => forall i :: 0 <= i < |args| ==> ExprGuarded(args[i], ivs)
    case Call(_, args) => forall i :: 0 <= i < |args| ==> ExprGuarded(args[i], ivs)
    case _ => true
  }

  predicate StmtGuarded(s: Stmt, ivs: set<Variable>)
    decreases s
  {
    match s
    case ExprStmt(e) => ExprGuarded(e, ivs)
    case If(t, a, b) => ExprGuarded(t, ivs) && StmtsGuarded(a, 0, ivs) && StmtsGuarded(b, 0, ivs)
    case For(iv, _, _, _, _, _, b) => StmtsGuarded(b, 0, ivs + {iv})
    case Break(t) => ExprGuarded(t, ivs)
    case Continue(t) => ExprGuarded(t, ivs)
    case Return(e) => ExprGuarded(e, ivs)
  }

  predicate StmtsGuarded(b: Block, i: nat, ivs: set<Variable>)
    requires i <= |b.stms|
    decreases b, |b.stms| - i
  {
    i < |b.stms| ==> StmtGuarded(b.stms[i], ivs) && StmtsGuarded(b, i + 1, ivs)
  }

  /** Every index of an address is the variable of a loop around it, in the same function. */
  predicate Guarded(p: Program) {
    forall f :: 0 <= f < |p.funcs| ==> StmtsGuarded(p.funcs[f].body, 0, {})
  }

  /** Such indices are protected wherever they are used, at every call depth. */
  lemma {:induction false} ExprGuards(p: Program, k: nat, e: Expr, env: Env, sc: Scope, ctx: Context,
                                      ivs: set<Variable>)
    requires Ready(p, k, env, sc) && WFExpr(p, k, e, sc.vis) && Guarded(p)
    requires ExprGuarded(e, ivs) && ivs <= ctx.noWrite
    ensures var r := Visit(p, k, e, env, sc, ctx); r.Accept? ==> !r.eff.bare
    decreases k, e
  {
    match e
    case Load(r) => VisitReadSeen(env, ctx, r);
    case Assign(r, c, rhs) =>
      ExprGuards(p, k, rhs, env, sc, ctx, ivs);
      var r1 := Visit(p, k, rhs, env, sc, ctx);
      if r1.Accept? { VisitLhsSeen(r1.env, LhsContext(ctx, r1.eff, c.Some?), r1.eff, r, c.Some?); }
    case Comma(a, b) => ThenGuards(p, k, e, a, b, env, sc, ctx, ivs);
    case Short(_, a, b) => ThenGuards(p, k, e, a, b, env, sc, ctx, ivs);
    case Op(_, args) => ArgsGuards(p, k, e, args, env, sc, ctx, ivs);
    case Call(_, args) =>
      hide VisitCall;
      ArgsGuards(p, k, e, args, env, sc, ctx, ivs);
      var r1 := VisitArgs(p, k, e, args, env, sc, ctx);
      if r1.ArgsAccept? { CallGuards(p, k, e, r1.env, sc, ctx, r1.eff, r1.rets); }
    case _ =>
  }

  lemma {:induction false} ThenGuards(p: Program, k: nat, e: Expr, a: Expr, b: Expr, env: Env, sc: Scope, ctx: Context,
                                      ivs: set<Variable>)
    requires a < e && b < e && (e == Comma(a, b) || (e.Short? && e.a == a && e.b == b))
    requires Ready(p, k, env, sc) && WFExpr(p, k, e, sc.vis) && Guarded(p)
    requires ExprGuarded(e, ivs) && ivs <= ctx.noWrite
    ensures var r := Visit(p, k, e, env, sc, ctx); r.Accept? ==> !r.eff.bare
    decreases k, e, 0
  {
    ExprGuards(p, k, a, env, sc, ctx, ivs);
    var r1 := Visit(p, k, a, env, sc, ctx);
    if r1.Accept? { ExprGuards(p, k, b, r1.env, sc, ctx, ivs); }
  }

  lemma {:induction false} ArgsGuards(p: Program, k: nat, e: Expr, args: seq<Expr>, env: Env, sc: Scope, ctx: Context,
                                      ivs: set<Variable>)
    requires Ready(p, k, env, sc) && Guarded(p) && ivs <= ctx.noWrite
    requires forall i :: 0 <= i < |args| ==> args[i] < e && WFExpr(p, k, args[i], sc.vis) && ExprGuarded(args[i], ivs)
    ensures var r := VisitArgs(p, k, e, args, env, sc, ctx); r.ArgsAccept? ==> !r.eff.bare
    decreases k, e, |args|
  {
    hide Visit, WFExpr, ExprGuarded, Guarded;
    if args != [] {
      ExprGuards(p, k, args[0], env, sc, ctx, ivs);
      var r1 := Visit(p, k, args[0], env, sc, ctx);
      if r1.Accept? {
        ArgsGuards(p, k, e, args[1..], r1.env, sc, ctx.(eff := Plus(ctx.eff, r1.eff)), ivs);
      }
    }
  }

  lemma {:induction false} CallGuards(p: Program, k: nat, e: Expr, env: Env, sc: Scope, ctx: Context, eff: Effect,
                                      rets: seq<set<Target>>)
    requires e.Call? && Ready(p, k, env, sc) && WFExpr(p, k, e, sc.vis) && Guarded(p)
    requires Compatible(eff, ctx) && GoodArgs(p, e.args, rets, sc.live, env.Keys) && !eff.bare
    ensures var r := VisitCall(p, k, e, env, sc, ctx, eff, rets); r.Accept? ==> !r.eff.bare
    decreases k, e, 0
  {
    hide VisitBlock, HandOver, TakeBack, WFBlock, MustReturn;
    var f := p.funcs[e.f];
    HandOverReady(p, k, env, sc, e.f, e.args, rets);
    assert WFFunction(p, e.f);
    var kept := HandOver(p.globals, env, f, e.args, rets);
    BlockGuards(p, e.f, f.level, f.body, kept, CalleeScope(p, f, sc),
                CalleeContext(ctx, e.f, p.globals, kept, sc.live), false, {});
  }

  lemma {:induction false} StmtGuards(p: Program, k: nat, level: nat, s: Stmt, env: Env, sc: Scope, ctx: Context,
                                      inLoop: bool, ivs: set<Variable>)
    requires Ready(p, k, env, sc) && WFStmt(p, k, level, s, sc.vis, inLoop) && Own(p, k, StmtNames(s), sc)
    requires Guarded(p) && StmtGuarded(s, ivs) && ivs <= ctx.noWrite
    ensures var r := VisitStmt(p, k, level, s, env, sc, ctx, inLoop); r.StmtAccept? ==> !r.eff.bare
    decreases k, s
  {
    hide Visit, VisitBlock, VisitLoop, Guarded, WFBlock, MustReturn;
    match s
    case ExprStmt(e) => ExprGuards(p, k, e, env, sc, ctx, ivs);
    case Break(e) => ExprGuards(p, k, e, env, sc, ctx, ivs);
    case Continue(e) => ExprGuards(p, k, e, env, sc, ctx, ivs);
    case Return(e) => ExprGuards(p, k, e, env, sc, ctx, ivs);
    case If(t, a, b) =>
      ExprGuards(p, k, t, env, sc, ctx, ivs);
      var r := Visit(p, k, t, env, sc, ctx);
      if r.Accept? {
        BlockGuards(p, k, level, a, r.env, sc, ctx, inLoop, ivs);
        BlockGuards(p, k, level, b, r.env, sc, ctx, inLoop, ivs);
      }
    case For(_, _, _, _, _, _, _) => LoopGuards(p, k, level, s, env, sc, ctx, ivs);
  }

  lemma {:induction false} StmtsGuards(p: Program, k: nat, level: nat, b: Block, i: nat, env: Env, sc: Scope,
                                       ctx: Context, inLoop: bool, ivs: set<Variable>)
    requires i <= |b.stms| && Guarded(p) && StmtsGuarded(b, i, ivs) && ivs <= ctx.noWrite
    requires Ready(p, k, env, sc) && WFStmts(p, k, level, b, i, sc.vis, inLoop) && Own(p, k, StmtsNames(b, i), sc)
    ensures var r := VisitStmts(p, k, level, b, i, env, sc, ctx, inLoop); r.StmtAccept? ==> !r.eff.bare
    decreases k, b, |b.stms| - i
  {
    if i < |b.stms| {
      hide VisitStmt, Guarded;
      StmtGuards(p, k, level, b.stms[i], env, sc, ctx, inLoop, ivs);
      var r1 := VisitStmt(p, k, level, b.stms[i], env, sc, ctx, inLoop);
      if r1.StmtAccept? { StmtsGuards(p, k, level, b, i + 1, r1.env, sc, ctx, inLoop, ivs); }
    }
  }

  lemma {:induction false} BlockGuards(p: Program, k: nat, level: nat, b: Block, env: Env, sc: Scope, ctx: Context,
                                       inLoop: bool, ivs: set<Variable>)
    requires Ready(p, k, env, sc) && WFBlock(p, k, level, b, sc.vis, inLoop) && Own(p, k, BlockNames(b), sc)
    requires Guarded(p) && StmtsGuarded(b, 0, ivs) && ivs <= ctx.noWrite
    ensures var r := VisitBlock(p, k, level, b, env, sc, ctx, inLoop); r.StmtAccept? ==> !r.eff.bare
    decreases k, b
  {
    hide VisitStmts, WFStmts, Guarded, StmtsGuarded;
    EnterWF(p, k, level, b, env, sc, inLoop);
    StmtsGuards(p, k, level, b, 0, env + InitFacts(b.locals), Inner(sc, b.locals.Keys), ctx, inLoop, ivs);
  }

  lemma {:induction false} LoopGuards(p: Program, k: nat, level: nat, s: Stmt, env: Env, sc: Scope, ctx: Context,
                                      ivs: set<Variable>)
    requires s.For? && Ready(p, k, env, sc) && WFBlock(p, k, level, s.body, sc.vis, true)
    requires Own(p, k, BlockNames(s.body), sc) && Guarded(p) && StmtGuarded(s, ivs) && ivs <= ctx.noWrite
    ensures var loop := VisitLoop(p, k, level, s, env, sc, ctx); loop.LoopAccept? ==> !loop.r.eff.bare
    decreases k, s, 0, |Missing(env, sc.live)|
  {
    hide VisitBlock, WFBlock, BlockNames, MergeAll, Missing, BackEdges, Guarded;
    BlockGuards(p, k, level, s.body, env, BodyScope(sc), BodyContext(ctx, s.iv), true, ivs + {s.iv});
    var r := VisitBlock(p, k, level, s.body, env, BodyScope(sc), BodyContext(ctx, s.iv), true);
    if r.StmtAccept? {
      BackEdgesWF(level, s.body, env, sc, BodyContext(ctx, s.iv), r);
      var next := MergeAll(env, BackEdges(s.body, r));
      if next != env {
        GrowingShrinksMissing(env, next, sc.live);
        LoopGuards(p, k, level, s, next, sc, ctx, ivs);
      }
    }
  }

  // --- indices that are not

  /** The read of the index is in no read set. */
  lemma IndexUnseen(p: Program, k: nat, e: Expr, env: Env, sc: Scope, ctx: Context, st: Store, n: nat, o: Order)
    requires e.AddrOf? && e.ix.By? && Ready(p, k, env, sc) && WFExpr(p, k, e, sc.vis) && Before(st, env, sc)
    ensures var r, c := Visit(p, k, e, env, sc, ctx), Eval(p, e, st, n, o);
            && r.Accept? && r.eff.rds + r.eff.wrs == {} && r.eff.unseen == {e.ix.v}
            && c.Done? && c.fp.rd == {Loc(e.ix.v, 0)}
  {
    StartOk(Ref(e.v, e.ix, 0), st, sc.live);
  }

  function Table(): Variable { Variable(0, 0, true, 2, false, false) }

  function Count(): Variable { Variable(1, 0, false, 1, false, false) }

  function Param(): Variable { Variable(2, 1, false, 1, false, false) }

  function Other(): Variable { Variable(3, 0, false, 1, false, false) }

  /** `int f(int *p, int x) { return *p; }` */
  function Follow(): Function {
    Function([Param(), Other()], 0, Block(map[], [Return(Load(Ref(Param(), At(0), 1)))]))
  }

  /** `f(&a[i], i = 1)` */
  function Both(): Expr {
    Call(0, [AddrOf(Table(), By(Count(), 0)), Assign(Ref(Count(), At(0), 0), None, Const(1))])
  }

  function ThreeCells(): Store {
    map[Loc(Table(), 0) := Int(10), Loc(Table(), 1) := Int(11), Loc(Count(), 0) := Int(0)]
  }

  function Globals(): Scope {
    Scope({Table(), Count()}, {Table(), Count()}, {}, {})
  }

  lemma BothReady(p: Program)
    requires p.funcs == [Follow()] && p.globals == {Table(), Count()}
    ensures Ready(p, 1, map[], Globals()) && WFExpr(p, 1, Both(), Globals().vis)
    ensures Before(ThreeCells(), map[], Globals())
  {
    FollowFits(p);
    hide WFFunction, FuncNames, BlockNames, Before;
    CellsDescribed();
    assert NamesBelow(p, 0) == {};
    assert NamesBelow(p, 1) == {Param(), Other()};
  }

  lemma CellsDescribed()
    ensures Before(ThreeCells(), map[], Globals())
  {
    hide CellsOf;
    forall l
      ensures l in ThreeCells() <==> l in CellsOf(Globals().live)
    {
      InCells(Globals().live, l);
    }
  }

  lemma FollowFits(p: Program)
    requires p.funcs == [Follow()] && p.globals == {Table(), Count()}
    ensures WFFunction(p, 0) && FuncNames(Follow()) == {Param(), Other()}
  {
    assert NamesBelow(p, 0) == {} && StmtsNames(Follow().body, 1) == {};
    assert BlockNames(Follow().body) == {};
    assert FuncNames(Follow()) == {Param(), Other()};
    assert WFStmts(p, 0, 0, Follow().body, 1, {Table(), Count(), Param(), Other()}, false);
  }

  lemma CountWritten(p: Program, ctx: Context)
    requires Ready(p, 1, map[], Globals()) && WFExpr(p, 1, Both().args[1], Globals().vis)
    requires ctx.eff.rds == ctx.eff.wrs == ctx.noRead == ctx.noWrite == {} && !ctx.eff.vol
    ensures var r := Visit(p, 1, Both().args[1], map[], Globals(), ctx);
            r.Accept? && r.env == map[] && r.rets == {} && r.eff.rds == {} && r.eff.wrs == {Count()} && !r.eff.vol
  {
    var none: Env, e, lctx := map[], Both().args[1], LhsContext(ctx, NO_EFFECT, false);
    assert lctx.eff.wrs == {} && lctx.eff.rds == {} && CheckWrite(lctx, Count());
    assert Visit(p, 1, e.rhs, none, Globals(), ctx) == Accept(none, NO_EFFECT, {});
    var lhs := VisitLhs(none, lctx, NO_EFFECT, e.r, false);
    assert lhs == Some(Plus(Plus(NO_EFFECT, NO_EFFECT), WriteEffect(Count())));
    assert lhs.value.wrs == {Count()};
  }

  lemma FirstAccepted(p: Program, ctx: Context)
    requires p.funcs == [Follow()] && p.globals == {Table(), Count()} && ctx == Context(NO_EFFECT, {}, {}, {})
    requires Ready(p, 1, map[], Globals()) && WFExpr(p, 1, Both(), Globals().vis)
    ensures var r := VisitArgs(p, 1, Both(), Both().args, map[], Globals(), ctx);
            r.ArgsAccept? && r.env == map[] && r.rets == [{}, {}] && r.eff.clash
  {
    var e0, e1 := Both().args[0], Both().args[1];
    var r0 := Visit(p, 1, e0, map[], Globals(), ctx);
    assert r0 == Accept(map[], NO_EFFECT.(unseen := {Count()}, bare := true), {});
    var ctx1 := ctx.(eff := Plus(ctx.eff, r0.eff));
    CountWritten(p, ctx1);
    hide Visit;
    var r1 := Visit(p, 1, e1, map[], Globals(), ctx1);
    assert Both().args[1..] == [e1] && [e1][1..] == [];
    var none: Env, empty: seq<Expr>, ctx2 := map[], [], ctx1.(eff := Plus(ctx1.eff, r1.eff));
    assert VisitArgs(p, 1, Both(), empty, none, Globals(), ctx2) == ArgsAccept(none, NO_EFFECT, []);
    assert [e1][1..] == empty;
    var rest := VisitArgs(p, 1, Both(), [e1], map[], Globals(), ctx1);
    assert rest == OneMoreArg(r1.eff, r1.rets, ArgsAccept(map[], NO_EFFECT, []));
    assert Count() in r0.eff.unseen && Count() in rest.eff.wrs;
  }

  /** The pointer handed over may point to the table; reading through it is accepted. */
  lemma CallAccepted(p: Program, ctx: Context, eff: Effect)
    requires p.funcs == [Follow()] && p.globals == {Table(), Count()} && ctx == Context(NO_EFFECT, {}, {}, {})
    requires Ready(p, 1, map[], Globals()) && WFExpr(p, 1, Both(), Globals().vis) && Compatible(eff, ctx)
    requires GoodArgs(p, Both().args, [{}, {}], Globals().live, {})
    ensures VisitCall(p, 1, Both(), map[], Globals(), ctx, eff, [{}, {}]).Accept?
    ensures eff.clash ==> VisitCall(p, 1, Both(), map[], Globals(), ctx, eff, [{}, {}]).eff.clash
  {
    hide VisitBlock, HandOver, TakeBack, WFBlock, StmtVisited, RetTargets, MustReturn, BlockNames, EnvWF, Compatible;
    var none: Env, rets: seq<set<Target>> := map[], [{}, {}];
    var kept := HandOver(p.globals, none, Follow(), Both().args, rets);
    HandOverReady(p, 1, none, Globals(), 0, Both().args, rets);
    KeptParam(p.globals);
    assert WFFunction(p, 0);
    BodyAccepted(p, kept, ctx);
  }

  lemma KeptParam(globals: set<Variable>)
    requires globals == {Table(), Count()}
    ensures HandOver(globals, map[], Follow(), Both().args, [{}, {}]) == map[Param() := {Obj(Table())}]
  {
    var none: Env, rets: seq<set<Target>> := map[], [{}, {}];
    var args, params := Both().args, Follow().params;
    assert params[1..] == [Other()] && params[1..][1..] == [];
    assert ParamFacts(none, params[1..], args[1..], rets[1..]) == map[];
    assert ParamFacts(none, params, args, rets) == map[Param() := {Obj(Table())}];
    var bound: Env := map[Param() := {Obj(Table())}];
    assert none + bound == bound;
    var roots := set v | v in bound && (v in globals || v in params);
    assert roots == {Param()};
    assert PointedFrom(bound, roots) == {};
    assert Reach(bound, roots) == roots;
  }

  lemma BodyAccepted(p: Program, kept: Env, ctx: Context)
    requires p.funcs == [Follow()] && p.globals == {Table(), Count()} && ctx == Context(NO_EFFECT, {}, {}, {})
    requires kept == map[Param() := {Obj(Table())}] && WFFunction(p, 0)
    requires Ready(p, 0, kept, CalleeScope(p, Follow(), Globals())) && Globals().live !! FuncNames(Follow())
    ensures VisitBlock(p, 0, 0, Follow().body, kept, CalleeScope(p, Follow(), Globals()), ctx, false).StmtAccept?
  {
    var b, sc := Follow().body, CalleeScope(p, Follow(), Globals());
    EnterWF(p, 0, 0, b, kept, sc, false);
    var env1 := kept + InitFacts(b.locals);
    assert env1 == kept;
    assert Pointees(kept, {Obj(Param())}) == {Obj(Table())} && Objects({Obj(Table())}) == {Table()};
    assert VisitRead(kept, ctx, Ref(Param(), At(0), 1)).Some?;
    assert b.stms[0] == Return(Load(Ref(Param(), At(0), 1)));
  }

  /** `f` returns what its first argument points to. */
  lemma FollowRuns(p: Program, j: nat, st: Store, n: nat, o: Order)
    requires p.funcs == [Follow()] && j < 2 && n > 0
    requires st == ThreeCells()[Loc(Count(), 0) := Int(1)]
    ensures var c := CallWith(p, Both(), [Addr(Loc(Table(), j)), Int(1)], st, n, o);
            c.Done? && c.out == Val(Int(10 + j))
  {
    var vals := [Addr(Loc(Table(), j)), Int(1)];
    hide ExecBlock, ParamCells, CallWith;
    ParamsAre(vals);
    var inner := st + ParamCells(Follow().params, vals);
    BodyReturns(p, j, inner, n - 1, o);
    CallIsHanded(p, Both(), vals, st, n, o);
  }

  lemma ParamsAre(vals: seq<Value>)
    requires |vals| == 2
    ensures ParamCells(Follow().params, vals) == map[Loc(Other(), 0) := vals[1], Loc(Param(), 0) := vals[0]]
  {
    var params := Follow().params;
    assert params[1..] == [Other()] && vals[1..] == [vals[1]] && params[1..][1..] == [] && vals[1..][1..] == [];
  }

  lemma BodyReturns(p: Program, j: nat, st: Store, n: nat, o: Order)
    requires j < 2 && Loc(Param(), 0) in st && st[Loc(Param(), 0)] == Addr(Loc(Table(), j))
    requires Loc(Table(), j) in st && st[Loc(Table(), j)] == Int(10 + j)
    ensures var c := ExecBlock(p, Follow().body, st, n, o); c.Done? && c.out == Returned(Int(10 + j))
  {
    var b, r := Follow().body, Ref(Param(), At(0), 1);
    assert Enter(b.locals, st) == st by { assert CellsOf({}) == {}; }
    assert Chase(Loc(Table(), j), 0, st) == Lval(Loc(Table(), j), NO_FOOT);
    var start := Loc(Param(), 0);
    assert Cells(Param()) == 1 && 0 % 1 == 0;
    assert Lvalue(r, st) == Chase(start, 1, st);
    assert Chase(start, 1, st) == Lval(Loc(Table(), j), Join(ReadFoot(start), NO_FOOT));
    assert EvalLoad(r, st).Done? && EvalLoad(r, st).out == Val(Int(10 + j));
    assert b.stms[0] == Return(Load(r));
    assert Eval(p, Load(r), st, n, Sub(Sub(o, 0), 0)) == EvalLoad(r, st);
    var s := ExecStmt(p, b.stms[0], st, n, Sub(o, 0));
    assert s.Done? && s.out == Returned(Int(10 + j));
    assert ExecStmts(p, b, 0, st, n, o) == s;
  }

  lemma AddressOf(p: Program, st: Store, j: nat, n: nat, o: Order)
    requires j < 2 && Loc(Table(), j) in st && Loc(Count(), 0) in st && st[Loc(Count(), 0)] == Int(j)
    ensures var c := Eval(p, Both().args[0], st, n, o);
            c.Done? && c.out == Val(Addr(Loc(Table(), j))) && c.st == st
  {
    assert Chase(Loc(Table(), j), 0, st) == Lval(Loc(Table(), j), NO_FOOT);
  }

  lemma SetCount(p: Program, n: nat, o: Order)
    ensures var c := Eval(p, Both().args[1], ThreeCells(), n, o);
            c.Done? && c.out == Val(Int(1)) && c.st == ThreeCells()[Loc(Count(), 0) := Int(1)]
  {
    assert Chase(Loc(Count(), 0), 0, ThreeCells()) == Lval(Loc(Count(), 0), NO_FOOT);
  }

  /** The two orders of the arguments. */
  lemma ArgsRun(p: Program, n: nat, o: Order)
    ensures var c := EvalOps(p, Both(), [0, 1], ThreeCells(), n, o);
            && c.OpsDone? && c.st == ThreeCells()[Loc(Count(), 0) := Int(1)]
            && Vals(c.vals, 2) == [Addr(Loc(Table(), 0)), Int(1)]
    ensures var c := EvalOps(p, Both(), [1, 0], ThreeCells(), n, o);
            && c.OpsDone? && c.st == ThreeCells()[Loc(Count(), 0) := Int(1)]
            && Vals(c.vals, 2) == [Addr(Loc(Table(), 1)), Int(1)]
  {
    var st := ThreeCells()[Loc(Count(), 0) := Int(1)];
    AddressOf(p, ThreeCells(), 0, n, Sub(o, 0));
    AddressOf(p, st, 1, n, Sub(o, 0));
    SetCount(p, n, Sub(o, 1));
    hide Eval;
    var none: seq<nat> := [];
    assert [0, 1][1..] == [1] && [1][1..] == none && [1, 0][1..] == [0] && [0][1..] == none;
    assert EvalOps(p, Both(), none, st, n, o).OpsDone?;
    assert EvalOps(p, Both(), [1], ThreeCells(), n, o).OpsDone?;
    assert EvalOps(p, Both(), [0], st, n, o).OpsDone?;
  }

  /** `f(&a[i], i = 1)` is accepted, and what it is worth depends on which argument is evaluated first. */
  lemma ArgumentsClash(p: Program, n: nat)
    requires p.funcs == [Follow()] && p.globals == {Table(), Count()} && n > 0
    ensures var sc, e, st, ctx := Globals(), Both(), ThreeCells(), Context(NO_EFFECT, {}, {}, {});
            && Ready(p, 1, map[], sc) && WFExpr(p, 1, e, sc.vis) && Before(st, map[], sc)
            && Visit(p, 1, e, map[], sc, ctx).Accept? && Visit(p, 1, e, map[], sc, ctx).eff.clash
    ensures var st, o := ThreeCells(), Order([1, 0], []);
            var left, right := Eval(p, Both(), st, n, Any), Eval(p, Both(), st, n, o);
            left.Done? && left.out == Val(Int(10)) && right.Done? && right.out == Val(Int(11))
  {
    var ctx := Context(NO_EFFECT, {}, {}, {});
    BothReady(p);
    FirstAccepted(p, ctx);
    var r := VisitArgs(p, 1, Both(), Both().args, map[], Globals(), ctx);
    CallAccepted(p, ctx, r.eff);
    BothRun(p, n);
  }

  lemma BothRun(p: Program, n: nat)
    requires p.funcs == [Follow()] && n > 0
    ensures var st, o := ThreeCells(), Order([1, 0], []);
            var left, right := Eval(p, Both(), st, n, Any), Eval(p, Both(), st, n, o);
            left.Done? && left.out == Val(Int(10)) && right.Done? && right.out == Val(Int(11))
  {
    hide EvalOps, CallWith;
    var st, o := ThreeCells()[Loc(Count(), 0) := Int(1)], Order([1, 0], []);
    ArgsRun(p, n, Any);
    ArgsRun(p, n, o);
    FollowRuns(p, 0, st, n, Sub(Any, 2));
    FollowRuns(p, 1, st, n, Sub(o, 2));
    assert Perm(Any, 2) == [0, 1];
    assert o.perm[0] == 1 && o.perm[1] == 0;
    assert Perm(o, 2) == [1, 0];
  }
}
