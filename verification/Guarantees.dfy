/** What the analysis promises about the programs it accepts: the main results, each over every run. */
module Guarantees {
  import opened Language
  import opened Semantics
  import opened Footprint
  import opened Facts
  import opened Effects
  import opened Analysis
  import opened Gamma
  import opened Control
  import opened StandIns
  import opened Soundness
  import opened Alikeness
  import opened OrderIndependence
  import opened Directives
  import opened Addresses
  import opened Monotone

  // --- whole programs

  /** Nothing has happened and nothing is forbidden; the functions in `created` are created where they are called. */
  function Start(created: set<nat>): Context {
    Context(NO_EFFECT, {}, {}, created)
  }

  function StartScope(p: Program): Scope {
    Scope(p.globals, p.globals, {}, {})
  }

  /** A program, the initialisers of its globals, and the function without parameters that is called first. */
  ghost predicate WholeProgram(p: Program, inits: map<Variable, seq<Init>>, f: nat) {
    && WFProgram(p) && f < |p.funcs| && p.funcs[f].params == []
    && inits.Keys == p.globals && InitsOk(inits, {})
  }

  lemma {:induction false} GlobalsApart(p: Program, k: nat)
    requires WFProgram(p) && k <= |p.funcs|
    ensures p.globals !! NamesBelow(p, k)
    decreases k
  {
    if k > 0 {
      GlobalsApart(p, k - 1);
      assert WFFunction(p, k - 1);
    }
  }

  lemma StartReady(p: Program, inits: map<Variable, seq<Init>>, f: nat)
    requires WholeProgram(p, inits, f)
    ensures Ready(p, |p.funcs|, InitFacts(inits), StartScope(p)) && WFExpr(p, |p.funcs|, Call(f, []), p.globals)
    ensures CanEnter(inits, map[]) && Before(Enter(inits, map[]), InitFacts(inits), StartScope(p))
  {
    hide CellsOf, Enter, CanEnter, WFFunction;
    GlobalsApart(p, |p.funcs|);
    var none: Env := map[];
    EmptyStore();
    EnterSound(inits, map[], {}, none);
    assert none + InitFacts(inits) == InitFacts(inits) && {} + inits.Keys == p.globals;
    InitsWF(inits);
  }

  lemma EmptyStore()
    ensures StoreOk(map[], {}) && Holds(map[], map[])
  {
  }

  lemma InitsWF(inits: map<Variable, seq<Init>>)
    requires InitsOk(inits, {})
    ensures EnvWF(InitFacts(inits), inits.Keys)
  {
    var env := InitFacts(inits);
    forall v, t | v in env && t in env[v]
      ensures GoodTarget(t, v.level, inits.Keys, env.Keys)
    {
      var i :| 0 <= i < |inits[v]| && t == InitTarget(inits[v][i]);
      assert WFInit(v, inits[v][i], {} + inits.Keys);
    }
  }

  ghost predicate Accepted(p: Program, inits: map<Variable, seq<Init>>, f: nat, created: set<nat>)
    requires WholeProgram(p, inits, f)
  {
    StartReady(p, inits, f);
    Visit(p, |p.funcs|, Call(f, []), InitFacts(inits), StartScope(p), Start(created)).Accept?
  }

  /** What the analysis has recorded of a whole program. */
  ghost function Summary(p: Program, inits: map<Variable, seq<Init>>, f: nat, created: set<nat>): Effect
    requires WholeProgram(p, inits, f) && Accepted(p, inits, f, created)
  {
    StartReady(p, inits, f);
    Visit(p, |p.funcs|, Call(f, []), InitFacts(inits), StartScope(p), Start(created)).eff
  }

  /** No accepted program reads or writes through a null, dangling or indeterminate pointer, or writes a constant, in
    * any evaluation order, however far it gets.  Unless an unsequenced operand may write the index of an address, it
    * ends in every order or in none, and if it ends, it ends alike: with the same value and store, having read and
    * written the same cells and made the same volatile accesses - in the same order, unless some simple assignment has
    * volatile accesses on both of its sides. */
  lemma ProgramSafe(p: Program, inits: map<Variable, seq<Init>>, f: nat, created: set<nat>, n: nat, o: Order)
    requires WholeProgram(p, inits, f) && Accepted(p, inits, f, created)
    ensures Eval(p, Call(f, []), Enter(inits, map[]), n, o) != Stuck
    ensures forall l :: l in Eval(p, Call(f, []), Enter(inits, map[]), n, o).fp.wr ==> !l.v.isConst
    ensures var st, run := Enter(inits, map[]), Call(f, []);
            !Summary(p, inits, f, created).clash ==>
              EndAlike(Summary(p, inits, f, created).mixed, Eval(p, run, st, n, o), Eval(p, run, st, n, Any))
  {
    hide Visit, Eval;
    StartReady(p, inits, f);
    var st, run, ctx := Enter(inits, map[]), Call(f, []), Start(created);
    EffectSound(p, |p.funcs|, run, InitFacts(inits), StartScope(p), ctx, st, n, o);
    if !Summary(p, inits, f, created).clash {
      ExprOrder(p, |p.funcs|, run, InitFacts(inits), StartScope(p), ctx, st, n, o);
    }
  }

  /** As long as every index of an address is the variable of a loop around it in the same function - and no other
    * indices are generated - the evaluation order cannot matter through them. */
  lemma GuardedProgram(p: Program, inits: map<Variable, seq<Init>>, f: nat, created: set<nat>)
    requires WholeProgram(p, inits, f) && Accepted(p, inits, f, created) && Guarded(p)
    ensures !Summary(p, inits, f, created).clash
  {
    hide Visit;
    StartReady(p, inits, f);
    ExprGuards(p, |p.funcs|, Call(f, []), InitFacts(inits), StartScope(p), Start(created), {});
    ProtectedIndices(p, |p.funcs|, Call(f, []), InitFacts(inits), StartScope(p), Start(created));
  }

  // --- directives and effects

  /** Whether a function is created for a call or visited again, the same code is accepted and to the same effect, at
    * every call depth: the directives that creation filters out forbid nothing that could be touched. */
  lemma CreatedOrVisited(p: Program, k: nat, e: Expr, env: Env, sc: Scope, ctx: Context, created: set<nat>)
    requires Ready(p, k, env, sc) && WFExpr(p, k, e, sc.vis) && Known(ctx, sc.live)
    ensures Visit(p, k, e, env, sc, ctx.(created := created)) == Visit(p, k, e, env, sc, ctx)
  {
    AllWithinLive(env, sc.live);
    ExprWithin(p, k, e, env, sc, ctx.(created := created), ctx, sc.live);
  }

  /** The directives a created function is handed protect as much as those they were filtered from. */
  lemma FilterProtects(p: Program, k: nat, e: Expr, env: Env, sc: Scope, ctx: Context, rets: seq<set<Target>>)
    requires e.Call? && Ready(p, k, env, sc) && WFExpr(p, k, e, sc.vis) && GoodArgs(p, e.args, rets, sc.live, env.Keys)
    requires Known(ctx, sc.live)
    ensures e.f < |p.funcs| && |e.args| == |p.funcs[e.f].params| == |rets|
    ensures var f := p.funcs[e.f];
            var kept := HandOver(p.globals, env, f, e.args, rets);
            var ext := p.globals + FrameVars(kept, sc.live);
            Visitable(p, e.f, kept, sc) &&
            VisitBlock(p, e.f, f.level, f.body, kept, CalleeScope(p, f, sc),
                       ctx.(noRead := ctx.noRead * ext, noWrite := ctx.noWrite * ext), false)
            == VisitBlock(p, e.f, f.level, f.body, kept, CalleeScope(p, f, sc), ctx, false)
  {
    hide HandOver, VisitBlock;
    CallArgsWF(p, k, e, sc.vis);
    var f := p.funcs[e.f];
    HandOverReady(p, k, env, sc, e.f, e.args, rets);
    assert WFFunction(p, e.f);
    var kept := HandOver(p.globals, env, f, e.args, rets);
    var all := Reachable(p.globals, Elems(f.params), kept, sc.live);
    CallReach(p, k, e, env, sc, rets);
    var ext := p.globals + FrameVars(kept, sc.live);
    BlockWithin(p, e.f, f.level, f.body, kept, CalleeScope(p, f, sc),
                ctx.(noRead := ctx.noRead * ext, noWrite := ctx.noWrite * ext), ctx, false, all);
  }

  lemma CallReach(p: Program, k: nat, e: Expr, env: Env, sc: Scope, rets: seq<set<Target>>)
    requires e.Call? && Ready(p, k, env, sc) && WFExpr(p, k, e, sc.vis) && GoodArgs(p, e.args, rets, sc.live, env.Keys)
    ensures var f := p.funcs[e.f];
            var kept := HandOver(p.globals, env, f, e.args, rets);
            Within(kept, Reachable(p.globals, Elems(f.params), kept, sc.live))
  {
    hide HandOver, WFExpr;
    AllWithinLive(env, sc.live);
    HandedWithin(p, k, e, env, sc, rets, sc.live);
  }

  /** Every access of an accepted expression, in any evaluation order and however far the run gets, is in its effect and
    * respects the directives, and no constant is written.  The one exception are reads of indices of addresses, which
    * are not visited. */
  lemma EffectSound(p: Program, k: nat, e: Expr, env: Env, sc: Scope, ctx: Context, st: Store, n: nat, o: Order)
    requires Ready(p, k, env, sc) && WFExpr(p, k, e, sc.vis) && Before(st, env, sc)
    requires Visit(p, k, e, env, sc, ctx).Accept?
    ensures !Eval(p, e, st, n, o).Stuck?
    ensures var r, fp := Visit(p, k, e, env, sc, ctx), Eval(p, e, st, n, o).fp;
            && (forall l :: l in fp.rd ==> l.v in r.eff.rds + r.eff.wrs + r.eff.unseen)
            && (forall l :: l in fp.wr ==> l.v in r.eff.wrs)
            && (fp.trace != [] ==> r.eff.vol)
            && (forall l :: l in fp.wr ==> l.v !in ctx.noWrite + ctx.eff.rds + ctx.eff.wrs && !l.v.isConst)
            && (forall l :: l in fp.rd && l.v in r.eff.rds + r.eff.wrs ==>
                  l.v !in ctx.eff.wrs && (l.v !in ctx.noRead || l.v in r.eff.wrs))
  {
    hide Visit, Eval;
    ExprSound(p, k, e, env, sc, ctx, st, n, o);
    AllWithinLive(env, sc.live);
    ExprWithin(p, k, e, env, sc, ctx, ctx, sc.live);
    StoreTidy(st, sc.live);
    EvalFrame(p, e, st, n, o);
    LiveCells(st, sc.live, Eval(p, e, st, n, o).fp);
  }

  /** If every index of an address is one that no code may write where the address is taken, then no operand may write
    * the index of an address in another. */
  lemma ProtectedIndices(p: Program, k: nat, e: Expr, env: Env, sc: Scope, ctx: Context)
    requires Ready(p, k, env, sc) && WFExpr(p, k, e, sc.vis) && Visit(p, k, e, env, sc, ctx).Accept?
    ensures var eff := Visit(p, k, e, env, sc, ctx).eff; !eff.bare ==> !eff.clash && eff.unseen <= ctx.noWrite
  {
    hide Visit;
    AllWithinLive(env, sc.live);
    ExprWithin(p, k, e, env, sc, ctx, ctx, sc.live);
  }

  lemma LiveCells(st: Store, live: set<Variable>, fp: Foot)
    requires StoreOk(st, live) && fp.rd <= st.Keys && fp.wr <= st.Keys
    ensures forall l :: l in fp.rd || l in fp.wr ==> l.v in live
  {
    forall l | l in fp.rd || l in fp.wr
      ensures l.v in live
    {
      assert l in st;
    }
  }

  /** An accepted block, with everything it calls, writes no constant and nothing that its directives protect, in any
    * evaluation order and however far it gets. */
  lemma BlockSafe(p: Program, k: nat, level: nat, b: Block, env: Env, sc: Scope, ctx: Context, inLoop: bool, st: Store,
                  n: nat, o: Order)
    requires Ready(p, k, env, sc) && WFBlock(p, k, level, b, sc.vis, inLoop) && Own(p, k, BlockNames(b), sc)
    requires VisitBlock(p, k, level, b, env, sc, ctx, inLoop).StmtAccept? && Before(st, env, sc)
    ensures !ExecBlock(p, b, st, n, o).Stuck?
    ensures forall l :: l in ExecBlock(p, b, st, n, o).fp.wr ==> !l.v.isConst && l.v !in ctx.noWrite
  {
    hide ExecBlock, WFBlock, BlockNames, VisitBlock;
    var body, c := VisitBlock(p, k, level, b, env, sc, ctx, inLoop), ExecBlock(p, b, st, n, o);
    BlockSound(p, k, level, b, env, sc, ctx, inLoop, st, n, o, body, c);
    AllWithinLive(env, sc.live);
    BlockWithin(p, k, level, b, env, sc, ctx, ctx, inLoop, sc.live);
    StoreTidy(st, sc.live);
    ExecBlockFrame(p, b, st, n, o);
    LiveCells(st, sc.live, c.fp);
  }

  /** The body of a loop, with everything it calls, never writes the loop's variable nor that of a loop around it,
    * however far it gets - neither in functions visited again nor in those created for a call in the body or, at any
    * depth, for a call from one of these. */
  lemma InductionVariableSafe(p: Program, k: nat, level: nat, s: Stmt, entry: Env, sc: Scope, ctx: Context,
                              body: StmtVerdict, st: Store, n: nat, o: Order)
    requires s.For? && Ready(p, k, entry, sc) && WFBlock(p, k, level, s.body, sc.vis, true)
    requires Own(p, k, BlockNames(s.body), sc)
    requires body == VisitBlock(p, k, level, s.body, entry, BodyScope(sc), BodyContext(ctx, s.iv), true)
    requires body.StmtAccept?
    requires Before(st, entry, sc)
    ensures !ExecBlock(p, s.body, st, n, o).Stuck?
    ensures forall l :: l in ExecBlock(p, s.body, st, n, o).fp.wr ==> l.v != s.iv && l.v !in ctx.noWrite
  {
    BlockSafe(p, k, level, s.body, entry, BodyScope(sc), BodyContext(ctx, s.iv), true, st, n, o);
  }

  /** Where the header of a loop alone, started with `x`, would leave the loop's variable. */
  function HeaderExit(p: Program, s: Stmt, x: Value, n: nat): Option<Value>
    requires s.For?
    decreases n
  {
    if !LoopTest(p, s, x) then Some(x)
    else if n == 0 then None
    else HeaderExit(p, s, LoopStep(p, s, x), n - 1)
  }

  /** An accepted loop that is not left by a jump counts exactly as its header says, whatever its body does. */
  lemma {:induction false} LoopCounts(p: Program, k: nat, level: nat, s: Stmt, entry: Env, sc: Scope, ctx: Context,
                                      body: StmtVerdict, st: Store, n: nat, o: Order, c: Result)
    requires s.For? && Ready(p, k, entry, sc) && WFBlock(p, k, level, s.body, sc.vis, true)
    requires Own(p, k, BlockNames(s.body), sc)
    requires s.iv in sc.vis && s.iv.level == 0 && !s.iv.isArray && Before(st, entry, sc)
    requires body == VisitBlock(p, k, level, s.body, entry, BodyScope(sc), BodyContext(ctx, s.iv), true)
    requires body.StmtAccept? && IsFixed(s.body, entry, body) && c == ExecLoop(p, s, st, n, o) && c.Done?
    requires !StmtsJump(s.body, 0, true) && c.out.Fall?
    ensures var l := Loc(s.iv, 0); l in st && l in c.st && HeaderExit(p, s, st[l], n) == Some(c.st[l])
    decreases n
  {
    hide VisitBlock, ExecBlock, WFBlock, BlockNames, MustReturn, StmtOk, IsFixed, FootOk, StmtsJump;
    var l := Loc(s.iv, 0);
    CellIn(s.iv, 0, st, sc.live);
    if LoopTest(p, s, st[l]) {
      var x := OneIteration(p, k, level, s, entry, sc, ctx, body, st, n, o);
      BlockNoJump(p, s.body, st, n, Sub(o, 0), true);
      var st1 := x.st[l := LoopStep(p, s, x.st[l])];
      LoopCounts(p, k, level, s, entry, sc, ctx, body, st1, n - 1, Sub(o, 1), ExecLoop(p, s, st1, n - 1, Sub(o, 1)));
    }
  }

  /** An iteration that goes on leaves the loop's variable as it was, and the facts at the head of the loop true. */
  lemma OneIteration(p: Program, k: nat, level: nat, s: Stmt, entry: Env, sc: Scope, ctx: Context, body: StmtVerdict,
                     st: Store, n: nat, o: Order) returns (x: Result)
    requires s.For? && Ready(p, k, entry, sc) && WFBlock(p, k, level, s.body, sc.vis, true)
    requires Own(p, k, BlockNames(s.body), sc)
    requires s.iv in sc.vis && s.iv.level == 0 && !s.iv.isArray && Before(st, entry, sc)
    requires body == VisitBlock(p, k, level, s.body, entry, BodyScope(sc), BodyContext(ctx, s.iv), true)
    requires body.StmtAccept? && IsFixed(s.body, entry, body)
    ensures x == ExecBlock(p, s.body, st, n, Sub(o, 0)) && !x.Stuck? && (x.Done? ==> !x.out.Val?)
    ensures var l := Loc(s.iv, 0);
            && l in st
            && (x.Done? && (x.out.Fall? || x.out.Continued?) ==>
                  l in x.st && x.st[l] == st[l] && Before(x.st[l := LoopStep(p, s, x.st[l])], entry, sc))
  {
    hide VisitBlock, ExecBlock, WFBlock, BlockNames, MustReturn, StmtOk, IsFixed, FootOk;
    x := ExecBlock(p, s.body, st, n, Sub(o, 0));
    CellIn(s.iv, 0, st, sc.live);
    BlockSound(p, k, level, s.body, entry, BodyScope(sc), BodyContext(ctx, s.iv), true, st, n, Sub(o, 0), body, x);
    BodyEnds(p, k, level, s, entry, sc, ctx, body, st, n, Sub(o, 0), x);
    InductionVariableSafe(p, k, level, s, entry, sc, ctx, body, st, n, Sub(o, 0));
    BodyKeeps(p, s.body, st, sc.live, n, Sub(o, 0), x, Loc(s.iv, 0));
  }

  /** With as much fuel as `big`, the body of a loop never runs out of it. */
  ghost predicate BodyAlwaysEnds(p: Program, s: Stmt, entry: Env, sc: Scope, big: nat)
    requires s.For?
  {
    forall st, n: nat, o :: n >= big && Before(st, entry, sc) ==> !ExecBlock(p, s.body, st, n, o).Timeout?
  }

  /** What the protection of induction variables is for: an accepted loop ends if its header alone would, and its body
    * always does. */
  lemma {:induction false} LoopEnds(p: Program, k: nat, level: nat, s: Stmt, entry: Env, sc: Scope, ctx: Context,
                                    body: StmtVerdict, st: Store, times: nat, big: nat, o: Order)
    requires s.For? && Ready(p, k, entry, sc) && WFBlock(p, k, level, s.body, sc.vis, true)
    requires Own(p, k, BlockNames(s.body), sc)
    requires s.iv in sc.vis && s.iv.level == 0 && !s.iv.isArray && Before(st, entry, sc)
    requires body == VisitBlock(p, k, level, s.body, entry, BodyScope(sc), BodyContext(ctx, s.iv), true)
    requires body.StmtAccept? && IsFixed(s.body, entry, body) && BodyAlwaysEnds(p, s, entry, sc, big)
    requires Loc(s.iv, 0) in st && HeaderExit(p, s, st[Loc(s.iv, 0)], times).Some?
    ensures ExecLoop(p, s, st, times + big, o).Done?
    decreases times
  {
    hide VisitBlock, ExecBlock, WFBlock, BlockNames, MustReturn, StmtOk, IsFixed, FootOk, Before;
    var l, n := Loc(s.iv, 0), times + big;
    if LoopTest(p, s, st[l]) {
      var x := OneIteration(p, k, level, s, entry, sc, ctx, body, st, n, o);
      assert x.Done?;
      if x.out.Fall? || x.out.Continued? {
        LoopEnds(p, k, level, s, entry, sc, ctx, body, x.st[l := LoopStep(p, s, x.st[l])], times - 1, big, Sub(o, 1));
      }
    }
  }

  lemma BodyKeeps(p: Program, b: Block, st: Store, live: set<Variable>, n: nat, o: Order, x: Result, l: Loc)
    requires StoreOk(st, live) && x == ExecBlock(p, b, st, n, o) && l in st && !x.Stuck? && l !in x.fp.wr
    ensures x.Done? ==> l in x.st && x.st[l] == st[l]
  {
    StoreTidy(st, live);
    ExecBlockFrame(p, b, st, n, o);
  }

  // --- calls

  /** The hand-over keeps the least set of facts that holds those of globals and parameters and is closed under "pointed
    * to by". */
  lemma HandOverLeast(globals: set<Variable>, env: Env, f: Function, args: seq<Expr>, rets: seq<set<Target>>,
                      keep: set<Variable>)
    requires |f.params| == |args| == |rets|
    requires var bound := env + ParamFacts(env, f.params, args, rets);
             ClosedUnder(bound, keep) && forall v :: v in bound && (v in globals || v in f.params) ==> v in keep
    ensures var bound, kept := env + ParamFacts(env, f.params, args, rets), HandOver(globals, env, f, args, rets);
            && kept.Keys <= keep && kept.Keys <= bound.Keys && ClosedUnder(bound, kept.Keys)
            && (forall v :: v in bound && (v in globals || v in f.params) ==> v in kept)
            && (forall v :: v in kept ==> kept[v] == bound[v])
  {
    var bound := env + ParamFacts(env, f.params, args, rets);
    var roots := set v | v in bound && (v in globals || v in f.params);
    ReachLeast(bound, roots, keep);
    assert HandOver(globals, env, f, args, rets).Keys == Reach(bound, roots);
  }

  /** The call frame rule, in every evaluation order: a call writes only globals and what some fact handed over
    * mentions, however far it gets.  So if it returns, every other cell has survived; it has changed no pointer about
    * which no fact was handed over; and what it has changed is described by the callee's results laid over the facts
    * from before. */
  lemma CallFrameRule(p: Program, k: nat, e: Expr, env: Env, sc: Scope, ctx: Context, eff: Effect,
                      rets: seq<set<Target>>, vals: seq<Value>, st: Store, n: nat, o: Order)
    requires e.Call? && Ready(p, k, env, sc) && WFExpr(p, k, e, sc.vis) && Before(st, env, sc)
    requires Compatible(eff, ctx) && GoodArgs(p, e.args, rets, sc.live, env.Keys)
    requires |vals| == |e.args| && ValuesOk(p, e.args, env, rets, vals, st)
    requires VisitCall(p, k, e, env, sc, ctx, eff, rets).Accept?
    ensures !CallWith(p, e, vals, st, n, o).Stuck?
    ensures var kept, c := HandOver(p.globals, env, p.funcs[e.f], e.args, rets), CallWith(p, e, vals, st, n, o);
            && (forall l :: l in c.fp.wr ==> l.v in p.globals || exists u :: u in kept && Obj(l.v) in kept[u])
            && (c.Done? ==>
                  && c.out.Val?
                  && (forall l :: l in st && l !in c.fp.wr ==> l in c.st && c.st[l] == st[l])
                  && (forall l :: l in st && l.v.level > 0 && l.v !in kept ==> l in c.st && c.st[l] == st[l])
                  && Holds(VisitCall(p, k, e, env, sc, ctx, eff, rets).env, c.st))
  {
    hide HandOver, VisitCall, CallWith, StmtOk, Handed, StmtVisited, TakeBack, Visitable, StmtClaim, Within, EnvWF,
         Recalls, FootOk, ParamCells, WFProgram, GoodArgs, Reachable;
    var f := p.funcs[e.f];
    var r, c := VisitCall(p, k, e, env, sc, ctx, eff, rets), CallWith(p, e, vals, st, n, o);
    NoFootOk(eff, env.Keys);
    InvokeSound(p, k, e, env, sc, ctx, eff, rets, vals, NO_FOOT, st, n, o, r, c);
    if n == 0 {
      NoFuelNoFoot(p, e, vals, st, o);
    } else {
      var kept, ctx1, body := OpenCall(p, k, e, env, sc, ctx, eff, rets, vals, st, r);
      var inner := st + ParamCells(f.params, vals);
      var d := BodySound(p, e, kept, sc, ctx1, vals, st, inner, n, o, body, c);
      CallReach(p, k, e, env, sc, rets);
      BodyReach(p, e, kept, sc, ctx1, body);
      OutsideReach(p.globals, kept, f.level, CalleeScope(p, f, sc), Elems(f.params), sc.live, ctx1, body, st, inner, d,
                   c);
      if c.Done? {
        OutsideKept(f.level, CalleeScope(p, f, sc), kept.Keys, Elems(f.params), sc.live, body, st, inner, d, c);
      }
    }
  }

  lemma NoFuelNoFoot(p: Program, e: Expr, vals: seq<Value>, st: Store, o: Order)
    requires e.Call?
    ensures CallWith(p, e, vals, st, 0, o) == Timeout(NO_FOOT)
  {
  }

  lemma BodyReach(p: Program, e: Expr, kept: Env, sc: Scope, ctx: Context, body: StmtVerdict)
    requires e.Call? && Visitable(p, e.f, kept, sc)
    requires Within(kept, Reachable(p.globals, Elems(p.funcs[e.f].params), kept, sc.live))
    requires body == VisitBlock(p, e.f, p.funcs[e.f].level, p.funcs[e.f].body, kept, CalleeScope(p, p.funcs[e.f], sc),
                                ctx, false)
    ensures StmtClaim(p.funcs[e.f].level, Reachable(p.globals, Elems(p.funcs[e.f].params), kept, sc.live),
                      sc.live + Elems(p.funcs[e.f].params), ctx, body)
  {
    hide VisitBlock, StmtClaim, FrameVars;
    var f := p.funcs[e.f];
    BlockWithin(p, e.f, f.level, f.body, kept, CalleeScope(p, f, sc), ctx, ctx, false,
                Reachable(p.globals, Elems(f.params), kept, sc.live));
  }

  lemma OutsideReach(globals: set<Variable>, kept: Env, level: nat, sc: Scope, ps: set<Variable>, live: set<Variable>,
                     ctx: Context, body: StmtVerdict, st: Store, inner: Store, d: Result, c: Result)
    requires StoreOk(st, live) && live !! ps && sc.live == live + ps && c == Handed(ps, d) && !c.Stuck?
    requires body.StmtAccept? && StmtOk(level, kept.Keys, sc, body, d) && Framed(inner, d) && StoreOk(inner, live + ps)
    requires StmtClaim(level, Reachable(globals, ps, kept, live), live + ps, ctx, body)
    requires forall l :: l in st ==> l in inner && inner[l] == st[l]
    ensures forall l :: l in c.fp.wr ==> l.v in globals || exists u :: u in kept && Obj(l.v) in kept[u]
    ensures c.Done? ==> forall l :: l in st && l !in c.fp.wr ==> l in c.st && c.st[l] == st[l]
  {
    LiveCells(inner, live + ps, d.fp);
    forall l | l in c.fp.wr
      ensures l.v in globals || exists u :: u in kept && Obj(l.v) in kept[u]
    {
      assert l in d.fp.wr && l.v in body.eff.wrs && l.v in live + ps && l.v !in ps;
      assert l.v in Reachable(globals, ps, kept, live);
    }
    if c.Done? {
      forall l | l in st && l !in c.fp.wr
        ensures l in c.st && c.st[l] == st[l]
      {
        assert l in CellsOf(live) && l !in d.fp.wr;
        assert d.st[l] == st[l] && TypedValue(st[l], l.v.level, st);
      }
    }
  }

  lemma OutsideKept(level: nat, sc: Scope, keys: set<Variable>, ps: set<Variable>, live: set<Variable>,
                    body: StmtVerdict, st: Store, inner: Store, d: Result, c: Result)
    requires StoreOk(st, live) && live !! ps && c == Handed(ps, d) && c.Done?
    requires body.StmtAccept? && StmtOk(level, keys, sc, body, d) && Framed(inner, d)
    requires forall l :: l in st ==> l in inner && inner[l] == st[l]
    ensures forall l :: l in st && l.v.level > 0 && l.v !in keys ==> l in c.st && c.st[l] == st[l]
  {
    forall l | l in st && l.v.level > 0 && l.v !in keys
      ensures l in c.st && c.st[l] == st[l]
    {
      assert l !in d.fp.wr;
      assert TypedValue(st[l], l.v.level, st);
    }
  }

  // --- monotonicity

  lemma {:induction false} AcceptedNonEmpty(env: Env, ctx: Context, ts: set<Target>, k: nat)
    requires k > 0 && WritePointed(env, ctx, ts, k).Some?
    ensures Deref(env, ts, k) != {}
    decreases k
  {
    if k > 1 {
      AcceptedNonEmpty(env, ctx, Pointees(env, ts), k - 1);
    } else {
      assert Deref(env, ts, 1) == Deref(env, Pointees(env, ts), 0) == Pointees(env, ts);
    }
  }

  /** On assignments that the pointer checks accept, more permissive facts before give more permissive facts after, even
    * where they turn a strong update into a weak one. */
  lemma TransferMonotone(e1: Env, e2: Env, ctx: Context, eff: Effect, r: Ref, compound: bool, rhs: Expr,
                         rets1: set<Target>, rets2: set<Target>)
    requires Below(e1, e2) && rets1 <= rets2
    requires VisitLhs(e1, ctx, eff, r, compound).Some?
    ensures Below(AssignFacts(e1, r, RhsPointees(e1, rhs, rets1)), AssignFacts(e2, r, RhsPointees(e2, rhs, rets2)))
  {
    hide RhsPointees, WritePointed, VisitRead, PtrModified, CheckRead, CheckWrite;
    RhsLess(e1, e2, rhs, rets1, rets2);
    DerefLess(e1, e2, {Obj(r.v)}, {Obj(r.v)}, r.ind);
    if r.ind > 0 {
      AcceptedNonEmpty(e1, ctx, {Obj(r.v)}, r.ind);
    }
    var l1, l2 := Deref(e1, {Obj(r.v)}, r.ind), Deref(e2, {Obj(r.v)}, r.ind);
    forall v | v in e1 && IsStrong(l2, v)
      ensures IsStrong(l1, v)
    {
    }
  }
}
