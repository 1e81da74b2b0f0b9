/** Points-to soundness over whole runs: whatever the analysis accepts runs without undefined behaviour, in every
  * evaluation order and however far it gets, in every store its input facts describe; and if it ends, it ends in one
  * that its output facts describe. */
module Soundness {
  import opened Language
  import opened Semantics
  import opened Footprint
  import opened Facts
  import opened Effects
  import opened Analysis
  import opened Gamma
  import opened Control
  import opened StandIns
  import opened Changes
  import opened LeftSides
  import opened Locality
  import opened Operands

  ghost predicate ExprOk(p: Program, e: Expr, keys: set<Variable>, sc: Scope, r: Verdict, c: Result)
    requires r.Accept?
  {
    && c != Stuck && FootOk(c.fp, r.eff, keys)
    && (c.Done? ==>
          && c.out.Val? && Before(c.st, r.env, sc)
          && TypedValue(c.out.v, Level(p, e), c.st)
          && Recalls(p, e, r.rets, c.out.v, c.st, Recorded(c.fp, r.eff)))
  }

  /** The cells read that the checks know about. */
  ghost function Recorded(fp: Foot, eff: Effect): set<Loc> {
    set l | l in fp.rd && l.v in eff.rds + eff.wrs
  }

  ghost predicate SomeHolds(envs: seq<Env>, st: Store) {
    exists i :: 0 <= i < |envs| && Holds(envs[i], st)
  }

  ghost predicate SomeReturn(rets: seq<RetFact>, level: nat, dead: set<Variable>, st: Store, x: Value) {
    exists i :: 0 <= i < |rets| && Holds(rets[i].env, Kill(dead, st))
      && (level > 0 ==> Covers(rets[i].pts, Fade(dead, x)))
  }

  ghost predicate OutOk(level: nat, sc: Scope, r: StmtVerdict, out: Outcome, st: Store)
    requires r.StmtAccept?
  {
    match out
    case Fall => Holds(r.env, st)
    case Broke => SomeHolds(r.brk, Kill(sc.loop, st))
    case Continued => SomeHolds(r.cont, Kill(sc.loop, st))
    case Returned(x) => TypedValue(x, level, st) && SomeReturn(r.ret, level, sc.func, st, x)
    case Val(_) => false
  }

  ghost predicate StmtOk(level: nat, keys: set<Variable>, sc: Scope, r: StmtVerdict, c: Result)
    requires r.StmtAccept?
  {
    && c != Stuck && FootOk(c.fp, r.eff, keys)
    && (c.Done? ==> StoreOk(c.st, sc.live) && OutOk(level, sc, r, c.out, c.st))
  }

  lemma FootMore(fp: Foot, eff: Effect, more: Effect, keys: set<Variable>)
    requires FootOk(fp, eff, keys) && Part(eff, more)
    ensures FootOk(fp, more, keys)
  {
  }

  // --- expressions

  /** An assignment whose right side has been evaluated. */
  lemma StoreOfRhs(p: Program, k: nat, e: Expr, env: Env, sc: Scope, ctx: Context, eff: Effect, rets: set<Target>,
                   x: Result)
    requires e.Assign? && Ready(p, k, env, sc) && WFExpr(p, k, e, sc.vis)
    requires Compatible(eff, ctx) && GoodRets(p, e.rhs, rets, sc.live, env.Keys)
    requires x.Done? && ExprOk(p, e.rhs, env.Keys, sc, Accept(env, eff, rets), x)
    requires VisitStore(p, k, e, env, sc, ctx, eff, rets).Accept?
    ensures ExprOk(p, e, env.Keys, sc, VisitStore(p, k, e, env, sc, ctx, eff, rets),
                   After(x.fp, Store1(p, e.r, e.compound, x.out.v, x.st)))
  {
    hide FootOk, Compatible, VisitLhs, EnvWF;
    var lctx := LhsContext(ctx, eff, e.compound.Some?);
    VisitLhsSeen(env, lctx, eff, e.r, e.compound.Some?);
    var pts := RhsPointees(env, e.rhs, rets);
    var v, rd := x.out.v, Recorded(x.fp, eff);
    if RefLevel(e.r) > 0 {
      RecallCovers(p, k, e.rhs, rets, v, x.st, rd, env, sc.live, sc.vis);
    }
    StoreSound(p, e.r, e.compound, v, pts, x.st, env, sc.live, lctx, eff);
    var d, l := Store1(p, e.r, e.compound, v, x.st), Lvalue(e.r, x.st).l;
    FootJoin(x.fp, eff, d.fp, VisitLhs(env, lctx, eff, e.r, e.compound.Some?).value, env.Keys);
    var r, c := VisitStore(p, k, e, env, sc, ctx, eff, rets), After(x.fp, d);
    var more := Recorded(c.fp, r.eff);
    FootMore(c.fp, Plus(eff, VisitLhs(env, lctx, eff, e.r, e.compound.Some?).value), r.eff, env.Keys);
    if RefLevel(e.r) > 0 {
      RecallAfterStore(p, k, e.rhs, sc.vis, rets, v, x.st, rd, sc.live, l);
      RecallMore(p, e.rhs, rets, v, d.st, rd, more);
    } else {
      RecallsInt(p, k, e, sc.vis, rets, d.out.v, d.st, more);
    }
    assert c.out.Val? && StoreOk(c.st, sc.live);
    assert Holds(r.env, c.st);
    assert TypedValue(c.out.v, Level(p, e), c.st);
    assert Recalls(p, e, r.rets, c.out.v, c.st, more);
  }

  lemma {:induction false} RecallMore(p: Program, e: Expr, rets: set<Target>, x: Value, st: Store, rd: set<Loc>,
                                      more: set<Loc>)
    requires Recalls(p, e, rets, x, st, rd) && rd <= more
    ensures Recalls(p, e, rets, x, st, more)
    decreases e
  {
    match e
    case Assign(_, _, rhs) => RecallMore(p, rhs, rets, x, st, rd, more);
    case Comma(_, b) => RecallMore(p, b, rets, x, st, rd, more);
    case _ =>
  }

  lemma {:induction false} ExprSound(p: Program, k: nat, e: Expr, env: Env, sc: Scope, ctx: Context, st: Store, n: nat,
                                     o: Order)
    requires Ready(p, k, env, sc) && WFExpr(p, k, e, sc.vis) && Before(st, env, sc)
    requires Visit(p, k, e, env, sc, ctx).Accept?
    ensures ExprOk(p, e, env.Keys, sc, Visit(p, k, e, env, sc, ctx), Eval(p, e, st, n, o))
    decreases n, e
  {
    match e
    case Const(_) =>
    case PtrConst(_, _) =>
    case AddrOf(_, _) => AddressSound(p, k, e, env, sc, ctx, st, n, o);
    case Load(_) => ReadSound(p, k, e, env, sc, ctx, st, n, o);
    case Assign(_, _, _) => AssignSound(p, k, e, env, sc, ctx, st, n, o);
    case Comma(_, _) => CommaSound(p, k, e, env, sc, ctx, st, n, o);
    case Short(_, _, _) => ShortSound(p, k, e, env, sc, ctx, st, n, o);
    case Op(_, _) => OperatorSound(p, k, e, env, sc, ctx, st, n, o);
    case Call(_, _) => CallExprSound(p, k, e, env, sc, ctx, st, n, o);
  }

  lemma AddressSound(p: Program, k: nat, e: Expr, env: Env, sc: Scope, ctx: Context, st: Store, n: nat, o: Order)
    requires e.AddrOf? && Ready(p, k, env, sc) && WFExpr(p, k, e, sc.vis) && Before(st, env, sc)
    ensures ExprOk(p, e, env.Keys, sc, Visit(p, k, e, env, sc, ctx), Eval(p, e, st, n, o))
  {
    StartOk(Ref(e.v, e.ix, 0), st, sc.live);
  }

  lemma ReadSound(p: Program, k: nat, e: Expr, env: Env, sc: Scope, ctx: Context, st: Store, n: nat, o: Order)
    requires e.Load? && Ready(p, k, env, sc) && WFExpr(p, k, e, sc.vis) && Before(st, env, sc)
    requires Visit(p, k, e, env, sc, ctx).Accept?
    ensures ExprOk(p, e, env.Keys, sc, Visit(p, k, e, env, sc, ctx), Eval(p, e, st, n, o))
  {
    hide VisitRead, Lvalue;
    LvalueFacts(e.r, st);
    VisitReadSeen(env, ctx, e.r);
    LoadSound(e.r, st, env, sc.live, ctx);
    var c, eff := EvalLoad(e.r, st), VisitRead(env, ctx, e.r).value;
    assert Recorded(c.fp, eff) == c.fp.rd;
  }

  /** Either side of an assignment may come first. */
  lemma {:induction false} AssignSound(p: Program, k: nat, e: Expr, env: Env, sc: Scope, ctx: Context, st: Store,
                                       n: nat, o: Order)
    requires e.Assign? && Ready(p, k, env, sc) && WFExpr(p, k, e, sc.vis) && Before(st, env, sc)
    requires Visit(p, k, e, env, sc, ctx).Accept?
    ensures ExprOk(p, e, env.Keys, sc, Visit(p, k, e, env, sc, ctx), Eval(p, e, st, n, o))
    decreases n, e, 0
  {
    hide Visit, Eval, StoreOk, Holds, FootOk, Recalls;
    AssignParts(p, k, e, env, sc, ctx);
    ExprSound(p, k, e.rhs, env, sc, ctx, st, n, Sub(o, 0));
    LhsEarly(p, k, e, env, sc, ctx, st);
    StoreTidy(st, sc.live);
    EvalFrame(p, e.rhs, st, n, Sub(o, 0));
    var r1, x := Visit(p, k, e.rhs, env, sc, ctx), Eval(p, e.rhs, st, n, Sub(o, 0));
    if x.Done? {
      BothRan(p, k, e, env, sc, ctx, st, n, o, r1, x);
    } else {
      RhsTimeout(p, k, e, env, sc, ctx, r1, x, LeftSide(e.r, e.compound, st));
      AssignTimeout(p, e, env.Keys, sc, Visit(p, k, e, env, sc, ctx), st, n, o);
    }
  }

  lemma AssignTimeout(p: Program, e: Expr, keys: set<Variable>, sc: Scope, r: Verdict, st: Store, n: nat, o: Order)
    requires e.Assign? && r.Accept? && Eval(p, e.rhs, st, n, Sub(o, 0)).Timeout?
    requires LeftSide(e.r, e.compound, st).Lval? && LeftSide(e.r, e.compound, st).l in st
    requires var x := Eval(p, e.rhs, st, n, Sub(o, 0));
             FootOk(x.fp, r.eff, keys) && FootOk(Join(LeftSide(e.r, e.compound, st).fp, x.fp), r.eff, keys)
    ensures ExprOk(p, e, keys, sc, r, Eval(p, e, st, n, o))
  {
    hide LeftSide, FootOk;
  }

  lemma BothRan(p: Program, k: nat, e: Expr, env: Env, sc: Scope, ctx: Context, st: Store, n: nat, o: Order,
                r1: Verdict, x: Result)
    requires e.Assign? && Ready(p, k, env, sc) && WFExpr(p, k, e, sc.vis)
    requires r1 == Visit(p, k, e.rhs, env, sc, ctx) && r1.Accept? && Visit(p, k, e, env, sc, ctx).Accept?
    requires x == Eval(p, e.rhs, st, n, Sub(o, 0)) && x.Done? && FramedStore(st, x.st, x.fp)
    requires ExprOk(p, e.rhs, env.Keys, sc, r1, x)
    ensures ExprOk(p, e, env.Keys, sc, Visit(p, k, e, env, sc, ctx), Eval(p, e, st, n, o))
  {
    hide VisitStore, Store1, StoreTo, LeftSide, StoreOk, Holds, FootOk, Recalls, FramedStore;
    AssignWays(p, e, st, n, o);
    StoreOfRhs(p, k, e, r1.env, sc, ctx, r1.eff, r1.rets, x);
    LhsThenRhs(p, k, e, env, sc, ctx, st, r1, x);
  }

  /** The right side has not ended. */
  lemma RhsTimeout(p: Program, k: nat, e: Expr, env: Env, sc: Scope, ctx: Context, r1: Verdict, x: Result,
                   s: LvalResult)
    requires e.Assign? && Ready(p, k, env, sc) && WFExpr(p, k, e, sc.vis)
    requires r1 == Visit(p, k, e.rhs, env, sc, ctx) && r1.Accept? && Visit(p, k, e, env, sc, ctx).Accept?
    requires x.Timeout? && FootOk(x.fp, r1.eff, env.Keys) && s.Lval?
    requires var lhs := VisitLhs(r1.env, LhsContext(ctx, r1.eff, e.compound.Some?), r1.eff, e.r, e.compound.Some?);
             lhs.Some? && FootOk(s.fp, lhs.value, env.Keys)
    ensures FootOk(x.fp, Visit(p, k, e, env, sc, ctx).eff, env.Keys)
    ensures FootOk(Join(s.fp, x.fp), Visit(p, k, e, env, sc, ctx).eff, env.Keys)
  {
    hide VisitLhs, AssignFacts, RhsPointees, FootOk;
    VisitLhsSeen(r1.env, LhsContext(ctx, r1.eff, e.compound.Some?), r1.eff, e.r, e.compound.Some?);
    var lhs := VisitLhs(r1.env, LhsContext(ctx, r1.eff, e.compound.Some?), r1.eff, e.r, e.compound.Some?).value;
    var both := BothSides(r1.eff, lhs);
    assert Visit(p, k, e, env, sc, ctx).eff == both;
    FootMore(x.fp, r1.eff, both, env.Keys);
    FootMore(s.fp, lhs, both, env.Keys);
    FootSum(s.fp, x.fp, both, env.Keys);
  }

  lemma FootSum(f: Foot, g: Foot, eff: Effect, keys: set<Variable>)
    requires FootOk(f, eff, keys) && FootOk(g, eff, keys)
    ensures FootOk(Join(f, g), eff, keys)
  {
  }

  /** When both sides have run, it does not matter which came first. */
  lemma LhsThenRhs(p: Program, k: nat, e: Expr, env: Env, sc: Scope, ctx: Context, st: Store, r1: Verdict, x: Result)
    requires e.Assign? && Ready(p, k, env, sc) && WFExpr(p, k, e, sc.vis)
    requires r1 == Visit(p, k, e.rhs, env, sc, ctx) && r1.Accept? && Visit(p, k, e, env, sc, ctx).Accept?
    requires x.Done? && FramedStore(st, x.st, x.fp) && ExprOk(p, e.rhs, env.Keys, sc, r1, x)
    requires ExprOk(p, e, env.Keys, sc, Visit(p, k, e, env, sc, ctx),
                    After(x.fp, Store1(p, e.r, e.compound, x.out.v, x.st)))
    ensures var s := LeftSide(e.r, e.compound, st);
            && s.Lval? && s.l in st
            && ExprOk(p, e, env.Keys, sc, Visit(p, k, e, env, sc, ctx),
                      StoreTo(p, s.l, s.fp, e.compound, st[s.l], x))
  {
    AssignParts(p, k, e, env, sc, ctx);
    hide *;
    AssignTargets(p, k, e, env, sc, r1);
    RanOk(p, e.rhs, env.Keys, sc, r1, x);
    SameSide(e.r, e.compound, st, x.st, r1.env, sc, ctx, r1.eff, x.fp, env.Keys);
    var s := LeftSide(e.r, e.compound, st);
    var d, c := After(x.fp, Store1(p, e.r, e.compound, x.out.v, x.st)), StoreTo(p, s.l, s.fp, e.compound, st[s.l], x);
    EitherFirst(p, e.r, e.compound, s.l, s.fp, st[s.l], x);
    SameCells(p, e, env.Keys, sc, Visit(p, k, e, env, sc, ctx), d, c);
  }

  lemma AssignTargets(p: Program, k: nat, e: Expr, env: Env, sc: Scope, r1: Verdict)
    requires e.Assign? && Ready(p, k, env, sc) && WFExpr(p, k, e, sc.vis)
    requires r1.Accept? && EnvWF(r1.env, sc.live) && r1.env.Keys == env.Keys
    ensures WFRef(e.r, sc.vis) && sc.vis <= sc.live && (e.r.v.level > 0 ==> e.r.v in r1.env)
  {
  }

  lemma RanOk(p: Program, e: Expr, keys: set<Variable>, sc: Scope, r: Verdict, x: Result)
    requires r.Accept? && ExprOk(p, e, keys, sc, r, x) && x.Done?
    ensures x.out.Val? && StoreOk(x.st, sc.live) && Holds(r.env, x.st) && FootOk(x.fp, r.eff, keys)
  {
  }

  lemma EitherFirst(p: Program, r: Ref, compound: Option<nat>, l: Loc, fp: Foot, was: Value, x: Result)
    requires x.Done? && x.out.Val? && LeftSide(r, compound, x.st) == Lval(l, fp) && l in x.st
    requires compound.Some? ==> was == x.st[l]
    ensures var d, c := After(x.fp, Store1(p, r, compound, x.out.v, x.st)), StoreTo(p, l, fp, compound, was, x);
            && d.Done? && c.Done? && c.out == d.out && c.st == d.st
            && c.fp.rd == d.fp.rd && c.fp.wr == d.fp.wr && (c.fp.trace != [] ==> d.fp.trace != [])
  {
    hide LeftSide;
  }

  lemma SameCells(p: Program, e: Expr, keys: set<Variable>, sc: Scope, r: Verdict, d: Result, c: Result)
    requires r.Accept? && ExprOk(p, e, keys, sc, r, d) && d.Done? && c.Done? && c.out == d.out && c.st == d.st
    requires c.fp.rd == d.fp.rd && c.fp.wr == d.fp.wr && (c.fp.trace != [] ==> d.fp.trace != [])
    ensures ExprOk(p, e, keys, sc, r, c)
  {
    hide Recalls;
    assert Recorded(c.fp, r.eff) == Recorded(d.fp, r.eff);
  }

  lemma {:induction false} OperatorSound(p: Program, k: nat, e: Expr, env: Env, sc: Scope, ctx: Context, st: Store,
                                         n: nat, o: Order)
    requires e.Op? && Ready(p, k, env, sc) && WFExpr(p, k, e, sc.vis) && Before(st, env, sc)
    requires Visit(p, k, e, env, sc, ctx).Accept?
    ensures ExprOk(p, e, env.Keys, sc, Visit(p, k, e, env, sc, ctx), Eval(p, e, st, n, o))
    decreases n, e, |Args(e)| + 2
  {
    hide VisitArgs, EvalOps, Perm;
    OpsSound(p, k, e, env, sc, ctx, st, n, o);
  }

  lemma {:induction false} CommaSound(p: Program, k: nat, e: Expr, env: Env, sc: Scope, ctx: Context, st: Store, n: nat,
                                      o: Order)
    requires e.Comma? && Ready(p, k, env, sc) && WFExpr(p, k, e, sc.vis) && Before(st, env, sc)
    requires Visit(p, k, e, env, sc, ctx).Accept?
    ensures ExprOk(p, e, env.Keys, sc, Visit(p, k, e, env, sc, ctx), Eval(p, e, st, n, o))
    decreases n, e, 0
  {
    ExprSound(p, k, e.a, env, sc, ctx, st, n, Sub(o, 0));
    var r1, x := Visit(p, k, e.a, env, sc, ctx), Eval(p, e.a, st, n, Sub(o, 0));
    var r2 := Visit(p, k, e.b, r1.env, sc, ctx);
    if x.Done? {
      ExprSound(p, k, e.b, r1.env, sc, ctx, x.st, n, Sub(o, 1));
      var y := Eval(p, e.b, x.st, n, Sub(o, 1));
      FootJoin(x.fp, r1.eff, y.fp, r2.eff, env.Keys);
      if y.Done? {
        var both := Plus(r1.eff, r2.eff);
        RecallMore(p, e.b, r2.rets, y.out.v, y.st, Recorded(y.fp, r2.eff), Recorded(Join(x.fp, y.fp), both));
      }
    } else {
      FootMore(x.fp, r1.eff, Plus(r1.eff, r2.eff), env.Keys);
    }
  }

  lemma {:induction false} ShortSound(p: Program, k: nat, e: Expr, env: Env, sc: Scope, ctx: Context, st: Store, n: nat,
                                      o: Order)
    requires e.Short? && Ready(p, k, env, sc) && WFExpr(p, k, e, sc.vis) && Before(st, env, sc)
    requires Visit(p, k, e, env, sc, ctx).Accept?
    ensures ExprOk(p, e, env.Keys, sc, Visit(p, k, e, env, sc, ctx), Eval(p, e, st, n, o))
    decreases n, e, 0
  {
    hide Merge, FootOk, Recalls, Before, TypedValue;
    ExprSound(p, k, e.a, env, sc, ctx, st, n, Sub(o, 0));
    var r1, x := Visit(p, k, e.a, env, sc, ctx), Eval(p, e.a, st, n, Sub(o, 0));
    var r2 := Visit(p, k, e.b, r1.env, sc, ctx);
    FootMore(x.fp, r1.eff, Plus(r1.eff, r2.eff), env.Keys);
    if x.Done? {
      if Truthy(x.out.v) == e.isAnd {
        ExprSound(p, k, e.b, r1.env, sc, ctx, x.st, n, Sub(o, 1));
        EitherWay(p, e, env.Keys, sc, r1, r2, x, Eval(p, e.b, x.st, n, Sub(o, 1)));
      } else {
        NoFootOk(r2.eff, env.Keys);
        EitherWay(p, e, env.Keys, sc, r1, r2, x, Timeout(NO_FOOT));
      }
    }
  }

  lemma NoFootOk(eff: Effect, keys: set<Variable>)
    ensures FootOk(NO_FOOT, eff, keys)
  {
  }

  /** The second operand may or may not have run. */
  lemma EitherWay(p: Program, e: Expr, keys: set<Variable>, sc: Scope, r1: Verdict, r2: Verdict, x: Result, y: Result)
    requires e.Short? && r1.Accept? && r2.Accept? && EnvWF(r1.env, sc.live) && EnvWF(r2.env, sc.live)
    requires r1.env.Keys == r2.env.Keys
    requires x.Done? && ExprOk(p, e.a, keys, sc, r1, x) && ExprOk(p, e.b, keys, sc, r2, y)
    ensures var r := Accept(Merge(r2.env, r1.env), Plus(r1.eff, r2.eff), {});
            && ExprOk(p, e, keys, sc, r, x.(out := Val(Int(if e.isAnd then 0 else 1))))
            && FootOk(Join(x.fp, y.fp), r.eff, keys)
            && (y.Done? ==>
                  ExprOk(p, e, keys, sc, r,
                         Done(Val(Int(if Truthy(y.out.v) then 1 else 0)), y.st, Join(x.fp, y.fp))))
  {
    MergeWF(r2.env, r1.env, sc.live);
    HoldsBelow(r1.env, Merge(r2.env, r1.env), x.st);
    FootMore(x.fp, r1.eff, Plus(r1.eff, r2.eff), keys);
    FootJoin(x.fp, r1.eff, y.fp, r2.eff, keys);
    if y.Done? {
      HoldsBelow(r2.env, Merge(r2.env, r1.env), y.st);
    }
  }

  // --- operands

  ghost predicate OpsOk(p: Program, e: Expr, keys: set<Variable>, sc: Scope, r: ArgsVerdict, c: OpsResult)
    requires r.ArgsAccept? && |r.rets| == |Args(e)|
  {
    && c != OpsStuck && FootOk(c.fp, r.eff, keys)
    && (c.OpsDone? ==>
          && Before(c.st, r.env, sc)
          && forall j :: 0 <= j < |Args(e)| ==>
               && j in c.vals && TypedValue(c.vals[j], Level(p, Args(e)[j]), c.st)
               && Recalls(p, Args(e)[j], r.rets[j], c.vals[j], c.st, Recorded(c.fp, r.eff)))
  }

  /** Operands in any order.  A value stays where it was read, because no other operand may write there. */
  lemma {:induction false} OpsSound(p: Program, k: nat, e: Expr, env: Env, sc: Scope, ctx: Context, st: Store, n: nat,
                                    o: Order)
    requires Ready(p, k, env, sc) && Before(st, env, sc)
    requires forall j :: 0 <= j < |Args(e)| ==> WFExpr(p, k, Args(e)[j], sc.vis)
    requires VisitArgs(p, k, e, Args(e), env, sc, ctx).ArgsAccept?
    ensures OpsOk(p, e, env.Keys, sc, VisitArgs(p, k, e, Args(e), env, sc, ctx),
                  EvalOps(p, e, Perm(o, |Args(e)|), st, n, o))
    decreases n, e, |Args(e)| + 1
  {
    hide *;
    ReadyFacts(p, k, env, sc);
    ArgsSmaller(e);
    var ord, r := Perm(o, |Args(e)|), VisitArgs(p, k, e, Args(e), env, sc, ctx);
    BeforeFull(st, env, sc);
    var vs := Unroll(p, k, e, Args(e), env, sc, ctx);
    TrailAccepted(p, k, Args(e), env, sc, ctx, vs);
    TrailFull(p, k, Args(e), env, sc, ctx, vs, |vs|);
    NoneDone(env, vs);
    PermIndices(ord, |Args(e)|);
    SomeSound(p, k, e, env, sc, ctx, vs, {}, ord, st, n, o);
    AllDone(p, k, Args(e), env, sc, ctx, vs, {} + Indices(ord));
    InTheEnd(p, e, env.Keys, sc, vs, r, ord, Now(env, vs, {} + Indices(ord)), EvalOps(p, e, ord, st, n, o));
  }

  lemma ReadyFacts(p: Program, k: nat, env: Env, sc: Scope)
    requires Ready(p, k, env, sc)
    ensures EnvWF(env, sc.live) && sc.vis <= sc.live
  {
  }

  /** The effects of some operands together. */
  function EffectOf(vs: seq<Verdict>, ord: seq<nat>): Effect
    requires NoReject(vs) && forall i :: 0 <= i < |ord| ==> ord[i] < |vs|
  {
    if ord == [] then NO_EFFECT else Plus(vs[ord[0]].eff, EffectOf(vs, ord[1..]))
  }

  lemma {:induction false} EffectIsPart(vs: seq<Verdict>, ord: seq<nat>, eff: Effect)
    requires NoReject(vs) && forall i :: 0 <= i < |ord| ==> ord[i] < |vs|
    requires forall i :: 0 <= i < |vs| ==> Part(vs[i].eff, eff)
    ensures Part(EffectOf(vs, ord), eff)
    decreases |ord|
  {
    if ord != [] { EffectIsPart(vs, ord[1..], eff); }
  }

  lemma {:induction false} SeparateAll(vs: seq<Verdict>, i: nat, ord: seq<nat>)
    requires NoReject(vs) && Pairwise(vs) && i < |vs| && i !in ord && forall j :: 0 <= j < |ord| ==> ord[j] < |vs|
    ensures Separate(vs[i].eff, EffectOf(vs, ord))
    decreases |ord|
  {
    if ord != [] {
      assert Separate(vs[i].eff, vs[ord[0]].eff);
      SeparateAll(vs, i, ord[1..]);
    }
  }

  /** What is known when the operands in `ord` have run, in this order. */
  ghost predicate SomeOk(p: Program, e: Expr, keys: set<Variable>, sc: Scope, vs: seq<Verdict>, ord: seq<nat>,
                         after: Env, c: OpsResult)
    requires NoReject(vs) && |vs| == |Args(e)| && forall i :: 0 <= i < |ord| ==> ord[i] < |vs|
  {
    && c != OpsStuck && FootOk(c.fp, EffectOf(vs, ord), keys)
    && (c.OpsDone? ==>
          && Before(c.st, after, sc)
          && forall j :: 0 <= j < |Args(e)| && j in ord ==>
               && j in c.vals && TypedValue(c.vals[j], Level(p, Args(e)[j]), c.st)
               && Recalls(p, Args(e)[j], vs[j].rets, c.vals[j], c.st, Recorded(c.fp, EffectOf(vs, ord))))
  }

  lemma InTheEnd(p: Program, e: Expr, keys: set<Variable>, sc: Scope, vs: seq<Verdict>, r: ArgsVerdict, ord: seq<nat>,
                 after: Env, c: OpsResult)
    requires NoReject(vs) && |vs| == |Args(e)| && forall i :: 0 <= i < |ord| ==> ord[i] < |vs|
    requires forall i :: 0 <= i < |Args(e)| ==> i in Indices(ord)
    requires SomeOk(p, e, keys, sc, vs, ord, after, c) && r.ArgsAccept? && r.env == after && Sums(vs, r.eff, r.rets)
    ensures |r.rets| == |Args(e)| && OpsOk(p, e, keys, sc, r, c)
  {
    hide Recalls, Before, TypedValue, NoClash;
    EffectIsPart(vs, ord, r.eff);
    FootMore(c.fp, EffectOf(vs, ord), r.eff, keys);
    if c.OpsDone? {
      forall j | 0 <= j < |Args(e)|
        ensures j in ord && Recalls(p, Args(e)[j], r.rets[j], c.vals[j], c.st, Recorded(c.fp, r.eff))
      {
        assert j in Indices(ord);
        RecallMore(p, Args(e)[j], vs[j].rets, c.vals[j], c.st, Recorded(c.fp, EffectOf(vs, ord)),
                   Recorded(c.fp, r.eff));
      }
    }
  }

  lemma {:induction false} SomeSound(p: Program, k: nat, e: Expr, env: Env, sc: Scope, ctx: Context, vs: seq<Verdict>,
                                     done: set<nat>, ord: seq<nat>, st: Store, n: nat, o: Order)
    requires Trail(p, k, Args(e), env, sc, ctx, vs) && EnvAt(env, vs, |vs|).Keys == env.Keys
    requires Distinctly(ord, |vs|) && Indices(ord) !! done && Before(st, Now(env, vs, done), sc)
    ensures SomeOk(p, e, env.Keys, sc, vs, ord, Now(env, vs, done + Indices(ord)), EvalOps(p, e, ord, st, n, o))
    decreases n, e, |ord|
  {
    hide *;
    TrailAccepted(p, k, Args(e), env, sc, ctx, vs);
    if ord == [] {
      NoneLeft(p, e, env, sc, vs, done, ord, st, n, o);
    } else {
      NextOne(p, e, vs, done, ord, st, n, o);
      var i, x := ord[0], Eval(p, Args(e)[ord[0]], st, n, Sub(o, ord[0]));
      OneSound(p, k, e, env, sc, ctx, vs, done, i, st, n, Sub(o, i));
      var y := EvalOps(p, e, ord[1..], if x.Done? then x.st else st, n, o);
      if x.Done? {
        OneDone(p, e, env.Keys, sc, vs, i, Now(env, vs, done + {i}), st, x);
        SomeSound(p, k, e, env, sc, ctx, vs, done + {i}, ord[1..], x.st, n, o);
        TrailPairwise(p, k, Args(e), env, sc, ctx, vs);
        SeparateAll(vs, i, ord[1..]);
      }
      OneThenSome(p, e, env.Keys, sc, vs, i, ord, Now(env, vs, done + {i}), Now(env, vs, done + Indices(ord)), st, x, y,
                  n, o);
    }
  }

  lemma NoneLeft(p: Program, e: Expr, env: Env, sc: Scope, vs: seq<Verdict>, done: set<nat>, ord: seq<nat>, st: Store,
                 n: nat, o: Order)
    requires NoReject(vs) && EnvAt(env, vs, |vs|).Keys == env.Keys && |vs| == |Args(e)|
    requires ord == [] && Before(st, Now(env, vs, done), sc)
    ensures SomeOk(p, e, env.Keys, sc, vs, ord, Now(env, vs, done + Indices(ord)), EvalOps(p, e, ord, st, n, o))
  {
    assert done + Indices(ord) == done;
  }

  /** One operand, then the others. */
  lemma NextOne(p: Program, e: Expr, vs: seq<Verdict>, done: set<nat>, ord: seq<nat>, st: Store, n: nat, o: Order)
    requires ord != [] && |vs| == |Args(e)| && Distinctly(ord, |vs|) && Indices(ord) !! done
    ensures ord[0] < |vs| && Distinctly(ord[1..], |vs|) && Indices(ord[1..]) !! done + {ord[0]} && ord[0] !in ord[1..]
    ensures ord[0] !in done && done + {ord[0]} + Indices(ord[1..]) == done + Indices(ord)
    ensures forall j :: 0 <= j < |ord[1..]| ==> ord[1..][j] < |vs|
  {
    assert Indices(ord) == {ord[0]} + Indices(ord[1..]);
  }

  /** What is known when one operand has run. */
  ghost predicate OneOk(p: Program, e: Expr, keys: set<Variable>, sc: Scope, vs: seq<Verdict>, i: nat, after: Env,
                        st: Store, x: Result)
    requires NoReject(vs) && |vs| == |Args(e)| && i < |vs|
  {
    && x != Stuck && FootOk(x.fp, vs[i].eff, keys)
    && (x.Done? ==>
          && x.out.Val? && Before(x.st, after, sc) && FramedStore(st, x.st, x.fp)
          && TypedValue(x.out.v, Level(p, Args(e)[i]), x.st)
          && Recalls(p, Args(e)[i], vs[i].rets, x.out.v, x.st, Recorded(x.fp, vs[i].eff)))
  }

  lemma OneDone(p: Program, e: Expr, keys: set<Variable>, sc: Scope, vs: seq<Verdict>, i: nat, after: Env, st: Store,
                x: Result)
    requires NoReject(vs) && |vs| == |Args(e)| && i < |vs| && OneOk(p, e, keys, sc, vs, i, after, st, x) && x.Done?
    ensures Before(x.st, after, sc) && x.out.Val?
  {
  }

  /** No other operand disturbs what this one has found. */
  lemma OneThenSome(p: Program, e: Expr, keys: set<Variable>, sc: Scope, vs: seq<Verdict>, i: nat, ord: seq<nat>,
                    mid: Env, after: Env, st: Store, x: Result, y: OpsResult, n: nat, o: Order)
    requires NoReject(vs) && |vs| == |Args(e)| && Distinctly(ord, |vs|) && ord != [] && i == ord[0] && i !in ord[1..]
    requires x == Eval(p, Args(e)[i], st, n, Sub(o, i)) && OneOk(p, e, keys, sc, vs, i, mid, st, x)
    requires x.Done? ==> y == EvalOps(p, e, ord[1..], x.st, n, o) && SomeOk(p, e, keys, sc, vs, ord[1..], after, y)
                         && Separate(vs[i].eff, EffectOf(vs, ord[1..]))
    ensures SomeOk(p, e, keys, sc, vs, ord, after, EvalOps(p, e, ord, st, n, o))
  {
    hide Eval, Level, Holds, Recalls, TypedValue, StoreOk;
    var a, b := vs[i].eff, EffectOf(vs, ord[1..]);
    if x.Done? {
      FootBoth(x.fp, a, y, b, keys);
      if y.OpsDone? {
        StoreTidy(x.st, sc.live);
        EvalOpsFrame(p, e, ord[1..], x.st, n, o);
        ValuesStay(p, e, keys, vs, i, ord, x, y);
      }
    } else {
      FootMore(x.fp, a, Plus(a, b), keys);
    }
  }

  lemma FootBoth(f: Foot, a: Effect, y: OpsResult, b: Effect, keys: set<Variable>)
    requires y != OpsStuck && FootOk(f, a, keys) && FootOk(y.fp, b, keys)
    ensures FootOk(Join(f, y.fp), Plus(a, b), keys)
  {
  }

  lemma ValuesStay(p: Program, e: Expr, keys: set<Variable>, vs: seq<Verdict>, i: nat, ord: seq<nat>, x: Result,
                   y: OpsResult)
    requires NoReject(vs) && |vs| == |Args(e)| && Distinctly(ord, |vs|) && ord != [] && i == ord[0] && i !in ord[1..]
    requires x.Done? && x.out.Val? && y.OpsDone? && FramedStore(x.st, y.st, y.fp)
    requires Separate(vs[i].eff, EffectOf(vs, ord[1..])) && FootOk(y.fp, EffectOf(vs, ord[1..]), keys)
    requires TypedValue(x.out.v, Level(p, Args(e)[i]), x.st)
    requires Recalls(p, Args(e)[i], vs[i].rets, x.out.v, x.st, Recorded(x.fp, vs[i].eff))
    requires forall j :: 0 <= j < |Args(e)| && j in ord[1..] ==>
               j in y.vals && TypedValue(y.vals[j], Level(p, Args(e)[j]), y.st) &&
               Recalls(p, Args(e)[j], vs[j].rets, y.vals[j], y.st, Recorded(y.fp, EffectOf(vs, ord[1..])))
    ensures var vals, rd := y.vals[i := x.out.v], Recorded(Join(x.fp, y.fp), EffectOf(vs, ord));
            forall j :: 0 <= j < |Args(e)| && j in ord ==>
              && j in vals && TypedValue(vals[j], Level(p, Args(e)[j]), y.st)
              && Recalls(p, Args(e)[j], vs[j].rets, vals[j], y.st, rd)
  {
    hide Recalls, Level, FootOk;
    var vals, rd := y.vals[i := x.out.v], Recorded(Join(x.fp, y.fp), EffectOf(vs, ord));
    var mine, others := Recorded(x.fp, vs[i].eff), Recorded(y.fp, EffectOf(vs, ord[1..]));
    TypedStays(x.out.v, Level(p, Args(e)[i]), x.st, y.st);
    ReadsStay(keys, vs[i].eff, EffectOf(vs, ord[1..]), x.st, x.fp, y.st, y.fp);
    RecallStable(p, Args(e)[i], vs[i].rets, x.out.v, x.st, y.st, mine);
    RecallMore(p, Args(e)[i], vs[i].rets, x.out.v, y.st, mine, rd);
    forall j | 0 <= j < |Args(e)| && j in ord && j != i
      ensures j in ord[1..] && Recalls(p, Args(e)[j], vs[j].rets, vals[j], y.st, rd)
    {
      assert ord == [i] + ord[1..];
      RecallMore(p, Args(e)[j], vs[j].rets, y.vals[j], y.st, others, rd);
    }
  }

  /** What one operand has read, no other one writes. */
  lemma ReadsStay(keys: set<Variable>, eff: Effect, later: Effect, st: Store, fp: Foot, st': Store, fp': Foot)
    requires FootOk(fp', later, keys) && FramedStore(st, st', fp') && Separate(eff, later)
    ensures forall l :: l in Recorded(fp, eff) && l in st ==> st'[l] == st[l]
  {
    forall l | l in Recorded(fp, eff) && l in st
      ensures st'[l] == st[l]
    {
      assert l !in fp'.wr;
    }
  }

  lemma TypedStays(x: Value, level: nat, st: Store, st': Store)
    requires TypedValue(x, level, st) && st.Keys == st'.Keys
    ensures TypedValue(x, level, st')
  {
  }

  /** A store in which an operand does what it does in the actual one, whatever others have run before it: one that the
    * facts it was checked with describe. */
  lemma OperandStandIn(p: Program, k: nat, e: Expr, env: Env, sc: Scope, ctx: Context, vs: seq<Verdict>,
                       done: set<nat>, i: nat, st: Store) returns (mine: Env, z: Store)
    requires Trail(p, k, Args(e), env, sc, ctx, vs) && EnvAt(env, vs, |vs|).Keys == env.Keys
    requires i < |vs| && i !in done && Before(st, Now(env, vs, done), sc)
    ensures NoReject(vs) && |vs| == |Args(e)| && mine == EnvAt(env, vs, i) && mine.Keys == env.Keys == vs[i].env.Keys
    ensures Ready(p, k, mine, sc) && WFExpr(p, k, Args(e)[i], sc.vis) && vs[i].Accept?
    ensures vs[i] == Visit(p, k, Args(e)[i], mine, sc, CtxAt(ctx, vs, i))
    ensures Before(z, mine, sc) && Tidy(z) && Tidy(st) && Matches(st, z, vs[i].eff, env.Keys)
    ensures forall v :: v in env ==> v.level > 0
    ensures forall v :: v in env && v in vs[i].eff.rds + vs[i].eff.wrs ==> vs[i].env[v] == EnvAt(env, vs, |vs|)[v]
  {
    hide *;
    TrailAccepted(p, k, Args(e), env, sc, ctx, vs);
    TrailFull(p, k, Args(e), env, sc, ctx, vs, i);
    TrailStep(p, k, Args(e), env, sc, ctx, vs, i);
    var now := Now(env, vs, done);
    mine := EnvAt(env, vs, i);
    ReadyFacts(p, k, mine, sc);
    BeforeTyped(st, now, sc);
    StandInOk(st, mine, sc);
    z := StandIn(st, mine);
    BeforeTyped(z, mine, sc);
    StoreTidy(st, sc.live);
    StoreTidy(z, sc.live);
    NowKeys(env, vs, done);
    forall v | v in env && v in vs[i].eff.rds + vs[i].eff.wrs
      ensures mine[v] == now[v] && vs[i].env[v] == EnvAt(env, vs, |vs|)[v]
    {
      OwnFacts(p, k, Args(e), env, sc, ctx, vs, done, i, v);
    }
    MatchingCells(env, now, mine, st, z, vs[i].eff, sc);
    PointersOnly(mine, sc.live);
  }

  lemma PointersOnly(env: Env, live: set<Variable>)
    requires EnvWF(env, live)
    ensures forall v :: v in env ==> v.level > 0
  {
  }

  lemma {:induction false} OneSound(p: Program, k: nat, e: Expr, env: Env, sc: Scope, ctx: Context, vs: seq<Verdict>,
                                    done: set<nat>, i: nat, st: Store, n: nat, o: Order)
    requires Trail(p, k, Args(e), env, sc, ctx, vs) && EnvAt(env, vs, |vs|).Keys == env.Keys
    requires i < |vs| && i !in done && Before(st, Now(env, vs, done), sc)
    ensures OneOk(p, e, env.Keys, sc, vs, i, Now(env, vs, done + {i}), st, Eval(p, Args(e)[i], st, n, o))
    decreases n, e, 0
  {
    hide *;
    var mine, z := OperandStandIn(p, k, e, env, sc, ctx, vs, done, i, st);
    var a := Args(e)[i];
    ArgsSmaller(e);
    ExprSound(p, k, a, mine, sc, CtxAt(ctx, vs, i), z, n, o);
    var x, y := Eval(p, a, z, n, o), Eval(p, a, st, n, o);
    SameReads(p, a, env.Keys, sc, vs[i], st, z, vs[i].eff, x);
    EvalLocal(p, a, z, st, n, o);
    EvalFrame(p, a, st, n, o);
    EvalFrame(p, a, z, n, o);
    OneTransfer(p, e, env, sc, vs, done, i, mine, st, z, x, y);
  }

  lemma ArgsSmaller(e: Expr)
    ensures forall i :: 0 <= i < |Args(e)| ==> Args(e)[i] < e
  {
  }

  lemma BeforeTyped(st: Store, env: Env, sc: Scope)
    requires Before(st, env, sc)
    ensures StoreOk(st, sc.live) && Holds(env, st)
  {
  }

  lemma NowKeys(env: Env, vs: seq<Verdict>, done: set<nat>)
    requires NoReject(vs) && EnvAt(env, vs, |vs|).Keys == env.Keys
    ensures Now(env, vs, done).Keys == env.Keys
  {
  }

  /** The cells of variables that an effect names, and all cells that hold no pointer, are alike in both stores. */
  ghost predicate Matches(st: Store, z: Store, eff: Effect, keys: set<Variable>) {
    && st.Keys == z.Keys
    && forall l :: l in st && (l.v in eff.rds + eff.wrs || l.v !in keys) ==> z[l] == st[l]
  }

  lemma MatchingCells(env: Env, now: Env, mine: Env, st: Store, z: Store, eff: Effect, sc: Scope)
    requires now.Keys == env.Keys == mine.Keys && Full(mine) && z == StandIn(st, mine) && z.Keys == st.Keys
    requires Holds(now, st) && forall v :: v in env && v in eff.rds + eff.wrs ==> mine[v] == now[v]
    ensures Matches(st, z, eff, env.Keys)
  {
  }

  lemma SameReads(p: Program, e: Expr, keys: set<Variable>, sc: Scope, r: Verdict, st: Store, z: Store, eff: Effect,
                  x: Result)
    requires r.Accept? && eff == r.eff && ExprOk(p, e, keys, sc, r, x) && Matches(st, z, eff, keys)
    requires forall v :: v in keys ==> v.level > 0
    ensures !x.Stuck? && Agree(z, st, x.fp.rd)
  {
  }

  lemma OneTransfer(p: Program, e: Expr, env: Env, sc: Scope, vs: seq<Verdict>, done: set<nat>, i: nat, mine: Env,
                    st: Store, z: Store, x: Result, y: Result)
    requires NoReject(vs) && |vs| == |Args(e)| && i < |vs| && EnvAt(env, vs, |vs|).Keys == env.Keys
    requires Before(st, Now(env, vs, done), sc) && Matches(st, z, vs[i].eff, env.Keys)
    requires ExprOk(p, Args(e)[i], env.Keys, sc, vs[i], x) && Same(x, y) && Framed(st, y) && Framed(z, x)
    requires vs[i].env.Keys == env.Keys
    requires forall v :: v in env && v in vs[i].eff.rds + vs[i].eff.wrs ==> vs[i].env[v] == EnvAt(env, vs, |vs|)[v]
    ensures OneOk(p, e, env.Keys, sc, vs, i, Now(env, vs, done + {i}), st, y)
  {
    hide Level, Recalls;
    if x.Done? {
      TransferTyped(env, sc, vs[i].eff, st, z, x, y);
      TransferHolds(env, vs, done, i, st, z, x, y);
      TypedStays(x.out.v, Level(p, Args(e)[i]), x.st, y.st);
      RecallStable(p, Args(e)[i], vs[i].rets, x.out.v, x.st, y.st, Recorded(x.fp, vs[i].eff));
    }
  }

  lemma TransferTyped(env: Env, sc: Scope, eff: Effect, st: Store, z: Store, x: Result, y: Result)
    requires StoreOk(st, sc.live) && Matches(st, z, eff, env.Keys) && x.Done? && y.Done? && Same(x, y)
    requires FramedStore(st, y.st, y.fp) && FramedStore(z, x.st, x.fp) && StoreOk(x.st, sc.live)
    requires FootOk(x.fp, eff, env.Keys)
    ensures StoreOk(y.st, sc.live) && x.st.Keys == y.st.Keys
    ensures forall l :: l in Recorded(x.fp, eff) && l in x.st ==> y.st[l] == x.st[l]
  {
    forall l | l in y.st
      ensures TypedValue(y.st[l], l.v.level, y.st)
    {
      if l in x.fp.wr {
        assert TypedValue(x.st[l], l.v.level, x.st);
      } else {
        assert TypedValue(st[l], l.v.level, st);
      }
    }
  }

  lemma TransferHolds(env: Env, vs: seq<Verdict>, done: set<nat>, i: nat, st: Store, z: Store, x: Result, y: Result)
    requires NoReject(vs) && i < |vs| && EnvAt(env, vs, |vs|).Keys == env.Keys == vs[i].env.Keys
    requires Holds(Now(env, vs, done), st) && Matches(st, z, vs[i].eff, env.Keys)
    requires x.Done? && y.Done? && Same(x, y) && FramedStore(st, y.st, y.fp) && FramedStore(z, x.st, x.fp)
    requires FootOk(x.fp, vs[i].eff, env.Keys) && Holds(vs[i].env, x.st)
    requires forall v :: v in env && v in vs[i].eff.rds + vs[i].eff.wrs ==> vs[i].env[v] == EnvAt(env, vs, |vs|)[v]
    ensures Holds(Now(env, vs, done + {i}), y.st)
  {
    hide EnvAt, Tidy;
    var now := Now(env, vs, done + {i});
    forall l | l in y.st && l.v in now
      ensures Covers(now[l.v], y.st[l])
    {
      if l.v in vs[i].eff.wrs {
        assert WrittenBy(vs, done + {i}, l.v);
        assert Covers(vs[i].env[l.v], x.st[l]);
        assert y.st[l] == x.st[l];
      } else {
        assert Covers(Now(env, vs, done)[l.v], st[l]);
        assert WrittenBy(vs, done + {i}, l.v) <==> WrittenBy(vs, done, l.v);
        assert l !in y.fp.wr;
      }
    }
  }

  // --- calls

  lemma {:induction false} CallExprSound(p: Program, k: nat, e: Expr, env: Env, sc: Scope, ctx: Context, st: Store,
                                         n: nat, o: Order)
    requires e.Call? && Ready(p, k, env, sc) && WFExpr(p, k, e, sc.vis) && Before(st, env, sc)
    requires Visit(p, k, e, env, sc, ctx).Accept?
    ensures ExprOk(p, e, env.Keys, sc, Visit(p, k, e, env, sc, ctx), Eval(p, e, st, n, o))
    decreases n, e, |Args(e)| + 2
  {
    hide VisitCall, CallWith, VisitArgs, EvalOps, Perm;
    OpsSound(p, k, e, env, sc, ctx, st, n, o);
    var r, c := VisitArgs(p, k, e, e.args, env, sc, ctx), EvalOps(p, e, Perm(o, |e.args|), st, n, o);
    if c.OpsDone? {
      var vals := Vals(c.vals, |e.args|);
      ArgsCovered(p, k, e, r.env, sc, r.eff, r.rets, c);
      InvokeSound(p, k, e, r.env, sc, ctx, r.eff, r.rets, vals, c.fp, c.st, n, Sub(o, |e.args|),
                  VisitCall(p, k, e, r.env, sc, ctx, r.eff, r.rets),
                  CallWith(p, e, vals, c.st, n, Sub(o, |e.args|)));
    } else {
      ArgsPart(p, k, e, env, sc, ctx);
      FootMore(c.fp, r.eff, Visit(p, k, e, env, sc, ctx).eff, env.Keys);
    }
  }

  lemma ArgsPart(p: Program, k: nat, e: Expr, env: Env, sc: Scope, ctx: Context)
    requires e.Call? && Ready(p, k, env, sc) && WFExpr(p, k, e, sc.vis) && Visit(p, k, e, env, sc, ctx).Accept?
    ensures VisitArgs(p, k, e, e.args, env, sc, ctx).ArgsAccept?
    ensures Part(VisitArgs(p, k, e, e.args, env, sc, ctx).eff, Visit(p, k, e, env, sc, ctx).eff)
  {
    hide VisitArgs, HandOver, VisitBlock, TakeBack;
  }

  ghost predicate ValuesOk(p: Program, args: seq<Expr>, env: Env, rets: seq<set<Target>>, vals: seq<Value>, st: Store)
    requires |args| == |rets| == |vals|
  {
    forall i :: 0 <= i < |args| ==>
      && TypedValue(vals[i], Level(p, args[i]), st)
      && (Level(p, args[i]) > 0 ==> Covers(RhsPointees(env, args[i], rets[i]), vals[i]))
  }

  lemma ArgsCovered(p: Program, k: nat, e: Expr, env: Env, sc: Scope, eff: Effect, rets: seq<set<Target>>, c: OpsResult)
    requires e.Call? && Ready(p, k, env, sc) && WFExpr(p, k, e, sc.vis) && c.OpsDone? && |rets| == |e.args|
    requires OpsOk(p, e, env.Keys, sc, ArgsAccept(env, eff, rets), c)
    ensures ValuesOk(p, e.args, env, rets, Vals(c.vals, |e.args|), c.st)
  {
    forall i | 0 <= i < |e.args| && Level(p, e.args[i]) > 0
      ensures Covers(RhsPointees(env, e.args[i], rets[i]), Vals(c.vals, |e.args|)[i])
    {
      RecallCovers(p, k, e.args[i], rets[i], c.vals[i], c.st, Recorded(c.fp, eff), env, sc.live, sc.vis);
    }
  }

  lemma ParamsApart(p: Program, f: nat)
    requires WFProgram(p) && f < |p.funcs|
    ensures Distinct(p.funcs[f].params)
    ensures forall v :: v in p.funcs[f].params ==> !v.isArray
  {
    assert WFFunction(p, f);
  }

  lemma BoundSound(p: Program, k: nat, e: Expr, env: Env, sc: Scope, rets: seq<set<Target>>, vals: seq<Value>,
                   st: Store)
    requires e.Call? && Ready(p, k, env, sc) && WFExpr(p, k, e, sc.vis) && Before(st, env, sc)
    requires GoodArgs(p, e.args, rets, sc.live, env.Keys) && |vals| == |e.args|
    requires ValuesOk(p, e.args, env, rets, vals, st)
    requires sc.live !! Elems(p.funcs[e.f].params)
    ensures var f := p.funcs[e.f];
            && Fresh(f.params, st)
            && Before(st + ParamCells(f.params, vals), env + ParamFacts(env, f.params, e.args, rets),
                      CalleeScope(p, f, sc))
  {
    hide WFFunction, RhsPointees, Distinct, TypedValue, Covers, Holds;
    var f := p.funcs[e.f];
    ParamsApart(p, e.f);
    var inner := st + ParamCells(f.params, vals);
    ParamCellsSound(p, f.params, e.args, env, rets, vals, st);
    ScalarCells(f.params, vals, st, sc.live);
    var bound := env + ParamFacts(env, f.params, e.args, rets);
    BoundCells(f.params, st, ParamCells(f.params, vals), env, ParamFacts(env, f.params, e.args, rets), sc.live);
  }

  lemma BoundCells(params: seq<Variable>, st: Store, cells: Store, env: Env, facts: Env, live: set<Variable>)
    requires StoreOk(st, live) && Holds(env, st) && live !! Elems(params)
    requires forall l :: l in cells ==> l.v in params
    requires forall v :: v in facts ==> v in params
    requires forall v :: v in params && v.level > 0 ==> v in facts
    requires forall l :: l in cells ==>
               TypedValue(cells[l], l.v.level, st) && (l.v.level > 0 ==> Covers(facts[l.v], cells[l]))
    requires EnvWF(env, live) && forall v :: v in facts ==> v.level > 0
    ensures forall l {:trigger (st + cells)[l]} :: l in st + cells ==>
              TypedValue((st + cells)[l], l.v.level, st + cells)
    ensures Holds(env + facts, st + cells)
  {
    var inner, bound := st + cells, env + facts;
    forall l | l in inner
      ensures TypedValue(inner[l], l.v.level, inner)
      ensures l.v in bound ==> Covers(bound[l.v], inner[l])
    {
      if l.v !in params {
        assert TypedValue(st[l], l.v.level, st);
      }
    }
  }

  /** Parameters bound, facts handed over. */
  lemma PassSound(p: Program, k: nat, e: Expr, env: Env, sc: Scope, rets: seq<set<Target>>, vals: seq<Value>, st: Store)
    requires e.Call? && Ready(p, k, env, sc) && WFExpr(p, k, e, sc.vis) && Before(st, env, sc)
    requires GoodArgs(p, e.args, rets, sc.live, env.Keys) && |vals| == |e.args|
    requires ValuesOk(p, e.args, env, rets, vals, st)
    requires sc.live !! Elems(p.funcs[e.f].params)
    ensures var f := p.funcs[e.f];
            && Fresh(f.params, st)
            && Before(st + ParamCells(f.params, vals), HandOver(p.globals, env, f, e.args, rets), CalleeScope(p, f, sc))
  {
    var f := p.funcs[e.f];
    BoundSound(p, k, e, env, sc, rets, vals, st);
    hide Reach, Covers, ParamFacts, ParamCells, StoreOk, Ready, WFExpr, GoodArgs, ValuesOk;
    var bound := env + ParamFacts(env, f.params, e.args, rets);
    var roots := set v | v in bound && (v in p.globals || v in f.params);
    assert HandOver(p.globals, env, f, e.args, rets) == Restrict(bound, Reach(bound, roots));
    RestrictHolds(bound, Reach(bound, roots), st + ParamCells(f.params, vals));
  }

  lemma RestrictHolds(env: Env, keep: set<Variable>, st: Store)
    requires Holds(env, st)
    ensures Holds(Restrict(env, keep), st)
  {
  }

  lemma ScalarCells(params: seq<Variable>, vals: seq<Value>, st: Store, live: set<Variable>)
    requires |params| == |vals| && st.Keys == CellsOf(live) && forall v :: v in params ==> !v.isArray
    ensures (st + ParamCells(params, vals)).Keys == CellsOf(live + Elems(params))
  {
    var inner := st + ParamCells(params, vals);
    forall l
      ensures l in inner <==> l in CellsOf(live + Elems(params))
    {
      if l.v in params { assert Cells(l.v) == 1; }
    }
  }

  lemma {:induction false} ParamCellsSound(p: Program, params: seq<Variable>, args: seq<Expr>, env: Env,
                                           rets: seq<set<Target>>, vals: seq<Value>, st: Store)
    requires |params| == |args| == |rets| == |vals| && ValuesOk(p, args, env, rets, vals, st)
    requires forall i :: 0 <= i < |args| ==> Level(p, args[i]) == params[i].level
    requires Distinct(params)
    ensures var m, facts := ParamCells(params, vals), ParamFacts(env, params, args, rets);
            forall l :: l in m ==> TypedValue(m[l], l.v.level, st) && (l.v.level > 0 ==> Covers(facts[l.v], m[l]))
    decreases |params|
  {
    if params != [] {
      ParamCellsSound(p, params[1..], args[1..], env, rets[1..], vals[1..], st);
      var m, facts := ParamCells(params, vals), ParamFacts(env, params, args, rets);
      forall l | l in m
        ensures TypedValue(m[l], l.v.level, st) && (l.v.level > 0 ==> Covers(facts[l.v], m[l]))
      {
        if l.v == params[0] {
          assert l == Loc(params[0], 0);
        } else {
          assert l in ParamCells(params[1..], vals[1..]);
        }
      }
    }
  }

  /** What a call hands over and gets back, without saying how the facts to keep are found. */
  lemma OpenCall(p: Program, k: nat, e: Expr, env: Env, sc: Scope, ctx: Context, eff: Effect, rets: seq<set<Target>>,
                 vals: seq<Value>, st: Store, r: Verdict)
    returns (kept: Env, inner: Context, body: StmtVerdict)
    requires e.Call? && Ready(p, k, env, sc) && WFExpr(p, k, e, sc.vis) && Before(st, env, sc)
    requires Compatible(eff, ctx) && GoodArgs(p, e.args, rets, sc.live, env.Keys)
    requires |vals| == |e.args| && ValuesOk(p, e.args, env, rets, vals, st)
    requires r == VisitCall(p, k, e, env, sc, ctx, eff, rets) && r.Accept?
    ensures e.f < |p.funcs| && |vals| == |p.funcs[e.f].params|
    ensures var f := p.funcs[e.f];
            && kept == HandOver(p.globals, env, f, e.args, rets)
            && Visitable(p, e.f, kept, sc)
            && kept.Keys <= env.Keys + Elems(f.params)
            && Fresh(f.params, st) && Before(st + ParamCells(f.params, vals), kept, CalleeScope(p, f, sc))
            && inner == CalleeContext(ctx, e.f, p.globals, kept, sc.live)
            && body == VisitBlock(p, e.f, f.level, f.body, kept, CalleeScope(p, f, sc), inner, false)
            && body.StmtAccept? && StmtVisited(f.level, kept, CalleeScope(p, f, sc), inner, body)
            && r == Accept(TakeBack(env, f, body), Plus(eff.(lhs := {}), Visible(body.eff, sc.live)),
                           RetTargets(body.ret))
  {
    var f := p.funcs[e.f];
    HandOverReady(p, k, env, sc, e.f, e.args, rets);
    assert WFFunction(p, e.f);
    PassSound(p, k, e, env, sc, rets, vals, st);
    kept := HandOver(p.globals, env, f, e.args, rets);
    inner := CalleeContext(ctx, e.f, p.globals, kept, sc.live);
    body := VisitBlock(p, e.f, f.level, f.body, kept, CalleeScope(p, f, sc), inner, false);
  }

  /** The facts a callee starts with are fit for visiting its body. */
  ghost predicate Visitable(p: Program, f: nat, kept: Env, sc: Scope) {
    && f < |p.funcs| && WFFunction(p, f)
    && Ready(p, f, kept, CalleeScope(p, p.funcs[f], sc))
    && sc.live !! FuncNames(p.funcs[f])
  }

  lemma {:induction false} InvokeSound(p: Program, k: nat, e: Expr, env: Env, sc: Scope, ctx: Context, eff: Effect,
                                       rets: seq<set<Target>>, vals: seq<Value>, fp: Foot, st: Store, n: nat, o: Order,
                                       r: Verdict, c: Result)
    requires e.Call? && Ready(p, k, env, sc) && WFExpr(p, k, e, sc.vis) && Before(st, env, sc)
    requires Compatible(eff, ctx) && GoodArgs(p, e.args, rets, sc.live, env.Keys)
    requires |vals| == |e.args| && ValuesOk(p, e.args, env, rets, vals, st)
    requires r == VisitCall(p, k, e, env, sc, ctx, eff, rets) && r.Accept? && FootOk(fp, eff, env.Keys)
    requires c == CallWith(p, e, vals, st, n, o)
    ensures ExprOk(p, e, env.Keys, sc, r, After(fp, c))
    decreases n, e, 0
  {
    hide TakeBack, VisitCall, HandOver, StmtVisited, FootOk, Recalls;
    if n == 0 {
      CallPart(p, k, e, env, sc, ctx, eff, rets);
      NoFootOk(r.eff, env.Keys);
      FootMore(fp, eff, r.eff, env.Keys);
      assert Join(fp, NO_FOOT) == fp;
    } else {
      var f := p.funcs[e.f];
      var kept, ctx1, body := OpenCall(p, k, e, env, sc, ctx, eff, rets, vals, st, r);
      var inner := st + ParamCells(f.params, vals);
      var d := BodySound(p, e, kept, sc, ctx1, vals, st, inner, n, o, body, c);
      BodyRuns(p, e, env, sc, ctx1, vals, kept, body, st, inner, d);
      InvokeTail(p, k, e, env, sc, ctx1, eff, kept, body, st, inner, fp, d);
    }
  }

  lemma CallPart(p: Program, k: nat, e: Expr, env: Env, sc: Scope, ctx: Context, eff: Effect, rets: seq<set<Target>>)
    requires e.Call? && Ready(p, k, env, sc) && WFExpr(p, k, e, sc.vis)
    requires Compatible(eff, ctx) && GoodArgs(p, e.args, rets, sc.live, env.Keys)
    requires VisitCall(p, k, e, env, sc, ctx, eff, rets).Accept?
    ensures Part(eff, VisitCall(p, k, e, env, sc, ctx, eff, rets).eff)
  {
    hide HandOver, VisitBlock, TakeBack;
  }

  /** The body of a called function, run on what it is handed. */
  lemma {:induction false} BodySound(p: Program, e: Expr, kept: Env, sc: Scope, ctx: Context, vals: seq<Value>,
                                     st: Store, inner: Store, n: nat, o: Order, body: StmtVerdict, c: Result)
    returns (d: Result)
    requires e.Call? && n > 0 && Visitable(p, e.f, kept, sc) && |vals| == |p.funcs[e.f].params|
    requires Fresh(p.funcs[e.f].params, st)
    requires inner == st + ParamCells(p.funcs[e.f].params, vals)
    requires Before(inner, kept, CalleeScope(p, p.funcs[e.f], sc))
    requires body == VisitBlock(p, e.f, p.funcs[e.f].level, p.funcs[e.f].body, kept, CalleeScope(p, p.funcs[e.f], sc),
                                ctx, false)
    requires body.StmtAccept? && c == CallWith(p, e, vals, st, n, o)
    ensures c == Handed(Elems(p.funcs[e.f].params), d)
    ensures StmtOk(p.funcs[e.f].level, kept.Keys, CalleeScope(p, p.funcs[e.f], sc), body, d)
    ensures Framed(inner, d) && (d.Done? ==> d.out.Returned?)
    decreases n - 1, p.funcs[e.f]
  {
    hide ExecBlock, VisitBlock, StmtOk, Ready, StoreOk, Holds, MustReturn, Distinct;
    var f := p.funcs[e.f];
    d := ExecBlock(p, f.body, inner, n - 1, o);
    CallIsHanded(p, e, vals, st, n, o);
    StoreTidy(inner, CalleeScope(p, f, sc).live);
    ReturnsOnly(p, e.f, inner, n - 1, o, d);
    BlockSound(p, e.f, f.level, f.body, kept, CalleeScope(p, f, sc), ctx, false, inner, n - 1, o, body, d);
  }

  lemma BodyRuns(p: Program, e: Expr, env: Env, sc: Scope, ctx: Context, vals: seq<Value>, kept: Env, body: StmtVerdict,
                 st: Store, inner: Store, c: Result)
    requires e.Call? && Visitable(p, e.f, kept, sc) && Before(st, env, sc)
    requires |vals| == |p.funcs[e.f].params| && kept.Keys <= env.Keys + Elems(p.funcs[e.f].params)
    requires Before(inner, kept, CalleeScope(p, p.funcs[e.f], sc)) && body.StmtAccept?
    requires StmtVisited(p.funcs[e.f].level, kept, CalleeScope(p, p.funcs[e.f], sc), ctx, body)
    requires StmtOk(p.funcs[e.f].level, kept.Keys, CalleeScope(p, p.funcs[e.f], sc), body, c)
    requires inner == st + ParamCells(p.funcs[e.f].params, vals)
    requires Framed(inner, c) && (c.Done? ==> c.out.Returned?)
    ensures BodyRan(p, e, env, sc, ctx, kept, body, st, inner, c)
  {
    var f := p.funcs[e.f];
    CalleeFrame(f.params, vals, sc.live, st, inner);
  }

  /** The body of a called function has been visited with `body` as the verdict, and run with `c` as the result. */
  ghost predicate BodyRan(p: Program, e: Expr, env: Env, sc: Scope, ctx: Context, kept: Env, body: StmtVerdict,
                          st: Store, inner: Store, c: Result)
    requires e.Call? && e.f < |p.funcs|
  {
    var f := p.funcs[e.f];
    var ps := Elems(f.params);
    && sc.live !! ps && kept.Keys <= env.Keys + ps
    && body.StmtAccept? && StmtVisited(f.level, kept, CalleeScope(p, f, sc), ctx, body)
    && StmtOk(f.level, kept.Keys, CalleeScope(p, f, sc), body, c)
    && Framed(inner, c) && StoreOk(inner, sc.live + ps) && CalleeStores(ps, st, inner)
    && (c.Done? ==> c.out.Returned?)
  }

  lemma CallIsHanded(p: Program, e: Expr, vals: seq<Value>, st: Store, n: nat, o: Order)
    requires e.Call? && n > 0 && e.f < |p.funcs| && |p.funcs[e.f].params| == |vals| && Fresh(p.funcs[e.f].params, st)
    ensures var f := p.funcs[e.f];
            CallWith(p, e, vals, st, n, o) ==
              Handed(Elems(f.params), ExecBlock(p, f.body, st + ParamCells(f.params, vals), n - 1, o))
  {
  }

  /** What a call makes of the run of the body. */
  function Handed(ps: set<Variable>, c: Result): Result {
    var r := Leave(ps, c);
    if !r.Done? then r else if r.out.Returned? then r.(out := Val(r.out.v)) else Stuck
  }

  lemma InvokeTail(p: Program, k: nat, e: Expr, env: Env, sc: Scope, ctx: Context, eff: Effect, kept: Env,
                   body: StmtVerdict, st: Store, inner: Store, fp: Foot, c: Result)
    requires e.Call? && Ready(p, k, env, sc) && WFExpr(p, k, e, sc.vis) && Before(st, env, sc)
    requires BodyRan(p, e, env, sc, ctx, kept, body, st, inner, c) && FootOk(fp, eff, env.Keys)
    ensures var f := p.funcs[e.f];
            ExprOk(p, e, env.Keys, sc,
                   Accept(TakeBack(env, f, body), Plus(eff.(lhs := {}), Visible(body.eff, sc.live)),
                          RetTargets(body.ret)),
                   After(fp, Handed(Elems(f.params), c)))
  {
    hide ExprOk, FootOk, StoreOk, Holds, EnvWF, StmtVisited, TakeBack;
    var ps := Elems(p.funcs[e.f].params);
    BodyTouches(p, e, env, sc, ctx, kept, body, st, inner, c);
    FootMore(fp, eff, eff.(lhs := {}), env.Keys);
    FootJoin(fp, eff.(lhs := {}), Hide(ps, c.fp), Visible(body.eff, sc.live), env.Keys);
    if c.Done? {
      StoreTidy(st, sc.live);
      LeaveFrame(ps, st, inner, c);
      ReturnSound(p, k, e, env, sc, ctx, kept, body, st, inner, c);
      CallOk(p, e, env.Keys, sc, eff, Visible(body.eff, sc.live), TakeBack(env, p.funcs[e.f], body),
             RetTargets(body.ret), fp, Handed(ps, c));
    } else {
      StillRunning(p, e, env.Keys, sc, Plus(eff.(lhs := {}), Visible(body.eff, sc.live)),
                   TakeBack(env, p.funcs[e.f], body), RetTargets(body.ret), fp, ps, c);
    }
  }

  lemma StillRunning(p: Program, e: Expr, keys: set<Variable>, sc: Scope, eff: Effect, env: Env, rets: set<Target>,
                     fp: Foot, ps: set<Variable>, c: Result)
    requires c.Timeout? && FootOk(Join(fp, Hide(ps, c.fp)), eff, keys)
    ensures ExprOk(p, e, keys, sc, Accept(env, eff, rets), After(fp, Handed(ps, c)))
  {
  }

  lemma CallOk(p: Program, e: Expr, keys: set<Variable>, sc: Scope, eff: Effect, body: Effect, env: Env,
               rets: set<Target>, fp: Foot, c: Result)
    requires e.Call? && c.Done? && ExprOk(p, e, keys, sc, Accept(env, body, rets), c)
    requires FootOk(Join(fp, c.fp), Plus(eff.(lhs := {}), body), keys)
    ensures ExprOk(p, e, keys, sc, Accept(env, Plus(eff.(lhs := {}), body), rets), After(fp, c))
  {
  }

  lemma BodyTouches(p: Program, e: Expr, env: Env, sc: Scope, ctx: Context, kept: Env, body: StmtVerdict, st: Store,
                    inner: Store, c: Result)
    requires e.Call? && e.f < |p.funcs| && EnvWF(env, sc.live) && BodyRan(p, e, env, sc, ctx, kept, body, st, inner, c)
    ensures c != Stuck && FootOk(Hide(Elems(p.funcs[e.f].params), c.fp), Visible(body.eff, sc.live), env.Keys)
  {
    hide StmtVisited, OutOk;
    var ps := Elems(p.funcs[e.f].params);
    forall l | l in c.fp.rd || l in c.fp.wr
      ensures l.v in sc.live + ps
    {
      assert l in inner;
    }
    HideFoot(ps, c.fp, body.eff, sc.live, env.Keys, kept.Keys);
  }

  ghost predicate CalleeStores(ps: set<Variable>, st: Store, inner: Store) {
    && (forall l :: l in st ==> l.v !in ps)
    && (forall l :: l in inner <==> l in st || (l in inner && l.v in ps))
    && (forall l :: l in st ==> l in inner && inner[l] == st[l])
  }

  /** The only way out of a function's body is a return. */
  lemma ReturnsOnly(p: Program, f: nat, st: Store, n: nat, o: Order, c: Result)
    requires f < |p.funcs| && WFFunction(p, f) && Tidy(st) && c == ExecBlock(p, p.funcs[f].body, st, n, o)
    ensures Framed(st, c) && (c.Done? ==> c.out.Returned?)
  {
    var fn := p.funcs[f];
    MustReturnLeaves(p, fn.body, false, st, n, o);
    BlockOutsideLoop(p, f, fn.level, fn.body, p.globals + Elems(fn.params));
    BlockNoJump(p, fn.body, st, n, o, true);
    BlockNoJump(p, fn.body, st, n, o, false);
    ExecBlockFrame(p, fn.body, st, n, o);
  }

  lemma CalleeFrame(params: seq<Variable>, vals: seq<Value>, live: set<Variable>, st: Store, inner: Store)
    requires |params| == |vals| && StoreOk(st, live) && live !! Elems(params) && inner == st + ParamCells(params, vals)
    requires StoreOk(inner, live + Elems(params))
    ensures Tidy(inner) && CalleeStores(Elems(params), st, inner)
  {
    StoreTidy(inner, live + Elems(params));
  }

  /** Without a loop around it, a well-formed block has nothing that breaks or continues out of it. */
  lemma {:induction false} BlockOutsideLoop(p: Program, k: nat, level: nat, b: Block, vis: set<Variable>)
    requires WFBlock(p, k, level, b, vis, false)
    ensures !StmtsJump(b, 0, true) && !StmtsJump(b, 0, false)
    decreases b, |b.stms| + 1
  {
    StmtsOutsideLoop(p, k, level, b, 0, vis + b.locals.Keys);
  }

  lemma {:induction false} StmtsOutsideLoop(p: Program, k: nat, level: nat, b: Block, i: nat, vis: set<Variable>)
    requires i <= |b.stms| && WFStmts(p, k, level, b, i, vis, false)
    ensures !StmtsJump(b, i, true) && !StmtsJump(b, i, false)
    decreases b, |b.stms| - i
  {
    if i < |b.stms| {
      match b.stms[i] {
        case If(_, x, y) =>
          BlockOutsideLoop(p, k, level, x, vis);
          BlockOutsideLoop(p, k, level, y, vis);
        case _ =>
      }
      StmtsOutsideLoop(p, k, level, b, i + 1, vis);
    }
  }

  lemma {:induction false} FilterNonEmpty(dead: set<Variable>, t: seq<Access>)
    ensures FilterTrace(dead, t) != [] ==> t != []
  {
  }

  lemma HideFoot(dead: set<Variable>, fp: Foot, eff: Effect, live: set<Variable>, keys: set<Variable>,
                 inner: set<Variable>)
    requires FootOk(fp, eff, inner) && inner - dead <= keys
    requires forall l :: l in fp.rd || l in fp.wr ==> l.v in live + dead
    ensures FootOk(Hide(dead, fp), eff, keys) && FootOk(Hide(dead, fp), Visible(eff, live), keys)
  {
    FilterNonEmpty(dead, fp.trace);
  }

  lemma KillTyped(dead: set<Variable>, x: Value, level: nat, st: Store)
    requires TypedValue(x, level, st)
    ensures TypedValue(Fade(dead, x), level, Kill(dead, st))
  {
  }

  lemma {:induction false} InRetTargets(rets: seq<RetFact>, i: nat)
    requires i < |rets|
    ensures rets[i].pts <= RetTargets(rets)
    decreases |rets|
  {
    if i > 0 { InRetTargets(rets[1..], i - 1); }
  }

  /** The frame rule: what the callee was not given facts about, it cannot have changed. */
  lemma RenewHolds(env: Env, back: Env, st: Store, st': Store, fp: Foot, live: set<Variable>)
    requires Holds(env, st) && FramedStore(st, st', fp) && Holds(back, st')
    requires forall l :: l in fp.wr && l.v.level > 0 ==> l.v in back
    requires EnvWF(env, live)
    ensures Holds(Renew(env, back), st')
  {
    forall l | l in st' && l.v in Renew(env, back)
      ensures Covers(Renew(env, back)[l.v], st'[l])
    {
      if l.v !in back { assert Covers(env[l.v], st[l]); }
    }
  }

  /** One of the `return` statements in the body is the one that was taken. */
  lemma ReturnFacts(p: Program, e: Expr, env: Env, sc: Scope, ctx: Context, kept: Env, body: StmtVerdict, st: Store,
                    inner: Store, c: Result, st': Store, fp: Foot)
    requires e.Call? && e.f < |p.funcs| && EnvWF(env, sc.live) && Holds(env, st)
    requires BodyRan(p, e, env, sc, ctx, kept, body, st, inner, c) && c.Done? && c.out.Returned?
    requires st' == Kill(Elems(p.funcs[e.f].params), c.st) && FramedStore(st, st', fp)
    requires forall l :: l in fp.wr && l.v.level > 0 ==> l.v in kept.Keys - Elems(p.funcs[e.f].params)
    ensures Holds(TakeBack(env, p.funcs[e.f], body), st')
    ensures p.funcs[e.f].level > 0 ==> Covers(RetTargets(body.ret), Fade(Elems(p.funcs[e.f].params), c.out.v))
  {
    var f := p.funcs[e.f];
    var ps := Elems(f.params);
    assert SomeReturn(body.ret, f.level, ps, c.st, c.out.v);
    var i :| 0 <= i < |body.ret| && Holds(body.ret[i].env, st')
        && (f.level > 0 ==> Covers(body.ret[i].pts, Fade(ps, c.out.v)));
    InRetTargets(body.ret, i);
    FactsBackWF(p, sc, f, kept, ctx, body);
    HoldsBelow(body.ret[i].env, FactsBack(f, body), st');
    RenewHolds(env, FactsBack(f, body), st, st', fp, sc.live);
  }

  lemma ReturnSound(p: Program, k: nat, e: Expr, env: Env, sc: Scope, ctx: Context, kept: Env, body: StmtVerdict,
                    st: Store, inner: Store, c: Result)
    requires e.Call? && Ready(p, k, env, sc) && WFExpr(p, k, e, sc.vis) && Before(st, env, sc)
    requires BodyRan(p, e, env, sc, ctx, kept, body, st, inner, c) && c.Done? && c.out.Returned?
    requires Framed(st, Leave(Elems(p.funcs[e.f].params), c))
    ensures var f := p.funcs[e.f]; var ps := Elems(f.params);
            ExprOk(p, e, env.Keys, sc, Accept(TakeBack(env, f, body), Visible(body.eff, sc.live), RetTargets(body.ret)),
                   Done(Val(Fade(ps, c.out.v)), Kill(ps, c.st), Hide(ps, c.fp)))
  {
    hide TakeBack, Holds, StmtVisited, CalleeStores;
    var f := p.funcs[e.f];
    var ps := Elems(f.params);
    var st', fp := Kill(ps, c.st), Hide(ps, c.fp);
    assert sc.live + ps - ps == sc.live;
    KillSound(ps, c.st, sc.live + ps, map[]);
    KillTyped(ps, c.out.v, f.level, c.st);
    forall l | l in c.fp.rd || l in c.fp.wr
      ensures l.v in sc.live + ps
    {
      assert l in inner;
    }
    HideFoot(ps, c.fp, body.eff, sc.live, kept.Keys - ps, kept.Keys);
    ReturnFacts(p, e, env, sc, ctx, kept, body, st, inner, c, st', fp);
  }

  // --- blocks

  lemma InitsMore(p: Program, k: nat, level: nat, b: Block, vis: set<Variable>, live: set<Variable>, inLoop: bool)
    requires WFBlock(p, k, level, b, vis, inLoop) && vis <= live && BlockNames(b) !! live
    ensures InitsOk(b.locals, live)
  {
    forall v, j | v in b.locals && 0 <= j < |b.locals[v]|
      ensures WFInit(v, b.locals[v][j], live + b.locals.Keys)
    {
      assert WFInit(v, b.locals[v][j], vis + b.locals.Keys);
    }
  }

  /** What leaves a block no longer mentions its locals. */
  lemma OutLeaves(level: nat, sc: Scope, names: set<Variable>, r: StmtVerdict, out: Outcome, st: Store)
    requires r.StmtAccept? && OutOk(level, Inner(sc, names), r, out, st)
    requires StoreOk(st, sc.live + names) && names !! sc.live
    ensures OutOk(level, sc, r.(env := OutOfScope(names, r.env)), Leave(names, Done(out, st, NO_FOOT)).out,
                  Kill(names, st))
  {
    match out
    case Fall => KillSound(names, st, sc.live + names, r.env);
    case Broke => KillKill(sc.loop, names, st);
    case Continued => KillKill(sc.loop, names, st);
    case Returned(x) =>
      KillTyped(names, x, level, st);
      KillKill(sc.func, names, st);
      FadeFade(sc.func, names, x);
  }

  lemma LeaveOk(level: nat, keys: set<Variable>, sc: Scope, names: set<Variable>, inner: set<Variable>, r: StmtVerdict,
                c: Result)
    requires r.StmtAccept? && names !! sc.live && inner - names == keys
    requires StmtOk(level, inner, Inner(sc, names), r, c)
    requires !c.Stuck? ==> forall l :: l in c.fp.rd || l in c.fp.wr ==> l.v in sc.live + names
    ensures StmtOk(level, keys, sc, r.(env := OutOfScope(names, r.env)), Leave(names, c))
  {
    HideFoot(names, c.fp, r.eff, sc.live, keys, inner);
    if c.Done? {
      assert sc.live + names - names == sc.live;
      KillSound(names, c.st, sc.live + names, map[]);
      OutLeaves(level, sc, names, r, c.out, c.st);
    }
  }

  lemma {:induction false} BlockSound(p: Program, k: nat, level: nat, b: Block, env: Env, sc: Scope, ctx: Context,
                                      inLoop: bool, st: Store, n: nat, o: Order, r: StmtVerdict, c: Result)
    requires Ready(p, k, env, sc) && WFBlock(p, k, level, b, sc.vis, inLoop) && Own(p, k, BlockNames(b), sc)
    requires Before(st, env, sc)
    requires r == VisitBlock(p, k, level, b, env, sc, ctx, inLoop) && r.StmtAccept? && c == ExecBlock(p, b, st, n, o)
    ensures StmtOk(level, env.Keys, sc, r, c)
    decreases n, b
  {
    hide VisitStmts, ExecStmts, StmtOk, WFStmts, FootOk;
    var names := b.locals.Keys;
    var sc1, env1 := Inner(sc, names), env + InitFacts(b.locals);
    EnterWF(p, k, level, b, env, sc, inLoop);
    InitsMore(p, k, level, b, sc.vis, sc.live, inLoop);
    EnterSound(b.locals, st, sc.live, env);
    var st1 := Enter(b.locals, st);
    var r1, c1 := VisitStmts(p, k, level, b, 0, env1, sc1, ctx, inLoop), ExecStmts(p, b, 0, st1, n, o);
    StmtsSound(p, k, level, b, 0, env1, sc1, ctx, inLoop, st1, n, o, r1, c1);
    StmtsReach(p, b, st1, n, o, sc1.live, c1);
    LeaveOk(level, env.Keys, sc, names, env1.Keys, r1, c1);
  }

  /** Only live cells are touched. */
  lemma StmtsReach(p: Program, b: Block, st: Store, n: nat, o: Order, live: set<Variable>, c: Result)
    requires StoreOk(st, live) && c == ExecStmts(p, b, 0, st, n, o)
    ensures !c.Stuck? ==> forall l :: l in c.fp.rd || l in c.fp.wr ==> l.v in live
  {
    StoreTidy(st, live);
    ExecStmtsFrame(p, b, 0, st, n, o);
    if !c.Stuck? {
      forall l | l in c.fp.rd || l in c.fp.wr
        ensures l.v in live
      {
        assert l in st;
      }
    }
  }

  /** `r` allows for everything that may leave a statement over a jump according to `r1`. */
  ghost predicate Wider(r1: StmtVerdict, r: StmtVerdict)
    requires r1.StmtAccept? && r.StmtAccept?
  {
    && (forall i :: 0 <= i < |r1.brk| ==> r1.brk[i] in r.brk)
    && (forall i :: 0 <= i < |r1.cont| ==> r1.cont[i] in r.cont)
    && (forall i :: 0 <= i < |r1.ret| ==> r1.ret[i] in r.ret)
  }

  lemma OutWider(level: nat, sc: Scope, r1: StmtVerdict, r: StmtVerdict, out: Outcome, st: Store)
    requires r1.StmtAccept? && r.StmtAccept? && Wider(r1, r)
    requires OutOk(level, sc, r1, out, st) && (out.Fall? ==> Holds(r.env, st))
    ensures OutOk(level, sc, r, out, st)
  {
    match out
    case Fall =>
    case Broke =>
      var st1 := Kill(sc.loop, st);
      var i :| 0 <= i < |r1.brk| && Holds(r1.brk[i], st1);
      assert r1.brk[i] in r.brk;
    case Continued =>
      var st1 := Kill(sc.loop, st);
      var i :| 0 <= i < |r1.cont| && Holds(r1.cont[i], st1);
      assert r1.cont[i] in r.cont;
    case Returned(x) =>
      var i :| 0 <= i < |r1.ret| && Holds(r1.ret[i].env, Kill(sc.func, st))
          && (level > 0 ==> Covers(r1.ret[i].pts, Fade(sc.func, x)));
      assert r1.ret[i] in r.ret;
  }

  /** A result that stands under a wider verdict, after something else has happened. */
  lemma Widen(level: nat, keys: set<Variable>, sc: Scope, fp: Foot, eff: Effect, r1: StmtVerdict, r: StmtVerdict,
              c: Result)
    requires r1.StmtAccept? && r.StmtAccept? && Wider(r1, r) && StmtOk(level, keys, sc, r1, c)
    requires FootOk(fp, eff, keys) && (c.Done? && c.out.Fall? ==> Holds(r.env, c.st))
    requires Part(Plus(eff, r1.eff), r.eff)
    ensures StmtOk(level, keys, sc, r, After(fp, c))
  {
    FootJoin(fp, eff, c.fp, r1.eff, keys);
    FootMore(Join(fp, c.fp), Plus(eff, r1.eff), r.eff, keys);
    if c.Done? { OutWider(level, sc, r1, r, c.out, c.st); }
  }

  lemma AfterNothing(c: Result)
    ensures After(NO_FOOT, c) == c
  {
    if !c.Stuck? { assert Join(NO_FOOT, c.fp) == c.fp; }
  }

  lemma {:induction false} StmtsSound(p: Program, k: nat, level: nat, b: Block, i: nat, env: Env, sc: Scope,
                                      ctx: Context, inLoop: bool, st: Store, n: nat, o: Order, r: StmtVerdict,
                                      c: Result)
    requires i <= |b.stms| && Ready(p, k, env, sc) && WFStmts(p, k, level, b, i, sc.vis, inLoop)
    requires Own(p, k, StmtsNames(b, i), sc)
    requires Before(st, env, sc)
    requires r == VisitStmts(p, k, level, b, i, env, sc, ctx, inLoop) && r.StmtAccept?
    requires c == ExecStmts(p, b, i, st, n, o)
    ensures StmtOk(level, env.Keys, sc, r, c)
    decreases n, b, |b.stms| - i
  {
    if i < |b.stms| {
      hide VisitStmt, ExecStmt, StmtOk;
      var r1, c1 := VisitStmt(p, k, level, b.stms[i], env, sc, ctx, inLoop), ExecStmt(p, b.stms[i], st, n, Sub(o, 0));
      StmtSound(p, k, level, b.stms[i], env, sc, ctx, inLoop, st, n, Sub(o, 0), r1, c1);
      RestSound(p, k, level, b, i, env, sc, ctx, inLoop, st, n, o, r1, c1, r, c);
    }
  }

  lemma {:induction false} RestSound(p: Program, k: nat, level: nat, b: Block, i: nat, env: Env, sc: Scope,
                                     ctx: Context, inLoop: bool, st: Store, n: nat, o: Order, r1: StmtVerdict,
                                     c1: Result, r: StmtVerdict, c: Result)
    requires i < |b.stms| && Ready(p, k, env, sc) && WFStmts(p, k, level, b, i, sc.vis, inLoop)
    requires Own(p, k, StmtsNames(b, i), sc)
    requires r1 == VisitStmt(p, k, level, b.stms[i], env, sc, ctx, inLoop) && r1.StmtAccept?
    requires StmtOk(level, env.Keys, sc, r1, c1)
    requires r == VisitStmts(p, k, level, b, i, env, sc, ctx, inLoop) && r.StmtAccept?
    requires c == if c1.Done? && c1.out.Fall? then After(c1.fp, ExecStmts(p, b, i + 1, c1.st, n, Sub(o, 1))) else c1
    ensures StmtOk(level, env.Keys, sc, r, c)
    decreases n, b, |b.stms| - i, 0
  {
    hide VisitStmt, ExecStmt;
    var r2 := VisitStmts(p, k, level, b, i + 1, r1.env, sc, ctx, inLoop);
    if c1.Done? && c1.out.Fall? {
      var c2 := ExecStmts(p, b, i + 1, c1.st, n, Sub(o, 1));
      StmtsSound(p, k, level, b, i + 1, r1.env, sc, ctx, inLoop, c1.st, n, Sub(o, 1), r2, c2);
      Widen(level, env.Keys, sc, c1.fp, r1.eff, r2, r, c2);
    } else {
      Widen(level, env.Keys, sc, NO_FOOT, NO_EFFECT, r1, r, c1);
      AfterNothing(c1);
    }
  }

  lemma {:induction false} StmtSound(p: Program, k: nat, level: nat, s: Stmt, env: Env, sc: Scope, ctx: Context,
                                     inLoop: bool, st: Store, n: nat, o: Order, r: StmtVerdict, c: Result)
    requires Ready(p, k, env, sc) && WFStmt(p, k, level, s, sc.vis, inLoop) && Own(p, k, StmtNames(s), sc)
    requires Before(st, env, sc)
    requires r == VisitStmt(p, k, level, s, env, sc, ctx, inLoop) && r.StmtAccept? && c == ExecStmt(p, s, st, n, o)
    ensures StmtOk(level, env.Keys, sc, r, c)
    decreases n, s
  {
    hide Visit, Eval, ExprOk;
    match s
    case For(_, _, _, _, _, _, _) => ForSound(p, k, level, s, env, sc, ctx, inLoop, st, n, o, r, c);
    case If(_, _, _) => IfSound(p, k, level, s, env, sc, ctx, inLoop, st, n, o, r, c);
    case ExprStmt(e) =>
      ExprSound(p, k, e, env, sc, ctx, st, n, Sub(o, 0));
      SimpleSound(p, k, level, s, e, env, sc, ctx, Visit(p, k, e, env, sc, ctx), Eval(p, e, st, n, Sub(o, 0)), r, c);
    case Break(e) =>
      ExprSound(p, k, e, env, sc, ctx, st, n, Sub(o, 0));
      SimpleSound(p, k, level, s, e, env, sc, ctx, Visit(p, k, e, env, sc, ctx), Eval(p, e, st, n, Sub(o, 0)), r, c);
    case Continue(e) =>
      ExprSound(p, k, e, env, sc, ctx, st, n, Sub(o, 0));
      SimpleSound(p, k, level, s, e, env, sc, ctx, Visit(p, k, e, env, sc, ctx), Eval(p, e, st, n, Sub(o, 0)), r, c);
    case Return(e) =>
      ExprSound(p, k, e, env, sc, ctx, st, n, Sub(o, 0));
      SimpleSound(p, k, level, s, e, env, sc, ctx, Visit(p, k, e, env, sc, ctx), Eval(p, e, st, n, Sub(o, 0)), r, c);
  }

  /** What an expression statement or a jump does with the value of its expression. */
  function Ends(s: Stmt, x: Result): Result
    requires !s.If? && !s.For?
  {
    if !x.Done? then x
    else if s.ExprStmt? then x.(out := Fall)
    else if !x.out.Val? then Stuck
    else if s.Return? then x.(out := Returned(x.out.v))
    else if !Truthy(x.out.v) then x.(out := Fall)
    else x.(out := if s.Break? then Broke else Continued)
  }

  function EndVerdict(p: Program, k: nat, level: nat, s: Stmt, e: Expr, r1: Verdict, sc: Scope, ctx: Context)
    : StmtVerdict
    requires !s.If? && !s.For? && r1.Accept?
    requires s.Return? ==> Ready(p, k, r1.env, sc) && WFExpr(p, k, e, sc.vis) && Level(p, e) == level
                           && Compatible(r1.eff, ctx)
                           && GoodRets(p, e, r1.rets, sc.live, r1.env.Keys)
  {
    match s
    case ExprStmt(_) => StmtAccept(r1.env, [], [], [], r1.eff)
    case Break(_) => StmtAccept(r1.env, [OutOfScope(sc.loop, r1.env)], [], [], r1.eff)
    case Continue(_) => StmtAccept(r1.env, [], [OutOfScope(sc.loop, r1.env)], [], r1.eff)
    case Return(_) => VisitReturn(p, k, level, e, r1.env, sc, ctx, r1.eff, r1.rets)
  }

  /** Statements that evaluate one expression, and jumps. */
  lemma SimpleSound(p: Program, k: nat, level: nat, s: Stmt, e: Expr, env: Env, sc: Scope, ctx: Context, r1: Verdict,
                    x: Result, r: StmtVerdict, c: Result)
    requires !s.If? && !s.For? && Ready(p, k, env, sc) && WFExpr(p, k, e, sc.vis)
    requires r1.Accept? && Visited(p, e, env, sc, ctx, r1) && ExprOk(p, e, env.Keys, sc, r1, x)
    requires s.Return? ==> Level(p, e) == level
    requires r == EndVerdict(p, k, level, s, e, r1, sc, ctx) && r.StmtAccept? && c == Ends(s, x)
    ensures StmtOk(level, env.Keys, sc, r, c)
  {
    if x.Done? {
      KillSound(sc.loop, x.st, sc.live, r1.env);
      KillSound(sc.func, x.st, sc.live, r1.env);
      var pts := RhsPointees(r1.env, e, r1.rets);
      if s.Return? && level > 0 {
        RecallCovers(p, k, e, r1.rets, x.out.v, x.st, Recorded(x.fp, r1.eff), r1.env, sc.live, sc.vis);
        FadeCovers(sc.func, pts, x.out.v);
      }
      match s
      case Break(_) => assert r.brk[0] == OutOfScope(sc.loop, r1.env);
      case Continue(_) => assert r.cont[0] == OutOfScope(sc.loop, r1.env);
      case Return(_) => assert r.ret[0] == RetFact(OutOfScope(sc.func, r1.env), Faded(sc.func, pts));
      case _ =>
    }
  }

  /** The branch taken, in the verdict for both. */
  lemma BranchOk(level: nat, keys: set<Variable>, s: Stmt, env: Env, sc: Scope, ctx: Context, eff: Effect, fp: Foot,
                 r1: StmtVerdict, r2: StmtVerdict, thn: bool, r: StmtVerdict, c: Result)
    requires s.If? && EnvWF(env, sc.live) && Compatible(eff, ctx) && FootOk(fp, eff, keys)
    requires r1.StmtAccept? && r2.StmtAccept? && StmtVisited(level, env, sc, ctx, r1)
    requires StmtVisited(level, env, sc, ctx, r2)
    requires r == JoinBranches(s, env, eff, r1, r2, level, sc, ctx)
    requires StmtOk(level, keys, sc, if thn then r1 else r2, c)
    requires c.Done? && c.out.Fall? ==> !MustReturn(if thn then s.thn else s.els, false)
    ensures StmtOk(level, keys, sc, r, After(fp, c))
  {
    hide MustReturn;
    var taken := if thn then r1 else r2;
    MergeWF(r1.env, r2.env, sc.live);
    if c.Done? && c.out.Fall? {
      if !MustReturn(s.thn, false) && !MustReturn(s.els, false) {
        HoldsBelow(taken.env, Merge(r1.env, r2.env), c.st);
      }
    }
    Widen(level, keys, sc, fp, eff, taken, r, c);
  }

  lemma {:induction false} IfSound(p: Program, k: nat, level: nat, s: Stmt, env: Env, sc: Scope, ctx: Context,
                                   inLoop: bool, st: Store, n: nat, o: Order, r: StmtVerdict, c: Result)
    requires s.If? && Ready(p, k, env, sc) && WFStmt(p, k, level, s, sc.vis, inLoop) && Own(p, k, StmtNames(s), sc)
    requires Before(st, env, sc)
    requires r == VisitStmt(p, k, level, s, env, sc, ctx, inLoop) && r.StmtAccept? && c == ExecStmt(p, s, st, n, o)
    ensures StmtOk(level, env.Keys, sc, r, c)
    decreases n, s, 0
  {
    hide Visit, Eval, VisitBlock, ExecBlock, WFBlock, MustReturn;
    ExprSound(p, k, s.test, env, sc, ctx, st, n, Sub(o, 0));
    var t, x := Visit(p, k, s.test, env, sc, ctx), Eval(p, s.test, st, n, Sub(o, 0));
    var r1 := VisitBlock(p, k, level, s.thn, t.env, sc, ctx, inLoop);
    var r2 := VisitBlock(p, k, level, s.els, t.env, sc, ctx, inLoop);
    if x.Done? {
      var thn := Truthy(x.out.v);
      var b, rb := if thn then s.thn else s.els, if thn then r1 else r2;
      var y := ExecBlock(p, b, x.st, n, Sub(o, 1));
      BlockSound(p, k, level, b, t.env, sc, ctx, inLoop, x.st, n, Sub(o, 1), rb, y);
      if MustReturn(b, false) { MustReturnLeaves(p, b, false, x.st, n, Sub(o, 1)); }
      BranchOk(level, env.Keys, s, env, sc, ctx, t.eff, x.fp, r1, r2, thn, r, y);
    } else {
      FootMore(x.fp, t.eff, r.eff, env.Keys);
    }
  }

  // --- loops

  /** `entry` is a fixed point: what `body` makes of it flows back into it. */
  ghost predicate IsFixed(b: Block, entry: Env, body: StmtVerdict) {
    body.StmtAccept? && forall i :: 0 <= i < |BackEdges(b, body)| ==> Below(BackEdges(b, body)[i], entry)
  }

  lemma PlusSame(a: Effect)
    ensures Plus(a, a) == a
  {
  }

  /** The loop iteration stops at facts that are implied by those before the loop and by those of every back edge. */
  lemma {:induction false} FixedPoint(p: Program, k: nat, level: nat, s: Stmt, env: Env, sc: Scope, ctx: Context,
                                      loop: LoopVerdict)
    returns (body: StmtVerdict)
    requires s.For? && Ready(p, k, env, sc) && WFBlock(p, k, level, s.body, sc.vis, true)
    requires Own(p, k, BlockNames(s.body), sc)
    requires loop == VisitLoop(p, k, level, s, env, sc, ctx) && loop.LoopAccept?
    ensures Below(env, loop.entry) && Ready(p, k, loop.entry, sc)
    ensures body == VisitBlock(p, k, level, s.body, loop.entry, BodyScope(sc), BodyContext(ctx, s.iv), true)
    ensures body.StmtAccept? && IsFixed(s.body, loop.entry, body)
    ensures loop.r.StmtAccept? && loop.r == body.(eff := loop.r.eff) && Plus(loop.r.eff, body.eff) == loop.r.eff
    decreases |Missing(env, sc.live)|
  {
    hide VisitBlock, MergeAll, BackEdges, Plus;
    body := VisitBlock(p, k, level, s.body, env, BodyScope(sc), BodyContext(ctx, s.iv), true);
    BackEdgesWF(level, s.body, env, sc, BodyContext(ctx, s.iv), body);
    var next := MergeAll(env, BackEdges(s.body, body));
    if next != env {
      GrowingShrinksMissing(env, next, sc.live);
      var rest := VisitLoop(p, k, level, s, next, sc, ctx);
      var eff := body.eff;
      body := FixedPoint(p, k, level, s, next, sc, ctx, rest);
      PlusAssoc(eff, rest.r.eff, body.eff);
    } else {
      PlusSame(body.eff);
    }
  }

  /** What is known when a loop is left. */
  ghost predicate LoopOk(level: nat, keys: set<Variable>, sc: Scope, s: Stmt, entry: Env, body: StmtVerdict, st: Store,
                         c: Result)
    requires s.For? && body.StmtAccept?
  {
    && c != Stuck && FootOk(c.fp, Plus(WriteEffect(s.iv), body.eff), keys)
    && (c.Done? ==>
          && StoreOk(c.st, sc.live)
          && match c.out
             case Fall => (Holds(entry, c.st) && (MustReturn(s.body, true) ==> c.st == st)) || SomeHolds(body.brk, c.st)
             case Returned(x) => TypedValue(x, level, c.st) && SomeReturn(body.ret, level, sc.func, c.st, x)
             case _ => false)
  }

  /** Before an iteration, the facts at the head of the loop hold. */
  lemma {:induction false} LoopSound(p: Program, k: nat, level: nat, s: Stmt, entry: Env, sc: Scope, ctx: Context,
                                     body: StmtVerdict, st: Store, n: nat, o: Order, c: Result)
    requires s.For? && Ready(p, k, entry, sc) && WFBlock(p, k, level, s.body, sc.vis, true)
    requires Own(p, k, BlockNames(s.body), sc)
    requires s.iv in sc.vis && s.iv.level == 0 && !s.iv.isArray && Before(st, entry, sc)
    requires body == VisitBlock(p, k, level, s.body, entry, BodyScope(sc), BodyContext(ctx, s.iv), true)
    requires body.StmtAccept? && IsFixed(s.body, entry, body) && c == ExecLoop(p, s, st, n, o)
    ensures LoopOk(level, entry.Keys, sc, s, entry, body, st, c)
    decreases n, s, 0
  {
    hide VisitBlock, ExecBlock, WFBlock, BlockNames, MustReturn, StmtOk, IsFixed, LoopOk, FootOk;
    var l := Loc(s.iv, 0);
    CellIn(s.iv, 0, st, sc.live);
    assert TypedValue(st[l], 0, st);
    if !LoopTest(p, s, st[l]) {
      LoopDone(level, sc, s, entry, body, st, c);
    } else if n == 0 {
      LoopTimeout(level, entry.Keys, sc, s, entry, body, st);
    } else {
      var x := ExecBlock(p, s.body, st, n, Sub(o, 0));
      BlockSound(p, k, level, s.body, entry, BodyScope(sc), BodyContext(ctx, s.iv), true, st, n, Sub(o, 0), body, x);
      BodyEnds(p, k, level, s, entry, sc, ctx, body, st, n, Sub(o, 0), x);
      if x.Done? && (x.out.Fall? || x.out.Continued?) {
        var st1 := x.st[l := LoopStep(p, s, x.st[l])];
        var rest := ExecLoop(p, s, st1, n - 1, Sub(o, 1));
        LoopSound(p, k, level, s, entry, sc, ctx, body, st1, n - 1, Sub(o, 1), rest);
        LoopAround(level, sc, s, entry, body, st, st1, x.fp, rest);
      } else {
        LoopStops(level, sc, s, entry, body, st, x, c);
      }
    }
  }

  lemma LoopDone(level: nat, sc: Scope, s: Stmt, entry: Env, body: StmtVerdict, st: Store, c: Result)
    requires s.For? && body.StmtAccept? && Before(st, entry, sc) && c == Done(Fall, st, ReadFoot(Loc(s.iv, 0)))
    requires s.iv.level == 0
    ensures LoopOk(level, entry.Keys, sc, s, entry, body, st, c)
  {
  }

  lemma LoopTimeout(level: nat, keys: set<Variable>, sc: Scope, s: Stmt, entry: Env, body: StmtVerdict, st: Store)
    requires s.For? && body.StmtAccept?
    ensures LoopOk(level, keys, sc, s, entry, body, st, Timeout(ReadFoot(Loc(s.iv, 0))))
  {
  }

  /** After an iteration that goes on, the facts at the head of the loop hold again. */
  lemma BodyEnds(p: Program, k: nat, level: nat, s: Stmt, entry: Env, sc: Scope, ctx: Context, body: StmtVerdict,
                 st: Store, n: nat, o: Order, x: Result)
    requires s.For? && Ready(p, k, entry, sc) && WFBlock(p, k, level, s.body, sc.vis, true)
    requires Own(p, k, BlockNames(s.body), sc)
    requires s.iv in sc.vis && s.iv.level == 0 && !s.iv.isArray
    requires body == VisitBlock(p, k, level, s.body, entry, BodyScope(sc), BodyContext(ctx, s.iv), true)
    requires IsFixed(s.body, entry, body)
    requires StmtOk(level, entry.Keys, BodyScope(sc), body, x) && x == ExecBlock(p, s.body, st, n, o)
    ensures x.Done? && (x.out.Fall? || x.out.Continued?) ==>
              && !MustReturn(s.body, true) && Loc(s.iv, 0) in x.st
              && Before(x.st[Loc(s.iv, 0) := LoopStep(p, s, x.st[Loc(s.iv, 0)])], entry, sc)
    ensures FootOk(x.fp, body.eff, entry.Keys)
    ensures x.Done? ==> !x.out.Val?
                        && (x.out.Broke? ==> SomeHolds(body.brk, x.st))
  {
    hide VisitBlock, ExecBlock, WFBlock, IsFixed, MustReturn, WFProgram;
    if x.Done? && x.out.Broke? { KillNone(x.st); }
    if x.Done? && (x.out.Fall? || x.out.Continued?) {
      HeadHolds(p, k, level, s, entry, sc, ctx, body, st, n, o, x);
      CellIn(s.iv, 0, x.st, sc.live);
      WriteTyped(x.st, sc.live, Loc(s.iv, 0), LoopStep(p, s, x.st[Loc(s.iv, 0)]));
      assert forall l :: l in x.st && l.v in entry ==> l != Loc(s.iv, 0);
    }
  }

  lemma HeadHolds(p: Program, k: nat, level: nat, s: Stmt, entry: Env, sc: Scope, ctx: Context, body: StmtVerdict,
                  st: Store, n: nat, o: Order, x: Result)
    requires s.For? && Ready(p, k, entry, sc) && WFBlock(p, k, level, s.body, sc.vis, true)
    requires Own(p, k, BlockNames(s.body), sc)
    requires body == VisitBlock(p, k, level, s.body, entry, BodyScope(sc), BodyContext(ctx, s.iv), true)
    requires IsFixed(s.body, entry, body)
    requires StmtOk(level, entry.Keys, BodyScope(sc), body, x) && x == ExecBlock(p, s.body, st, n, o)
    requires x.Done? && (x.out.Fall? || x.out.Continued?)
    ensures !MustReturn(s.body, true) && Holds(entry, x.st)
  {
    hide VisitBlock, ExecBlock, WFBlock, FootOk, StoreOk, EnvWF, WFProgram;
    if MustReturn(s.body, true) { MustReturnLeaves(p, s.body, true, st, n, o); }
    KillNone(x.st);
    var edges := BackEdges(s.body, body);
    if x.out.Continued? {
      var i :| 0 <= i < |body.cont| && Holds(body.cont[i], Kill({}, x.st));
      assert edges[i] == body.cont[i];
      HoldsBelow(body.cont[i], entry, x.st);
    } else if FromTailToHead(s.body) {
      assert edges[|body.cont|] == body.env;
      HoldsBelow(body.env, entry, x.st);
    } else if |s.body.stms| > 0 {
      NoBackEdge(p, s.body, st, n, o);
    } else {
      EmptyBody(p, k, level, s.body, entry, BodyScope(sc), BodyContext(ctx, s.iv), body);
    }
  }

  lemma EmptyBody(p: Program, k: nat, level: nat, b: Block, env: Env, sc: Scope, ctx: Context, body: StmtVerdict)
    requires Ready(p, k, env, sc) && WFBlock(p, k, level, b, sc.vis, true) && Own(p, k, BlockNames(b), sc)
    requires b.stms == []
    requires body == VisitBlock(p, k, level, b, env, sc, ctx, true)
    ensures body.StmtAccept? && body.env == env
  {
    EnterWF(p, k, level, b, env, sc, true);
    OutOfScopeNone(b.locals.Keys, env, InitFacts(b.locals), sc.live);
  }

  lemma IvFoot(iv: Variable, keys: set<Variable>)
    requires iv.level == 0
    ensures var l := Loc(iv, 0);
            FootOk(ReadFoot(l), WriteEffect(iv), keys) && FootOk(WriteFoot(l), WriteEffect(iv), keys)
  {
  }

  lemma LoopAround(level: nat, sc: Scope, s: Stmt, entry: Env, body: StmtVerdict, st: Store, st1: Store, fp: Foot,
                   c: Result)
    requires s.For? && body.StmtAccept? && FootOk(fp, body.eff, entry.Keys) && s.iv.level == 0
    requires LoopOk(level, entry.Keys, sc, s, entry, body, st1, c) && !MustReturn(s.body, true)
    ensures var l := Loc(s.iv, 0);
            LoopOk(level, entry.Keys, sc, s, entry, body, st,
                   After(Join(Join(ReadFoot(l), fp), Join(ReadFoot(l), WriteFoot(l))), c))
  {
    hide FootOk;
    if !c.Stuck? {
      var l, e, keys := Loc(s.iv, 0), WriteEffect(s.iv), entry.Keys;
      IvFoot(s.iv, keys);
      FootJoin(ReadFoot(l), e, fp, body.eff, keys);
      FootJoin(ReadFoot(l), e, WriteFoot(l), e, keys);
      FootJoin(Join(ReadFoot(l), fp), Plus(e, body.eff), Join(ReadFoot(l), WriteFoot(l)), Plus(e, e), keys);
      var all := Plus(Plus(e, body.eff), Plus(e, e));
      FootJoin(Join(Join(ReadFoot(l), fp), Join(ReadFoot(l), WriteFoot(l))), all, c.fp, Plus(e, body.eff), keys);
      FootMore(Join(Join(Join(ReadFoot(l), fp), Join(ReadFoot(l), WriteFoot(l))), c.fp), Plus(all, Plus(e, body.eff)),
               Plus(e, body.eff), keys);
    }
  }

  lemma LoopStops(level: nat, sc: Scope, s: Stmt, entry: Env, body: StmtVerdict, st: Store, x: Result, c: Result)
    requires s.For? && body.StmtAccept? && s.iv.level == 0
    requires StmtOk(level, entry.Keys, BodyScope(sc), body, x)
    requires x.Done? ==> (x.out.Broke? && SomeHolds(body.brk, x.st)) || x.out.Returned?
    requires c == if x.Done? then Done(if x.out.Broke? then Fall else x.out, x.st, Join(ReadFoot(Loc(s.iv, 0)), x.fp))
        else After(ReadFoot(Loc(s.iv, 0)), x)
    ensures LoopOk(level, entry.Keys, sc, s, entry, body, st, c)
  {
    IvFoot(s.iv, entry.Keys);
    FootJoin(ReadFoot(Loc(s.iv, 0)), WriteEffect(s.iv), x.fp, body.eff, entry.Keys);
  }

  lemma {:induction false} ForSound(p: Program, k: nat, level: nat, s: Stmt, env: Env, sc: Scope, ctx: Context,
                                    inLoop: bool, st: Store, n: nat, o: Order, r: StmtVerdict, c: Result)
    requires s.For? && Ready(p, k, env, sc) && WFStmt(p, k, level, s, sc.vis, inLoop) && Own(p, k, StmtNames(s), sc)
    requires Before(st, env, sc)
    requires r == VisitStmt(p, k, level, s, env, sc, ctx, inLoop) && r.StmtAccept? && c == ExecStmt(p, s, st, n, o)
    ensures StmtOk(level, env.Keys, sc, r, c)
    decreases n, s, 1
  {
    hide VisitLoop, ExecLoop, LoopOk, IsFixed, MustReturn, StmtOk, TypedValue, MergeJumps, WFProgram;
    var loop := VisitLoop(p, k, level, s, env, sc, ctx);
    var body := FixedPoint(p, k, level, s, env, sc, ctx, loop);
    var l := Loc(s.iv, 0);
    CellIn(s.iv, 0, st, sc.live);
    WriteTyped(st, sc.live, l, Int(s.first));
    var st1 := st[l := Int(s.first)];
    HoldsBelow(env, loop.entry, st1);
    var d := ExecLoop(p, s, st1, n, o);
    LoopSound(p, k, level, s, loop.entry, sc, ctx, body, st1, n, o, d);
    LoopLeft(level, env, sc, ctx, s, loop, body, st1, r, d);
  }

  lemma LoopLeft(level: nat, env: Env, sc: Scope, ctx: Context, s: Stmt, loop: LoopVerdict, body: StmtVerdict,
                 st: Store, r: StmtVerdict, c: Result)
    requires s.For? && EnvWF(env, sc.live) && CheckWrite(ctx, s.iv) && LoopVisited(level, s, env, sc, ctx, loop)
    requires loop.LoopAccept?
    requires s.iv.level == 0
    requires body.StmtAccept? && loop.r == body.(eff := loop.r.eff) && Plus(loop.r.eff, body.eff) == loop.r.eff
    requires r == LeaveLoop(s, env, loop, level, sc, ctx)
    requires Holds(env, st) && LoopOk(level, env.Keys, sc, s, loop.entry, body, st, c)
    ensures StmtOk(level, env.Keys, sc, r, After(WriteFoot(Loc(s.iv, 0)), c))
  {
    if c.Done? {
      EmptySets(sc.live, env.Keys);
      var out := if MustReturn(s.body, true) then env else loop.entry;
      MergeJumpsWF(out, loop.r.brk, sc.live);
      if c.out.Fall? {
        if SomeHolds(body.brk, c.st) {
          var i :| 0 <= i < |body.brk| && Holds(body.brk[i], c.st);
          HoldsBelow(loop.r.brk[i], r.env, c.st);
        } else {
          HoldsBelow(out, r.env, c.st);
        }
      }
    }
    LoopFoot(s.iv, c.fp, body.eff, loop.r.eff, env.Keys);
  }

  /** The loop's own variable is written, so it may as well be read. */
  lemma LoopFoot(iv: Variable, fp: Foot, body: Effect, all: Effect, keys: set<Variable>)
    requires FootOk(fp, Plus(WriteEffect(iv), body), keys) && Plus(all, body) == all && iv.level == 0
    ensures FootOk(Join(WriteFoot(Loc(iv, 0)), fp), LoopEffect(iv, all), keys)
  {
    PartOf(all, body);
  }

  lemma PartOf(all: Effect, e: Effect)
    requires Plus(all, e) == all
    ensures Part(e, all)
  {
    assert e.rds <= all.rds && e.wrs <= all.wrs && e.unseen <= all.unseen;
  }
}
