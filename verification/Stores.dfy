/** Nothing is stored to twice between two sequence points by an assignment and its right side: section 6.5 of ISO C99
  * leaves that undefined even where both stores are of the same value. */
module Stores {
  import opened Language
  import opened Semantics
  import opened Footprint
  import opened Locality
  import opened Facts
  import opened Effects
  import opened Analysis
  import opened Gamma
  import opened StandIns
  import opened Operands
  import opened LeftSides
  import opened Soundness

  /** The cells that assignments in `e` have stored to when it has run or its fuel is used up.  Those in arguments and
    * called functions do not count, since a call is a sequence point. */
  function Stored(p: Program, e: Expr, st: Store, n: nat, o: Order): set<Loc>
    decreases e
  {
    match e
    case Assign(r, c, rhs) =>
      Stored(p, rhs, st, n, Sub(o, 0)) + StoredTo(r, c, st, Eval(p, rhs, st, n, Sub(o, 0)), o)
    case Comma(a, b) =>
      var x := Eval(p, a, st, n, Sub(o, 0));
      Stored(p, a, st, n, Sub(o, 0)) +
      (if x.Done? && x.out.Val? then Stored(p, b, x.st, n, Sub(o, 1)) else {})
    case Short(isAnd, a, b) =>
      var x := Eval(p, a, st, n, Sub(o, 0));
      Stored(p, a, st, n, Sub(o, 0)) +
      (if x.Done? && x.out.Val? && Truthy(x.out.v) == isAnd then Stored(p, b, x.st, n, Sub(o, 1)) else {})
    case Op(_, args) => StoredByOps(p, e, Perm(o, |args|), st, n, o)
    case _ => {}
  }

  /** The cell of an assignment, once its right side has ended with `x`. */
  function StoredTo(r: Ref, c: Option<nat>, st: Store, x: Result, o: Order): set<Loc> {
    if !x.Done? then {}
    else
      match LeftSide(r, c, if LeftFirst(o) then st else x.st)
      case Lval(l, _) => {l}
      case NoLval => {}
  }

  function StoredByOps(p: Program, e: Expr, ord: seq<nat>, st: Store, n: nat, o: Order): set<Loc>
    requires forall i :: 0 <= i < |ord| ==> ord[i] < |Args(e)|
    decreases e, |ord|
  {
    if ord == [] then {}
    else
      var x := Eval(p, Args(e)[ord[0]], st, n, Sub(o, ord[0]));
      Stored(p, Args(e)[ord[0]], st, n, Sub(o, ord[0])) +
      (if x.Done? then StoredByOps(p, e, ord[1..], x.st, n, o) else {})
  }

  // --- a run stores to the same cells in a store that agrees on what it reads

  lemma {:induction false} StoredLocal(p: Program, e: Expr, a: Store, b: Store, n: nat, o: Order)
    requires Tidy(a) && Tidy(b)
    requires !Eval(p, e, a, n, o).Stuck? && Agree(a, b, Eval(p, e, a, n, o).fp.rd)
    ensures Stored(p, e, b, n, o) == Stored(p, e, a, n, o)
    decreases e
  {
    match e
    case Assign(_, _, rhs) =>
      AssignStoredLocal(p, e, a, b, n, o);
      StoredLocal(p, rhs, a, b, n, Sub(o, 0));
    case Comma(_, _) => ThenStoredLocal(p, e, e.a, e.b, a, b, n, o);
    case Short(_, _, _) => ThenStoredLocal(p, e, e.a, e.b, a, b, n, o);
    case Op(_, args) => OpsStoredLocal(p, e, Perm(o, |args|), a, b, n, o);
    case _ =>
  }

  lemma AssignStoredLocal(p: Program, e: Expr, a: Store, b: Store, n: nat, o: Order)
    requires e.Assign? && Tidy(a) && Tidy(b)
    requires !Eval(p, e, a, n, o).Stuck? && Agree(a, b, Eval(p, e, a, n, o).fp.rd)
    ensures var x, y := Eval(p, e.rhs, a, n, Sub(o, 0)), Eval(p, e.rhs, b, n, Sub(o, 0));
            && !x.Stuck? && Agree(a, b, x.fp.rd)
            && StoredTo(e.r, e.compound, b, y, o) == StoredTo(e.r, e.compound, a, x, o)
  {
    var o0 := Sub(o, 0);
    var x, y := Eval(p, e.rhs, a, n, o0), Eval(p, e.rhs, b, n, o0);
    if LeftFirst(o) {
      SideLocal(e.r, e.compound, a, b);
      StepLocal(p, e.rhs, a, b, n, o0, {});
    } else if x.Done? {
      StepLocal(p, e.rhs, a, b, n, o0, LeftSide(e.r, e.compound, x.st).fp.rd);
      SideLocal(e.r, e.compound, x.st, y.st);
    } else {
      StepLocal(p, e.rhs, a, b, n, o0, {});
    }
  }

  /** Does the second part of a comma, `&&` or `||` run? */
  predicate GoesOn(e: Expr, x: Result)
    requires e.Comma? || e.Short?
  {
    x.Done? && x.out.Val? && (e.Short? ==> Truthy(x.out.v) == e.isAnd)
  }

  lemma ThenRuns(p: Program, e: Expr, e1: Expr, e2: Expr, st: Store, n: nat, o: Order)
    requires e == Comma(e1, e2) || (e.Short? && e.a == e1 && e.b == e2)
    ensures var x := Eval(p, e1, st, n, Sub(o, 0));
            && (!Eval(p, e, st, n, o).Stuck? ==>
                  && !x.Stuck?
                  && (if GoesOn(e, x) then
                        var y := Eval(p, e2, x.st, n, Sub(o, 1));
                        !y.Stuck? && Eval(p, e, st, n, o).fp.rd == x.fp.rd + y.fp.rd
                      else Eval(p, e, st, n, o).fp.rd == x.fp.rd))
            && Stored(p, e, st, n, o) ==
                 Stored(p, e1, st, n, Sub(o, 0)) + (if GoesOn(e, x) then Stored(p, e2, x.st, n, Sub(o, 1)) else {})
  {
    hide LeftSide, EvalLoad, Lvalue, EvalOps, CallWith, Store1, StoreTo, StoredTo, StoredByOps, LeftFirst, Truthy;
  }

  lemma {:induction false} ThenStoredLocal(p: Program, e: Expr, e1: Expr, e2: Expr, a: Store, b: Store, n: nat,
                                           o: Order)
    requires e1 < e && e2 < e && (e == Comma(e1, e2) || (e.Short? && e.a == e1 && e.b == e2)) && Tidy(a) && Tidy(b)
    requires !Eval(p, e, a, n, o).Stuck? && Agree(a, b, Eval(p, e, a, n, o).fp.rd)
    ensures Stored(p, e, b, n, o) == Stored(p, e, a, n, o)
    decreases e, 0
  {
    hide Agree, Tidy, Eval, Stored;
    var o0, o1 := Sub(o, 0), Sub(o, 1);
    var x, y := Eval(p, e1, a, n, o0), Eval(p, e1, b, n, o0);
    ThenRuns(p, e, e1, e2, a, n, o);
    ThenRuns(p, e, e1, e2, b, n, o);
    var ls := if GoesOn(e, x) then Eval(p, e2, x.st, n, o1).fp.rd else {};
    assert Eval(p, e, a, n, o).fp.rd == x.fp.rd + ls;
    AgreeParts(a, b, x.fp.rd, ls);
    StoredLocal(p, e1, a, b, n, o0);
    StepLocal(p, e1, a, b, n, o0, ls);
    if GoesOn(e, x) { StoredLocal(p, e2, x.st, y.st, n, o1); }
  }

  lemma AgreeParts(a: Store, b: Store, ls: set<Loc>, ms: set<Loc>)
    requires Agree(a, b, ls + ms)
    ensures Agree(a, b, ls) && Agree(a, b, ms)
  {
  }

  lemma {:induction false} OpsStoredLocal(p: Program, e: Expr, ord: seq<nat>, a: Store, b: Store, n: nat, o: Order)
    requires Tidy(a) && Tidy(b) && forall i :: 0 <= i < |ord| ==> ord[i] < |Args(e)|
    requires !EvalOps(p, e, ord, a, n, o).OpsStuck? && Agree(a, b, EvalOps(p, e, ord, a, n, o).fp.rd)
    ensures StoredByOps(p, e, ord, b, n, o) == StoredByOps(p, e, ord, a, n, o)
    decreases e, |ord|
  {
    hide Agree, Tidy;
    if ord != [] {
      var e0, o0 := Args(e)[ord[0]], Sub(o, ord[0]);
      var x, y := Eval(p, e0, a, n, o0), Eval(p, e0, b, n, o0);
      var ls := if x.Done? then EvalOps(p, e, ord[1..], x.st, n, o).fp.rd else {};
      assert EvalOps(p, e, ord, a, n, o).fp.rd == x.fp.rd + ls;
      AgreeParts(a, b, x.fp.rd, ls);
      ArgsSmaller(e);
      StoredLocal(p, e0, a, b, n, o0);
      StepLocal(p, e0, a, b, n, o0, ls);
      if x.Done? { OpsStoredLocal(p, e, ord[1..], x.st, y.st, n, o); }
    }
  }

  // --- every store is recorded

  ghost predicate Among(ls: set<Loc>, vs: set<Variable>) {
    forall l :: l in ls ==> l.v in vs
  }

  /** Whatever an accepted expression stores to, outside calls, is recorded as written by an assignment. */
  lemma {:induction false} StoredRecorded(p: Program, k: nat, e: Expr, env: Env, sc: Scope, ctx: Context, st: Store,
                                          n: nat, o: Order)
    requires Ready(p, k, env, sc) && WFExpr(p, k, e, sc.vis) && Before(st, env, sc)
    requires Visit(p, k, e, env, sc, ctx).Accept?
    ensures Among(Stored(p, e, st, n, o), Visit(p, k, e, env, sc, ctx).eff.lhs)
    decreases e
  {
    match e
    case Assign(_, _, rhs) =>
      StoredRecorded(p, k, rhs, env, sc, ctx, st, n, Sub(o, 0));
      CellRecorded(p, k, e, env, sc, ctx, st, n, o);
    case Comma(a, b) => ThenRecorded(p, k, e, a, b, env, sc, ctx, st, n, o);
    case Short(_, a, b) => ThenRecorded(p, k, e, a, b, env, sc, ctx, st, n, o);
    case Op(_, args) => OpsRecorded(p, k, e, env, sc, ctx, st, n, o);
    case _ =>
  }

  lemma {:induction false} ThenRecorded(p: Program, k: nat, e: Expr, a: Expr, b: Expr, env: Env, sc: Scope,
                                        ctx: Context, st: Store, n: nat, o: Order)
    requires a < e && b < e && (e == Comma(a, b) || (e.Short? && e.a == a && e.b == b))
    requires Ready(p, k, env, sc) && WFExpr(p, k, e, sc.vis) && Before(st, env, sc)
    requires Visit(p, k, e, env, sc, ctx).Accept?
    ensures Among(Stored(p, e, st, n, o), Visit(p, k, e, env, sc, ctx).eff.lhs)
    decreases e, 0
  {
    hide Eval, Stored, Before, FootOk, Recalls, EnvWF;
    ThenRuns(p, e, a, b, st, n, o);
    StoredRecorded(p, k, a, env, sc, ctx, st, n, Sub(o, 0));
    ExprSound(p, k, a, env, sc, ctx, st, n, Sub(o, 0));
    var r1, x := Visit(p, k, a, env, sc, ctx), Eval(p, a, st, n, Sub(o, 0));
    if x.Done? { StoredRecorded(p, k, b, r1.env, sc, ctx, x.st, n, Sub(o, 1)); }
  }

  lemma CellRecorded(p: Program, k: nat, e: Expr, env: Env, sc: Scope, ctx: Context, st: Store, n: nat, o: Order)
    requires e.Assign? && Ready(p, k, env, sc) && WFExpr(p, k, e, sc.vis) && Before(st, env, sc)
    requires Visit(p, k, e, env, sc, ctx).Accept?
    ensures Visit(p, k, e.rhs, env, sc, ctx).Accept?
    ensures Visit(p, k, e.rhs, env, sc, ctx).eff.lhs <= Visit(p, k, e, env, sc, ctx).eff.lhs
    ensures Among(StoredTo(e.r, e.compound, st, Eval(p, e.rhs, st, n, Sub(o, 0)), o),
                  Visit(p, k, e, env, sc, ctx).eff.lhs)
  {
    AssignLhs(p, k, e, env, sc, ctx);
    hide *;
    RhsWF(p, k, e, sc.vis);
    BeforeTyped(st, env, sc);
    var r1, x := Visit(p, k, e.rhs, env, sc, ctx), Eval(p, e.rhs, st, n, Sub(o, 0));
    LhsEarly(p, k, e, env, sc, ctx, st);
    ExprSound(p, k, e.rhs, env, sc, ctx, st, n, Sub(o, 0));
    if x.Done? {
      StoreTidy(st, sc.live);
      EvalFrame(p, e.rhs, st, n, Sub(o, 0));
      RanFramed(st, x);
      RanOk(p, e.rhs, env.Keys, sc, r1, x);
      VisitGood(p, k, e.rhs, env, sc, ctx);
      AssignTargets(p, k, e, env, sc, r1);
      SideFoot(e.r, e.compound, st, x.st, r1.env, sc, ctx, r1.eff, x.fp, env.Keys);
    }
    OneCell(e.r, e.compound, st, x, o, Visit(p, k, e, env, sc, ctx).eff.lhs);
  }

  lemma RhsWF(p: Program, k: nat, e: Expr, vis: set<Variable>)
    requires e.Assign? && WFExpr(p, k, e, vis)
    ensures WFExpr(p, k, e.rhs, vis)
  {
  }

  lemma RanFramed(st: Store, x: Result)
    requires x.Done? && FramedVal(st, x)
    ensures FramedStore(st, x.st, x.fp)
  {
  }

  lemma VisitGood(p: Program, k: nat, e: Expr, env: Env, sc: Scope, ctx: Context)
    requires Ready(p, k, env, sc) && WFExpr(p, k, e, sc.vis) && Visit(p, k, e, env, sc, ctx).Accept?
    ensures var r := Visit(p, k, e, env, sc, ctx); EnvWF(r.env, sc.live) && r.env.Keys == env.Keys
  {
    hide Visit;
  }

  lemma OneCell(r: Ref, c: Option<nat>, st: Store, x: Result, o: Order, vs: set<Variable>)
    requires LeftSide(r, c, st).Lval? ==> LeftSide(r, c, st).l.v in vs
    requires x.Done? && LeftSide(r, c, x.st).Lval? ==> LeftSide(r, c, x.st).l.v in vs
    ensures Among(StoredTo(r, c, st, x, o), vs)
  {
    hide LeftSide;
  }

  lemma AssignLhs(p: Program, k: nat, e: Expr, env: Env, sc: Scope, ctx: Context)
    requires e.Assign? && Ready(p, k, env, sc) && WFExpr(p, k, e, sc.vis) && Visit(p, k, e, env, sc, ctx).Accept?
    ensures var r1 := Visit(p, k, e.rhs, env, sc, ctx);
            && r1.Accept?
            && var lhs := VisitLhs(r1.env, LhsContext(ctx, r1.eff, e.compound.Some?), r1.eff, e.r, e.compound.Some?);
            && lhs.Some? && Visit(p, k, e, env, sc, ctx).eff.lhs == r1.eff.lhs + lhs.value.wrs
  {
    hide VisitLhs, AssignFacts, AnyVolatile;
  }

  lemma {:induction false} OpsRecorded(p: Program, k: nat, e: Expr, env: Env, sc: Scope, ctx: Context, st: Store,
                                       n: nat, o: Order)
    requires e.Op? && Ready(p, k, env, sc) && WFExpr(p, k, e, sc.vis) && Before(st, env, sc)
    requires Visit(p, k, e, env, sc, ctx).Accept?
    ensures Among(Stored(p, e, st, n, o), Visit(p, k, e, env, sc, ctx).eff.lhs)
    decreases e, |Args(e)| + 1
  {
    var ord, r := Perm(o, |Args(e)|), VisitArgs(p, k, e, Args(e), env, sc, ctx);
    hide Visit, VisitArgs, StoredByOps, Before, Trail, Ready, Now, EnvAt, Perm;
    ReadyFacts(p, k, env, sc);
    BeforeFull(st, env, sc);
    var vs := Unroll(p, k, e, Args(e), env, sc, ctx);
    TrailAccepted(p, k, Args(e), env, sc, ctx, vs);
    TrailFull(p, k, Args(e), env, sc, ctx, vs, |vs|);
    NoneDone(env, vs);
    PermIndices(ord, |Args(e)|);
    SomeRecorded(p, k, e, env, sc, ctx, vs, {}, ord, st, n, o, r.eff.lhs);
  }

  lemma {:induction false} SomeRecorded(p: Program, k: nat, e: Expr, env: Env, sc: Scope, ctx: Context,
                                        vs: seq<Verdict>, done: set<nat>, ord: seq<nat>, st: Store, n: nat, o: Order,
                                        lhs: set<Variable>)
    requires Trail(p, k, Args(e), env, sc, ctx, vs) && EnvAt(env, vs, |vs|).Keys == env.Keys
    requires Distinctly(ord, |vs|) && Indices(ord) !! done && Before(st, Now(env, vs, done), sc)
    requires forall i :: 0 <= i < |vs| ==> vs[i].eff.lhs <= lhs
    ensures Among(StoredByOps(p, e, ord, st, n, o), lhs)
    decreases e, |ord|
  {
    hide Visit, Trail, Ready, Now, EnvAt, Before, Eval, OneOk, Stored;
    TrailAccepted(p, k, Args(e), env, sc, ctx, vs);
    if ord != [] {
      NextOne(p, e, vs, done, ord, st, n, o);
      var i, x := ord[0], Eval(p, Args(e)[ord[0]], st, n, Sub(o, ord[0]));
      OneRecorded(p, k, e, env, sc, ctx, vs, done, i, st, n, Sub(o, i));
      OneSound(p, k, e, env, sc, ctx, vs, done, i, st, n, Sub(o, i));
      if x.Done? {
        OneDone(p, e, env.Keys, sc, vs, i, Now(env, vs, done + {i}), st, x);
        SomeRecorded(p, k, e, env, sc, ctx, vs, done + {i}, ord[1..], x.st, n, o, lhs);
      }
    }
  }

  lemma {:induction false} OneRecorded(p: Program, k: nat, e: Expr, env: Env, sc: Scope, ctx: Context,
                                       vs: seq<Verdict>, done: set<nat>, i: nat, st: Store, n: nat, o: Order)
    requires Trail(p, k, Args(e), env, sc, ctx, vs) && EnvAt(env, vs, |vs|).Keys == env.Keys
    requires i < |vs| && i !in done && Before(st, Now(env, vs, done), sc)
    ensures Among(Stored(p, Args(e)[i], st, n, o), vs[i].eff.lhs)
    decreases e, 0
  {
    hide *;
    var mine, z := OperandStandIn(p, k, e, env, sc, ctx, vs, done, i, st);
    var a := Args(e)[i];
    ArgsSmaller(e);
    StoredRecorded(p, k, a, mine, sc, CtxAt(ctx, vs, i), z, n, o);
    ExprSound(p, k, a, mine, sc, CtxAt(ctx, vs, i), z, n, o);
    SameReads(p, a, env.Keys, sc, vs[i], st, z, vs[i].eff, Eval(p, a, z, n, o));
    StoredLocal(p, a, z, st, n, o);
  }

  /** A call is a sequence point: what its arguments and its callee have stored to may be stored to again. */
  lemma CallForgets(p: Program, k: nat, e: Expr, env: Env, sc: Scope, ctx: Context)
    requires e.Call? && Ready(p, k, env, sc) && WFExpr(p, k, e, sc.vis) && Visit(p, k, e, env, sc, ctx).Accept?
    ensures Visit(p, k, e, env, sc, ctx).eff.lhs == {}
  {
    hide VisitArgs, HandOver, VisitBlock, TakeBack, Compatible, GoodArgs;
  }

  /** The cell that the left side of an accepted assignment denotes is none that an assignment in its right side has
    * stored to, in any evaluation order and however far the right side gets. */
  lemma StoredOnce(p: Program, k: nat, e: Expr, env: Env, sc: Scope, ctx: Context, st: Store, n: nat, o: Order)
    requires e.Assign? && Ready(p, k, env, sc) && WFExpr(p, k, e, sc.vis) && Before(st, env, sc)
    requires Visit(p, k, e, env, sc, ctx).Accept?
    ensures LeftSide(e.r, e.compound, st).Lval?
    ensures LeftSide(e.r, e.compound, st).l !in Stored(p, e.rhs, st, n, o)
  {
    hide Visit, VisitLhs, LeftSide, Before, Stored, FootOk;
    LhsEarly(p, k, e, env, sc, ctx, st);
    StoredRecorded(p, k, e.rhs, env, sc, ctx, st, n, o);
    var r1 := Visit(p, k, e.rhs, env, sc, ctx);
    VisitLhsOk(r1.env, LhsContext(ctx, r1.eff, e.compound.Some?), r1.eff, e.r, e.compound.Some?);
  }
}
