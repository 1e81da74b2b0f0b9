/** Evaluation order does not matter: whatever the analysis accepts ends in every evaluation order or in none, and if it
  * ends, with the same value, store, reads, writes and volatile accesses, at every level of nesting and in every
  * function called.  Two things may depend on the order: the sequence of volatile accesses where the verdict's effect
  * is `mixed`, and what an operand makes of the index of an address that another may write, where there is a
  * `clash`. */
module OrderIndependence {
  import opened Language
  import opened Semantics
  import opened Footprint
  import opened Facts
  import opened Effects
  import opened Analysis
  import opened Gamma
  import opened Changes
  import opened StandIns
  import opened Operands
  import opened Soundness
  import opened Alikeness
  import opened AnyOrder
  import opened LeftSides

  /** A stand-in for each operand's store, and its run from there. */
  lemma {:induction false} OperandRuns(p: Program, k: nat, e: Expr, env: Env, sc: Scope, ctx: Context, vs: seq<Verdict>,
                                       st: Store, n: nat, mixed: bool)
    returns (zs: seq<Store>, effs: seq<Effect>, xs: seq<Result>)
    requires Trail(p, k, Args(e), env, sc, ctx, vs) && EnvAt(env, vs, |vs|).Keys == env.Keys && NoClash(vs)
    requires Before(st, env, sc) && forall i :: 0 <= i < |vs| ==> vs[i].eff.mixed ==> mixed
    requires forall i :: 0 <= i < |Args(e)| ==> Args(e)[i] < e
    ensures Parts(p, Args(e), st, n, mixed, zs, effs, xs)
    decreases n, e, |Args(e)|
  {
    hide *;
    TrailAccepted(p, k, Args(e), env, sc, ctx, vs);
    forall i | 0 <= i < |vs|
      ensures Full(EnvAt(env, vs, i))
    {
      TrailFull(p, k, Args(e), env, sc, ctx, vs, i);
    }
    zs := seq(|vs|, i requires 0 <= i < |vs| && Full(EnvAt(env, vs, i)) => StandIn(st, EnvAt(env, vs, i)));
    effs := seq(|vs|, i requires 0 <= i < |vs| => vs[i].eff);
    xs := seq(|vs|, i requires 0 <= i < |vs| => Eval(p, Args(e)[i], zs[i], n, Any));
    BeforeTyped(st, env, sc);
    StoreTidy(st, sc.live);
    forall i | 0 <= i < |vs|
      ensures Steady(p, Args(e)[i], st, n, mixed, zs[i], effs[i], xs[i])
    {
      OperandRun(p, k, e, env, sc, ctx, vs, i, st, n, mixed);
    }
    TrailPairwise(p, k, Args(e), env, sc, ctx, vs);
    AllApart(vs, effs);
    PartsOf(p, Args(e), st, n, mixed, zs, effs, xs);
  }

  lemma PartsOf(p: Program, args: seq<Expr>, st: Store, n: nat, mixed: bool, zs: seq<Store>, effs: seq<Effect>,
                xs: seq<Result>)
    requires |args| == |zs| == |effs| == |xs| && Tidy(st)
    requires forall i :: 0 <= i < |args| ==> Steady(p, args[i], st, n, mixed, zs[i], effs[i], xs[i])
    requires forall i, j :: 0 <= i < |effs| && 0 <= j < |effs| && i != j ==> Apart(effs[i], effs[j])
    ensures Parts(p, args, st, n, mixed, zs, effs, xs)
  {
  }

  lemma AllApart(vs: seq<Verdict>, effs: seq<Effect>)
    requires NoReject(vs) && Pairwise(vs) && NoClash(vs)
    requires |effs| == |vs| && forall i :: 0 <= i < |vs| ==> effs[i] == vs[i].eff
    ensures forall i, j :: 0 <= i < |effs| && 0 <= j < |effs| && i != j ==> Apart(effs[i], effs[j])
  {
    forall i, j | 0 <= i < |effs| && 0 <= j < |effs| && i != j
      ensures Apart(effs[i], effs[j])
    {
      assert Separate(vs[i].eff, vs[j].eff) && Undisturbed(vs[i].eff, vs[j].eff);
    }
  }

  lemma {:induction false} OperandRun(p: Program, k: nat, e: Expr, env: Env, sc: Scope, ctx: Context, vs: seq<Verdict>,
                                      i: nat, st: Store, n: nat, mixed: bool)
    requires Trail(p, k, Args(e), env, sc, ctx, vs) && EnvAt(env, vs, |vs|).Keys == env.Keys && NoClash(vs)
    requires Before(st, env, sc) && i < |vs| && (vs[i].eff.mixed ==> mixed) && Full(EnvAt(env, vs, i))
    requires Args(e)[i] < e
    ensures var z := StandIn(st, EnvAt(env, vs, i));
            Steady(p, Args(e)[i], st, n, mixed, z, vs[i].eff, Eval(p, Args(e)[i], z, n, Any))
    decreases n, e, 0
  {
    hide *;
    TrailAccepted(p, k, Args(e), env, sc, ctx, vs);
    TrailFull(p, k, Args(e), env, sc, ctx, vs, i);
    TrailStep(p, k, Args(e), env, sc, ctx, vs, i);
    NotClashing(vs, i);
    var a, mine := Args(e)[i], EnvAt(env, vs, i);
    var z := StandIn(st, mine);
    ReadyFacts(p, k, mine, sc);
    BeforeTyped(st, env, sc);
    StandInOk(st, mine, sc);
    BeforeTyped(z, mine, sc);
    StoreTidy(z, sc.live);
    NoneDone(env, vs);
    forall v | v in env && v in vs[i].eff.rds + vs[i].eff.wrs
      ensures mine[v] == env[v]
    {
      OwnFacts(p, k, Args(e), env, sc, ctx, vs, {}, i, v);
    }
    MatchingCells(env, env, mine, st, z, vs[i].eff, sc);
    EvalFrame(p, a, z, n, Any);
    PointersOnly(env, mine, sc);
    var x := Eval(p, a, z, n, Any);
    forall o
      ensures EndAlike(mixed, Eval(p, a, z, n, o), x)
      ensures !Eval(p, a, z, n, o).Stuck? && Bounded(Eval(p, a, z, n, o).fp, vs[i].eff)
    {
      ExprSound(p, k, a, mine, sc, CtxAt(ctx, vs, i), z, n, o);
      ExprOrder(p, k, a, mine, sc, CtxAt(ctx, vs, i), z, n, o);
      EndMore(vs[i].eff.mixed, mixed, Eval(p, a, z, n, o), x);
      OkBounded(p, a, env.Keys, sc, vs[i], Eval(p, a, z, n, o));
    }
    ExprSound(p, k, a, mine, sc, CtxAt(ctx, vs, i), z, n, Any);
    OkBounded(p, a, env.Keys, sc, vs[i], x);
    RunSteady(p, a, env.Keys, st, n, mixed, z, vs[i].eff, x);
  }

  lemma NotClashing(vs: seq<Verdict>, i: nat)
    requires NoReject(vs) && NoClash(vs) && i < |vs|
    ensures !vs[i].eff.clash
  {
  }

  lemma PointersOnly(env: Env, mine: Env, sc: Scope)
    requires EnvWF(mine, sc.live) && mine.Keys == env.Keys
    ensures forall v :: v in env.Keys ==> v.level > 0
  {
  }

  lemma OkBounded(p: Program, e: Expr, keys: set<Variable>, sc: Scope, r: Verdict, c: Result)
    requires r.Accept? && ExprOk(p, e, keys, sc, r, c)
    ensures !c.Stuck? && Bounded(c.fp, r.eff) && (c.Done? ==> c.out.Val?)
  {
  }

  lemma RunSteady(p: Program, e: Expr, keys: set<Variable>, st: Store, n: nat, mixed: bool, z: Store, eff: Effect,
                  x: Result)
    requires Tidy(z) && Matches(st, z, eff, keys) && forall v :: v in keys ==> v.level > 0
    requires !x.Stuck? && Framed(z, x) && (x.Done? ==> x.out.Val?) && Bounded(x.fp, eff)
    requires forall o :: EndAlike(mixed, Eval(p, e, z, n, o), x) && Bounded(Eval(p, e, z, n, o).fp, eff)
    ensures Steady(p, e, st, n, mixed, z, eff, x)
  {
    hide EndAlike, Eval, Tidy;
  }

  lemma {:induction false} OpsOrder(p: Program, k: nat, e: Expr, env: Env, sc: Scope, ctx: Context, st: Store, n: nat,
                                    o: Order)
    requires Ready(p, k, env, sc) && Before(st, env, sc)
    requires forall j :: 0 <= j < |Args(e)| ==> WFExpr(p, k, Args(e)[j], sc.vis)
    requires VisitArgs(p, k, e, Args(e), env, sc, ctx).ArgsAccept?
    requires !VisitArgs(p, k, e, Args(e), env, sc, ctx).eff.clash
    ensures OpsEndAlike(VisitArgs(p, k, e, Args(e), env, sc, ctx).eff.mixed,
                        EvalOps(p, e, Perm(o, |Args(e)|), st, n, o), EvalOps(p, e, Perm(Any, |Args(e)|), st, n, Any))
    decreases n, e, |Args(e)| + 1
  {
    hide *;
    ReadyFacts(p, k, env, sc);
    ArgsSmaller(e);
    BeforeFull(st, env, sc);
    var vs := Unroll(p, k, e, Args(e), env, sc, ctx);
    TrailAccepted(p, k, Args(e), env, sc, ctx, vs);
    TrailFull(p, k, Args(e), env, sc, ctx, vs, |vs|);
    var r := VisitArgs(p, k, e, Args(e), env, sc, ctx);
    SumsMixed(vs, r.eff, r.rets);
    var zs, effs, xs := OperandRuns(p, k, e, env, sc, ctx, vs, st, n, r.eff.mixed);
    AnyTwoRuns(p, e, st, n, r.eff.mixed, zs, effs, xs, o);
    LeftToRight(|Args(e)|);
  }

  lemma LeftToRight(n: nat)
    ensures Perm(Any, n) == Identity(n)
  {
  }

  lemma SumsMixed(vs: seq<Verdict>, eff: Effect, rets: seq<set<Target>>)
    requires NoReject(vs) && Sums(vs, eff, rets) && !eff.clash
    ensures NoClash(vs) && forall i :: 0 <= i < |vs| ==> vs[i].eff.mixed ==> eff.mixed
  {
  }

  /** Evaluation-order independence (section 6.5 paragraph 2 of ISO C99). */
  lemma {:induction false} ExprOrder(p: Program, k: nat, e: Expr, env: Env, sc: Scope, ctx: Context, st: Store, n: nat,
                                     o: Order)
    requires Ready(p, k, env, sc) && WFExpr(p, k, e, sc.vis) && Before(st, env, sc)
    requires Visit(p, k, e, env, sc, ctx).Accept? && !Visit(p, k, e, env, sc, ctx).eff.clash
    ensures EndAlike(Visit(p, k, e, env, sc, ctx).eff.mixed, Eval(p, e, st, n, o), Eval(p, e, st, n, Any))
    decreases n, e, |Args(e)| + 4
  {
    match e
    case Const(_) => SimpleOrder(p, k, e, env, sc, ctx, st, n, o);
    case PtrConst(_, _) => SimpleOrder(p, k, e, env, sc, ctx, st, n, o);
    case AddrOf(_, _) => SimpleOrder(p, k, e, env, sc, ctx, st, n, o);
    case Load(_) => SimpleOrder(p, k, e, env, sc, ctx, st, n, o);
    case Assign(_, _, _) => AssignOrder(p, k, e, env, sc, ctx, st, n, o);
    case Comma(_, _) => CommaOrder(p, k, e, env, sc, ctx, st, n, o);
    case Short(_, _, _) => ShortOrder(p, k, e, env, sc, ctx, st, n, o);
    case Op(_, _) => OperatorOrder(p, k, e, env, sc, ctx, st, n, o);
    case Call(_, _) => CallExprOrder(p, k, e, env, sc, ctx, st, n, o);
  }

  lemma SimpleOrder(p: Program, k: nat, e: Expr, env: Env, sc: Scope, ctx: Context, st: Store, n: nat, o: Order)
    requires Ready(p, k, env, sc) && WFExpr(p, k, e, sc.vis) && Before(st, env, sc)
    requires Visit(p, k, e, env, sc, ctx).Accept? && (e.Const? || e.PtrConst? || e.AddrOf? || e.Load?)
    ensures EndAlike(Visit(p, k, e, env, sc, ctx).eff.mixed, Eval(p, e, st, n, o), Eval(p, e, st, n, Any))
  {
    hide Visit, Before;
    ExprSound(p, k, e, env, sc, ctx, st, n, Any);
    if Eval(p, e, st, n, Any).Done? { AlikeSelf(Visit(p, k, e, env, sc, ctx).eff.mixed, Eval(p, e, st, n, Any).fp); }
  }

  lemma {:induction false} AssignOrder(p: Program, k: nat, e: Expr, env: Env, sc: Scope, ctx: Context, st: Store,
                                       n: nat, o: Order)
    requires e.Assign? && Ready(p, k, env, sc) && WFExpr(p, k, e, sc.vis) && Before(st, env, sc)
    requires Visit(p, k, e, env, sc, ctx).Accept? && !Visit(p, k, e, env, sc, ctx).eff.clash
    ensures EndAlike(Visit(p, k, e, env, sc, ctx).eff.mixed, Eval(p, e, st, n, o), Eval(p, e, st, n, Any))
    decreases n, e, |Args(e)| + 3
  {
    hide *;
    AssignRhs(p, k, e, sc.vis);
    AssignParts(p, k, e, env, sc, ctx);
    var x, r, r1 := Eval(p, e.rhs, st, n, Any), Visit(p, k, e, env, sc, ctx), Visit(p, k, e.rhs, env, sc, ctx);
    ExprOrder(p, k, e.rhs, env, sc, ctx, st, n, Sub(o, 0));
    ExprSound(p, k, e, env, sc, ctx, st, n, o);
    ExprSound(p, k, e, env, sc, ctx, st, n, Any);
    ExprSound(p, k, e.rhs, env, sc, ctx, st, n, Any);
    OkBounded(p, e, env.Keys, sc, r, Eval(p, e, st, n, o));
    OkBounded(p, e, env.Keys, sc, r, Eval(p, e, st, n, Any));
    OkBounded(p, e.rhs, env.Keys, sc, r1, x);
    AssignEnds(p, e, st, n, o, r1.eff.mixed);
    if x.Done? {
      LhsFirst(p, k, e, env, sc, ctx, st, n, Any);
      RhsTrace(x.fp, r1.eff);
      BothOrders(p, e, st, n, o, r1.eff.mixed, r.eff.mixed);
    }
    EndsMeet(r.eff.mixed, Eval(p, e, st, n, o), Eval(p, e, st, n, Any));
  }

  lemma AssignRhs(p: Program, k: nat, e: Expr, vis: set<Variable>)
    requires e.Assign? && WFExpr(p, k, e, vis)
    ensures WFExpr(p, k, e.rhs, vis)
    ensures Sub(Any, 0) == Any
  {
  }

  lemma RhsTrace(fp: Foot, eff: Effect)
    requires Bounded(fp, eff)
    ensures fp.trace != [] ==> eff.vol
  {
  }

  lemma EndsMeet(mixed: bool, d: Result, c: Result)
    requires !d.Stuck? && !c.Stuck? && (d.Done? <==> c.Done?) && (c.Done? ==> Alike(mixed, d, c))
    ensures EndAlike(mixed, d, c)
  {
  }

  /** An assignment ends if and only if its right side does. */
  lemma AssignEnds(p: Program, e: Expr, st: Store, n: nat, o: Order, mixed: bool)
    requires e.Assign? && !Eval(p, e, st, n, o).Stuck? && !Eval(p, e, st, n, Any).Stuck?
    requires EndAlike(mixed, Eval(p, e.rhs, st, n, Sub(o, 0)), Eval(p, e.rhs, st, n, Any))
    ensures var x := Eval(p, e.rhs, st, n, Any);
            (Eval(p, e, st, n, o).Done? <==> x.Done?) && (Eval(p, e, st, n, Any).Done? <==> x.Done?)
  {
    hide LeftSide, Alike;
  }

  lemma BothOrders(p: Program, e: Expr, st: Store, n: nat, o: Order, mixed: bool, more: bool)
    requires e.Assign? && (mixed ==> more) && Eval(p, e, st, n, Any).Done?
    requires EndAlike(mixed, Eval(p, e.rhs, st, n, Sub(o, 0)), Eval(p, e.rhs, st, n, Any))
    requires var x, s := Eval(p, e.rhs, st, n, Any), LeftSide(e.r, e.compound, st);
             && x.Done? && x.out.Val? && s.Lval? && s == LeftSide(e.r, e.compound, x.st)
             && s.l in st && s.l in x.st && (e.compound.Some? ==> st[s.l] == x.st[s.l])
             && (x.fp.trace != [] && s.fp.trace != [] ==> more)
    ensures Alike(more, Eval(p, e, st, n, o), Eval(p, e, st, n, Any))
  {
    AssignWays(p, e, st, n, o);
    AssignWays(p, e, st, n, Any);
    hide LeftSide, Store1, StoreTo, AlikeFoot, Eval;
    var x, y, s := Eval(p, e.rhs, st, n, Any), Eval(p, e.rhs, st, n, Sub(o, 0)), LeftSide(e.r, e.compound, st);
    if LeftFirst(o) {
      SidesCommute(p, e.r, e.compound, s.l, s.fp, st[s.l], x, y, mixed, more);
    } else {
      var z := Store1(p, e.r, e.compound, x.out.v, x.st);
      AlikeSelf(false, z.fp);
      AlikeAfter(mixed, false, y.fp, x.fp, z, z);
      AlikeMore(mixed, more, Eval(p, e, st, n, o), Eval(p, e, st, n, Any));
    }
  }

  /** The right side changes nothing that the left side depends on: neither the cell that is meant nor, for a compound
    * assignment, its value. */
  lemma LhsFirst(p: Program, k: nat, e: Expr, env: Env, sc: Scope, ctx: Context, st: Store, n: nat,
                 o: Order)
    requires e.Assign? && Ready(p, k, env, sc) && WFExpr(p, k, e, sc.vis) && Before(st, env, sc)
    requires Visit(p, k, e, env, sc, ctx).Accept? && Eval(p, e.rhs, st, n, o).Done?
    ensures var x, s := Eval(p, e.rhs, st, n, o), LeftSide(e.r, e.compound, st);
            var rhs := Visit(p, k, e.rhs, env, sc, ctx);
            && s.Lval? && s == LeftSide(e.r, e.compound, x.st)
            && s.l in st && s.l in x.st && (e.compound.Some? ==> st[s.l] == x.st[s.l])
            && rhs.Accept? && (rhs.eff.vol && s.fp.trace != [] ==> Visit(p, k, e, env, sc, ctx).eff.mixed)
  {
    AssignParts(p, k, e, env, sc, ctx);
    hide Eval, LeftSide, Visit, VisitLhs, AnyVolatile, Holds, StoreOk, WFRef;
    var r1, x := Visit(p, k, e.rhs, env, sc, ctx), Eval(p, e.rhs, st, n, o);
    ExprSound(p, k, e.rhs, env, sc, ctx, st, n, o);
    StoreTidy(st, sc.live);
    EvalFrame(p, e.rhs, st, n, o);
    hide FramedStore, FootOk;
    SameSide(e.r, e.compound, st, x.st, r1.env, sc, ctx, r1.eff, x.fp, env.Keys);
  }

  /** The left side of an assignment first, or the right side. */
  lemma SidesCommute(p: Program, r: Ref, c: Option<nat>, l: Loc, fp: Foot, was: Value, x: Result, y: Result,
                     mixed: bool, more: bool)
    requires x.Done? && x.out.Val? && Alike(mixed, y, x) && (mixed ==> more)
    requires LeftSide(r, c, x.st) == Lval(l, fp) && l in x.st && (c.Some? ==> was == x.st[l])
    requires x.fp.trace != [] && fp.trace != [] ==> more
    ensures Alike(more, StoreTo(p, l, fp, c, was, y), After(x.fp, Store1(p, r, c, x.out.v, x.st)))
  {
    hide LeftSide, Shuffled;
    FirstOrSecond(mixed, more, fp.trace, y.fp.trace, x.fp.trace, WriteFoot(l).trace);
    assert fp.rd + (y.fp.rd + {}) == x.fp.rd + (fp.rd + {});
    assert fp.wr + (y.fp.wr + {l}) == x.fp.wr + (fp.wr + {l});
  }

  lemma FirstOrSecond(mixed: bool, more: bool, f: seq<Access>, y: seq<Access>, x: seq<Access>, w: seq<Access>)
    requires Shuffled(mixed, y, x) && (mixed ==> more) && (x != [] && f != [] ==> more)
    ensures Shuffled(more, f + (y + w), x + (f + w))
  {
    SplitCounts(f, y, w);
    SplitCounts(x, f, w);
    if f == [] {
      assert f + (y + w) == y + w && x + (f + w) == x + w;
    } else if x == [] {
      SilentTrace(mixed, y, x);
      assert f + (y + w) == f + w == x + (f + w);
    }
  }

  lemma SplitCounts(a: seq<Access>, b: seq<Access>, c: seq<Access>)
    ensures multiset(a + (b + c)) == multiset(a) + multiset(b) + multiset(c)
  {
    assert multiset(b + c) == multiset(b) + multiset(c);
  }

  lemma {:induction false} CommaOrder(p: Program, k: nat, e: Expr, env: Env, sc: Scope, ctx: Context, st: Store, n: nat,
                                      o: Order)
    requires e.Comma? && Ready(p, k, env, sc) && WFExpr(p, k, e, sc.vis) && Before(st, env, sc)
    requires Visit(p, k, e, env, sc, ctx).Accept? && !Visit(p, k, e, env, sc, ctx).eff.clash
    ensures EndAlike(Visit(p, k, e, env, sc, ctx).eff.mixed, Eval(p, e, st, n, o), Eval(p, e, st, n, Any))
    decreases n, e, |Args(e)| + 3
  {
    hide Alike;
    ThenOrder(p, k, e, e.a, e.b, env, sc, ctx, st, n, o);
    var r1, x, y := Visit(p, k, e.a, env, sc, ctx), Eval(p, e.a, st, n, Any), Eval(p, e.a, st, n, Sub(o, 0));
    var r2 := Visit(p, k, e.b, r1.env, sc, ctx);
    if x.Done? {
      OpenAlike(r1.eff.mixed, y, x);
      EndAfter(r1.eff.mixed, r2.eff.mixed, y.fp, x.fp, Eval(p, e.b, x.st, n, Sub(o, 1)), Eval(p, e.b, x.st, n, Any));
    }
  }

  lemma {:induction false} ShortOrder(p: Program, k: nat, e: Expr, env: Env, sc: Scope, ctx: Context, st: Store, n: nat,
                                      o: Order)
    requires e.Short? && Ready(p, k, env, sc) && WFExpr(p, k, e, sc.vis) && Before(st, env, sc)
    requires Visit(p, k, e, env, sc, ctx).Accept? && !Visit(p, k, e, env, sc, ctx).eff.clash
    ensures EndAlike(Visit(p, k, e, env, sc, ctx).eff.mixed, Eval(p, e, st, n, o), Eval(p, e, st, n, Any))
    decreases n, e, |Args(e)| + 3
  {
    hide Merge, AlikeFoot, Before;
    ThenOrder(p, k, e, e.a, e.b, env, sc, ctx, st, n, o);
    var r1 := Visit(p, k, e.a, env, sc, ctx);
    var r2 := Visit(p, k, e.b, r1.env, sc, ctx);
    ShortRuns(p, e, st, n, o, r1, r2);
  }

  lemma ShortRuns(p: Program, e: Expr, st: Store, n: nat, o: Order, r1: Verdict, r2: Verdict)
    requires e.Short? && r1.Accept? && r2.Accept?
    requires EndAlike(r1.eff.mixed, Eval(p, e.a, st, n, Sub(o, 0)), Eval(p, e.a, st, n, Any))
    requires var x := Eval(p, e.a, st, n, Any);
             x.Done? ==>
               && x.out.Val?
               && EndAlike(r2.eff.mixed, Eval(p, e.b, x.st, n, Sub(o, 1)), Eval(p, e.b, x.st, n, Any))
               && (Eval(p, e.b, x.st, n, Any).Done? ==> Eval(p, e.b, x.st, n, Any).out.Val?)
    ensures EndAlike(r1.eff.mixed || r2.eff.mixed, Eval(p, e, st, n, o), Eval(p, e, st, n, Any))
  {
    hide AlikeFoot;
    var x, y := Eval(p, e.a, st, n, Any), Eval(p, e.a, st, n, Sub(o, 0));
    if x.Done? && Truthy(x.out.v) != e.isAnd {
      AlikeMore(r1.eff.mixed, r1.eff.mixed || r2.eff.mixed, Eval(p, e, st, n, o), Eval(p, e, st, n, Any));
    } else if x.Done? && Eval(p, e.b, x.st, n, Any).Done? {
      AlikeJoin(r1.eff.mixed, r2.eff.mixed, y.fp, x.fp, Eval(p, e.b, x.st, n, Sub(o, 1)).fp,
                Eval(p, e.b, x.st, n, Any).fp);
    }
  }

  lemma {:induction false} OperatorOrder(p: Program, k: nat, e: Expr, env: Env, sc: Scope, ctx: Context, st: Store,
                                         n: nat, o: Order)
    requires e.Op? && Ready(p, k, env, sc) && WFExpr(p, k, e, sc.vis) && Before(st, env, sc)
    requires Visit(p, k, e, env, sc, ctx).Accept? && !Visit(p, k, e, env, sc, ctx).eff.clash
    ensures EndAlike(Visit(p, k, e, env, sc, ctx).eff.mixed, Eval(p, e, st, n, o), Eval(p, e, st, n, Any))
    decreases n, e, |Args(e)| + 3
  {
    hide VisitArgs, EvalOps, AlikeFoot, Perm;
    OpsOrder(p, k, e, env, sc, ctx, st, n, o);
  }

  lemma {:induction false} CallExprOrder(p: Program, k: nat, e: Expr, env: Env, sc: Scope, ctx: Context, st: Store,
                                         n: nat, o: Order)
    requires e.Call? && Ready(p, k, env, sc) && WFExpr(p, k, e, sc.vis) && Before(st, env, sc)
    requires Visit(p, k, e, env, sc, ctx).Accept? && !Visit(p, k, e, env, sc, ctx).eff.clash
    ensures EndAlike(Visit(p, k, e, env, sc, ctx).eff.mixed, Eval(p, e, st, n, o), Eval(p, e, st, n, Any))
    decreases n, e, |Args(e)| + 3
  {
    ArgsPart(p, k, e, env, sc, ctx);
    hide VisitArgs, EvalOps, Visit, Perm, Before, CallWith, Alike;
    OpsOrder(p, k, e, env, sc, ctx, st, n, o);
    var args, mixed := VisitArgs(p, k, e, e.args, env, sc, ctx).eff.mixed, Visit(p, k, e, env, sc, ctx).eff.mixed;
    if EvalOps(p, e, Perm(Any, |e.args|), st, n, Any).OpsDone? {
      CallOrder(p, k, e, env, sc, ctx, st, n, Sub(o, |e.args|));
    }
    ArgsThenCall(p, e, st, n, o, args, mixed);
  }

  lemma ArgsThenCall(p: Program, e: Expr, st: Store, n: nat, o: Order, args: bool, mixed: bool)
    requires e.Call? && (args ==> mixed)
    requires OpsEndAlike(args, EvalOps(p, e, Perm(o, |e.args|), st, n, o),
                         EvalOps(p, e, Perm(Any, |e.args|), st, n, Any))
    requires var b := EvalOps(p, e, Perm(Any, |e.args|), st, n, Any);
             b.OpsDone? ==>
               EndAlike(mixed, CallWith(p, e, Vals(b.vals, |e.args|), b.st, n, Sub(o, |e.args|)),
                        CallWith(p, e, Vals(b.vals, |e.args|), b.st, n, Any))
    ensures EndAlike(mixed, Eval(p, e, st, n, o), Eval(p, e, st, n, Any))
  {
    hide EvalOps, CallWith, Perm, Alike, AlikeFoot;
    var a, b := EvalOps(p, e, Perm(o, |e.args|), st, n, o), EvalOps(p, e, Perm(Any, |e.args|), st, n, Any);
    if b.OpsDone? {
      var vals := Vals(b.vals, |e.args|);
      EndAfter(args, mixed, a.fp, b.fp, CallWith(p, e, vals, b.st, n, Sub(o, |e.args|)),
               CallWith(p, e, vals, b.st, n, Any));
    }
  }

  /** One operand after another. */
  lemma {:induction false} ThenOrder(p: Program, k: nat, e: Expr, a: Expr, b: Expr, env: Env, sc: Scope, ctx: Context,
                                     st: Store, n: nat, o: Order)
    requires a < e && b < e && Ready(p, k, env, sc) && WFExpr(p, k, a, sc.vis) && WFExpr(p, k, b, sc.vis)
    requires Before(st, env, sc)
    requires Visit(p, k, a, env, sc, ctx).Accept? && Visit(p, k, b, Visit(p, k, a, env, sc, ctx).env, sc, ctx).Accept?
    requires !Visit(p, k, a, env, sc, ctx).eff.clash
    requires !Visit(p, k, b, Visit(p, k, a, env, sc, ctx).env, sc, ctx).eff.clash
    ensures EndAlike(Visit(p, k, a, env, sc, ctx).eff.mixed, Eval(p, a, st, n, Sub(o, 0)), Eval(p, a, st, n, Any))
    ensures var r, x := Visit(p, k, a, env, sc, ctx), Eval(p, a, st, n, Any);
            x.Done? ==>
              x.out.Val? && EndAlike(Visit(p, k, b, r.env, sc, ctx).eff.mixed, Eval(p, b, x.st, n, Sub(o, 1)),
                                     Eval(p, b, x.st, n, Any))
    ensures var x := Eval(p, a, st, n, Any);
            x.Done? ==> Eval(p, b, x.st, n, Any).Done? ==> Eval(p, b, x.st, n, Any).out.Val?
    decreases n, e, 0
  {
    hide Visit, Eval, WFExpr, EndAlike;
    var r1, x := Visit(p, k, a, env, sc, ctx), Eval(p, a, st, n, Any);
    ExprOrder(p, k, a, env, sc, ctx, st, n, Sub(o, 0));
    ExprSound(p, k, a, env, sc, ctx, st, n, Any);
    if x.Done? {
      ExprOrder(p, k, b, r1.env, sc, ctx, x.st, n, Sub(o, 1));
      ExprSound(p, k, b, r1.env, sc, ctx, x.st, n, Any);
    }
  }

  lemma {:induction false} CallOrder(p: Program, k: nat, e: Expr, env: Env, sc: Scope, ctx: Context, st: Store, n: nat,
                                     o: Order)
    requires e.Call? && Ready(p, k, env, sc) && WFExpr(p, k, e, sc.vis) && Before(st, env, sc)
    requires Visit(p, k, e, env, sc, ctx).Accept? && !Visit(p, k, e, env, sc, ctx).eff.clash
    requires EvalOps(p, e, Perm(Any, |e.args|), st, n, Any).OpsDone?
    ensures var c := EvalOps(p, e, Perm(Any, |e.args|), st, n, Any); var vals := Vals(c.vals, |e.args|);
            EndAlike(Visit(p, k, e, env, sc, ctx).eff.mixed, CallWith(p, e, vals, c.st, n, o),
                     CallWith(p, e, vals, c.st, n, Any))
    decreases n, e, |e.args| + 1
  {
    hide VisitCall, CallWith, VisitArgs, EvalOps, EndAlike, Perm;
    var r, c := VisitArgs(p, k, e, e.args, env, sc, ctx), EvalOps(p, e, Perm(Any, |e.args|), st, n, Any);
    OpsSound(p, k, e, env, sc, ctx, st, n, Any);
    ArgsCovered(p, k, e, r.env, sc, r.eff, r.rets, c);
    InvokeOrder(p, k, e, r.env, sc, ctx, r.eff, r.rets, Vals(c.vals, |e.args|), c.st, n, o,
                VisitCall(p, k, e, r.env, sc, ctx, r.eff, r.rets));
  }

  lemma {:induction false} InvokeOrder(p: Program, k: nat, e: Expr, env: Env, sc: Scope, ctx: Context, eff: Effect,
                                       rets: seq<set<Target>>, vals: seq<Value>, st: Store, n: nat, o: Order,
                                       r: Verdict)
    requires e.Call? && Ready(p, k, env, sc) && WFExpr(p, k, e, sc.vis) && Before(st, env, sc)
    requires Compatible(eff, ctx) && GoodArgs(p, e.args, rets, sc.live, env.Keys)
    requires |vals| == |e.args| && ValuesOk(p, e.args, env, rets, vals, st)
    requires r == VisitCall(p, k, e, env, sc, ctx, eff, rets) && r.Accept? && !r.eff.clash
    ensures EndAlike(r.eff.mixed, CallWith(p, e, vals, st, n, o), CallWith(p, e, vals, st, n, Any))
    decreases n, e, 0
  {
    hide VisitCall, HandOver, TakeBack, StmtVisited, EndAlike;
    if n > 0 {
      var kept, inner, body := OpenCall(p, k, e, env, sc, ctx, eff, rets, vals, st, r);
      BodyOrder(p, e, kept, sc, inner, vals, st, n, o, body);
      EndMore(body.eff.mixed, r.eff.mixed, CallWith(p, e, vals, st, n, o), CallWith(p, e, vals, st, n, Any));
    } else {
      NoFuel(p, e, vals, st, o, r.eff.mixed);
    }
  }

  lemma NoFuel(p: Program, e: Expr, vals: seq<Value>, st: Store, o: Order, mixed: bool)
    requires e.Call?
    ensures EndAlike(mixed, CallWith(p, e, vals, st, 0, o), CallWith(p, e, vals, st, 0, Any))
  {
  }

  lemma {:induction false} BodyOrder(p: Program, e: Expr, kept: Env, sc: Scope, ctx: Context, vals: seq<Value>,
                                     st: Store, n: nat, o: Order, body: StmtVerdict)
    requires e.Call? && n > 0 && Visitable(p, e.f, kept, sc) && |vals| == |p.funcs[e.f].params|
    requires Fresh(p.funcs[e.f].params, st)
    requires Before(st + ParamCells(p.funcs[e.f].params, vals), kept, CalleeScope(p, p.funcs[e.f], sc))
    requires body == VisitBlock(p, e.f, p.funcs[e.f].level, p.funcs[e.f].body, kept, CalleeScope(p, p.funcs[e.f], sc),
                                ctx, false)
    requires body.StmtAccept? && !body.eff.clash
    ensures EndAlike(body.eff.mixed, CallWith(p, e, vals, st, n, o), CallWith(p, e, vals, st, n, Any))
    decreases n - 1, p.funcs[e.f]
  {
    hide ExecBlock, VisitBlock, Ready, StoreOk, Holds, MustReturn, Distinct, EndAlike;
    CallIsHanded(p, e, vals, st, n, o);
    CallIsHanded(p, e, vals, st, n, Any);
    var f := p.funcs[e.f];
    var inner := st + ParamCells(f.params, vals);
    BlockOrder(p, e.f, f.level, f.body, kept, CalleeScope(p, f, sc), ctx, false, inner, n - 1, o, body);
    StoreTidy(inner, CalleeScope(p, f, sc).live);
    ReturnsOnly(p, e.f, inner, n - 1, Any, ExecBlock(p, f.body, inner, n - 1, Any));
    EndHanded(body.eff.mixed, Elems(f.params), ExecBlock(p, f.body, inner, n - 1, o),
              ExecBlock(p, f.body, inner, n - 1, Any));
  }

  lemma EndHanded(mixed: bool, ps: set<Variable>, d: Result, c: Result)
    requires EndAlike(mixed, d, c) && (c.Done? ==> c.out.Returned?)
    ensures EndAlike(mixed, Handed(ps, d), Handed(ps, c))
  {
    if c.Done? { AlikeLeave(mixed, ps, d, c); }
  }

  // --- statements

  lemma {:induction false} BlockOrder(p: Program, k: nat, level: nat, b: Block, env: Env, sc: Scope, ctx: Context,
                                      inLoop: bool, st: Store, n: nat, o: Order, r: StmtVerdict)
    requires Ready(p, k, env, sc) && WFBlock(p, k, level, b, sc.vis, inLoop) && Own(p, k, BlockNames(b), sc)
    requires Before(st, env, sc)
    requires r == VisitBlock(p, k, level, b, env, sc, ctx, inLoop) && r.StmtAccept? && !r.eff.clash
    ensures EndAlike(r.eff.mixed, ExecBlock(p, b, st, n, o), ExecBlock(p, b, st, n, Any))
    decreases n, b
  {
    hide VisitStmts, ExecStmts, WFStmts, EndAlike;
    var sc1, env1 := Inner(sc, b.locals.Keys), env + InitFacts(b.locals);
    EnterWF(p, k, level, b, env, sc, inLoop);
    InitsMore(p, k, level, b, sc.vis, sc.live, inLoop);
    EnterSound(b.locals, st, sc.live, env);
    var st1 := Enter(b.locals, st);
    StmtsOrder(p, k, level, b, 0, env1, sc1, ctx, inLoop, st1, n, o,
               VisitStmts(p, k, level, b, 0, env1, sc1, ctx, inLoop));
    EndLeave(r.eff.mixed, b.locals.Keys, ExecStmts(p, b, 0, st1, n, o), ExecStmts(p, b, 0, st1, n, Any));
  }

  lemma {:induction false} StmtsOrder(p: Program, k: nat, level: nat, b: Block, i: nat, env: Env, sc: Scope,
                                      ctx: Context, inLoop: bool, st: Store, n: nat, o: Order, r: StmtVerdict)
    requires i <= |b.stms| && Ready(p, k, env, sc) && WFStmts(p, k, level, b, i, sc.vis, inLoop)
    requires Own(p, k, StmtsNames(b, i), sc)
    requires Before(st, env, sc)
    requires r == VisitStmts(p, k, level, b, i, env, sc, ctx, inLoop) && r.StmtAccept? && !r.eff.clash
    ensures EndAlike(r.eff.mixed, ExecStmts(p, b, i, st, n, o), ExecStmts(p, b, i, st, n, Any))
    decreases n, b, |b.stms| - i
  {
    if i < |b.stms| {
      hide VisitStmt, ExecStmt, Alike;
      var r1, c1 := VisitStmt(p, k, level, b.stms[i], env, sc, ctx, inLoop), ExecStmt(p, b.stms[i], st, n, Any);
      var d1 := ExecStmt(p, b.stms[i], st, n, Sub(o, 0));
      StmtOrder(p, k, level, b.stms[i], env, sc, ctx, inLoop, st, n, Sub(o, 0), r1);
      if c1.Done? { OpenAlike(r1.eff.mixed, d1, c1); }
      if c1.Done? && c1.out.Fall? {
        StmtSound(p, k, level, b.stms[i], env, sc, ctx, inLoop, st, n, Any, r1, c1);
        var r2, c2 := VisitStmts(p, k, level, b, i + 1, r1.env, sc, ctx, inLoop), ExecStmts(p, b, i + 1, c1.st, n, Any);
        StmtsOrder(p, k, level, b, i + 1, r1.env, sc, ctx, inLoop, c1.st, n, Sub(o, 1), r2);
        EndAfter(r1.eff.mixed, r2.eff.mixed, d1.fp, c1.fp, ExecStmts(p, b, i + 1, c1.st, n, Sub(o, 1)), c2);
      } else {
        EndMore(r1.eff.mixed, r.eff.mixed, d1, c1);
      }
    } else {
      AlikeSelf(r.eff.mixed, NO_FOOT);
    }
  }

  lemma {:induction false} StmtOrder(p: Program, k: nat, level: nat, s: Stmt, env: Env, sc: Scope, ctx: Context,
                                     inLoop: bool, st: Store, n: nat, o: Order, r: StmtVerdict)
    requires Ready(p, k, env, sc) && WFStmt(p, k, level, s, sc.vis, inLoop) && Own(p, k, StmtNames(s), sc)
    requires Before(st, env, sc)
    requires r == VisitStmt(p, k, level, s, env, sc, ctx, inLoop) && r.StmtAccept? && !r.eff.clash
    ensures EndAlike(r.eff.mixed, ExecStmt(p, s, st, n, o), ExecStmt(p, s, st, n, Any))
    decreases n, s
  {
    hide Visit, Eval, EndAlike, Before;
    match s
    case For(_, _, _, _, _, _, _) => ForOrder(p, k, level, s, env, sc, ctx, inLoop, st, n, o, r);
    case If(_, _, _) => IfOrder(p, k, level, s, env, sc, ctx, inLoop, st, n, o, r);
    case ExprStmt(e) => EndsOrder(p, k, s, e, env, sc, ctx, st, n, o);
    case Break(e) => EndsOrder(p, k, s, e, env, sc, ctx, st, n, o);
    case Continue(e) => EndsOrder(p, k, s, e, env, sc, ctx, st, n, o);
    case Return(e) => EndsOrder(p, k, s, e, env, sc, ctx, st, n, o);
  }

  /** Statements that evaluate one expression, and jumps. */
  lemma {:induction false} EndsOrder(p: Program, k: nat, s: Stmt, e: Expr, env: Env, sc: Scope, ctx: Context, st: Store,
                                     n: nat, o: Order)
    requires !s.If? && !s.For? && e < s && Ready(p, k, env, sc) && WFExpr(p, k, e, sc.vis) && Before(st, env, sc)
    requires Visit(p, k, e, env, sc, ctx).Accept? && !Visit(p, k, e, env, sc, ctx).eff.clash
    ensures EndAlike(Visit(p, k, e, env, sc, ctx).eff.mixed, Ends(s, Eval(p, e, st, n, Sub(o, 0))),
                     Ends(s, Eval(p, e, st, n, Sub(Any, 0))))
    decreases n, s, 0
  {
    hide Visit, Eval, Before, AlikeFoot;
    ExprOrder(p, k, e, env, sc, ctx, st, n, Sub(o, 0));
    ExprSound(p, k, e, env, sc, ctx, st, n, Any);
  }

  lemma {:induction false} IfOrder(p: Program, k: nat, level: nat, s: Stmt, env: Env, sc: Scope, ctx: Context,
                                   inLoop: bool, st: Store, n: nat, o: Order, r: StmtVerdict)
    requires s.If? && Ready(p, k, env, sc) && WFStmt(p, k, level, s, sc.vis, inLoop) && Own(p, k, StmtNames(s), sc)
    requires Before(st, env, sc)
    requires r == VisitStmt(p, k, level, s, env, sc, ctx, inLoop) && r.StmtAccept? && !r.eff.clash
    ensures EndAlike(r.eff.mixed, ExecStmt(p, s, st, n, o), ExecStmt(p, s, st, n, Any))
    decreases n, s, 0
  {
    hide Visit, Eval, VisitBlock, ExecBlock, WFBlock, MustReturn, Alike;
    var t, x, y := Visit(p, k, s.test, env, sc, ctx), Eval(p, s.test, st, n, Any), Eval(p, s.test, st, n, Sub(o, 0));
    ExprOrder(p, k, s.test, env, sc, ctx, st, n, Sub(o, 0));
    ExprSound(p, k, s.test, env, sc, ctx, st, n, Any);
    if x.Done? {
      OpenAlike(t.eff.mixed, y, x);
      var b := if Truthy(x.out.v) then s.thn else s.els;
      var rb, cb := VisitBlock(p, k, level, b, t.env, sc, ctx, inLoop), ExecBlock(p, b, x.st, n, Any);
      BlockOrder(p, k, level, b, t.env, sc, ctx, inLoop, x.st, n, Sub(o, 1), rb);
      EndAfter(t.eff.mixed, rb.eff.mixed, y.fp, x.fp, ExecBlock(p, b, x.st, n, Sub(o, 1)), cb);
      EndMore(t.eff.mixed || rb.eff.mixed, r.eff.mixed, ExecStmt(p, s, st, n, o), ExecStmt(p, s, st, n, Any));
    }
  }

  lemma {:induction false} ForOrder(p: Program, k: nat, level: nat, s: Stmt, env: Env, sc: Scope, ctx: Context,
                                    inLoop: bool, st: Store, n: nat, o: Order, r: StmtVerdict)
    requires s.For? && Ready(p, k, env, sc) && WFStmt(p, k, level, s, sc.vis, inLoop) && Own(p, k, StmtNames(s), sc)
    requires Before(st, env, sc)
    requires r == VisitStmt(p, k, level, s, env, sc, ctx, inLoop) && r.StmtAccept? && !r.eff.clash
    ensures EndAlike(r.eff.mixed, ExecStmt(p, s, st, n, o), ExecStmt(p, s, st, n, Any))
    decreases n, s, 1
  {
    hide VisitLoop, ExecLoop, LoopOk, IsFixed, MustReturn, TypedValue, Alike, EnvWF, MergeJumps, WFProgram;
    var loop := VisitLoop(p, k, level, s, env, sc, ctx);
    var body := FixedPoint(p, k, level, s, env, sc, ctx, loop);
    var l := Loc(s.iv, 0);
    CellIn(s.iv, 0, st, sc.live);
    CountTyped(st, sc.live, l, s.first);
    var st1 := st[l := Int(s.first)];
    HoldsBelow(env, loop.entry, st1);
    LoopOrder(p, k, level, s, loop.entry, sc, ctx, body, st1, n, o);
    AlikeSelf(false, WriteFoot(l));
    EndAfter(false, body.eff.mixed, WriteFoot(l), WriteFoot(l), ExecLoop(p, s, st1, n, o), ExecLoop(p, s, st1, n, Any));
    EndMore(body.eff.mixed, r.eff.mixed, ExecStmt(p, s, st, n, o), ExecStmt(p, s, st, n, Any));
  }

  lemma CountTyped(st: Store, live: set<Variable>, l: Loc, i: int)
    requires StoreOk(st, live) && l in st && l.v.level == 0
    ensures StoreOk(st[l := Int(i)], live)
  {
    WriteTyped(st, live, l, Int(i));
  }

  lemma {:induction false} LoopOrder(p: Program, k: nat, level: nat, s: Stmt, entry: Env, sc: Scope, ctx: Context,
                                     body: StmtVerdict, st: Store, n: nat, o: Order)
    requires s.For? && Ready(p, k, entry, sc) && WFBlock(p, k, level, s.body, sc.vis, true)
    requires Own(p, k, BlockNames(s.body), sc)
    requires s.iv in sc.vis && s.iv.level == 0 && !s.iv.isArray && Before(st, entry, sc)
    requires body == VisitBlock(p, k, level, s.body, entry, BodyScope(sc), BodyContext(ctx, s.iv), true)
    requires body.StmtAccept? && IsFixed(s.body, entry, body) && !body.eff.clash
    ensures EndAlike(body.eff.mixed, ExecLoop(p, s, st, n, o), ExecLoop(p, s, st, n, Any))
    decreases n, s, 0
  {
    hide VisitBlock, ExecBlock, WFBlock, BlockNames, MustReturn, StmtOk, IsFixed, FootOk, AlikeFoot, EnvWF;
    var l, mixed := Loc(s.iv, 0), body.eff.mixed;
    CellIn(s.iv, 0, st, sc.live);
    if !LoopTest(p, s, st[l]) || n == 0 {
      AlikeSelf(mixed, ReadFoot(l));
    } else {
      var x, y := ExecBlock(p, s.body, st, n, Any), ExecBlock(p, s.body, st, n, Sub(o, 0));
      BlockOrder(p, k, level, s.body, entry, BodyScope(sc), BodyContext(ctx, s.iv), true, st, n, Sub(o, 0), body);
      BlockSound(p, k, level, s.body, entry, BodyScope(sc), BodyContext(ctx, s.iv), true, st, n, Any, body, x);
      BodyEnds(p, k, level, s, entry, sc, ctx, body, st, n, Any, x);
      if x.Done? && (x.out.Fall? || x.out.Continued?) {
        var st1 := x.st[l := LoopStep(p, s, x.st[l])];
        LoopOrder(p, k, level, s, entry, sc, ctx, body, st1, n - 1, Sub(o, 1));
      }
      IterationOrder(p, s, st, n, o, mixed, x, y);
    }
  }

  /** One iteration, and then the rest of the loop. */
  lemma IterationOrder(p: Program, s: Stmt, st: Store, n: nat, o: Order, mixed: bool, x: Result, y: Result)
    requires s.For? && n > 0 && Loc(s.iv, 0) in st && LoopTest(p, s, st[Loc(s.iv, 0)])
    requires x == ExecBlock(p, s.body, st, n, Any) && y == ExecBlock(p, s.body, st, n, Sub(o, 0))
    requires EndAlike(mixed, y, x) && (x.Done? ==> !x.out.Val?)
    requires x.Done? && (x.out.Fall? || x.out.Continued?) ==>
               Loc(s.iv, 0) in x.st &&
               var st1 := x.st[Loc(s.iv, 0) := LoopStep(p, s, x.st[Loc(s.iv, 0)])];
               EndAlike(mixed, ExecLoop(p, s, st1, n - 1, Sub(o, 1)), ExecLoop(p, s, st1, n - 1, Any))
    ensures EndAlike(mixed, ExecLoop(p, s, st, n, o), ExecLoop(p, s, st, n, Any))
  {
    hide ExecBlock, AlikeFoot, LoopTest;
    var l := Loc(s.iv, 0);
    if x.Done? {
      AlikeSelf(mixed, ReadFoot(l));
      AlikeJoin(mixed, mixed, ReadFoot(l), ReadFoot(l), y.fp, x.fp);
      if x.out.Fall? || x.out.Continued? {
        var st1, step := x.st[l := LoopStep(p, s, x.st[l])], Join(ReadFoot(l), WriteFoot(l));
        AlikeSelf(mixed, step);
        AlikeJoin(mixed, mixed, Join(ReadFoot(l), y.fp), Join(ReadFoot(l), x.fp), step, step);
        EndAfter(mixed, mixed, Join(Join(ReadFoot(l), y.fp), step), Join(Join(ReadFoot(l), x.fp), step),
                 ExecLoop(p, s, st1, n - 1, Sub(o, 1)), ExecLoop(p, s, st1, n - 1, Any));
      }
    }
  }
}
