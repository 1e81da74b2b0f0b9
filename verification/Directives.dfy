/** What visited code may touch: only what it can name and what the facts let it get at.  Hence a function that is
  * created for a call may be handed just the directives about globals and about the frame variables it can reach: at
  * every call depth, they forbid as much as all of them would. */
module Directives {
  import opened Language
  import opened Facts
  import opened Effects
  import opened Analysis

  ghost predicate TargetsWithin(ts: set<Target>, us: set<Variable>) {
    forall t :: t in ts && t.Obj? ==> t.v in us
  }

  /** No fact mentions anything outside `us`. */
  ghost predicate Within(env: Env, us: set<Variable>) {
    forall v :: v in env ==> TargetsWithin(env[v], us)
  }

  ghost predicate AllWithin(envs: seq<Env>, us: set<Variable>) {
    forall i :: 0 <= i < |envs| ==> Within(envs[i], us)
  }

  /** The directives of a context are about variables that exist. */
  ghost predicate Known(c: Context, live: set<Variable>) {
    c.noRead + c.noWrite <= live
  }

  /** The same context, or two that forbid the same of the variables in `us`. */
  ghost predicate SameFor(c: Context, d: Context, us: set<Variable>, live: set<Variable>) {
    && c.eff == d.eff
    && (c == d ||
        (Known(c, live) && Known(d, live) &&
         forall v :: v in us ==> (v in c.noRead <==> v in d.noRead) && (v in c.noWrite <==> v in d.noWrite)))
  }

  /** Of the variables that exist outside, an effect concerns only those in `us`, and none that the directives
    * forbid; it writes no constant.  Unless it is `bare`, the indices of addresses are protected by the directives, and
    * so no operand may write one that another uses. */
  ghost predicate Obeys(eff: Effect, live: set<Variable>, us: set<Variable>, ctx: Context) {
    && (forall v :: v in live ==>
          && (v in eff.rds ==> v in us && v !in ctx.noRead)
          && (v in eff.wrs ==> v in us && v !in ctx.noWrite && !v.isConst)
          && (v in eff.unseen && !eff.bare ==> v in ctx.noWrite))
    && (!eff.bare ==> !eff.clash)
  }

  lemma ObeysPlus(a: Effect, b: Effect, live: set<Variable>, us: set<Variable>, ctx: Context)
    requires Obeys(a, live, us, ctx) && Obeys(b, live, us, ctx)
    ensures Obeys(Plus(a, b), live, us, ctx)
    ensures a.unseen <= live && b.unseen <= live ==> Obeys(Unsequenced(a, b), live, us, ctx)
  {
  }

  lemma ObeysOne(v: Variable, live: set<Variable>, us: set<Variable>, ctx: Context)
    requires v in us
    ensures v !in ctx.noRead ==> Obeys(ReadEffect(v), live, us, ctx)
    ensures v !in ctx.noWrite && !v.isConst ==> Obeys(WriteEffect(v), live, us, ctx)
    ensures Obeys(NO_EFFECT, live, us, ctx)
  {
  }

  // --- references

  lemma {:induction false} DerefWithin(env: Env, ts: set<Target>, k: nat, us: set<Variable>)
    requires Within(env, us) && TargetsWithin(ts, us)
    ensures TargetsWithin(Deref(env, ts, k), us)
    decreases k
  {
    if k > 0 {
      forall t | t in Pointees(env, ts) && t.Obj?
        ensures t.v in us
      {
        var u :| u in ts && u.Obj? && u.v in env && t in env[u.v];
        assert TargetsWithin(env[u.v], us);
      }
      DerefWithin(env, Pointees(env, ts), k - 1, us);
    }
  }

  lemma {:induction false} RhsWithin(p: Program, k: nat, e: Expr, env: Env, vis: set<Variable>, rets: set<Target>,
                                     us: set<Variable>)
    requires WFExpr(p, k, e, vis) && vis <= us && Within(env, us) && (IsCallValue(e) ==> TargetsWithin(rets, us))
    ensures TargetsWithin(RhsPointees(env, e, rets), us)
    decreases e
  {
    match e
    case Load(r) => DerefWithin(env, {Obj(r.v)}, r.ind + 1, us);
    case Assign(_, _, rhs) => RhsWithin(p, k, rhs, env, vis, rets, us);
    case Comma(_, b) => RhsWithin(p, k, b, env, vis, rets, us);
    case _ =>
  }

  lemma PointeesWithin(env: Env, ts: set<Target>, us: set<Variable>)
    requires Within(env, us)
    ensures Objects(Pointees(env, ts)) <= us
  {
    forall v | v in Objects(Pointees(env, ts))
      ensures v in us
    {
      var u :| u in ts && u.Obj? && u.v in env && Obj(v) in env[u.v];
      assert TargetsWithin(env[u.v], us);
    }
  }

  lemma ChecksAgree(env: Env, c: Context, d: Context, us: set<Variable>, live: set<Variable>, vs: set<Variable>)
    requires SameFor(c, d, us, live) && vs <= us
    ensures forall v :: v in vs ==> CheckRead(env, c, v) == CheckRead(env, d, v) && CheckWrite(c, v) == CheckWrite(d, v)
  {
  }

  lemma {:induction false} ReadPointedWithin(env: Env, c: Context, d: Context, ts: set<Target>, k: nat,
                                             us: set<Variable>, live: set<Variable>)
    requires Within(env, us) && SameFor(c, d, us, live)
    ensures ReadPointed(env, c, ts, k) == ReadPointed(env, d, ts, k)
    ensures ReadPointed(env, c, ts, k).Some? ==> Obeys(ReadPointed(env, c, ts, k).value, live, us, c)
    decreases k
  {
    hide Within, SameFor, Pointees, Objects;
    if k > 0 {
      var next := Pointees(env, ts);
      PointeesWithin(env, ts, us);
      ChecksAgree(env, c, d, us, live, Objects(next));
      ReadPointedWithin(env, c, d, next, k - 1, us, live);
    }
  }

  lemma {:induction false} WritePointedWithin(env: Env, c: Context, d: Context, ts: set<Target>, k: nat,
                                              us: set<Variable>, live: set<Variable>)
    requires Within(env, us) && SameFor(c, d, us, live) && k > 0
    ensures WritePointed(env, c, ts, k) == WritePointed(env, d, ts, k)
    ensures WritePointed(env, c, ts, k).Some? ==> Obeys(WritePointed(env, c, ts, k).value, live, us, c)
    decreases k
  {
    hide Within, SameFor, Pointees, Objects;
    var next := Pointees(env, ts);
    PointeesWithin(env, ts, us);
    ChecksAgree(env, c, d, us, live, Objects(next));
    if k > 1 { WritePointedWithin(env, c, d, next, k - 1, us, live); }
  }

  lemma ReadWithin(env: Env, c: Context, d: Context, r: Ref, vis: set<Variable>, us: set<Variable>, live: set<Variable>)
    requires Within(env, us) && SameFor(c, d, us, live) && WFRef(r, vis) && vis <= us
    ensures VisitRead(env, c, r) == VisitRead(env, d, r)
    ensures VisitRead(env, c, r).Some? ==> Obeys(VisitRead(env, c, r).value, live, us, c)
  {
    hide Within, SameFor, Obeys;
    ChecksAgree(env, c, d, us, live, vis);
    ReadPointedWithin(env, c, d, {Obj(r.v)}, r.ind, us, live);
    if VisitRead(env, c, r).Some? {
      var ix, one, e := ReadIndex(env, c, r).value, ReadEffect(r.v), ReadPointed(env, c, {Obj(r.v)}, r.ind).value;
      IndexObeys(env, c, r, vis, us, live);
      ObeysOne(r.v, live, us, c);
      ObeysPlus(ix, one, live, us, c);
      ObeysPlus(Plus(ix, one), e, live, us, c);
    }
  }

  lemma IndexObeys(env: Env, ctx: Context, r: Ref, vis: set<Variable>, us: set<Variable>, live: set<Variable>)
    requires WFRef(r, vis) && vis <= us && ReadIndex(env, ctx, r).Some?
    ensures Obeys(ReadIndex(env, ctx, r).value, live, us, ctx)
  {
    ObeysOne(if r.ix.By? then r.ix.v else r.v, live, us, ctx);
  }

  lemma LhsWithin(env: Env, c: Context, d: Context, rhs: Effect, r: Ref, compound: bool, vis: set<Variable>,
                  us: set<Variable>, live: set<Variable>)
    requires Within(env, us) && SameFor(c, d, us, live) && WFRef(r, vis) && vis <= us
    ensures VisitLhs(env, c, rhs, r, compound) == VisitLhs(env, d, rhs, r, compound)
    ensures VisitLhs(env, c, rhs, r, compound).Some? ==> Obeys(VisitLhs(env, c, rhs, r, compound).value, live, us, c)
  {
    assert c.eff == d.eff;
    hide Within, SameFor, VisitRead, PtrModified, Obeys;
    ReadWithin(env, c, d, r, vis, us, live);
    ChecksAgree(env, c, d, us, live, vis);
    if r.ind > 0 { WritePointedWithin(env, c, d, {Obj(r.v)}, r.ind, us, live); }
    if VisitLhs(env, c, rhs, r, compound).Some? {
      LhsObeys(env, c, rhs, r, compound, vis, us, live);
    }
  }

  lemma LhsObeys(env: Env, ctx: Context, rhs: Effect, r: Ref, compound: bool, vis: set<Variable>, us: set<Variable>,
                 live: set<Variable>)
    requires WFRef(r, vis) && vis <= us && VisitLhs(env, ctx, rhs, r, compound).Some?
    requires compound ==> VisitRead(env, ctx, r).Some? ==> Obeys(VisitRead(env, ctx, r).value, live, us, ctx)
    requires r.ind > 0 && WritePointed(env, ctx, {Obj(r.v)}, r.ind).Some? ==>
               Obeys(WritePointed(env, ctx, {Obj(r.v)}, r.ind).value, live, us, ctx)
    ensures Obeys(VisitLhs(env, ctx, rhs, r, compound).value, live, us, ctx)
  {
    hide VisitRead, PtrModified, Obeys;
    var prior := if compound then VisitRead(env, ctx, r).value else NO_EFFECT;
    var ix, rd, wr := ReadIndex(env, ctx, r).value, ReadEffect(r.v), WriteEffect(r.v);
    IndexObeys(env, ctx, r, vis, us, live);
    ObeysOne(r.v, live, us, ctx);
    ObeysPlus(prior, ix, live, us, ctx);
    if r.ind == 0 {
      ObeysPlus(Plus(prior, ix), wr, live, us, ctx);
    } else {
      ObeysPlus(ix, rd, live, us, ctx);
      ObeysPlus(prior, Plus(ix, rd), live, us, ctx);
      ObeysPlus(Plus(prior, Plus(ix, rd)), WritePointed(env, ctx, {Obj(r.v)}, r.ind).value, live, us, ctx);
    }
  }

  // --- merging and forgetting

  lemma {:induction false} MergeAllWithin(env: Env, jumps: seq<Env>, us: set<Variable>)
    requires Within(env, us) && AllWithin(jumps, us)
    ensures Within(MergeAll(env, jumps), us)
    decreases |jumps|
  {
    if jumps != [] {
      assert Within(jumps[0], us);
      assert Within(Merge(env, jumps[0]), us);
      MergeAllWithin(Merge(env, jumps[0]), jumps[1..], us);
    }
  }

  lemma {:induction false} MergeJumpsWithin(env: Env, jumps: seq<Env>, us: set<Variable>)
    requires Within(env, us) && AllWithin(jumps, us)
    ensures Within(MergeJumps(env, jumps), us)
    decreases |jumps|
  {
    if jumps != [] {
      assert Within(jumps[0], us);
      assert Within(MergeJump(env, jumps[0]), us);
      MergeJumpsWithin(MergeJump(env, jumps[0]), jumps[1..], us);
    }
  }

  /** What a fact mentions is in `more`, and exists when `live` does: so it is in `us`. */
  lemma WithinLive(env: Env, more: set<Variable>, live: set<Variable>, us: set<Variable>)
    requires Within(env, more) && EnvWF(env, live) && more * live <= us
    ensures Within(env, us)
  {
    forall v, t | v in env && t in env[v] && t.Obj?
      ensures t.v in us
    {
      assert TargetsWithin(env[v], more);
    }
  }

  lemma TargetsLive(ts: set<Target>, more: set<Variable>, level: nat, live: set<Variable>, keys: set<Variable>,
                    us: set<Variable>)
    requires TargetsWithin(ts, more) && GoodTargets(ts, level, live, keys) && more * live <= us
    ensures TargetsWithin(ts, us)
  {
  }

  lemma OutOfScopeWithin(dead: set<Variable>, env: Env, us: set<Variable>)
    requires Within(env, us)
    ensures Within(OutOfScope(dead, env), us - dead)
  {
    forall v | v in env
      ensures TargetsWithin(Faded(dead, env[v]), us - dead)
    {
    }
  }

  lemma WithinMore(env: Env, us: set<Variable>, more: set<Variable>)
    requires Within(env, us) && us <= more
    ensures Within(env, more)
  {
    forall v | v in env
      ensures TargetsWithin(env[v], more)
    {
      assert TargetsWithin(env[v], us);
    }
  }

  lemma AllWithinLive(env: Env, live: set<Variable>)
    requires EnvWF(env, live)
    ensures Within(env, live)
  {
  }

  // --- expressions

  ghost predicate ExprClaim(p: Program, e: Expr, us: set<Variable>, live: set<Variable>, ctx: Context, r: Verdict) {
    r.Accept? ==>
      && Within(r.env, us) && Obeys(r.eff, live, us, ctx) && r.eff.unseen <= live
      && (Level(p, e) > 0 && IsCallValue(e) ==> TargetsWithin(r.rets, us))
  }

  lemma {:induction false} ExprWithin(p: Program, k: nat, e: Expr, env: Env, sc: Scope, c: Context, d: Context,
                                      us: set<Variable>)
    requires Ready(p, k, env, sc) && WFExpr(p, k, e, sc.vis)
    requires sc.vis <= us && Within(env, us) && SameFor(c, d, us, sc.live)
    ensures Visit(p, k, e, env, sc, c) == Visit(p, k, e, env, sc, d)
    ensures ExprClaim(p, e, us, sc.live, c, Visit(p, k, e, env, sc, c))
    decreases k, e
  {
    match e
    case Const(_) =>
    case PtrConst(_, _) =>
    case AddrOf(_, _) => AddressWithin(p, k, e, env, sc, c, d, us);
    case Load(r) => LoadWithin(p, k, e, env, sc, c, d, us);
    case Assign(_, _, rhs) =>
      hide SameFor, Obeys, Within;
      ExprWithin(p, k, rhs, env, sc, c, d, us);
      var r1 := Visit(p, k, rhs, env, sc, c);
      if r1.Accept? {
        StoreWithin(p, k, e, r1.env, sc, c, d, r1.eff, r1.rets, us);
      }
    case Comma(a, b) => ThenWithin(p, k, e, a, b, env, sc, c, d, us);
    case Short(_, a, b) => ThenWithin(p, k, e, a, b, env, sc, c, d, us);
    case Op(_, args) =>
      hide SameFor, Obeys, Within;
      ArgsWithin(p, k, e, args, env, sc, c, d, us);
    case Call(_, args) =>
      hide SameFor, Obeys, Within, VisitCall;
      ArgsWithin(p, k, e, args, env, sc, c, d, us);
      var r1 := VisitArgs(p, k, e, args, env, sc, c);
      if r1.ArgsAccept? {
        CallWithin(p, k, e, r1.env, sc, c, d, r1.eff, r1.rets, us);
      }
  }

  lemma AddressWithin(p: Program, k: nat, e: Expr, env: Env, sc: Scope, c: Context, d: Context, us: set<Variable>)
    requires e.AddrOf? && Ready(p, k, env, sc) && WFExpr(p, k, e, sc.vis)
    requires sc.vis <= us && Within(env, us) && SameFor(c, d, us, sc.live)
    ensures Visit(p, k, e, env, sc, c) == Visit(p, k, e, env, sc, d)
    ensures ExprClaim(p, e, us, sc.live, c, Visit(p, k, e, env, sc, c))
  {
  }

  lemma LoadWithin(p: Program, k: nat, e: Expr, env: Env, sc: Scope, c: Context, d: Context, us: set<Variable>)
    requires e.Load? && Ready(p, k, env, sc) && WFExpr(p, k, e, sc.vis)
    requires sc.vis <= us && Within(env, us) && SameFor(c, d, us, sc.live)
    ensures Visit(p, k, e, env, sc, c) == Visit(p, k, e, env, sc, d)
    ensures ExprClaim(p, e, us, sc.live, c, Visit(p, k, e, env, sc, c))
  {
    hide SameFor, Obeys, Within, VisitRead;
    ReadWithin(env, c, d, e.r, sc.vis, us, sc.live);
    VisitReadSeen(env, c, e.r);
  }

  lemma StoreWithin(p: Program, k: nat, e: Expr, env: Env, sc: Scope, c: Context, d: Context, eff: Effect,
                    rets: set<Target>, us: set<Variable>)
    requires e.Assign? && Ready(p, k, env, sc) && WFExpr(p, k, e, sc.vis)
    requires Compatible(eff, c) && Compatible(eff, d) && GoodRets(p, e.rhs, rets, sc.live, env.Keys)
    requires sc.vis <= us && Within(env, us) && SameFor(c, d, us, sc.live)
    requires Obeys(eff, sc.live, us, c) && eff.unseen <= sc.live
    requires (Level(p, e.rhs) > 0 && IsCallValue(e.rhs) ==> TargetsWithin(rets, us))
    ensures VisitStore(p, k, e, env, sc, c, eff, rets) == VisitStore(p, k, e, env, sc, d, eff, rets)
    ensures ExprClaim(p, e, us, sc.live, c, VisitStore(p, k, e, env, sc, c, eff, rets))
  {
    hide VisitLhs, Obeys, Within, Compatible;
    var compound := e.compound.Some?;
    SameLhsContext(c, d, eff, compound, us, sc.live);
    VisitLhsSeen(env, LhsContext(c, eff, compound), eff, e.r, compound);
    LhsWithin(env, LhsContext(c, eff, compound), LhsContext(d, eff, compound), eff, e.r, compound, sc.vis, us, sc.live);
    var lhs := VisitLhs(env, LhsContext(c, eff, compound), eff, e.r, compound);
    if lhs.Some? { BothSidesObey(eff, lhs.value, sc.live, us, c, LhsContext(c, eff, compound)); }
    if RefLevel(e.r) > 0 {
      RhsWithin(p, k, e.rhs, env, sc.vis, rets, us);
      AssignedWithin(env, e.r, RhsPointees(env, e.rhs, rets), us);
    }
  }

  lemma SameLhsContext(c: Context, d: Context, eff: Effect, compound: bool, us: set<Variable>, live: set<Variable>)
    requires SameFor(c, d, us, live)
    ensures SameFor(LhsContext(c, eff, compound), LhsContext(d, eff, compound), us, live)
  {
  }

  lemma BothSidesObey(rhs: Effect, lhs: Effect, live: set<Variable>, us: set<Variable>, ctx: Context, lctx: Context)
    requires Obeys(rhs, live, us, ctx) && Obeys(lhs, live, us, lctx) && AllSeen(lhs)
    requires lctx.noRead == ctx.noRead && lctx.noWrite == ctx.noWrite
    ensures Obeys(BothSides(rhs, lhs), live, us, ctx) && BothSides(rhs, lhs).unseen == rhs.unseen
  {
  }

  lemma AssignedWithin(env: Env, r: Ref, pts: set<Target>, us: set<Variable>)
    requires Within(env, us) && TargetsWithin(pts, us)
    ensures Within(AssignFacts(env, r, pts), us)
  {
    hide Deref;
    var env' := AssignFacts(env, r, pts);
    forall v | v in env'
      ensures TargetsWithin(env'[v], us)
    {
      assert TargetsWithin(env[v], us);
    }
  }

  lemma {:induction false} ThenWithin(p: Program, k: nat, e: Expr, a: Expr, b: Expr, env: Env, sc: Scope, c: Context,
                                      d: Context, us: set<Variable>)
    requires a < e && b < e && (e == Comma(a, b) || (e.Short? && e.a == a && e.b == b))
    requires Ready(p, k, env, sc) && WFExpr(p, k, e, sc.vis)
    requires sc.vis <= us && Within(env, us) && SameFor(c, d, us, sc.live)
    ensures Visit(p, k, e, env, sc, c) == Visit(p, k, e, env, sc, d)
    ensures ExprClaim(p, e, us, sc.live, c, Visit(p, k, e, env, sc, c))
    decreases k, e, 0
  {
    hide SameFor, Obeys, Within, EnvWF, Merge;
    ExprWithin(p, k, a, env, sc, c, d, us);
    var r1 := Visit(p, k, a, env, sc, c);
    if r1.Accept? {
      ExprWithin(p, k, b, r1.env, sc, c, d, us);
      var r2 := Visit(p, k, b, r1.env, sc, c);
      if r2.Accept? {
        ObeysPlus(r1.eff, r2.eff, sc.live, us, c);
        MergeWithin(r2.env, r1.env, us);
      }
    }
  }

  lemma MergeWithin(env1: Env, env2: Env, us: set<Variable>)
    requires Within(env1, us) && Within(env2, us)
    ensures Within(Merge(env1, env2), us)
  {
  }

  ghost predicate RetsWithin(p: Program, args: seq<Expr>, rets: seq<set<Target>>, us: set<Variable>) {
    && |rets| == |args|
    && forall i :: 0 <= i < |args| && Level(p, args[i]) > 0 && IsCallValue(args[i]) ==> TargetsWithin(rets[i], us)
  }

  lemma {:induction false} ArgsWithin(p: Program, k: nat, e: Expr, args: seq<Expr>, env: Env, sc: Scope, c: Context,
                                      d: Context, us: set<Variable>)
    requires Ready(p, k, env, sc)
    requires forall i :: 0 <= i < |args| ==> args[i] < e && WFExpr(p, k, args[i], sc.vis)
    requires sc.vis <= us && Within(env, us) && SameFor(c, d, us, sc.live)
    ensures VisitArgs(p, k, e, args, env, sc, c) == VisitArgs(p, k, e, args, env, sc, d)
    ensures var r := VisitArgs(p, k, e, args, env, sc, c);
            r.ArgsAccept? ==>
              && Within(r.env, us) && Obeys(r.eff, sc.live, us, c) && r.eff.unseen <= sc.live
              && RetsWithin(p, args, r.rets, us)
    decreases k, e, |args|
  {
    hide Visit, WFExpr, Within, TargetsWithin, SameFor, Obeys, RetsWithin, EnvWF, Level, IsCallValue, WFProgram,
         NamesBelow, Compatible, GoodRets;
    if args == [] {
      NothingObeys(sc.live, us, c);
      OneMoreRets(p, args, {}, [], us);
    } else {
      ExprWithin(p, k, args[0], env, sc, c, d, us);
      var r1 := Visit(p, k, args[0], env, sc, c);
      if r1.Accept? {
        AfterFirst(c, d, us, sc.live, r1.eff);
        var c1 := c.(eff := Plus(c.eff, r1.eff));
        ArgsWithin(p, k, e, args[1..], r1.env, sc, c1, d.(eff := Plus(d.eff, r1.eff)), us);
        var r2 := VisitArgs(p, k, e, args[1..], r1.env, sc, c1);
        if r2.ArgsAccept? {
          ObeysPlus(r1.eff, r2.eff, sc.live, us, c);
          OneMoreRets(p, args, r1.rets, r2.rets, us);
        }
      }
    }
  }

  lemma AfterFirst(c: Context, d: Context, us: set<Variable>, live: set<Variable>, eff: Effect)
    requires SameFor(c, d, us, live)
    ensures SameFor(c.(eff := Plus(c.eff, eff)), d.(eff := Plus(d.eff, eff)), us, live)
    ensures forall x: Effect :: Obeys(x, live, us, c.(eff := Plus(c.eff, eff))) ==> Obeys(x, live, us, c)
  {
  }

  lemma OneMoreRets(p: Program, args: seq<Expr>, one: set<Target>, rest: seq<set<Target>>, us: set<Variable>)
    requires args != [] ==> RetsWithin(p, args[1..], rest, us)
    requires args != [] && Level(p, args[0]) > 0 && IsCallValue(args[0]) ==> TargetsWithin(one, us)
    ensures args == [] ==> RetsWithin(p, args, [], us)
    ensures args != [] ==> RetsWithin(p, args, [one] + rest, us)
  {
    if args != [] {
      forall i | 0 <= i < |args| && Level(p, args[i]) > 0 && IsCallValue(args[i])
        ensures TargetsWithin(([one] + rest)[i], us)
      {
        if i > 0 { assert args[i] == args[1..][i - 1]; }
      }
    }
  }

  // --- calls

  /** What a called function can name or reach. */
  function Reachable(globals: set<Variable>, params: set<Variable>, kept: Env, live: set<Variable>): set<Variable> {
    globals + params + FrameVars(kept, live)
  }

  lemma {:induction false} ParamFactsWithin(p: Program, k: nat, env: Env, vis: set<Variable>, params: seq<Variable>,
                                            args: seq<Expr>, rets: seq<set<Target>>, us: set<Variable>)
    requires ArgsWF(p, k, args, params, vis) && vis <= us && Within(env, us) && RetsWithin(p, args, rets, us)
    ensures Within(ParamFacts(env, params, args, rets), us)
    decreases |params|
  {
    if params != [] {
      ParamFactsWithin(p, k, env, vis, params[1..], args[1..], rets[1..], us);
      if params[0].level > 0 { RhsWithin(p, k, args[0], env, vis, rets[0], us); }
    }
  }

  /** The facts handed over mention only what the function can reach; and of that, only what the caller could reach
    * exists outside. */
  lemma HandedWithin(p: Program, k: nat, e: Expr, env: Env, sc: Scope, rets: seq<set<Target>>, us: set<Variable>)
    requires e.Call? && Ready(p, k, env, sc) && WFExpr(p, k, e, sc.vis) && GoodArgs(p, e.args, rets, sc.live, env.Keys)
    requires sc.vis <= us && Within(env, us) && RetsWithin(p, e.args, rets, us)
    ensures var f := p.funcs[e.f];
            var kept := HandOver(p.globals, env, f, e.args, rets);
            var all := Reachable(p.globals, Elems(f.params), kept, sc.live);
            && Within(kept, all) && FrameVars(kept, sc.live) <= us && all * sc.live <= us
  {
    CallArgsWF(p, k, e, sc.vis);
    hide Reach, ParamFacts, WFExpr;
    var f := p.funcs[e.f];
    HandOverReady(p, k, env, sc, e.f, e.args, rets);
    ParamFactsWithin(p, k, env, sc.vis, f.params, e.args, rets, us);
    var bound, kept := env + ParamFacts(env, f.params, e.args, rets), HandOver(p.globals, env, f, e.args, rets);
    forall u, v | u in kept && Obj(v) in kept[u]
      ensures v in us && v in sc.live + Elems(f.params)
    {
      assert kept[u] == bound[u];
      assert TargetsWithin(bound[u], us);
      assert GoodTarget(Obj(v), u.level, sc.live + Elems(f.params), kept.Keys);
    }
  }

  lemma CallArgsWF(p: Program, k: nat, e: Expr, vis: set<Variable>)
    requires e.Call? && WFExpr(p, k, e, vis)
    ensures e.f < |p.funcs| && e.f < k && ArgsWF(p, k, e.args, p.funcs[e.f].params, vis)
  {
  }

  /** Filtered or not, the directives that a called function is handed say the same of what it can reach. */
  lemma FilterKeeps(c: Context, d: Context, f: nat, globals: set<Variable>, ps: set<Variable>, kept: Env,
                    live: set<Variable>, us: set<Variable>)
    requires SameFor(c, d, us, live) && live !! ps && globals <= live && globals <= us && FrameVars(kept, live) <= us
    ensures SameFor(CalleeContext(c, f, globals, kept, live), CalleeContext(d, f, globals, kept, live),
                    Reachable(globals, ps, kept, live), live + ps)
    ensures forall eff: Effect :: Obeys(eff, live + ps, Reachable(globals, ps, kept, live),
                                        CalleeContext(c, f, globals, kept, live)) ==>
                            Obeys(Visible(eff, live), live, us, c)
  {
    var c1, d1, all := CalleeContext(c, f, globals, kept, live), CalleeContext(d, f, globals, kept, live),
                       Reachable(globals, ps, kept, live);
    forall eff: Effect | Obeys(eff, live + ps, all, c1)
      ensures Obeys(Visible(eff, live), live, us, c)
    {
      forall v | v in live
        ensures v in eff.rds ==> v in us && v !in c.noRead
        ensures v in eff.wrs ==> v in us && v !in c.noWrite && !v.isConst
        ensures v in eff.unseen && !eff.bare ==> v in c.noWrite
      {
        assert v in live + ps;
      }
    }
  }

  lemma {:induction false} CallWithin(p: Program, k: nat, e: Expr, env: Env, sc: Scope, c: Context, d: Context,
                                      eff: Effect, rets: seq<set<Target>>, us: set<Variable>)
    requires e.Call? && Ready(p, k, env, sc) && WFExpr(p, k, e, sc.vis)
    requires Compatible(eff, c) && Compatible(eff, d) && GoodArgs(p, e.args, rets, sc.live, env.Keys)
    requires sc.vis <= us && Within(env, us) && SameFor(c, d, us, sc.live)
    requires Obeys(eff, sc.live, us, c) && eff.unseen <= sc.live && RetsWithin(p, e.args, rets, us)
    ensures VisitCall(p, k, e, env, sc, c, eff, rets) == VisitCall(p, k, e, env, sc, d, eff, rets)
    ensures ExprClaim(p, e, us, sc.live, c, VisitCall(p, k, e, env, sc, c, eff, rets))
    decreases k, e, 0
  {
    CallArgsWF(p, k, e, sc.vis);
    HandOverReady(p, k, env, sc, e.f, e.args, rets);
    FunctionWF(p, k, e.f, env, sc);
    hide *;
    var f := p.funcs[e.f];
    var kept, ps := HandOver(p.globals, env, f, e.args, rets), Elems(f.params);
    var all := Reachable(p.globals, ps, kept, sc.live);
    HandedWithin(p, k, e, env, sc, rets, us);
    InScope(p, k, env, sc, us);
    FilterKeeps(c, d, e.f, p.globals, ps, kept, sc.live, us);
    var c1, d1 := CalleeContext(c, e.f, p.globals, kept, sc.live), CalleeContext(d, e.f, p.globals, kept, sc.live);
    InReach(p, f, kept, sc);
    BlockWithin(p, e.f, f.level, f.body, kept, CalleeScope(p, f, sc), c1, d1, false, all);
    var body := VisitBlock(p, e.f, f.level, f.body, kept, CalleeScope(p, f, sc), c1, false);
    CallIs(p, k, e, env, sc, c, eff, rets, kept, body);
    CallIs(p, k, e, env, sc, d, eff, rets, kept, body);
    if body.StmtAccept? {
      ClaimObeys(f.level, all, sc.live + ps, c1, body);
      BackWithin(p, e.f, env, sc, c1, kept, body, all, us);
      ObeysWithoutLhs(eff, sc.live, us, c);
      ObeysPlus(eff.(lhs := {}), Visible(body.eff, sc.live), sc.live, us, c);
    }
    CallClaim(p, e, us, sc.live, c, eff, body, VisitCall(p, k, e, env, sc, c, eff, rets));
  }

  lemma ObeysWithoutLhs(eff: Effect, live: set<Variable>, us: set<Variable>, ctx: Context)
    requires Obeys(eff, live, us, ctx)
    ensures Obeys(eff.(lhs := {}), live, us, ctx)
  {
  }

  lemma InReach(p: Program, f: Function, kept: Env, sc: Scope)
    ensures CalleeScope(p, f, sc).vis <= Reachable(p.globals, Elems(f.params), kept, sc.live)
    ensures CalleeScope(p, f, sc).live == sc.live + Elems(f.params)
  {
  }

  lemma InScope(p: Program, k: nat, env: Env, sc: Scope, us: set<Variable>)
    requires Ready(p, k, env, sc) && sc.vis <= us
    ensures p.globals <= sc.live && p.globals <= us
  {
  }

  lemma FunctionWF(p: Program, k: nat, f: nat, env: Env, sc: Scope)
    requires Ready(p, k, env, sc) && f < |p.funcs| && sc.live !! FuncNames(p.funcs[f])
    ensures WFFunction(p, f) && sc.live !! Elems(p.funcs[f].params)
    ensures WFBlock(p, f, p.funcs[f].level, p.funcs[f].body, CalleeScope(p, p.funcs[f], sc).vis, false)
    ensures Own(p, f, BlockNames(p.funcs[f].body), CalleeScope(p, p.funcs[f], sc))
  {
    hide WFBlock, MustReturn;
    assert WFFunction(p, f);
  }

  /** What is made of the visit of a callee's body. */
  lemma CallIs(p: Program, k: nat, e: Expr, env: Env, sc: Scope, ctx: Context, eff: Effect, rets: seq<set<Target>>,
               kept: Env, body: StmtVerdict)
    requires e.Call? && Ready(p, k, env, sc) && WFExpr(p, k, e, sc.vis)
    requires Compatible(eff, ctx) && GoodArgs(p, e.args, rets, sc.live, env.Keys)
    requires e.f < |p.funcs| && |p.funcs[e.f].params| == |e.args| == |rets|
    requires kept == HandOver(p.globals, env, p.funcs[e.f], e.args, rets)
    requires Ready(p, e.f, kept, CalleeScope(p, p.funcs[e.f], sc))
    requires WFBlock(p, e.f, p.funcs[e.f].level, p.funcs[e.f].body, CalleeScope(p, p.funcs[e.f], sc).vis, false)
    requires Own(p, e.f, BlockNames(p.funcs[e.f].body), CalleeScope(p, p.funcs[e.f], sc))
    requires body == VisitBlock(p, e.f, p.funcs[e.f].level, p.funcs[e.f].body, kept, CalleeScope(p, p.funcs[e.f], sc),
                                CalleeContext(ctx, e.f, p.globals, kept, sc.live), false)
    ensures StmtVisited(p.funcs[e.f].level, kept, CalleeScope(p, p.funcs[e.f], sc),
                        CalleeContext(ctx, e.f, p.globals, kept, sc.live), body)
    ensures VisitCall(p, k, e, env, sc, ctx, eff, rets) ==
              if body.StmtReject? then Reject
              else Accept(TakeBack(env, p.funcs[e.f], body), Plus(eff.(lhs := {}), Visible(body.eff, sc.live)),
                          RetTargets(body.ret))
  {
    hide VisitBlock, HandOver, TakeBack, WFBlock, MustReturn, EnvWF, GoodArgs, Plus, Visible, CalleeContext, Compatible;
  }

  lemma ClaimObeys(level: nat, us: set<Variable>, live: set<Variable>, ctx: Context, r: StmtVerdict)
    requires r.StmtAccept? && StmtClaim(level, us, live, ctx, r)
    ensures Obeys(r.eff, live, us, ctx)
  {
  }

  lemma CallClaim(p: Program, e: Expr, us: set<Variable>, live: set<Variable>, ctx: Context, eff: Effect,
                  body: StmtVerdict, r: Verdict)
    requires e.Call? && e.f < |p.funcs| && eff.unseen <= live
    requires body.StmtAccept? ==>
               && r.Accept? && Within(r.env, us) && r.eff == Plus(eff.(lhs := {}), Visible(body.eff, live))
               && Obeys(r.eff, live, us, ctx)
               && (p.funcs[e.f].level > 0 ==> TargetsWithin(r.rets, us))
    requires body.StmtReject? ==> r == Reject
    ensures ExprClaim(p, e, us, live, ctx, r)
  {
  }

  /** What comes back from a call mentions only what could be reached. */
  lemma BackWithin(p: Program, f: nat, env: Env, sc: Scope, ctx: Context, kept: Env, body: StmtVerdict,
                   all: set<Variable>, us: set<Variable>)
    requires f < |p.funcs| && body.StmtAccept? && Within(env, us) && sc.live !! Elems(p.funcs[f].params)
    requires StmtVisited(p.funcs[f].level, kept, CalleeScope(p, p.funcs[f], sc), ctx, body)
    requires StmtClaim(p.funcs[f].level, all, sc.live + Elems(p.funcs[f].params), ctx, body) && all * sc.live <= us
    ensures Within(TakeBack(env, p.funcs[f], body), us)
    ensures p.funcs[f].level > 0 ==> TargetsWithin(RetTargets(body.ret), us)
  {
    hide MergeAll, OutOfScope;
    var fn := p.funcs[f];
    var ps := Elems(fn.params);
    assert sc.live + ps - ps == sc.live;
    OutOfScopeWF(ps, body.env, sc.live);
    OutOfScopeWithin(ps, body.env, all);
    WithinMore(OutOfScope(ps, body.env), all - ps, all);
    WithinLive(OutOfScope(ps, body.env), all, sc.live, us);
    forall i | 0 <= i < |body.ret|
      ensures Within(RetEnvs(body.ret)[i], us)
    {
      WithinLive(body.ret[i].env, all, sc.live, us);
    }
    MergeAllWithin(OutOfScope(ps, body.env), RetEnvs(body.ret), us);
    if fn.level > 0 {
      forall i | 0 <= i < |body.ret|
        ensures TargetsWithin(body.ret[i].pts, us)
      {
        TargetsLive(body.ret[i].pts, all, fn.level, sc.live, kept.Keys - ps, us);
      }
      RetTargetsWithin(body.ret, us);
    }
  }

  lemma {:induction false} RetTargetsWithin(rets: seq<RetFact>, us: set<Variable>)
    requires forall i :: 0 <= i < |rets| ==> TargetsWithin(rets[i].pts, us)
    ensures TargetsWithin(RetTargets(rets), us)
    decreases |rets|
  {
    if rets != [] { RetTargetsWithin(rets[1..], us); }
  }

  // --- statements

  ghost predicate StmtClaim(level: nat, us: set<Variable>, live: set<Variable>, ctx: Context, r: StmtVerdict) {
    r.StmtAccept? ==>
      && Within(r.env, us) && AllWithin(r.brk, us) && AllWithin(r.cont, us) && Obeys(r.eff, live, us, ctx)
      && forall i :: 0 <= i < |r.ret| ==> Within(r.ret[i].env, us) && (level > 0 ==> TargetsWithin(r.ret[i].pts, us))
  }

  lemma {:induction false} StmtWithin(p: Program, k: nat, level: nat, s: Stmt, env: Env, sc: Scope, c: Context,
                                      d: Context, inLoop: bool, us: set<Variable>)
    requires Ready(p, k, env, sc) && WFStmt(p, k, level, s, sc.vis, inLoop) && Own(p, k, StmtNames(s), sc)
    requires sc.vis <= us && Within(env, us) && SameFor(c, d, us, sc.live)
    ensures VisitStmt(p, k, level, s, env, sc, c, inLoop) == VisitStmt(p, k, level, s, env, sc, d, inLoop)
    ensures StmtClaim(level, us, sc.live, c, VisitStmt(p, k, level, s, env, sc, c, inLoop))
    decreases k, s
  {
    hide Visit, SameFor, Obeys, Within;
    match s
    case ExprStmt(e) => ExprWithin(p, k, e, env, sc, c, d, us);
    case Break(e) =>
      ExprWithin(p, k, e, env, sc, c, d, us);
      LeftWithin(sc.loop, Visit(p, k, e, env, sc, c), us);
    case Continue(e) =>
      ExprWithin(p, k, e, env, sc, c, d, us);
      LeftWithin(sc.loop, Visit(p, k, e, env, sc, c), us);
    case Return(e) =>
      ExprWithin(p, k, e, env, sc, c, d, us);
      ReturnWithin(p, k, level, e, sc, c, Visit(p, k, e, env, sc, c), us);
    case If(_, _, _) => IfWithin(p, k, level, s, env, sc, c, d, inLoop, us);
    case For(_, _, _, _, _, _, _) => ForWithin(p, k, level, s, env, sc, c, d, inLoop, us);
  }

  lemma LeftWithin(dead: set<Variable>, r: Verdict, us: set<Variable>)
    requires r.Accept? ==> Within(r.env, us)
    ensures r.Accept? ==> AllWithin([OutOfScope(dead, r.env)], us)
  {
    if r.Accept? {
      OutOfScopeWithin(dead, r.env, us);
      WithinMore(OutOfScope(dead, r.env), us - dead, us);
    }
  }

  lemma ReturnWithin(p: Program, k: nat, level: nat, e: Expr, sc: Scope, ctx: Context, r: Verdict, us: set<Variable>)
    requires r.Accept? ==> Ready(p, k, r.env, sc) && WFExpr(p, k, e, sc.vis) && Level(p, e) == level
                           && Compatible(r.eff, ctx) && GoodRets(p, e, r.rets, sc.live, r.env.Keys)
    requires sc.vis <= us && (e.Load? || e.AddrOf?) && ExprClaim(p, e, us, sc.live, ctx, r)
    ensures r.Accept? ==> StmtClaim(level, us, sc.live, ctx, VisitReturn(p, k, level, e, r.env, sc, ctx, r.eff, r.rets))
  {
    if r.Accept? {
      hide OutOfScope, RhsPointees, Obeys;
      LeftWithin(sc.func, r, us);
      assert AllWithin([OutOfScope(sc.func, r.env)], us);
      assert Within([OutOfScope(sc.func, r.env)][0], us);
      RhsWithin(p, k, e, r.env, sc.vis, r.rets, us);
    }
  }

  lemma {:induction false} IfWithin(p: Program, k: nat, level: nat, s: Stmt, env: Env, sc: Scope, c: Context,
                                    d: Context, inLoop: bool, us: set<Variable>)
    requires s.If? && Ready(p, k, env, sc) && WFStmt(p, k, level, s, sc.vis, inLoop) && Own(p, k, StmtNames(s), sc)
    requires sc.vis <= us && Within(env, us) && SameFor(c, d, us, sc.live)
    ensures VisitStmt(p, k, level, s, env, sc, c, inLoop) == VisitStmt(p, k, level, s, env, sc, d, inLoop)
    ensures StmtClaim(level, us, sc.live, c, VisitStmt(p, k, level, s, env, sc, c, inLoop))
    decreases k, s, 1, 0
  {
    hide Visit, VisitBlock, WFBlock, SameFor, MustReturn, Within, Merge, Plus, Obeys, StmtClaim;
    ExprWithin(p, k, s.test, env, sc, c, d, us);
    var t := Visit(p, k, s.test, env, sc, c);
    RejectClaims(level, us, sc.live, c);
    if t.Accept? {
      BlockWithin(p, k, level, s.thn, t.env, sc, c, d, inLoop, us);
      BlockWithin(p, k, level, s.els, t.env, sc, c, d, inLoop, us);
      var r1 := VisitBlock(p, k, level, s.thn, t.env, sc, c, inLoop);
      var r2 := VisitBlock(p, k, level, s.els, t.env, sc, c, inLoop);
      BranchesWithin(level, s, env, t.eff, r1, r2, sc, c, us);
    }
  }

  lemma BranchesWithin(level: nat, s: Stmt, env: Env, eff: Effect, r1: StmtVerdict, r2: StmtVerdict, sc: Scope,
                       ctx: Context, us: set<Variable>)
    requires s.If? && EnvWF(env, sc.live) && Compatible(eff, ctx)
    requires StmtVisited(level, env, sc, ctx, r1) && StmtVisited(level, env, sc, ctx, r2)
    requires Within(env, us) && Obeys(eff, sc.live, us, ctx)
    requires StmtClaim(level, us, sc.live, ctx, r1) && StmtClaim(level, us, sc.live, ctx, r2)
    ensures StmtClaim(level, us, sc.live, ctx, JoinBranches(s, env, eff, r1, r2, level, sc, ctx))
  {
    hide MustReturn, Within, Merge, Plus, Obeys;
    if r1.StmtAccept? && r2.StmtAccept? {
      MergeWithin(r1.env, r2.env, us);
      ObeysPlus(r1.eff, r2.eff, sc.live, us, ctx);
      ObeysPlus(eff, Plus(r1.eff, r2.eff), sc.live, us, ctx);
    }
  }

  lemma {:induction false} ForWithin(p: Program, k: nat, level: nat, s: Stmt, env: Env, sc: Scope, c: Context,
                                     d: Context, inLoop: bool, us: set<Variable>)
    requires s.For? && Ready(p, k, env, sc) && WFStmt(p, k, level, s, sc.vis, inLoop) && Own(p, k, StmtNames(s), sc)
    requires sc.vis <= us && Within(env, us) && SameFor(c, d, us, sc.live)
    ensures VisitStmt(p, k, level, s, env, sc, c, inLoop) == VisitStmt(p, k, level, s, env, sc, d, inLoop)
    ensures StmtClaim(level, us, sc.live, c, VisitStmt(p, k, level, s, env, sc, c, inLoop))
    decreases k, s, 1, 0
  {
    hide VisitLoop, WFBlock, Within, SameFor, StmtClaim, LeaveLoop, Obeys;
    ChecksAgree(env, c, d, us, sc.live, {s.iv});
    RejectClaims(level, us, sc.live, c);
    if CheckWrite(c, s.iv) {
      LoopWithin(p, k, level, s, env, sc, c, d, us);
      var loop := VisitLoop(p, k, level, s, env, sc, c);
      LeftLoop(level, s, env, loop, sc, c, d, us);
    }
  }

  lemma LeftLoop(level: nat, s: Stmt, env: Env, loop: LoopVerdict, sc: Scope, c: Context, d: Context, us: set<Variable>)
    requires s.For? && EnvWF(env, sc.live) && CheckWrite(c, s.iv) && CheckWrite(d, s.iv) && s.iv in us
    requires LoopVisited(level, s, env, sc, c, loop) && LoopVisited(level, s, env, sc, d, loop) && Within(env, us)
    requires loop.LoopAccept? ==> Within(loop.entry, us) && StmtClaim(level, us, sc.live, BodyContext(c, s.iv), loop.r)
    ensures LeaveLoop(s, env, loop, level, sc, c) == LeaveLoop(s, env, loop, level, sc, d)
    ensures StmtClaim(level, us, sc.live, c, LeaveLoop(s, env, loop, level, sc, c))
  {
    hide MustReturn, Within, MergeJumps, StmtVisited, EnvWF;
    if loop.LoopAccept? {
      MergeJumpsWithin(if MustReturn(s.body, true) then env else loop.entry, loop.r.brk, us);
    }
  }

  lemma {:induction false} StmtsWithin(p: Program, k: nat, level: nat, b: Block, i: nat, env: Env, sc: Scope,
                                       c: Context, d: Context, inLoop: bool, us: set<Variable>)
    requires i <= |b.stms|
    requires Ready(p, k, env, sc) && WFStmts(p, k, level, b, i, sc.vis, inLoop) && Own(p, k, StmtsNames(b, i), sc)
    requires sc.vis <= us && Within(env, us) && SameFor(c, d, us, sc.live)
    ensures VisitStmts(p, k, level, b, i, env, sc, c, inLoop) == VisitStmts(p, k, level, b, i, env, sc, d, inLoop)
    ensures StmtClaim(level, us, sc.live, c, VisitStmts(p, k, level, b, i, env, sc, c, inLoop))
    decreases k, b, |b.stms| - i
  {
    hide VisitStmt, SameFor, Within, Obeys, Plus, StmtClaim;
    RejectClaims(level, us, sc.live, c);
    if i == |b.stms| {
      NothingClaimed(level, env, us, sc.live, c);
    } else {
      StmtWithin(p, k, level, b.stms[i], env, sc, c, d, inLoop, us);
      var r1 := VisitStmt(p, k, level, b.stms[i], env, sc, c, inLoop);
      if r1.StmtAccept? {
        OpenClaim(level, us, sc.live, c, r1);
        StmtsWithin(p, k, level, b, i + 1, r1.env, sc, c, d, inLoop, us);
        var r2 := VisitStmts(p, k, level, b, i + 1, r1.env, sc, c, inLoop);
        BothClaims(level, us, sc.live, c, r1, r2);
      }
    }
  }

  lemma OpenClaim(level: nat, us: set<Variable>, live: set<Variable>, ctx: Context, r: StmtVerdict)
    requires r.StmtAccept? && StmtClaim(level, us, live, ctx, r)
    ensures Within(r.env, us)
  {
  }

  lemma BothClaims(level: nat, us: set<Variable>, live: set<Variable>, ctx: Context, r1: StmtVerdict, r2: StmtVerdict)
    requires r1.StmtAccept? && StmtClaim(level, us, live, ctx, r1) && StmtClaim(level, us, live, ctx, r2)
    ensures r2.StmtAccept? ==>
              StmtClaim(level, us, live, ctx,
                        StmtAccept(r2.env, r1.brk + r2.brk, r1.cont + r2.cont, r1.ret + r2.ret, Plus(r1.eff, r2.eff)))
  {
    hide Within, Obeys;
    if r2.StmtAccept? { ObeysPlus(r1.eff, r2.eff, live, us, ctx); }
  }

  lemma NothingClaimed(level: nat, env: Env, us: set<Variable>, live: set<Variable>, ctx: Context)
    requires Within(env, us)
    ensures StmtClaim(level, us, live, ctx, StmtAccept(env, [], [], [], NO_EFFECT))
  {
  }

  lemma NothingObeys(live: set<Variable>, us: set<Variable>, ctx: Context)
    ensures Obeys(NO_EFFECT, live, us, ctx)
  {
  }

  lemma InitWithin(p: Program, k: nat, level: nat, b: Block, env: Env, vis: set<Variable>, inLoop: bool,
                   us: set<Variable>)
    requires WFBlock(p, k, level, b, vis, inLoop) && vis <= us && Within(env, us)
    ensures Within(env + InitFacts(b.locals), us + b.locals.Keys)
  {
    hide WFStmts;
    var env1 := env + InitFacts(b.locals);
    forall v | v in env1
      ensures TargetsWithin(env1[v], us + b.locals.Keys)
    {
      if v in b.locals && v.level > 0 {
        forall t: Target | t in env1[v] && t.Obj?
          ensures t.v in us + b.locals.Keys
        {
          var j :| 0 <= j < |b.locals[v]| && t == InitTarget(b.locals[v][j]);
          assert WFInit(v, b.locals[v][j], vis + b.locals.Keys);
        }
      } else {
        assert TargetsWithin(env[v], us);
      }
    }
  }

  lemma SameInside(c: Context, d: Context, us: set<Variable>, live: set<Variable>, names: set<Variable>)
    requires SameFor(c, d, us, live) && names !! live
    ensures SameFor(c, d, us + names, live + names)
  {
  }

  /** Seen from outside, a block concerns nothing that was not there before. */
  lemma ClosedWithin(level: nat, names: set<Variable>, keys: set<Variable>, sc: Scope, us: set<Variable>, ctx: Context,
                     r: StmtVerdict)
    requires r.StmtAccept? && names !! sc.live && EnvWF(r.env, sc.live + names)
    requires StmtClaim(level, us + names, sc.live + names, ctx, r)
    requires AllWF(r.brk, sc.live - sc.loop, keys - sc.loop) && AllWF(r.cont, sc.live - sc.loop, keys - sc.loop)
    requires RetsGood(r.ret, level, sc.live - sc.func, keys - sc.func)
    ensures StmtClaim(level, us, sc.live, ctx, r.(env := OutOfScope(names, r.env)))
  {
    hide OutOfScope;
    var more := us + names;
    OutOfScopeWithin(names, r.env, more);
    WithinMore(OutOfScope(names, r.env), more - names, us);
    forall i | 0 <= i < |r.brk|
      ensures Within(r.brk[i], us)
    {
      WithinLive(r.brk[i], more, sc.live - sc.loop, us);
    }
    forall i | 0 <= i < |r.cont|
      ensures Within(r.cont[i], us)
    {
      WithinLive(r.cont[i], more, sc.live - sc.loop, us);
    }
    forall i | 0 <= i < |r.ret|
      ensures Within(r.ret[i].env, us) && (level > 0 ==> TargetsWithin(r.ret[i].pts, us))
    {
      WithinLive(r.ret[i].env, more, sc.live - sc.func, us);
    }
  }

  lemma {:induction false} BlockWithin(p: Program, k: nat, level: nat, b: Block, env: Env, sc: Scope, c: Context,
                                       d: Context, inLoop: bool, us: set<Variable>)
    requires Ready(p, k, env, sc) && WFBlock(p, k, level, b, sc.vis, inLoop) && Own(p, k, BlockNames(b), sc)
    requires sc.vis <= us && Within(env, us) && SameFor(c, d, us, sc.live)
    ensures VisitBlock(p, k, level, b, env, sc, c, inLoop) == VisitBlock(p, k, level, b, env, sc, d, inLoop)
    ensures StmtClaim(level, us, sc.live, c, VisitBlock(p, k, level, b, env, sc, c, inLoop))
    decreases k, b
  {
    hide VisitStmts, WFStmts, SameFor, Within, StmtClaim, StmtsNames;
    var names := b.locals.Keys;
    var sc1, env1 := Inner(sc, names), env + InitFacts(b.locals);
    EnterWF(p, k, level, b, env, sc, inLoop);
    InitWithin(p, k, level, b, env, sc.vis, inLoop, us);
    SameInside(c, d, us, sc.live, names);
    StmtsWithin(p, k, level, b, 0, env1, sc1, c, d, inLoop, us + names);
    var r := VisitStmts(p, k, level, b, 0, env1, sc1, c, inLoop);
    if r.StmtAccept? {
      InnerSets(sc, names, env.Keys, env1.Keys);
      ClosedWithin(level, names, env.Keys, sc, us, c, r);
    } else {
      RejectClaims(level, us, sc.live, c);
    }
  }

  lemma RejectClaims(level: nat, us: set<Variable>, live: set<Variable>, ctx: Context)
    ensures StmtClaim(level, us, live, ctx, StmtReject)
  {
  }

  lemma LoopContexts(c: Context, d: Context, us: set<Variable>, live: set<Variable>, iv: Variable)
    requires SameFor(c, d, us, live) && iv in live
    ensures SameFor(BodyContext(c, iv), BodyContext(d, iv), us, live)
    ensures forall eff: Effect ::
              Obeys(eff, live, us, BodyContext(c, iv)) ==> Obeys(eff.(unseen := eff.unseen - {iv}), live, us, c)
  {
  }

  lemma {:induction false} LoopWithin(p: Program, k: nat, level: nat, s: Stmt, env: Env, sc: Scope, c: Context,
                                      d: Context, us: set<Variable>)
    requires s.For? && Ready(p, k, env, sc) && WFBlock(p, k, level, s.body, sc.vis, true)
    requires Own(p, k, BlockNames(s.body), sc)
    requires sc.vis <= us && Within(env, us) && SameFor(c, d, us, sc.live) && s.iv in sc.vis
    ensures VisitLoop(p, k, level, s, env, sc, c) == VisitLoop(p, k, level, s, env, sc, d)
    ensures var loop := VisitLoop(p, k, level, s, env, sc, c);
            loop.LoopAccept? ==> Within(loop.entry, us) && StmtClaim(level, us, sc.live, BodyContext(c, s.iv), loop.r)
    decreases k, s, 0, |Missing(env, sc.live)|
  {
    hide VisitBlock, WFBlock, BlockNames, SameFor, Within, Obeys, MergeAll, Missing, Plus, BackEdges, StmtClaim;
    LoopContexts(c, d, us, sc.live, s.iv);
    BlockWithin(p, k, level, s.body, env, BodyScope(sc), BodyContext(c, s.iv), BodyContext(d, s.iv), true, us);
    var r := VisitBlock(p, k, level, s.body, env, BodyScope(sc), BodyContext(c, s.iv), true);
    if r.StmtAccept? {
      BackEdgesWF(level, s.body, env, sc, BodyContext(c, s.iv), r);
      var next := MergeAll(env, BackEdges(s.body, r));
      if next != env {
        GrowingShrinksMissing(env, next, sc.live);
        EdgesWithin(level, s.body, r, us, sc.live, BodyContext(c, s.iv));
        MergeAllWithin(env, BackEdges(s.body, r), us);
        LoopWithin(p, k, level, s, next, sc, c, d, us);
        var loop := VisitLoop(p, k, level, s, next, sc, c);
        if loop.LoopAccept? {
          MorePasses(level, r, loop.r, us, sc.live, BodyContext(c, s.iv));
        }
      }
    }
  }

  lemma MorePasses(level: nat, r: StmtVerdict, rest: StmtVerdict, us: set<Variable>, live: set<Variable>, ctx: Context)
    requires r.StmtAccept? && StmtClaim(level, us, live, ctx, r) && rest.StmtAccept?
    requires StmtClaim(level, us, live, ctx, rest)
    ensures StmtClaim(level, us, live, ctx, rest.(eff := Plus(r.eff, rest.eff)))
  {
    ObeysPlus(r.eff, rest.eff, live, us, ctx);
  }

  lemma EdgesWithin(level: nat, b: Block, r: StmtVerdict, us: set<Variable>, live: set<Variable>, ctx: Context)
    requires r.StmtAccept? && StmtClaim(level, us, live, ctx, r)
    ensures AllWithin(BackEdges(b, r), us)
  {
  }
}
