/** Operands that are checked one after the other, each against the effects of those before it, end up independent of
  * each other: none writes what another reads or writes, and the facts each was checked with are right about all that
  * it touches, whichever of the others have run. */
module Operands {
  import opened Language
  import opened Facts
  import opened Effects
  import opened Analysis
  import opened Changes

  ghost predicate NoReject(vs: seq<Verdict>) {
    forall i :: 0 <= i < |vs| ==> vs[i].Accept?
  }

  /** Facts and context with which the i-th operand is visited. */
  function EnvAt(env: Env, vs: seq<Verdict>, i: nat): Env
    requires i <= |vs| && NoReject(vs)
  {
    if i == 0 then env else vs[i - 1].env
  }

  function CtxAt(ctx: Context, vs: seq<Verdict>, i: nat): Context
    requires i <= |vs| && NoReject(vs)
  {
    if i == 0 then ctx
    else var c := CtxAt(ctx, vs, i - 1); c.(eff := Plus(c.eff, vs[i - 1].eff))
  }

  /** The verdicts on all operands of an accepted list. */
  ghost predicate Trail(p: Program, k: nat, args: seq<Expr>, env: Env, sc: Scope, ctx: Context, vs: seq<Verdict>) {
    && |vs| == |args| && NoReject(vs) && Full(env)
    && forall i :: 0 <= i < |args| ==> Visits(p, k, args[i], EnvAt(env, vs, i), sc, CtxAt(ctx, vs, i), vs[i])
  }

  ghost predicate Visits(p: Program, k: nat, e: Expr, env: Env, sc: Scope, ctx: Context, r: Verdict) {
    && Ready(p, k, env, sc) && WFExpr(p, k, e, sc.vis) && r == Visit(p, k, e, env, sc, ctx)
    && ExprChange(p, e, env, r) && r.Accept? && r.env.Keys == env.Keys
  }

  /** Neither of two effects gets in the way of the other, as far as the checks can see. */
  ghost predicate Separate(a: Effect, b: Effect) {
    a.wrs !! b.wrs && a.wrs !! b.rds && a.rds !! b.wrs && !(a.vol && b.vol)
  }

  ghost predicate Undisturbed(a: Effect, b: Effect) {
    a.unseen !! b.wrs && a.wrs !! b.unseen
  }

  ghost predicate Pairwise(vs: seq<Verdict>)
    requires NoReject(vs)
  {
    forall i, j :: 0 <= i < |vs| && 0 <= j < |vs| && i != j ==> Separate(vs[i].eff, vs[j].eff)
  }

  ghost predicate NoClash(vs: seq<Verdict>)
    requires NoReject(vs)
  {
    && (forall i :: 0 <= i < |vs| ==> !vs[i].eff.clash)
    && forall i, j :: 0 <= i < |vs| && 0 <= j < |vs| && i != j ==> Undisturbed(vs[i].eff, vs[j].eff)
  }

  /** What the verdict on a list says of its operands. */
  ghost predicate Sums(vs: seq<Verdict>, eff: Effect, rets: seq<set<Target>>)
    requires NoReject(vs)
  {
    && |rets| == |vs| && (forall i :: 0 <= i < |vs| ==> rets[i] == vs[i].rets && Part(vs[i].eff, eff))
    && (forall i :: 0 <= i < |vs| ==> vs[i].eff.lhs <= eff.lhs)
    && (!eff.clash ==> NoClash(vs))
  }

  lemma {:induction false} AtCons(env: Env, ctx: Context, r: Verdict, vs: seq<Verdict>, i: nat)
    requires r.Accept? && NoReject(vs) && i <= |vs|
    ensures NoReject([r] + vs) && EnvAt(env, [r] + vs, 0) == env && CtxAt(ctx, [r] + vs, 0) == ctx
    ensures EnvAt(env, [r] + vs, i + 1) == EnvAt(r.env, vs, i)
    ensures CtxAt(ctx, [r] + vs, i + 1) == CtxAt(ctx.(eff := Plus(ctx.eff, r.eff)), vs, i)
    decreases i
  {
    hide Plus;
    if i > 0 { AtCons(env, ctx, r, vs, i - 1); }
  }

  lemma TrailCons(p: Program, k: nat, args: seq<Expr>, env: Env, sc: Scope, ctx: Context, r: Verdict, vs: seq<Verdict>)
    requires args != [] && Full(env) && Visits(p, k, args[0], env, sc, ctx, r)
    requires Trail(p, k, args[1..], r.env, sc, ctx.(eff := Plus(ctx.eff, r.eff)), vs)
    ensures Trail(p, k, args, env, sc, ctx, [r] + vs)
  {
    TrailAccepted(p, k, args[1..], r.env, sc, ctx.(eff := Plus(ctx.eff, r.eff)), vs);
    VisitsAccept(p, k, args[0], env, sc, ctx, r);
    hide Visits, Full, EnvAt, CtxAt, Plus;
    var all := [r] + vs;
    AtCons(env, ctx, r, vs, 0);
    forall i | 0 <= i < |args|
      ensures Visits(p, k, args[i], EnvAt(env, all, i), sc, CtxAt(ctx, all, i), all[i])
    {
      if i > 0 { TrailNext(p, k, args, env, sc, ctx, r, vs, i - 1); }
    }
  }

  lemma TrailNext(p: Program, k: nat, args: seq<Expr>, env: Env, sc: Scope, ctx: Context, r: Verdict, vs: seq<Verdict>,
                  i: nat)
    requires i + 1 < |args| && r.Accept? && Trail(p, k, args[1..], r.env, sc, ctx.(eff := Plus(ctx.eff, r.eff)), vs)
    ensures NoReject([r] + vs)
    ensures Visits(p, k, args[i + 1], EnvAt(env, [r] + vs, i + 1), sc, CtxAt(ctx, [r] + vs, i + 1), ([r] + vs)[i + 1])
  {
    hide Visits, Full, EnvAt, CtxAt, Plus;
    AtCons(env, ctx, r, vs, i);
    assert args[i + 1] == args[1..][i] && ([r] + vs)[i + 1] == vs[i];
  }

  lemma VisitsAccept(p: Program, k: nat, e: Expr, env: Env, sc: Scope, ctx: Context, r: Verdict)
    requires Visits(p, k, e, env, sc, ctx, r)
    ensures r.Accept?
  {
  }

  lemma SumsCons(r: Verdict, vs: seq<Verdict>, eff: Effect, rets: seq<set<Target>>)
    requires r.Accept? && NoReject(vs) && Sums(vs, eff, rets)
    ensures Sums([r] + vs, Unsequenced(r.eff, eff), [r.rets] + rets)
  {
    var all, sum := [r] + vs, Unsequenced(r.eff, eff);
    forall i | 0 <= i < |all|
      ensures Part(all[i].eff, sum) && ([r.rets] + rets)[i] == all[i].rets && all[i].eff.lhs <= sum.lhs
      ensures !sum.clash ==> !all[i].eff.clash
    {
      if i > 0 { assert all[i] == vs[i - 1] && Part(vs[i - 1].eff, eff); }
    }
    if !sum.clash {
      forall i, j | 0 <= i < |all| && 0 <= j < |all| && i != j
        ensures Undisturbed(all[i].eff, all[j].eff)
      {
        if i > 0 && j > 0 {
          assert Undisturbed(vs[i - 1].eff, vs[j - 1].eff);
        } else {
          assert Part(vs[if i > 0 then i - 1 else j - 1].eff, eff);
        }
      }
    }
  }

  lemma {:induction false} Unroll(p: Program, k: nat, e: Expr, args: seq<Expr>, env: Env, sc: Scope, ctx: Context)
    returns (vs: seq<Verdict>)
    requires Ready(p, k, env, sc) && Full(env)
    requires forall i :: 0 <= i < |args| ==> args[i] < e && WFExpr(p, k, args[i], sc.vis)
    requires VisitArgs(p, k, e, args, env, sc, ctx).ArgsAccept?
    ensures Trail(p, k, args, env, sc, ctx, vs)
    ensures var r := VisitArgs(p, k, e, args, env, sc, ctx); r.env == EnvAt(env, vs, |vs|) && Sums(vs, r.eff, r.rets)
    decreases |args|
  {
    hide Visit, Full, ExprChange, WFExpr, Sums, Trail;
    if args == [] {
      vs := NoVerdicts(p, k, env, sc, ctx);
    } else {
      var r := Visit(p, k, args[0], env, sc, ctx);
      ExprChanges(p, k, args[0], env, sc, ctx);
      assert Full(r.env) by { ChangeFull(p, args[0], env, r); }
      var ctx1 := ctx.(eff := Plus(ctx.eff, r.eff));
      var rest := Unroll(p, k, e, args[1..], r.env, sc, ctx1);
      TrailCons(p, k, args, env, sc, ctx, r, rest);
      TrailAccepted(p, k, args[1..], r.env, sc, ctx1, rest);
      var r2 := VisitArgs(p, k, e, args[1..], r.env, sc, ctx1);
      SumsCons(r, rest, r2.eff, r2.rets);
      vs := [r] + rest;
    }
  }

  lemma NoVerdicts(p: Program, k: nat, env: Env, sc: Scope, ctx: Context) returns (vs: seq<Verdict>)
    requires Full(env)
    ensures vs == [] && Trail(p, k, [], env, sc, ctx, vs) && Sums(vs, NO_EFFECT, [])
  {
    vs := [];
  }

  lemma ChangeFull(p: Program, e: Expr, env: Env, r: Verdict)
    requires ExprChange(p, e, env, r) && r.Accept?
    ensures Full(r.env)
  {
  }

  lemma TrailAccepted(p: Program, k: nat, args: seq<Expr>, env: Env, sc: Scope, ctx: Context, vs: seq<Verdict>)
    requires Trail(p, k, args, env, sc, ctx, vs)
    ensures |vs| == |args| && NoReject(vs)
  {
  }

  // --- what the checks have made sure of

  lemma {:induction false} CtxHas(ctx: Context, vs: seq<Verdict>, i: nat, j: nat)
    requires i < j <= |vs| && NoReject(vs)
    ensures Part(vs[i].eff, CtxAt(ctx, vs, j).eff)
    decreases j
  {
    if i < j - 1 { CtxHas(ctx, vs, i, j - 1); }
  }

  /** No operand gets in the way of another. */
  lemma TrailPairwise(p: Program, k: nat, args: seq<Expr>, env: Env, sc: Scope, ctx: Context, vs: seq<Verdict>)
    requires Trail(p, k, args, env, sc, ctx, vs)
    ensures Pairwise(vs)
  {
    hide Visit, ExprChange, Ready, WFExpr;
    forall i, j | 0 <= i < j < |vs|
      ensures Separate(vs[i].eff, vs[j].eff)
    {
      CtxHas(ctx, vs, i, j);
      assert Visits(p, k, args[j], EnvAt(env, vs, j), sc, CtxAt(ctx, vs, j), vs[j]);
      assert Compatible(vs[j].eff, CtxAt(ctx, vs, j));
    }
  }

  lemma TrailStep(p: Program, k: nat, args: seq<Expr>, env: Env, sc: Scope, ctx: Context, vs: seq<Verdict>, i: nat)
    requires Trail(p, k, args, env, sc, ctx, vs) && i < |vs|
    ensures var r, e1 := vs[i], EnvAt(env, vs, i);
            && Ready(p, k, e1, sc) && WFExpr(p, k, args[i], sc.vis)
            && r == Visit(p, k, args[i], e1, sc, CtxAt(ctx, vs, i))
            && r.Accept? && r.env == EnvAt(env, vs, i + 1) && r.env.Keys == e1.Keys
            && Full(r.env) && Kept(e1, r.env, r.eff.wrs)
  {
    hide Visit, Ready, WFExpr, Fills;
    assert Visits(p, k, args[i], EnvAt(env, vs, i), sc, CtxAt(ctx, vs, i), vs[i]);
  }

  lemma {:induction false} TrailFull(p: Program, k: nat, args: seq<Expr>, env: Env, sc: Scope, ctx: Context,
                                     vs: seq<Verdict>, i: nat)
    requires Trail(p, k, args, env, sc, ctx, vs) && i <= |vs|
    ensures Full(EnvAt(env, vs, i)) && EnvAt(env, vs, i).Keys == env.Keys
    decreases i
  {
    hide Visits, Visit, Ready, WFExpr, Full, Kept;
    if i > 0 {
      TrailFull(p, k, args, env, sc, ctx, vs, i - 1);
      TrailStep(p, k, args, env, sc, ctx, vs, i - 1);
    }
  }

  lemma FactStep(p: Program, k: nat, args: seq<Expr>, env: Env, sc: Scope, ctx: Context, vs: seq<Verdict>, i: nat,
                 v: Variable)
    requires Trail(p, k, args, env, sc, ctx, vs) && i < |vs| && v in env
    ensures EnvAt(env, vs, i + 1) == vs[i].env && v in vs[i].env && v in EnvAt(env, vs, i)
    ensures v !in vs[i].eff.wrs ==> vs[i].env[v] == EnvAt(env, vs, i)[v]
  {
    TrailFull(p, k, args, env, sc, ctx, vs, i);
    hide Visit, Ready, WFExpr, Full;
    TrailStep(p, k, args, env, sc, ctx, vs, i);
  }

  /** A fact stays as it is while its pointer is not written. */
  lemma {:induction false} FactStays(p: Program, k: nat, args: seq<Expr>, env: Env, sc: Scope, ctx: Context,
                                     vs: seq<Verdict>, i: nat, j: nat, v: Variable)
    requires Trail(p, k, args, env, sc, ctx, vs) && i <= j <= |vs| && v in env
    requires forall m :: i <= m < j ==> v !in vs[m].eff.wrs
    ensures v in EnvAt(env, vs, i) && v in EnvAt(env, vs, j) && EnvAt(env, vs, j)[v] == EnvAt(env, vs, i)[v]
    decreases j
  {
    hide *;
    if i < j {
      FactStays(p, k, args, env, sc, ctx, vs, i, j - 1, v);
      FactStep(p, k, args, env, sc, ctx, vs, j - 1, v);
    } else {
      TrailFull(p, k, args, env, sc, ctx, vs, i);
    }
  }

  ghost predicate WrittenBy(vs: seq<Verdict>, done: set<nat>, v: Variable)
    requires NoReject(vs)
  {
    exists j :: j in done && j < |vs| && v in vs[j].eff.wrs
  }

  /** The facts when just the operands in `done` have run. */
  ghost function Now(env: Env, vs: seq<Verdict>, done: set<nat>): Env
    requires NoReject(vs) && EnvAt(env, vs, |vs|).Keys == env.Keys
  {
    map v | v in env :: if WrittenBy(vs, done, v) then EnvAt(env, vs, |vs|)[v] else env[v]
  }

  /** Where an operand looks, the facts it was checked with are those of now; what it writes, no other operand does. */
  lemma OwnFacts(p: Program, k: nat, args: seq<Expr>, env: Env, sc: Scope, ctx: Context, vs: seq<Verdict>,
                 done: set<nat>, i: nat, v: Variable)
    requires Trail(p, k, args, env, sc, ctx, vs) && i < |vs| && i !in done && v in env
    requires v in vs[i].eff.rds + vs[i].eff.wrs
    ensures EnvAt(env, vs, |vs|).Keys == env.Keys == EnvAt(env, vs, i).Keys == vs[i].env.Keys
    ensures EnvAt(env, vs, i)[v] == Now(env, vs, done)[v] == env[v] && vs[i].env[v] == EnvAt(env, vs, |vs|)[v]
  {
    hide *;
    TrailAccepted(p, k, args, env, sc, ctx, vs);
    OthersElsewhere(p, k, args, env, sc, ctx, vs, i, v);
    TrailFull(p, k, args, env, sc, ctx, vs, i);
    TrailFull(p, k, args, env, sc, ctx, vs, i + 1);
    TrailFull(p, k, args, env, sc, ctx, vs, |vs|);
    FactStays(p, k, args, env, sc, ctx, vs, 0, i, v);
    FactStep(p, k, args, env, sc, ctx, vs, i, v);
    FactStays(p, k, args, env, sc, ctx, vs, i + 1, |vs|, v);
    AtStart(env, vs);
    NotYet(env, vs, done, i, v);
  }

  lemma AtStart(env: Env, vs: seq<Verdict>)
    requires NoReject(vs)
    ensures EnvAt(env, vs, 0) == env
  {
  }

  lemma NotYet(env: Env, vs: seq<Verdict>, done: set<nat>, i: nat, v: Variable)
    requires NoReject(vs) && EnvAt(env, vs, |vs|).Keys == env.Keys && v in env && i !in done
    requires forall j :: 0 <= j < |vs| && j != i ==> v !in vs[j].eff.wrs
    ensures Now(env, vs, done)[v] == env[v]
  {
  }

  lemma OthersElsewhere(p: Program, k: nat, args: seq<Expr>, env: Env, sc: Scope, ctx: Context, vs: seq<Verdict>,
                        i: nat, v: Variable)
    requires Trail(p, k, args, env, sc, ctx, vs) && i < |vs| && v in vs[i].eff.rds + vs[i].eff.wrs
    ensures forall j :: 0 <= j < |vs| && j != i ==> v !in vs[j].eff.wrs
  {
    TrailPairwise(p, k, args, env, sc, ctx, vs);
    hide Visits;
    forall j | 0 <= j < |vs| && j != i
      ensures v !in vs[j].eff.wrs
    {
      assert Separate(vs[i].eff, vs[j].eff);
    }
  }

  /** When all operands have run, the facts are those that hold after the last has been checked. */
  lemma AllDone(p: Program, k: nat, args: seq<Expr>, env: Env, sc: Scope, ctx: Context, vs: seq<Verdict>,
                done: set<nat>)
    requires Trail(p, k, args, env, sc, ctx, vs) && forall i :: 0 <= i < |vs| ==> i in done
    ensures EnvAt(env, vs, |vs|).Keys == env.Keys && Now(env, vs, done) == EnvAt(env, vs, |vs|)
  {
    TrailAccepted(p, k, args, env, sc, ctx, vs);
    hide Trail, Full;
    TrailFull(p, k, args, env, sc, ctx, vs, |vs|);
    forall v | v in env
      ensures Now(env, vs, done)[v] == EnvAt(env, vs, |vs|)[v]
    {
      if !WrittenBy(vs, done, v) { FactStays(p, k, args, env, sc, ctx, vs, 0, |vs|, v); }
    }
  }

  lemma NoneDone(env: Env, vs: seq<Verdict>)
    requires NoReject(vs) && EnvAt(env, vs, |vs|).Keys == env.Keys
    ensures Now(env, vs, {}) == env
  {
  }
}
