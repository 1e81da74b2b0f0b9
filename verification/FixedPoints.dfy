/** The search for a loop's fixed point as the block analysis runs it: pass after pass, until the back edges add
  * nothing. */
module FixedPoints {
  import opened Language
  import opened Facts
  import opened Effects
  import opened Analysis

  function Kept(eff: Effect, loop: LoopVerdict): LoopVerdict {
    match loop
    case LoopReject => LoopReject
    case LoopAccept(entry, body) =>
      if body.StmtAccept? then LoopAccept(entry, body.(eff := Plus(eff, body.eff))) else loop
  }

  lemma KeptTwice(a: Effect, b: Effect, loop: LoopVerdict)
    ensures Kept(a, Kept(b, loop)) == Kept(Plus(a, b), loop)
  {
    if loop.LoopAccept? && loop.r.StmtAccept? {
      PlusAssoc(a, b, loop.r.eff);
    }
  }

  lemma KeptNothing(loop: LoopVerdict)
    ensures Kept(NO_EFFECT, loop) == loop
  {
    if loop.LoopAccept? && loop.r.StmtAccept? {
      assert Plus(NO_EFFECT, loop.r.eff) == loop.r.eff;
    }
  }

  ghost predicate CanLoop(p: Program, k: nat, level: nat, s: Stmt, env: Env, sc: Scope)
    requires s.For?
  {
    Ready(p, k, env, sc) && WFBlock(p, k, level, s.body, sc.vis, true) && Own(p, k, BlockNames(s.body), sc)
  }

  /** One more pass: either it is the last, or the search goes on from facts that have grown. */
  lemma OnePass(p: Program, k: nat, level: nat, s: Stmt, env: Env, sc: Scope, ctx: Context)
    requires s.For? && CanLoop(p, k, level, s, env, sc)
    ensures var body := VisitBlock(p, k, level, s.body, env, BodyScope(sc), BodyContext(ctx, s.iv), true);
            var loop := VisitLoop(p, k, level, s, env, sc, ctx);
            if body.StmtReject? then loop == LoopReject
            else
              var next := MergeAll(env, BackEdges(s.body, body));
              if next == env then loop == LoopAccept(env, body)
              else
                && CanLoop(p, k, level, s, next, sc)
                && |Missing(next, sc.live)| < |Missing(env, sc.live)|
                && loop == Kept(body.eff, VisitLoop(p, k, level, s, next, sc, ctx))
  {
    hide VisitBlock;
    var body := VisitBlock(p, k, level, s.body, env, BodyScope(sc), BodyContext(ctx, s.iv), true);
    if body.StmtAccept? {
      BackEdgesWF(level, s.body, env, sc, BodyContext(ctx, s.iv), body);
      var next := MergeAll(env, BackEdges(s.body, body));
      if next != env { GrowingShrinksMissing(env, next, sc.live); }
    }
  }

  /** The number of passes is bounded by what the facts can still gain: the height of the lattice, not a constant. */
  method FindFixedPoint(p: Program, k: nat, level: nat, s: Stmt, env: Env, sc: Scope, ctx: Context)
    returns (r: LoopVerdict, ghost passes: nat)
    requires s.For? && CanLoop(p, k, level, s, env, sc)
    ensures r == VisitLoop(p, k, level, s, env, sc, ctx)
    ensures passes <= 1 + |Missing(env, sc.live)|
  {
    hide VisitBlock, MergeAll, Missing, Plus, Kept;
    var inputs, eff := env, NO_EFFECT;
    passes := 0;
    KeptNothing(VisitLoop(p, k, level, s, env, sc, ctx));
    while true
      invariant CanLoop(p, k, level, s, inputs, sc)
      invariant VisitLoop(p, k, level, s, env, sc, ctx) == Kept(eff, VisitLoop(p, k, level, s, inputs, sc, ctx))
      invariant passes + |Missing(inputs, sc.live)| <= |Missing(env, sc.live)|
      decreases |Missing(inputs, sc.live)|
    {
      OnePass(p, k, level, s, inputs, sc, ctx);
      hide VisitLoop;
      passes := passes + 1;
      var body := VisitBlock(p, k, level, s.body, inputs, BodyScope(sc), BodyContext(ctx, s.iv), true);
      if body.StmtReject? {
        assert Kept(eff, LoopReject) == LoopReject by { KeptReject(eff); }
        return LoopReject, passes;
      }
      var outputs := MergeEdges(inputs, BackEdges(s.body, body));
      if outputs == inputs {
        return KeptLast(eff, inputs, body), passes;
      }
      KeptTwice(eff, body.eff, VisitLoop(p, k, level, s, outputs, sc, ctx));
      inputs, eff := outputs, Plus(eff, body.eff);
    }
  }

  lemma KeptReject(eff: Effect)
    ensures Kept(eff, LoopReject) == LoopReject
  {
  }

  function KeptLast(eff: Effect, entry: Env, body: StmtVerdict): (r: LoopVerdict)
    requires body.StmtAccept?
    ensures r == Kept(eff, LoopAccept(entry, body))
  {
    LoopAccept(entry, body.(eff := Plus(eff, body.eff)))
  }

  /** Merge the facts that arrive over each back edge. */
  method MergeEdges(env: Env, edges: seq<Env>) returns (r: Env)
    ensures r == MergeAll(env, edges)
  {
    r := env;
    for i := 0 to |edges|
      invariant MergeAll(r, edges[i..]) == MergeAll(env, edges)
    {
      assert edges[i..][0] == edges[i] && edges[i..][1..] == edges[i + 1..];
      r := Merge(r, edges[i]);
    }
  }
}
