/** What visiting does to the facts: they change only about variables that are written, and every pointer is left with
  * something to point to. */
module Changes {
  import opened Language
  import opened Facts
  import opened Effects
  import opened Analysis

  /** Every pointer may hold something. */
  ghost predicate Full(env: Env) {
    forall v :: v in env ==> env[v] != {}
  }

  ghost predicate Kept(env: Env, env': Env, wrs: set<Variable>) {
    forall v :: v in env && v in env' && v !in wrs ==> env'[v] == env[v]
  }

  /** Facts that leave the scope of the variables in `dead`. */
  ghost predicate Left(dead: set<Variable>, env: Env, env': Env, wrs: set<Variable>) {
    Full(env') && forall v :: v in env && v in env' && v !in wrs ==> env'[v] == Faded(dead, env[v])
  }

  lemma KeptTrans(e1: Env, e2: Env, e3: Env, w1: set<Variable>, w2: set<Variable>)
    requires Kept(e1, e2, w1) && Kept(e2, e3, w2) && e1.Keys == e2.Keys
    ensures Kept(e1, e3, w1 + w2)
  {
  }

  lemma KeptMore(env: Env, env': Env, wrs: set<Variable>, more: set<Variable>)
    requires Kept(env, env', wrs) && wrs <= more
    ensures Kept(env, env', more)
  {
  }

  lemma FadedFull(dead: set<Variable>, ts: set<Target>)
    requires ts != {}
    ensures Faded(dead, ts) != {}
  {
    var t :| t in ts;
    if t.Obj? && t.v in dead {
      assert Garbage in Faded(dead, ts);
    } else {
      assert t in Faded(dead, ts);
    }
  }

  /** Facts do not mention what did not exist. */
  lemma FadedFresh(dead: set<Variable>, names: set<Variable>, ts: set<Target>, level: nat, live: set<Variable>,
                   keys: set<Variable>)
    requires GoodTargets(ts, level, live, keys) && names !! live
    ensures Faded(dead + names, ts) == Faded(dead, ts) && Faded(names, ts) == ts
  {
  }

  lemma FadedNone(ts: set<Target>)
    ensures Faded({}, ts) == ts
  {
  }

  // --- where a value came from still leads somewhere

  ghost predicate ChainIn(env: Env, ts: set<Target>, k: nat, vs: set<Variable>)
    decreases k
  {
    k > 0 ==> Objects(ts) <= vs && ChainIn(env, Pointees(env, ts), k - 1, vs)
  }

  ghost predicate Leads(env: Env, ts: set<Target>) {
    exists t :: t in ts && t.Obj? && t.v in env
  }

  /** The pointees of `e` can be looked up in `env`, by way of variables in `rds`, and there are some. */
  ghost predicate Fills(p: Program, e: Expr, env: Env, rets: set<Target>, rds: set<Variable>)
    decreases e
  {
    match e
    case Load(r) =>
      RefLevel(r) > 0 ==> ChainIn(env, {Obj(r.v)}, r.ind, rds) && Leads(env, Deref(env, {Obj(r.v)}, r.ind))
    case Call(_, _) => Level(p, e) > 0 ==> rets != {}
    case Assign(_, _, rhs) => Fills(p, rhs, env, rets, rds)
    case Comma(_, b) => Fills(p, b, env, rets, rds)
    case _ => true
  }

  lemma {:induction false} FillsRhs(p: Program, k: nat, e: Expr, vis: set<Variable>, env: Env, rets: set<Target>,
                                    rds: set<Variable>)
    requires WFExpr(p, k, e, vis)
    requires Fills(p, e, env, rets, rds) && Full(env) && Level(p, e) > 0
    ensures RhsPointees(env, e, rets) != {}
    decreases e
  {
    match e
    case Load(r) =>
      DerefStep(env, {Obj(r.v)}, r.ind);
      var ts := Deref(env, {Obj(r.v)}, r.ind);
      var t :| t in ts && t.Obj? && t.v in env;
      var u :| u in env[t.v];
      assert u in Pointees(env, ts);
    case Assign(_, _, rhs) => FillsRhs(p, k, rhs, vis, env, rets, rds);
    case Comma(_, b) => FillsRhs(p, k, b, vis, env, rets, rds);
    case _ =>
  }

  lemma {:induction false} DerefKept(env: Env, env': Env, ts: set<Target>, k: nat, vs: set<Variable>,
                                     more: set<Variable>)
    requires ChainIn(env, ts, k, vs) && env'.Keys == env.Keys && vs <= more
    requires forall v :: v in vs && v in env ==> env'[v] == env[v]
    ensures Deref(env', ts, k) == Deref(env, ts, k) && ChainIn(env', ts, k, more)
    decreases k
  {
    if k > 0 {
      forall u | u in ts && u.Obj?
        ensures u.v in vs
      {
        assert u.v in Objects(ts);
      }
      assert Pointees(env', ts) == Pointees(env, ts);
      DerefKept(env, env', Pointees(env, ts), k - 1, vs, more);
    }
  }

  lemma {:induction false} FillsKept(p: Program, e: Expr, env: Env, env': Env, rets: set<Target>, rds: set<Variable>,
                                     more: set<Variable>)
    requires Fills(p, e, env, rets, rds) && env'.Keys == env.Keys && rds <= more
    requires forall v :: v in rds && v in env ==> env'[v] == env[v]
    ensures Fills(p, e, env', rets, more)
    decreases e
  {
    match e
    case Load(r) => if RefLevel(r) > 0 { DerefKept(env, env', {Obj(r.v)}, r.ind, rds, more); }
    case Assign(_, _, rhs) => FillsKept(p, rhs, env, env', rets, rds, more);
    case Comma(_, b) => FillsKept(p, b, env, env', rets, rds, more);
    case _ =>
  }

  lemma {:induction false} DerefAbove(env: Env, env': Env, ts: set<Target>, k: nat, level: nat, live: set<Variable>,
                                      vs: set<Variable>)
    requires EnvWF(env, live) && GoodTargets(ts, level + 1, live, env.Keys) && k <= level
    requires env'.Keys == env.Keys && forall v :: v in env && v.level > level - k ==> env'[v] == env[v]
    requires ChainIn(env, ts, k, vs)
    ensures Deref(env', ts, k) == Deref(env, ts, k) && ChainIn(env', ts, k, vs)
    decreases k
  {
    if k > 0 {
      assert Pointees(env', ts) == Pointees(env, ts);
      DerefAbove(env, env', Pointees(env, ts), k - 1, level - 1, live, vs);
    }
  }

  /** Assigning a value changes no pointer that led to it. */
  lemma {:induction false} FillsAbove(p: Program, k: nat, e: Expr, env: Env, env': Env, sc: Scope, rets: set<Target>,
                                      rds: set<Variable>)
    requires Ready(p, k, env, sc) && WFExpr(p, k, e, sc.vis) && Fills(p, e, env, rets, rds)
    requires env'.Keys == env.Keys && forall v :: v in env && v.level > Level(p, e) ==> env'[v] == env[v]
    ensures Fills(p, e, env', rets, rds)
    decreases e
  {
    match e
    case Load(r) =>
      if RefLevel(r) > 0 { DerefAbove(env, env', {Obj(r.v)}, r.ind, r.v.level, sc.live, rds); }
    case Assign(_, _, rhs) => FillsAbove(p, k, rhs, env, env', sc, rets, rds);
    case Comma(_, b) => FillsAbove(p, k, b, env, env', sc, rets, rds);
    case _ =>
  }

  // --- expressions

  ghost predicate ExprChange(p: Program, e: Expr, env: Env, r: Verdict) {
    r.Accept? ==> Kept(env, r.env, r.eff.wrs) && Full(r.env) && Fills(p, e, r.env, r.rets, r.eff.rds)
  }

  lemma {:induction false} ReadFills(env: Env, ctx: Context, ts: set<Target>, k: nat, level: nat, live: set<Variable>,
                                     vs: set<Variable>)
    requires EnvWF(env, live) && GoodTargets(ts, level + 1, live, env.Keys) && k < level
    requires ReadPointed(env, ctx, ts, k).Some? && Objects(ts) + ReadPointed(env, ctx, ts, k).value.rds <= vs
    requires Leads(env, ts)
    ensures ChainIn(env, ts, k, vs) && Leads(env, Deref(env, ts, k))
    decreases k
  {
    if k > 0 {
      var next := Pointees(env, ts);
      var t :| t in next;
      assert GoodTarget(t, level, live, env.Keys);
      ReadFills(env, ctx, next, k - 1, level - 1, live, vs);
    }
  }

  lemma LoadChanges(p: Program, k: nat, e: Expr, env: Env, sc: Scope, ctx: Context)
    requires e.Load? && Ready(p, k, env, sc) && WFExpr(p, k, e, sc.vis) && Full(env)
    ensures ExprChange(p, e, env, Visit(p, k, e, env, sc, ctx))
  {
    var r := e.r;
    var eff := VisitRead(env, ctx, r);
    if eff.Some? && RefLevel(r) > 0 {
      assert Obj(r.v) in {Obj(r.v)};
      ReadFills(env, ctx, {Obj(r.v)}, r.ind, r.v.level, sc.live, eff.value.rds);
    }
  }

  lemma {:induction false} ExprChanges(p: Program, k: nat, e: Expr, env: Env, sc: Scope, ctx: Context)
    requires Ready(p, k, env, sc) && WFExpr(p, k, e, sc.vis) && Full(env)
    ensures ExprChange(p, e, env, Visit(p, k, e, env, sc, ctx))
    decreases k, e
  {
    match e
    case Const(_) =>
    case PtrConst(_, _) =>
    case AddrOf(_, _) =>
    case Load(_) => LoadChanges(p, k, e, env, sc, ctx);
    case Assign(_, _, rhs) =>
      hide Fills, Kept, VisitStore;
      ExprChanges(p, k, rhs, env, sc, ctx);
      var r1 := Visit(p, k, rhs, env, sc, ctx);
      if r1.Accept? { StoreChanges(p, k, e, env, r1.env, sc, ctx, r1.eff, r1.rets); }
    case Comma(a, b) => ThenChanges(p, k, e, a, b, env, sc, ctx);
    case Short(_, a, b) => ThenChanges(p, k, e, a, b, env, sc, ctx);
    case Op(_, args) => ArgsChanges(p, k, e, args, env, sc, ctx);
    case Call(_, args) =>
      hide VisitCall;
      ArgsChanges(p, k, e, args, env, sc, ctx);
      var r1 := VisitArgs(p, k, e, args, env, sc, ctx);
      if r1.ArgsAccept? { CallChanges(p, k, e, env, r1.env, sc, ctx, r1.eff, r1.rets); }
  }

  lemma AssignedChanges(env: Env, r: Ref, pts: set<Target>, live: set<Variable>)
    requires EnvWF(env, live) && Full(env) && WFRef(r, live) && (r.v.level > 0 ==> r.v in env)
    requires RefLevel(r) > 0 && pts != {}
    ensures var env' := AssignFacts(env, r, pts);
            && env'.Keys == env.Keys && Full(env') && Kept(env, env', Objects(Deref(env, {Obj(r.v)}, r.ind)))
            && forall v :: v in env && v.level > RefLevel(r) ==> env'[v] == env[v]
  {
    DerefGood(env, {Obj(r.v)}, r.ind, r.v.level, live);
    forall v | v in env && Obj(v) in Deref(env, {Obj(r.v)}, r.ind)
      ensures v in Objects(Deref(env, {Obj(r.v)}, r.ind)) && v.level == RefLevel(r)
    {
      assert GoodTarget(Obj(v), RefLevel(r) + 1, live, env.Keys);
    }
  }

  lemma StoreChanges(p: Program, k: nat, e: Expr, env0: Env, env: Env, sc: Scope, ctx: Context, eff: Effect,
                     rets: set<Target>)
    requires e.Assign? && Ready(p, k, env, sc) && WFExpr(p, k, e, sc.vis)
    requires Compatible(eff, ctx) && GoodRets(p, e.rhs, rets, sc.live, env.Keys)
    requires Kept(env0, env, eff.wrs) && env0.Keys == env.Keys && Full(env) && Fills(p, e.rhs, env, rets, eff.rds)
    ensures ExprChange(p, e, env0, VisitStore(p, k, e, env, sc, ctx, eff, rets))
  {
    hide VisitLhs, Kept, Full, RhsPointees;
    var lctx, compound := LhsContext(ctx, eff, e.compound.Some?), e.compound.Some?;
    VisitLhsSeen(env, lctx, eff, e.r, compound);
    var lhs := VisitLhs(env, lctx, eff, e.r, compound);
    if lhs.Some? {
      hide Fills, Compatible, Deref, EnvWF, AssignFacts;
      var more := eff.rds + lhs.value.rds;
      if RefLevel(e.r) > 0 {
        var pts := RhsPointees(env, e.rhs, rets);
        var env' := AssignFacts(env, e.r, pts);
        FillsRhs(p, k, e.rhs, sc.vis, env, rets, eff.rds);
        AssignedChanges(env, e.r, pts, sc.live);
        KeptTrans(env0, env, env', eff.wrs, lhs.value.wrs);
        FillsAbove(p, k, e.rhs, env, env', sc, rets, eff.rds);
        FillsKept(p, e.rhs, env', env', rets, eff.rds, more);
      } else {
        FillsKept(p, e.rhs, env, env, rets, eff.rds, more);
        KeptMore(env0, env, eff.wrs, eff.wrs + lhs.value.wrs);
      }
    }
  }

  lemma {:induction false} ThenChanges(p: Program, k: nat, e: Expr, a: Expr, b: Expr, env: Env, sc: Scope, ctx: Context)
    requires a < e && b < e && (e == Comma(a, b) || (e.Short? && e.a == a && e.b == b))
    requires Ready(p, k, env, sc) && WFExpr(p, k, e, sc.vis) && Full(env)
    ensures ExprChange(p, e, env, Visit(p, k, e, env, sc, ctx))
    decreases k, e, 0
  {
    ExprChanges(p, k, a, env, sc, ctx);
    var r1 := Visit(p, k, a, env, sc, ctx);
    if r1.Accept? {
      ExprChanges(p, k, b, r1.env, sc, ctx);
      var r2 := Visit(p, k, b, r1.env, sc, ctx);
      if r2.Accept? {
        KeptTrans(env, r1.env, r2.env, r1.eff.wrs, r2.eff.wrs);
        FillsKept(p, b, r2.env, r2.env, r2.rets, r2.eff.rds, r1.eff.rds + r2.eff.rds);
        MergeChanges(env, r1.env, r2.env, r1.eff.wrs, r2.eff.wrs);
      }
    }
  }

  lemma MergeChanges(env: Env, e1: Env, e2: Env, w1: set<Variable>, w2: set<Variable>)
    requires Kept(env, e1, w1) && Kept(env, e2, w1 + w2) && env.Keys == e1.Keys == e2.Keys && Full(e1) && Full(e2)
    ensures Kept(env, Merge(e2, e1), w1 + w2) && Full(Merge(e2, e1))
    ensures Kept(env, Merge(e1, e2), w1 + w2) && Full(Merge(e1, e2))
  {
  }

  ghost predicate ArgsFill(p: Program, args: seq<Expr>, env: Env, rets: seq<set<Target>>, rds: set<Variable>) {
    |rets| == |args| && forall i :: 0 <= i < |args| ==> Fills(p, args[i], env, rets[i], rds)
  }

  lemma {:induction false} ArgsChanges(p: Program, k: nat, e: Expr, args: seq<Expr>, env: Env, sc: Scope, ctx: Context)
    requires Ready(p, k, env, sc) && Full(env)
    requires forall i :: 0 <= i < |args| ==> args[i] < e && WFExpr(p, k, args[i], sc.vis)
    ensures var r := VisitArgs(p, k, e, args, env, sc, ctx);
            r.ArgsAccept? ==>
              Kept(env, r.env, r.eff.wrs) && Full(r.env) && ArgsFill(p, args, r.env, r.rets, r.eff.rds)
    decreases k, e, |args|
  {
    hide Visit, Full, Fills, EnvWF, WFExpr, GoodRets, WFProgram, NamesBelow;
    if args != [] {
      ExprChanges(p, k, args[0], env, sc, ctx);
      var r1 := Visit(p, k, args[0], env, sc, ctx);
      if r1.Accept? {
        var ctx1 := ctx.(eff := Plus(ctx.eff, r1.eff));
        ArgsChanges(p, k, e, args[1..], r1.env, sc, ctx1);
        var r2 := VisitArgs(p, k, e, args[1..], r1.env, sc, ctx1);
        if r2.ArgsAccept? {
          KeptTrans(env, r1.env, r2.env, r1.eff.wrs, r2.eff.wrs);
          var rds := r1.eff.rds + r2.eff.rds;
          FillsKept(p, args[0], r1.env, r2.env, r1.rets, r1.eff.rds, rds);
          forall i | 0 < i < |args|
            ensures Fills(p, args[i], r2.env, ([r1.rets] + r2.rets)[i], rds)
          {
            assert args[i] == args[1..][i - 1];
            FillsKept(p, args[i], r2.env, r2.env, r2.rets[i - 1], r2.eff.rds, rds);
          }
        }
      }
    }
  }

  // --- calls

  lemma {:induction false} ParamsFull(p: Program, k: nat, vis: set<Variable>, env: Env, params: seq<Variable>,
                                      args: seq<Expr>, rets: seq<set<Target>>, rds: set<Variable>)
    requires ArgsWF(p, k, args, params, vis) && ArgsFill(p, args, env, rets, rds) && Full(env)
    ensures Full(ParamFacts(env, params, args, rets))
    decreases |params|
  {
    if params != [] {
      ParamsFull(p, k, vis, env, params[1..], args[1..], rets[1..], rds);
      if params[0].level > 0 { FillsRhs(p, k, args[0], vis, env, rets[0], rds); }
    }
  }

  lemma HandedFull(p: Program, k: nat, e: Expr, env: Env, vis: set<Variable>, rets: seq<set<Target>>,
                   rds: set<Variable>)
    requires e.Call? && WFExpr(p, k, e, vis) && Full(env) && ArgsFill(p, e.args, env, rets, rds)
    ensures Full(HandOver(p.globals, env, p.funcs[e.f], e.args, rets))
    ensures var kept := HandOver(p.globals, env, p.funcs[e.f], e.args, rets);
            forall v :: v in kept && v !in p.funcs[e.f].params ==> v in env && kept[v] == env[v]
  {
    hide Reach, Fills, RhsPointees;
    ParamsFull(p, k, vis, env, p.funcs[e.f].params, e.args, rets, rds);
  }

  lemma {:induction false} MergeAllChanges(env: Env, jumps: seq<Env>, v: Variable, ts: set<Target>)
    requires v in env && env[v] == ts && forall i :: 0 <= i < |jumps| ==> v in jumps[i] && jumps[i][v] == ts
    ensures v in MergeAll(env, jumps) && MergeAll(env, jumps)[v] == ts
    decreases |jumps|
  {
    if jumps != [] { MergeAllChanges(Merge(env, jumps[0]), jumps[1..], v, ts); }
  }

  lemma {:induction false} MergeJumpsChanges(env: Env, jumps: seq<Env>, v: Variable, ts: set<Target>)
    requires v in env && env[v] == ts && forall i :: 0 <= i < |jumps| ==> v in jumps[i] && jumps[i][v] == ts
    ensures v in MergeJumps(env, jumps) && MergeJumps(env, jumps)[v] == ts
    decreases |jumps|
  {
    if jumps != [] { MergeJumpsChanges(MergeJump(env, jumps[0]), jumps[1..], v, ts); }
  }

  lemma {:induction false} MergesFull(env: Env, jumps: seq<Env>)
    requires Full(env) && forall i :: 0 <= i < |jumps| ==> Full(jumps[i])
    ensures Full(MergeAll(env, jumps)) && Full(MergeJumps(env, jumps))
    decreases |jumps|
  {
    if jumps != [] {
      assert Full(Merge(env, jumps[0])) && Full(MergeJump(env, jumps[0]));
      MergesFull(Merge(env, jumps[0]), jumps[1..]);
      MergesFull(MergeJump(env, jumps[0]), jumps[1..]);
    }
  }

  lemma OutOfScopeFull(dead: set<Variable>, env: Env)
    requires Full(env)
    ensures Full(OutOfScope(dead, env))
  {
    hide Faded;
    forall v | v in OutOfScope(dead, env)
      ensures OutOfScope(dead, env)[v] != {}
    {
      FadedFull(dead, env[v]);
    }
  }

  lemma {:induction false} RetsFull(rets: seq<RetFact>)
    requires rets != [] && rets[0].pts != {}
    ensures RetTargets(rets) != {}
  {
    var t :| t in rets[0].pts;
    assert t in RetTargets(rets);
  }

  /** What a callee sends back says nothing new of what it did not write. */
  lemma BackChanges(p: Program, env: Env, sc: Scope, f: Function, kept: Env, ctx: Context, body: StmtVerdict)
    requires body.StmtAccept? && EnvWF(env, sc.live) && sc.live !! Elems(f.params)
    requires StmtVisited(f.level, kept, CalleeScope(p, f, sc), ctx, body)
    requires StmtChange(f.level, kept, CalleeScope(p, f, sc), body)
    requires forall v :: v in kept && v !in f.params ==> v in env && kept[v] == env[v]
    ensures Full(FactsBack(f, body))
    ensures forall v :: v in FactsBack(f, body) && v !in body.eff.wrs ==> v in env && FactsBack(f, body)[v] == env[v]
  {
    hide MergeAll, StmtVisited, OutOfScope;
    var ps, outs := Elems(f.params), RetEnvs(body.ret);
    var env1 := OutOfScope(ps, body.env);
    FactsBackKeys(p, sc, f, kept, ctx, body);
    OutOfScopeFull(ps, body.env);
    MergesFull(env1, outs);
    forall v | v in FactsBack(f, body) && v !in body.eff.wrs
      ensures v in env && FactsBack(f, body)[v] == env[v]
    {
      FadedFresh({}, ps, env[v], v.level, sc.live, env.Keys);
      assert env1[v] == env[v] by { OutOfScopeAt(ps, body.env, v); }
      forall i | 0 <= i < |outs|
        ensures v in outs[i] && outs[i][v] == env[v]
      {
        assert outs[i] == body.ret[i].env;
      }
      MergeAllChanges(env1, outs, v, env[v]);
    }
  }

  lemma OutOfScopeAt(dead: set<Variable>, env: Env, v: Variable)
    requires v in env && v !in dead
    ensures v in OutOfScope(dead, env) && OutOfScope(dead, env)[v] == Faded(dead, env[v])
  {
  }

  lemma FactsBackKeys(p: Program, sc: Scope, f: Function, kept: Env, ctx: Context, body: StmtVerdict)
    requires body.StmtAccept? && sc.live !! Elems(f.params)
    requires StmtVisited(f.level, kept, CalleeScope(p, f, sc), ctx, body)
    ensures FactsBack(f, body).Keys == kept.Keys - Elems(f.params) && body.env.Keys == kept.Keys
    ensures forall i :: 0 <= i < |body.ret| ==> body.ret[i].env.Keys == kept.Keys - Elems(f.params)
  {
    FactsBackWF(p, sc, f, kept, ctx, body);
  }

  lemma {:induction false} CallChanges(p: Program, k: nat, e: Expr, env0: Env, env: Env, sc: Scope, ctx: Context,
                                       eff: Effect, rets: seq<set<Target>>)
    requires e.Call? && Ready(p, k, env, sc) && WFExpr(p, k, e, sc.vis)
    requires Compatible(eff, ctx) && GoodArgs(p, e.args, rets, sc.live, env.Keys)
    requires Kept(env0, env, eff.wrs) && env0.Keys == env.Keys && Full(env)
    requires ArgsFill(p, e.args, env, rets, eff.rds)
    ensures ExprChange(p, e, env0, VisitCall(p, k, e, env, sc, ctx, eff, rets))
    decreases k, e, 0
  {
    hide VisitBlock, HandOver, FactsBack, WFBlock, MustReturn, StmtVisited, EnvWF, ArgsFill;
    var f := p.funcs[e.f];
    HandOverReady(p, k, env, sc, e.f, e.args, rets);
    assert WFFunction(p, e.f);
    HandedFull(p, k, e, env, sc.vis, rets, eff.rds);
    var kept := HandOver(p.globals, env, f, e.args, rets);
    var inner := CalleeContext(ctx, e.f, p.globals, kept, sc.live);
    BlockChanges(p, e.f, f.level, f.body, kept, CalleeScope(p, f, sc), inner, false);
    var body := VisitBlock(p, e.f, f.level, f.body, kept, CalleeScope(p, f, sc), inner, false);
    if body.StmtAccept? {
      BackChanges(p, env, sc, f, kept, inner, body);
      RenewChanges(env0, env, sc.live, FactsBack(f, body), eff.wrs, body.eff.wrs);
      BlockReturns(p, e.f, f.level, f.body, kept, CalleeScope(p, f, sc), inner, false);
      if f.level > 0 { RetsFull(body.ret); }
    }
  }

  lemma RenewChanges(env0: Env, env: Env, live: set<Variable>, back: Env, w1: set<Variable>, w2: set<Variable>)
    requires Kept(env0, env, w1) && env0.Keys == env.Keys && EnvWF(env, live) && Full(env) && Full(back)
    requires forall v :: v in back && v !in w2 ==> v in env && back[v] == env[v]
    ensures Kept(env0, Renew(env, back), w1 + w2 * live) && Full(Renew(env, back))
  {
  }

  // --- a function that must return has a return statement

  lemma {:induction false} StmtReturns(p: Program, k: nat, level: nat, s: Stmt, env: Env, sc: Scope, ctx: Context,
                                       inLoop: bool)
    requires Ready(p, k, env, sc) && WFStmt(p, k, level, s, sc.vis, inLoop) && Own(p, k, StmtNames(s), sc)
    requires StmtMustReturn(s)
    ensures var r := VisitStmt(p, k, level, s, env, sc, ctx, inLoop); r.StmtAccept? ==> r.ret != []
    decreases s
  {
    hide Visit, VisitBlock, VisitLoop, WFBlock, RhsPointees, OutOfScope, Merge, Plus, WFProgram;
    match s
    case If(t, a, _) =>
      var t := Visit(p, k, t, env, sc, ctx);
      if t.Accept? { BlockReturns(p, k, level, a, t.env, sc, ctx, inLoop); }
    case _ =>
  }

  lemma {:induction false} BlockReturns(p: Program, k: nat, level: nat, b: Block, env: Env, sc: Scope, ctx: Context,
                                        inLoop: bool)
    requires Ready(p, k, env, sc) && WFBlock(p, k, level, b, sc.vis, inLoop) && Own(p, k, BlockNames(b), sc)
    requires MustReturn(b, false)
    ensures var r := VisitBlock(p, k, level, b, env, sc, ctx, inLoop); r.StmtAccept? ==> r.ret != []
    decreases b, 2
  {
    hide VisitStmts, WFStmts, StmtMustReturn;
    EnterWF(p, k, level, b, env, sc, inLoop);
    StmtsReturns(p, k, level, b, 0, LastIndex(b, 0), env + InitFacts(b.locals), Inner(sc, b.locals.Keys), ctx, inLoop);
  }

  lemma {:induction false} StmtsReturns(p: Program, k: nat, level: nat, b: Block, i: nat, j: nat, env: Env, sc: Scope,
                                        ctx: Context, inLoop: bool)
    requires i <= j < |b.stms| && StmtMustReturn(b.stms[j])
    requires Ready(p, k, env, sc) && WFStmts(p, k, level, b, i, sc.vis, inLoop) && Own(p, k, StmtsNames(b, i), sc)
    ensures var r := VisitStmts(p, k, level, b, i, env, sc, ctx, inLoop); r.StmtAccept? ==> r.ret != []
    decreases b, 1, j - i
  {
    hide VisitStmt, WFStmt, StmtMustReturn;
    var r1 := VisitStmt(p, k, level, b.stms[i], env, sc, ctx, inLoop);
    if i == j {
      StmtReturns(p, k, level, b.stms[i], env, sc, ctx, inLoop);
    } else if r1.StmtAccept? {
      StmtsReturns(p, k, level, b, i + 1, j, r1.env, sc, ctx, inLoop);
    }
  }

  // --- statements

  ghost predicate StmtChange(level: nat, env: Env, sc: Scope, r: StmtVerdict) {
    r.StmtAccept? ==>
      && Kept(env, r.env, r.eff.wrs) && Full(r.env)
      && (forall i :: 0 <= i < |r.brk| ==> Left(sc.loop, env, r.brk[i], r.eff.wrs))
      && (forall i :: 0 <= i < |r.cont| ==> Left(sc.loop, env, r.cont[i], r.eff.wrs))
      && (forall i :: 0 <= i < |r.ret| ==>
            Left(sc.func, env, r.ret[i].env, r.eff.wrs) && (level > 0 ==> r.ret[i].pts != {}))
  }

  /** Seen from where something has already changed. */
  lemma ChangeBefore(level: nat, env0: Env, env: Env, sc: Scope, w: set<Variable>, r: StmtVerdict, more: Effect)
    requires r.StmtAccept? && Kept(env0, env, w) && env0.Keys == env.Keys && StmtChange(level, env, sc, r)
    requires w + r.eff.wrs <= more.wrs
    ensures StmtChange(level, env0, sc, r.(eff := more))
  {
    hide Faded;
  }

  lemma LeaveChanges(dead: set<Variable>, env: Env, env': Env, wrs: set<Variable>)
    requires Kept(env, env', wrs) && Full(env')
    ensures Left(dead, env, OutOfScope(dead, env'), wrs)
  {
    hide Faded;
    OutOfScopeFull(dead, env');
  }

  lemma {:induction false} StmtChanges(p: Program, k: nat, level: nat, s: Stmt, env: Env, sc: Scope, ctx: Context,
                                       inLoop: bool)
    requires Ready(p, k, env, sc) && WFStmt(p, k, level, s, sc.vis, inLoop) && Own(p, k, StmtNames(s), sc)
    requires Full(env)
    ensures StmtChange(level, env, sc, VisitStmt(p, k, level, s, env, sc, ctx, inLoop))
    decreases k, s
  {
    hide Visit, Kept, Full, Left, OutOfScope, Fills;
    match s
    case ExprStmt(e) => ExprChanges(p, k, e, env, sc, ctx);
    case Break(e) => JumpChanges(p, k, s, e, env, sc, ctx);
    case Continue(e) => JumpChanges(p, k, s, e, env, sc, ctx);
    case Return(e) => ReturnChanges(p, k, level, s, e, env, sc, ctx);
    case If(_, _, _) => IfChanges(p, k, level, s, env, sc, ctx, inLoop);
    case For(_, _, _, _, _, _, _) => ForChanges(p, k, level, s, env, sc, ctx, inLoop);
  }

  lemma {:induction false} JumpChanges(p: Program, k: nat, s: Stmt, e: Expr, env: Env, sc: Scope, ctx: Context)
    requires e < s && Ready(p, k, env, sc) && WFExpr(p, k, e, sc.vis) && Full(env)
    ensures var r := Visit(p, k, e, env, sc, ctx);
            r.Accept? ==>
              && Kept(env, r.env, r.eff.wrs) && Full(r.env)
              && Left(sc.loop, env, OutOfScope(sc.loop, r.env), r.eff.wrs)
    decreases k, s, 0
  {
    hide Visit;
    ExprChanges(p, k, e, env, sc, ctx);
    var r := Visit(p, k, e, env, sc, ctx);
    if r.Accept? { LeaveChanges(sc.loop, env, r.env, r.eff.wrs); }
  }

  lemma {:induction false} ReturnChanges(p: Program, k: nat, level: nat, s: Stmt, e: Expr, env: Env, sc: Scope,
                                         ctx: Context)
    requires e < s && Ready(p, k, env, sc) && WFExpr(p, k, e, sc.vis) && Level(p, e) == level && Full(env)
    ensures var r := Visit(p, k, e, env, sc, ctx);
            r.Accept? ==> StmtChange(level, env, sc, VisitReturn(p, k, level, e, r.env, sc, ctx, r.eff, r.rets))
    decreases k, s, 0
  {
    hide Visit, Kept, Full, Left, OutOfScope, Fills, Faded, RhsPointees;
    ExprChanges(p, k, e, env, sc, ctx);
    var r := Visit(p, k, e, env, sc, ctx);
    if r.Accept? {
      LeaveChanges(sc.func, env, r.env, r.eff.wrs);
      if level > 0 {
        FillsRhs(p, k, e, sc.vis, r.env, r.rets, r.eff.rds);
        FadedFull(sc.func, RhsPointees(r.env, e, r.rets));
      }
    }
  }

  lemma {:induction false} IfChanges(p: Program, k: nat, level: nat, s: Stmt, env: Env, sc: Scope, ctx: Context,
                                     inLoop: bool)
    requires s.If? && Ready(p, k, env, sc) && WFStmt(p, k, level, s, sc.vis, inLoop) && Own(p, k, StmtNames(s), sc)
    requires Full(env)
    ensures StmtChange(level, env, sc, VisitStmt(p, k, level, s, env, sc, ctx, inLoop))
    decreases k, s, 0
  {
    hide Visit, VisitBlock, WFBlock, MustReturn, StmtChange, Fills;
    ExprChanges(p, k, s.test, env, sc, ctx);
    var t := Visit(p, k, s.test, env, sc, ctx);
    RejectChange(level, env, sc);
    if t.Accept? {
      BlockChanges(p, k, level, s.thn, t.env, sc, ctx, inLoop);
      BlockChanges(p, k, level, s.els, t.env, sc, ctx, inLoop);
      BranchChanges(level, s, env, t.env, sc, ctx, t.eff, VisitBlock(p, k, level, s.thn, t.env, sc, ctx, inLoop),
                    VisitBlock(p, k, level, s.els, t.env, sc, ctx, inLoop));
    }
  }

  lemma RejectChange(level: nat, env: Env, sc: Scope)
    ensures StmtChange(level, env, sc, StmtReject)
  {
  }

  lemma BranchChanges(level: nat, s: Stmt, env0: Env, env: Env, sc: Scope, ctx: Context, eff: Effect, r1: StmtVerdict,
                      r2: StmtVerdict)
    requires s.If? && EnvWF(env0, sc.live) && Compatible(eff, ctx) && env0.Keys == env.Keys && Full(env0)
    requires StmtVisited(level, env0, sc, ctx, r1) && StmtVisited(level, env0, sc, ctx, r2)
    requires Kept(env0, env, eff.wrs)
    requires StmtChange(level, env, sc, r1) && StmtChange(level, env, sc, r2)
    ensures StmtChange(level, env0, sc, JoinBranches(s, env0, eff, r1, r2, level, sc, ctx))
  {
    hide MustReturn, Left, Faded;
    if r1.StmtAccept? && r2.StmtAccept? {
      var more := Plus(eff, Plus(r1.eff, r2.eff));
      ChangeBefore(level, env0, env, sc, eff.wrs, r1, more);
      ChangeBefore(level, env0, env, sc, eff.wrs, r2, more);
      assert more.wrs + more.wrs == more.wrs;
      MergeChanges(env0, r1.env, r2.env, more.wrs, more.wrs);
    }
  }

  lemma {:induction false} StmtsChanges(p: Program, k: nat, level: nat, b: Block, i: nat, env: Env, sc: Scope,
                                        ctx: Context, inLoop: bool)
    requires i <= |b.stms|
    requires Ready(p, k, env, sc) && WFStmts(p, k, level, b, i, sc.vis, inLoop) && Own(p, k, StmtsNames(b, i), sc)
    requires Full(env)
    ensures StmtChange(level, env, sc, VisitStmts(p, k, level, b, i, env, sc, ctx, inLoop))
    decreases k, b, |b.stms| - i
  {
    if i < |b.stms| {
      hide VisitStmt, StmtChange, Full;
      StmtChanges(p, k, level, b.stms[i], env, sc, ctx, inLoop);
      var r1 := VisitStmt(p, k, level, b.stms[i], env, sc, ctx, inLoop);
      RejectChange(level, env, sc);
      if r1.StmtAccept? {
        StillFull(level, env, sc, r1);
        StmtsChanges(p, k, level, b, i + 1, r1.env, sc, ctx, inLoop);
        var r2 := VisitStmts(p, k, level, b, i + 1, r1.env, sc, ctx, inLoop);
        if r2.StmtAccept? { BothChange(level, env, sc, r1, r2); }
      }
    } else {
      NothingChanges(level, env, sc);
    }
  }

  lemma StillFull(level: nat, env: Env, sc: Scope, r: StmtVerdict)
    requires r.StmtAccept? && StmtChange(level, env, sc, r)
    ensures Full(r.env)
  {
  }

  lemma NothingChanges(level: nat, env: Env, sc: Scope)
    requires Full(env)
    ensures StmtChange(level, env, sc, StmtAccept(env, [], [], [], NO_EFFECT)) && Kept(env, env, {})
  {
  }

  lemma BothChange(level: nat, env: Env, sc: Scope, r1: StmtVerdict, r2: StmtVerdict)
    requires r1.StmtAccept? && r2.StmtAccept? && env.Keys == r1.env.Keys && Full(env)
    requires StmtChange(level, env, sc, r1) && StmtChange(level, r1.env, sc, r2)
    ensures StmtChange(level, env, sc, StmtAccept(r2.env, r1.brk + r2.brk, r1.cont + r2.cont, r1.ret + r2.ret,
                                                  Plus(r1.eff, r2.eff)))
  {
    hide Left, Full;
    var more := Plus(r1.eff, r2.eff);
    NothingChanges(level, env, sc);
    ChangeBefore(level, env, r1.env, sc, r1.eff.wrs, r2, more);
    ChangeBefore(level, env, env, sc, {}, r1, more);
  }

  lemma {:induction false} BlockChanges(p: Program, k: nat, level: nat, b: Block, env: Env, sc: Scope, ctx: Context,
                                        inLoop: bool)
    requires Ready(p, k, env, sc) && WFBlock(p, k, level, b, sc.vis, inLoop) && Own(p, k, BlockNames(b), sc)
    requires Full(env)
    ensures StmtChange(level, env, sc, VisitBlock(p, k, level, b, env, sc, ctx, inLoop))
    decreases k, b
  {
    hide VisitStmts, WFStmts, StmtChange;
    var names := b.locals.Keys;
    var sc1, env1 := Inner(sc, names), env + InitFacts(b.locals);
    EnterWF(p, k, level, b, env, sc, inLoop);
    InitFull(p, k, level, b, env, sc.vis, inLoop);
    StmtsChanges(p, k, level, b, 0, env1, sc1, ctx, inLoop);
    RejectChange(level, env, sc);
    var r := VisitStmts(p, k, level, b, 0, env1, sc1, ctx, inLoop);
    if r.StmtAccept? { CloseChanges(level, env, env1, sc, names, ctx, r); }
  }

  lemma InitFull(p: Program, k: nat, level: nat, b: Block, env: Env, vis: set<Variable>, inLoop: bool)
    requires WFBlock(p, k, level, b, vis, inLoop) && Full(env)
    ensures Full(env + InitFacts(b.locals))
  {
    hide WFStmts;
    forall v | v in b.locals && v.level > 0
      ensures InitFacts(b.locals)[v] != {}
    {
      assert InitTarget(b.locals[v][0]) in InitFacts(b.locals)[v];
    }
  }

  lemma CloseChanges(level: nat, env: Env, env1: Env, sc: Scope, names: set<Variable>, ctx: Context, r: StmtVerdict)
    requires r.StmtAccept? && EnvWF(env, sc.live) && names !! sc.live
    requires forall v :: v in env ==> v in env1 && env1[v] == env[v]
    requires env1.Keys - names == env.Keys && StmtVisited(level, env1, Inner(sc, names), ctx, r)
    requires StmtChange(level, env1, Inner(sc, names), r)
    ensures StmtChange(level, env, sc, r.(env := OutOfScope(names, r.env)))
  {
    hide StmtVisited, EnvWF, Left, Full, Kept;
    var r1 := r.(env := OutOfScope(names, r.env));
    CloseKept(env, env1, sc, names, r.env, r.eff.wrs);
    forall i | 0 <= i < |r.brk|
      ensures Left(sc.loop, env, r1.brk[i], r.eff.wrs)
    {
      CloseLeft(sc.loop, env, env1, sc, names, r.brk[i], r.eff.wrs);
    }
    forall i | 0 <= i < |r.cont|
      ensures Left(sc.loop, env, r1.cont[i], r.eff.wrs)
    {
      CloseLeft(sc.loop, env, env1, sc, names, r.cont[i], r.eff.wrs);
    }
    forall i | 0 <= i < |r.ret|
      ensures Left(sc.func, env, r1.ret[i].env, r.eff.wrs)
    {
      CloseLeft(sc.func, env, env1, sc, names, r.ret[i].env, r.eff.wrs);
    }
  }

  lemma CloseKept(env: Env, env1: Env, sc: Scope, names: set<Variable>, inner: Env, wrs: set<Variable>)
    requires EnvWF(env, sc.live) && names !! sc.live && Full(inner) && Kept(env1, inner, wrs)
    requires forall v :: v in env ==> v in env1 && env1[v] == env[v]
    ensures Kept(env, OutOfScope(names, inner), wrs) && Full(OutOfScope(names, inner))
  {
    hide Faded;
    OutOfScopeFull(names, inner);
    forall v | v in env
      ensures Faded(names, env[v]) == env[v]
    {
      FadedFresh({}, names, env[v], v.level, sc.live, env.Keys);
    }
  }

  lemma CloseLeft(dead: set<Variable>, env: Env, env1: Env, sc: Scope, names: set<Variable>, jump: Env,
                  wrs: set<Variable>)
    requires EnvWF(env, sc.live) && names !! sc.live && Left(dead + names, env1, jump, wrs)
    requires forall v :: v in env ==> v in env1 && env1[v] == env[v]
    ensures Left(dead, env, jump, wrs)
  {
    hide Faded;
    forall v | v in env
      ensures Faded(dead + names, env[v]) == Faded(dead, env[v])
    {
      FadedFresh(dead, names, env[v], v.level, sc.live, env.Keys);
    }
  }

  // --- loops

  ghost predicate LoopChange(level: nat, env: Env, sc: Scope, loop: LoopVerdict) {
    loop.LoopAccept? ==>
      && Full(loop.entry) && loop.r.StmtAccept? && Kept(env, loop.entry, loop.r.eff.wrs)
      && StmtChange(level, env, BodyScope(sc), loop.r)
  }

  lemma {:induction false} LoopChanges(p: Program, k: nat, level: nat, s: Stmt, env: Env, sc: Scope, ctx: Context)
    requires s.For? && Ready(p, k, env, sc) && WFBlock(p, k, level, s.body, sc.vis, true)
    requires Own(p, k, BlockNames(s.body), sc) && Full(env)
    ensures LoopChange(level, env, sc, VisitLoop(p, k, level, s, env, sc, ctx))
    decreases k, s, 0, |Missing(env, sc.live)|
  {
    hide VisitBlock, WFBlock, BlockNames, MergeAll, Missing, BackEdges, StmtChange;
    BlockChanges(p, k, level, s.body, env, BodyScope(sc), BodyContext(ctx, s.iv), true);
    var r := VisitBlock(p, k, level, s.body, env, BodyScope(sc), BodyContext(ctx, s.iv), true);
    if r.StmtAccept? {
      BackEdgesWF(level, s.body, env, sc, BodyContext(ctx, s.iv), r);
      var next := MergeAll(env, BackEdges(s.body, r));
      if next != env {
        GrowingShrinksMissing(env, next, sc.live);
        EdgesChange(level, s.body, env, sc, BodyContext(ctx, s.iv), r);
        LoopChanges(p, k, level, s, next, sc, ctx);
        var loop := VisitLoop(p, k, level, s, next, sc, ctx);
        if loop.LoopAccept? {
          var more := Plus(r.eff, loop.r.eff);
          KeptTrans(env, next, loop.entry, r.eff.wrs, loop.r.eff.wrs);
          ChangeBefore(level, env, next, BodyScope(sc), r.eff.wrs, loop.r, more);
        }
      }
    }
  }

  lemma EdgesChange(level: nat, b: Block, env: Env, sc: Scope, ctx: Context, r: StmtVerdict)
    requires r.StmtAccept? && EnvWF(env, sc.live) && Full(env)
    requires StmtVisited(level, env, BodyScope(sc), ctx, r) && StmtChange(level, env, BodyScope(sc), r)
    ensures Kept(env, MergeAll(env, BackEdges(b, r)), r.eff.wrs) && Full(MergeAll(env, BackEdges(b, r)))
  {
    hide MergeAll, Faded;
    var edges := BackEdges(b, r);
    MergesFull(env, edges);
    EmptySets(sc.live, env.Keys);
    forall v | v in env && v !in r.eff.wrs
      ensures v in MergeAll(env, edges) && MergeAll(env, edges)[v] == env[v]
    {
      FadedNone(env[v]);
      MergeAllChanges(env, edges, v, env[v]);
    }
  }

  lemma {:induction false} ForChanges(p: Program, k: nat, level: nat, s: Stmt, env: Env, sc: Scope, ctx: Context,
                                      inLoop: bool)
    requires s.For? && Ready(p, k, env, sc) && WFStmt(p, k, level, s, sc.vis, inLoop) && Own(p, k, StmtNames(s), sc)
    requires Full(env)
    ensures StmtChange(level, env, sc, VisitStmt(p, k, level, s, env, sc, ctx, inLoop))
    decreases k, s, 1
  {
    hide VisitLoop, WFBlock, StmtChange, LeaveLoop, LoopVisited;
    RejectChange(level, env, sc);
    if CheckWrite(ctx, s.iv) {
      LoopChanges(p, k, level, s, env, sc, ctx);
      LeaveLoopChanges(level, s, env, VisitLoop(p, k, level, s, env, sc, ctx), sc, ctx);
    }
  }

  lemma BreakKeys(level: nat, s: Stmt, env: Env, loop: LoopVerdict, sc: Scope, ctx: Context)
    requires s.For? && LoopVisited(level, s, env, sc, ctx, loop) && loop.LoopAccept?
    ensures loop.entry.Keys == env.Keys && forall i :: 0 <= i < |loop.r.brk| ==> loop.r.brk[i].Keys == env.Keys
  {
    EmptySets(sc.live, env.Keys);
  }

  lemma LeaveLoopChanges(level: nat, s: Stmt, env: Env, loop: LoopVerdict, sc: Scope, ctx: Context)
    requires s.For? && EnvWF(env, sc.live) && CheckWrite(ctx, s.iv) && LoopVisited(level, s, env, sc, ctx, loop)
    requires LoopChange(level, env, sc, loop) && Full(env)
    ensures StmtChange(level, env, sc, LeaveLoop(s, env, loop, level, sc, ctx))
  {
    hide MustReturn, MergeJumps, Faded, StmtVisited, EnvWF;
    if loop.LoopAccept? {
      var out := if MustReturn(s.body, true) then env else loop.entry;
      BreakKeys(level, s, env, loop, sc, ctx);
      MergesFull(out, loop.r.brk);
      forall v | v in env && v !in loop.r.eff.wrs
        ensures v in MergeJumps(out, loop.r.brk) && MergeJumps(out, loop.r.brk)[v] == env[v]
      {
        FadedNone(env[v]);
        MergeJumpsChanges(out, loop.r.brk, v, env[v]);
      }
    }
  }
}
