/** The analysis as a function: walk an expression, statement or block with the facts and effect context that hold
  * before it; reject it, or say what holds after it. */
module Analysis {
  import opened Language
  import opened Facts
  import opened Effects

  /** `live`: variables of all active scopes; `vis`: those the code may name; `loop` and `func`: locals that die when
    * control leaves the innermost loop body, or the function. */
  datatype Scope = Scope(live: set<Variable>, vis: set<Variable>, loop: set<Variable>, func: set<Variable>)

  datatype Verdict = Reject | Accept(env: Env, eff: Effect, rets: set<Target>)

  datatype ArgsVerdict = ArgsReject | ArgsAccept(env: Env, eff: Effect, rets: seq<set<Target>>)

  datatype RetFact = RetFact(env: Env, pts: set<Target>)

  /** `brk`, `cont`, `ret`: facts that leave over the jumps inside. */
  datatype StmtVerdict =
    | StmtReject
    | StmtAccept(env: Env, brk: seq<Env>, cont: seq<Env>, ret: seq<RetFact>, eff: Effect)

  // --- what holds wherever the analysis looks

  ghost predicate Ready(p: Program, k: nat, env: Env, sc: Scope) {
    && k <= |p.funcs| && WFProgram(p)
    && p.globals <= sc.vis <= sc.live
    && sc.loop <= sc.func <= sc.live && sc.func !! p.globals
    && sc.live !! NamesBelow(p, k)
    && EnvWF(env, sc.live)
    && forall v :: v in sc.vis && v.level > 0 ==> v in env
  }

  /** Is the value of `e` the value of a call? */
  predicate IsCallValue(e: Expr)
    decreases e
  {
    match e
    case Call(_, _) => true
    case Assign(_, _, rhs) => IsCallValue(rhs)
    case Comma(_, b) => IsCallValue(b)
    case _ => false
  }

  ghost predicate GoodRets(p: Program, e: Expr, rets: set<Target>, live: set<Variable>, keys: set<Variable>) {
    Level(p, e) > 0 && IsCallValue(e) ==> GoodTargets(rets, Level(p, e), live, keys)
  }

  ghost predicate Visited(p: Program, e: Expr, env: Env, sc: Scope, ctx: Context, r: Verdict) {
    r.Accept? ==>
      && EnvWF(r.env, sc.live) && r.env.Keys == env.Keys
      && Compatible(r.eff, ctx)
      && GoodRets(p, e, r.rets, sc.live, env.Keys)
  }

  lemma {:induction false} RhsGood(p: Program, k: nat, e: Expr, env: Env, sc: Scope, rets: set<Target>)
    requires Ready(p, k, env, sc) && WFExpr(p, k, e, sc.vis) && Level(p, e) > 0
    requires GoodRets(p, e, rets, sc.live, env.Keys)
    ensures GoodTargets(RhsPointees(env, e, rets), Level(p, e), sc.live, env.Keys)
    decreases e
  {
    match e
    case Load(r) => DerefGood(env, {Obj(r.v)}, r.ind + 1, r.v.level, sc.live);
    case Assign(_, _, rhs) => RhsGood(p, k, rhs, env, sc, rets);
    case Comma(_, b) => RhsGood(p, k, b, env, sc, rets);
    case _ =>
  }

  ghost predicate RetsGood(rets: seq<RetFact>, level: nat, live: set<Variable>, keys: set<Variable>) {
    forall i :: 0 <= i < |rets| ==>
      && EnvWF(rets[i].env, live) && rets[i].env.Keys == keys
      && (level > 0 ==> GoodTargets(rets[i].pts, level, live, keys))
  }

  ghost predicate StmtVisited(level: nat, env: Env, sc: Scope, ctx: Context, r: StmtVerdict) {
    r.StmtAccept? ==>
      && EnvWF(r.env, sc.live) && r.env.Keys == env.Keys
      && Compatible(r.eff, ctx)
      && AllWF(r.brk, sc.live - sc.loop, env.Keys - sc.loop)
      && AllWF(r.cont, sc.live - sc.loop, env.Keys - sc.loop)
      && RetsGood(r.ret, level, sc.live - sc.func, env.Keys - sc.func)
  }

  // --- calls

  /** Facts of the parameters.  No argument names one, so the facts before the call serve for all of them. */
  function ParamFacts(env: Env, params: seq<Variable>, args: seq<Expr>, rets: seq<set<Target>>): (m: Env)
    requires |params| == |args| == |rets|
    ensures forall v :: v in m ==> v in params && v.level > 0
    ensures forall v :: v in params && v.level > 0 ==> v in m
    decreases |params|
  {
    if params == [] then map[]
    else
      var m := ParamFacts(env, params[1..], args[1..], rets[1..]);
      if params[0].level > 0 then m[params[0] := RhsPointees(env, args[0], rets[0])] else m
  }

  /** Variables with a fact that a fact about something in `s` mentions. */
  function PointedFrom(env: Env, s: set<Variable>): set<Variable> {
    set u, v | u in env && v in s && v in env && Obj(u) in env[v] :: u
  }

  ghost predicate ClosedUnder(env: Env, s: set<Variable>) {
    forall u, v {:trigger v in s, Obj(u) in env[v]} :: v in s && v in env && Obj(u) in env[v] && u in env ==> u in s
  }

  /** Close a set of variables under "pointed to by". */
  function Reach(env: Env, s: set<Variable>): (r: set<Variable>)
    requires s <= env.Keys
    ensures s <= r <= env.Keys && ClosedUnder(env, r)
    decreases env.Keys - s
  {
    var next := s + PointedFrom(env, s);
    if next == s then
      assert forall u :: u in PointedFrom(env, s) ==> u in s;
      s
    else Reach(env, next)
  }

  /** Closing under "pointed to by" yields the least closed set. */
  lemma {:induction false} ReachLeast(env: Env, s: set<Variable>, closed: set<Variable>)
    requires s <= env.Keys && s <= closed && ClosedUnder(env, closed)
    ensures Reach(env, s) <= closed
    decreases env.Keys - s
  {
    var next := s + PointedFrom(env, s);
    if next != s {
      forall u | u in PointedFrom(env, s)
        ensures u in closed
      {
        var v :| v in s && v in env && Obj(u) in env[v] && u in env;
      }
      ReachLeast(env, next, closed);
    }
  }

  function Restrict(env: Env, keep: set<Variable>): Env {
    map v | v in env && v in keep :: env[v]
  }

  /** The facts a callee starts with: parameters, globals, and everything they lead to. */
  function HandOver(globals: set<Variable>, env: Env, f: Function, args: seq<Expr>, rets: seq<set<Target>>): Env
    requires |f.params| == |args| == |rets|
  {
    var bound := env + ParamFacts(env, f.params, args, rets);
    Restrict(bound, Reach(bound, set v | v in bound && (v in globals || v in f.params)))
  }

  function RetEnvs(rets: seq<RetFact>): (s: seq<Env>)
    ensures |s| == |rets| && forall i :: 0 <= i < |s| ==> s[i] == rets[i].env
  {
    seq(|rets|, i requires 0 <= i < |rets| => rets[i].env)
  }

  function RetTargets(rets: seq<RetFact>): set<Target> {
    if rets == [] then {} else rets[0].pts + RetTargets(rets[1..])
  }

  /** Only effects on variables that exist outside the callee are the caller's business. */
  function Visible(e: Effect, live: set<Variable>): Effect {
    e.(rds := e.rds * live, wrs := e.wrs * live, lhs := {}, unseen := e.unseen * live)
  }

  function CalleeScope(p: Program, f: Function, sc: Scope): Scope {
    var ps := Elems(f.params);
    Scope(sc.live + ps, p.globals + ps, {}, ps)
  }

  /** Back from the callee: its early returns merged in, its parameters gone, its results over the caller's facts. */
  function TakeBack(env: Env, f: Function, body: StmtVerdict): Env
    requires body.StmtAccept?
  {
    Renew(env, FactsBack(f, body))
  }

  function FactsBack(f: Function, body: StmtVerdict): Env
    requires body.StmtAccept?
  {
    MergeAll(OutOfScope(Elems(f.params), body.env), RetEnvs(body.ret))
  }

  ghost predicate GoodArgs(p: Program, args: seq<Expr>, rets: seq<set<Target>>, live: set<Variable>,
                           keys: set<Variable>) {
    |rets| == |args| && forall i :: 0 <= i < |args| ==> GoodRets(p, args[i], rets[i], live, keys)
  }

  ghost predicate ArgsWF(p: Program, k: nat, args: seq<Expr>, params: seq<Variable>, vis: set<Variable>) {
    && |args| == |params|
    && forall i :: 0 <= i < |args| ==> WFExpr(p, k, args[i], vis) && Level(p, args[i]) == params[i].level
  }

  lemma {:induction false} ParamFactsWF(p: Program, k: nat, env: Env, sc: Scope, params: seq<Variable>, args: seq<Expr>,
                                        rets: seq<set<Target>>)
    requires Ready(p, k, env, sc) && ArgsWF(p, k, args, params, sc.vis) && GoodArgs(p, args, rets, sc.live, env.Keys)
    ensures var m := ParamFacts(env, params, args, rets);
            forall v :: v in m ==> GoodTargets(m[v], v.level, sc.live, env.Keys)
    decreases |params|
  {
    if params != [] {
      ParamFactsWF(p, k, env, sc, params[1..], args[1..], rets[1..]);
      if params[0].level > 0 {
        RhsGood(p, k, args[0], env, sc, rets[0]);
      }
    }
  }

  lemma {:induction false} NamesBelowMono(p: Program, j: nat, k: nat)
    requires j <= k <= |p.funcs|
    ensures NamesBelow(p, j) <= NamesBelow(p, k)
    ensures j < k ==> FuncNames(p.funcs[j]) <= NamesBelow(p, k)
    decreases k
  {
    if j < k { NamesBelowMono(p, j, k - 1); }
  }

  /** A closed part of the facts stands on its own. */
  lemma RestrictWF(env: Env, keep: set<Variable>, live: set<Variable>)
    requires EnvWF(env, live) && keep <= env.Keys && ClosedUnder(env, keep)
    ensures EnvWF(Restrict(env, keep), live) && Restrict(env, keep).Keys == keep
  {
    var kept := Restrict(env, keep);
    forall v, t | v in kept && t in kept[v]
      ensures GoodTarget(t, v.level, live, kept.Keys)
    {
      if t.Obj? && t.v.level > 0 {
        assert v in keep && Obj(t.v) in env[v];
      }
    }
  }

  lemma BoundWF(p: Program, k: nat, env: Env, sc: Scope, params: seq<Variable>, args: seq<Expr>, rets: seq<set<Target>>)
    requires Ready(p, k, env, sc) && ArgsWF(p, k, args, params, sc.vis) && GoodArgs(p, args, rets, sc.live, env.Keys)
    ensures EnvWF(env + ParamFacts(env, params, args, rets), sc.live + Elems(params))
  {
    ParamFactsWF(p, k, env, sc, params, args, rets);
  }

  lemma HandOverReady(p: Program, k: nat, env: Env, sc: Scope, f: nat, args: seq<Expr>, rets: seq<set<Target>>)
    requires Ready(p, k, env, sc) && f < k
    requires ArgsWF(p, k, args, p.funcs[f].params, sc.vis) && GoodArgs(p, args, rets, sc.live, env.Keys)
    ensures var fn := p.funcs[f];
            Ready(p, f, HandOver(p.globals, env, fn, args, rets), CalleeScope(p, fn, sc))
    ensures HandOver(p.globals, env, p.funcs[f], args, rets).Keys <= env.Keys + Elems(p.funcs[f].params)
    ensures sc.live !! FuncNames(p.funcs[f])
  {
    hide WFBlock, MustReturn, BlockNames, RhsPointees, ParamFacts, Reach, EnvWF;
    var fn := p.funcs[f];
    assert WFFunction(p, f);
    NamesBelowMono(p, f, k);
    BoundWF(p, k, env, sc, fn.params, args, rets);
    var bound := env + ParamFacts(env, fn.params, args, rets);
    var roots := set v | v in bound && (v in p.globals || v in fn.params);
    RestrictWF(bound, Reach(bound, roots), sc.live + Elems(fn.params));
    assert HandOver(p.globals, env, fn, args, rets) == Restrict(bound, Reach(bound, roots));
  }

  lemma {:induction false} RetTargetsGood(rets: seq<RetFact>, level: nat, live: set<Variable>, keys: set<Variable>)
    requires RetsGood(rets, level, live, keys) && level > 0
    ensures GoodTargets(RetTargets(rets), level, live, keys)
    decreases |rets|
  {
    if rets != [] {
      RetTargetsGood(rets[1..], level, live, keys);
    }
  }

  lemma FactsBackWF(p: Program, sc: Scope, f: Function, kept: Env, ctx: Context, body: StmtVerdict)
    requires body.StmtAccept? && sc.live !! Elems(f.params)
    requires StmtVisited(f.level, kept, CalleeScope(p, f, sc), ctx, body)
    ensures EnvWF(FactsBack(f, body), sc.live) && FactsBack(f, body).Keys == kept.Keys - Elems(f.params)
    ensures forall i :: 0 <= i < |body.ret| ==> Below(body.ret[i].env, FactsBack(f, body))
  {
    var ps := Elems(f.params);
    assert sc.live + ps - ps == sc.live;
    OutOfScopeWF(ps, body.env, sc.live);
    MergeAllWF(OutOfScope(ps, body.env), RetEnvs(body.ret), sc.live);
    forall i | 0 <= i < |body.ret|
      ensures Below(body.ret[i].env, FactsBack(f, body))
    {
      assert RetEnvs(body.ret)[i] == body.ret[i].env;
    }
  }

  lemma TakeBackWF(p: Program, env: Env, sc: Scope, f: Function, kept: Env, ctx: Context, body: StmtVerdict)
    requires body.StmtAccept? && EnvWF(env, sc.live)
    requires sc.live !! Elems(f.params) && kept.Keys <= env.Keys + Elems(f.params)
    requires StmtVisited(f.level, kept, CalleeScope(p, f, sc), ctx, body)
    ensures EnvWF(TakeBack(env, f, body), sc.live) && TakeBack(env, f, body).Keys == env.Keys
    ensures f.level > 0 ==> GoodTargets(RetTargets(body.ret), f.level, sc.live, env.Keys)
  {
    hide FactsBack, MergeAll;
    var ps := Elems(f.params);
    assert sc.live + ps - ps == sc.live;
    FactsBackWF(p, sc, f, kept, ctx, body);
    if f.level > 0 {
      RetTargetsGood(body.ret, f.level, sc.live, kept.Keys - ps);
    }
  }

  // --- expressions

  function Visit(p: Program, k: nat, e: Expr, env: Env, sc: Scope, ctx: Context): (r: Verdict)
    requires Ready(p, k, env, sc) && WFExpr(p, k, e, sc.vis)
    ensures Visited(p, e, env, sc, ctx, r)
    decreases k, e
  {
    match e
    case Const(_) => Accept(env, NO_EFFECT, {})
    case PtrConst(_, _) => Accept(env, NO_EFFECT, {})
    case AddrOf(_, ix) => Accept(env, AddressEffect(ctx, ix), {})
    case Load(r) =>
      VisitReadOk(env, ctx, r);
      (match VisitRead(env, ctx, r)
       case Some(eff) => Accept(env, eff, {})
       case None => Reject)
    case Assign(r, c, rhs) =>
      (match Visit(p, k, rhs, env, sc, ctx)
       case Reject => Reject
       case Accept(env1, eff1, rets1) => VisitStore(p, k, e, env1, sc, ctx, eff1, rets1))
    case Comma(a, b) =>
      (match Visit(p, k, a, env, sc, ctx)
       case Reject => Reject
       case Accept(env1, eff1, _) => Extend(eff1, Visit(p, k, b, env1, sc, ctx)))
    case Short(_, a, b) =>
      (match Visit(p, k, a, env, sc, ctx)
       case Reject => Reject
       case Accept(env1, eff1, _) => MaybeNot(env1, eff1, Visit(p, k, b, env1, sc, ctx), p, e, sc, ctx))
    case Op(_, args) =>
      (match VisitArgs(p, k, e, args, env, sc, ctx)
       case ArgsReject => Reject
       case ArgsAccept(env1, eff1, _) => Accept(env1, eff1, {}))
    case Call(f, args) =>
      (match VisitArgs(p, k, e, args, env, sc, ctx)
       case ArgsReject => Reject
       case ArgsAccept(env1, eff1, rets) => VisitCall(p, k, e, env1, sc, ctx, eff1, rets))
  }

  function Extend(eff: Effect, r: Verdict): Verdict {
    if r.Accept? then r.(eff := Plus(eff, r.eff)) else r
  }

  /** The second operand of `&&` or `||` may not be evaluated at all. */
  function MaybeNot(env: Env, eff: Effect, second: Verdict, ghost p: Program, ghost e: Expr, ghost sc: Scope,
                    ghost ctx: Context): (r: Verdict)
    requires EnvWF(env, sc.live) && Compatible(eff, ctx) && e.Short? && Visited(p, e.b, env, sc, ctx, second)
    ensures Visited(p, e, env, sc, ctx, r)
  {
    if second.Reject? then Reject
    else
      MergeWF(second.env, env, sc.live);
      Accept(Merge(second.env, env), Plus(eff, second.eff), {})
  }

  /** Variables that a function handed these facts may reach in the frames of its callers. */
  function FrameVars(kept: Env, live: set<Variable>): set<Variable> {
    set v, u | v in live && u in kept && Obj(v) in kept[u] :: v
  }

  /** A function created for this call is handed the directives about globals and the frame variables it may reach; one
    * that is visited again is handed all. */
  function CalleeContext(ctx: Context, f: nat, globals: set<Variable>, kept: Env, live: set<Variable>): Context {
    if f in ctx.created then
      var ext := globals + FrameVars(kept, live);
      ctx.(noRead := ctx.noRead * ext, noWrite := ctx.noWrite * ext)
    else ctx
  }

  /** A call whose arguments have been accepted: hand the facts over, visit the body, and take the results back. */
  function VisitCall(p: Program, k: nat, e: Expr, env: Env, sc: Scope, ctx: Context, eff: Effect,
                     rets: seq<set<Target>>): (r: Verdict)
    requires e.Call? && Ready(p, k, env, sc) && WFExpr(p, k, e, sc.vis)
    requires Compatible(eff, ctx) && GoodArgs(p, e.args, rets, sc.live, env.Keys)
    ensures Visited(p, e, env, sc, ctx, r)
    decreases k, e, 0
  {
    var fn := p.funcs[e.f];
    HandOverReady(p, k, env, sc, e.f, e.args, rets);
    assert WFFunction(p, e.f);
    var kept := HandOver(p.globals, env, fn, e.args, rets);
    var inner := CalleeContext(ctx, e.f, p.globals, kept, sc.live);
    var body := VisitBlock(p, e.f, fn.level, fn.body, kept, CalleeScope(p, fn, sc), inner, false);
    CallVerdict(p, e, env, sc, eff, body, kept, ctx)
  }

  function CallVerdict(p: Program, e: Expr, env: Env, sc: Scope, eff: Effect, body: StmtVerdict, ghost kept: Env,
                       ghost ctx: Context): (r: Verdict)
    requires e.Call? && e.f < |p.funcs| && EnvWF(env, sc.live) && Compatible(eff, ctx)
    requires sc.live !! Elems(p.funcs[e.f].params) && kept.Keys <= env.Keys + Elems(p.funcs[e.f].params)
    requires StmtVisited(p.funcs[e.f].level, kept, CalleeScope(p, p.funcs[e.f], sc), ctx, body)
    ensures Visited(p, e, env, sc, ctx, r)
  {
    var fn := p.funcs[e.f];
    if body.StmtReject? then Reject
    else
      TakeBackWF(p, env, sc, fn, kept, ctx, body);
      Accept(TakeBack(env, fn, body), Plus(eff.(lhs := {}), Visible(body.eff, sc.live)), RetTargets(body.ret))
  }

  /** The left side of an assignment, and the assignment itself. */
  function VisitStore(p: Program, k: nat, e: Expr, env: Env, sc: Scope, ctx: Context, eff: Effect, rets: set<Target>)
    : (r: Verdict)
    requires e.Assign? && Ready(p, k, env, sc) && WFExpr(p, k, e, sc.vis)
    requires Compatible(eff, ctx) && GoodRets(p, e.rhs, rets, sc.live, env.Keys)
    ensures Visited(p, e, env, sc, ctx, r)
  {
    match VisitLhs(env, LhsContext(ctx, eff, e.compound.Some?), eff, e.r, e.compound.Some?)
    case None => Reject
    case Some(lhs) =>
      StoreVisited(p, k, e, env, sc, ctx, eff, rets);
      if RefLevel(e.r) > 0
      then Accept(AssignFacts(env, e.r, RhsPointees(env, e.rhs, rets)), BothSides(eff, lhs), rets)
      else Accept(env, BothSides(eff, lhs), rets)
  }

  lemma StoreVisited(p: Program, k: nat, e: Expr, env: Env, sc: Scope, ctx: Context, eff: Effect, rets: set<Target>)
    requires e.Assign? && Ready(p, k, env, sc) && WFExpr(p, k, e, sc.vis)
    requires Compatible(eff, ctx) && GoodRets(p, e.rhs, rets, sc.live, env.Keys)
    requires VisitLhs(env, LhsContext(ctx, eff, e.compound.Some?), eff, e.r, e.compound.Some?).Some?
    ensures var lhs := VisitLhs(env, LhsContext(ctx, eff, e.compound.Some?), eff, e.r, e.compound.Some?).value;
            if RefLevel(e.r) > 0 then
              Visited(p, e, env, sc, ctx,
                      Accept(AssignFacts(env, e.r, RhsPointees(env, e.rhs, rets)), BothSides(eff, lhs), rets))
            else Visited(p, e, env, sc, ctx, Accept(env, BothSides(eff, lhs), rets))
  {
    hide VisitLhs, AssignFacts, RhsPointees;
    VisitLhsOk(env, LhsContext(ctx, eff, e.compound.Some?), eff, e.r, e.compound.Some?);
    if RefLevel(e.r) > 0 {
      RhsGood(p, k, e.rhs, env, sc, rets);
      AssignFactsWF(env, e.r, RhsPointees(env, e.rhs, rets), sc.live);
    }
  }

  function BothSides(rhs: Effect, lhs: Effect): Effect {
    Plus(rhs, lhs).(lhs := rhs.lhs + lhs.wrs, mixed := rhs.mixed || (rhs.vol && AnyVolatile(lhs.rds)))
  }

  /** Operands from left to right; each is checked against the effects of those before it. */
  function VisitArgs(p: Program, k: nat, e: Expr, args: seq<Expr>, env: Env, sc: Scope, ctx: Context): (r: ArgsVerdict)
    requires Ready(p, k, env, sc)
    requires forall i :: 0 <= i < |args| ==> args[i] < e && WFExpr(p, k, args[i], sc.vis)
    ensures r.ArgsAccept? ==>
              && EnvWF(r.env, sc.live) && r.env.Keys == env.Keys
              && Compatible(r.eff, ctx)
              && GoodArgs(p, args, r.rets, sc.live, env.Keys)
    decreases k, e, |args|
  {
    if args == [] then ArgsAccept(env, NO_EFFECT, [])
    else
      match Visit(p, k, args[0], env, sc, ctx)
      case Reject => ArgsReject
      case Accept(env1, eff1, rets1) =>
        OneMoreArg(eff1, rets1, VisitArgs(p, k, e, args[1..], env1, sc, ctx.(eff := Plus(ctx.eff, eff1))))
  }

  function OneMoreArg(eff: Effect, rets: set<Target>, rest: ArgsVerdict): ArgsVerdict {
    match rest
    case ArgsReject => ArgsReject
    case ArgsAccept(env2, eff2, rets2) => ArgsAccept(env2, Unsequenced(eff, eff2), [rets] + rets2)
  }

  // --- statements

  /** Names still to be declared: not in scope now, and not used by any function that can be called from here. */
  ghost predicate Own(p: Program, k: nat, names: set<Variable>, sc: Scope)
    requires k <= |p.funcs|
  {
    names !! sc.live && names !! NamesBelow(p, k)
  }

  function VisitStmt(p: Program, k: nat, level: nat, s: Stmt, env: Env, sc: Scope, ctx: Context, inLoop: bool)
    : (r: StmtVerdict)
    requires Ready(p, k, env, sc) && WFStmt(p, k, level, s, sc.vis, inLoop) && Own(p, k, StmtNames(s), sc)
    ensures StmtVisited(level, env, sc, ctx, r)
    decreases k, s
  {
    match s
    case ExprStmt(e) =>
      (match Visit(p, k, e, env, sc, ctx)
       case Reject => StmtReject
       case Accept(env1, eff1, _) => StmtAccept(env1, [], [], [], eff1))
    case Break(t) =>
      (match Visit(p, k, t, env, sc, ctx)
       case Reject => StmtReject
       case Accept(env1, eff1, _) =>
         LeaveWF(sc.loop, env1, sc.live);
         StmtAccept(env1, [OutOfScope(sc.loop, env1)], [], [], eff1))
    case Continue(t) =>
      (match Visit(p, k, t, env, sc, ctx)
       case Reject => StmtReject
       case Accept(env1, eff1, _) =>
         LeaveWF(sc.loop, env1, sc.live);
         StmtAccept(env1, [], [OutOfScope(sc.loop, env1)], [], eff1))
    case Return(e) =>
      (match Visit(p, k, e, env, sc, ctx)
       case Reject => StmtReject
       case Accept(env1, eff1, rets1) => VisitReturn(p, k, level, e, env1, sc, ctx, eff1, rets1))
    case If(t, a, b) =>
      (match Visit(p, k, t, env, sc, ctx)
       case Reject => StmtReject
       case Accept(env1, eff1, _) =>
         JoinBranches(s, env, eff1,
                      VisitBlock(p, k, level, a, env1, sc, ctx, inLoop),
                      VisitBlock(p, k, level, b, env1, sc, ctx, inLoop), level, sc, ctx))
    case For(iv, _, _, _, _, _, b) =>
      if !CheckWrite(ctx, iv) then StmtReject
      else LeaveLoop(s, env, VisitLoop(p, k, level, s, env, sc, ctx), level, sc, ctx)
  }

  /** A return ends the scopes of all locals; its value is what the caller sees. */
  function VisitReturn(p: Program, k: nat, level: nat, e: Expr, env: Env, sc: Scope, ctx: Context, eff: Effect,
                       rets: set<Target>): (r: StmtVerdict)
    requires Ready(p, k, env, sc) && WFExpr(p, k, e, sc.vis) && Level(p, e) == level
    requires Compatible(eff, ctx) && GoodRets(p, e, rets, sc.live, env.Keys)
    ensures StmtVisited(level, env, sc, ctx, r)
  {
    var pts := RhsPointees(env, e, rets);
    LeaveWF(sc.func, env, sc.live);
    if level > 0 then
      RhsGood(p, k, e, env, sc, rets); FadedGood(sc.func, pts, level, sc.live, env.Keys);
      StmtAccept(env, [], [], [RetFact(OutOfScope(sc.func, env), Faded(sc.func, pts))], eff)
    else StmtAccept(env, [], [], [RetFact(OutOfScope(sc.func, env), Faded(sc.func, pts))], eff)
  }

  /** A branch that must return adds nothing to what holds after the statement. */
  function JoinBranches(s: Stmt, env: Env, eff: Effect, r1: StmtVerdict, r2: StmtVerdict,
                        ghost level: nat, ghost sc: Scope, ghost ctx: Context): (r: StmtVerdict)
    requires s.If? && EnvWF(env, sc.live) && Compatible(eff, ctx)
    requires StmtVisited(level, env, sc, ctx, r1) && StmtVisited(level, env, sc, ctx, r2)
    ensures StmtVisited(level, env, sc, ctx, r)
  {
    if r1.StmtReject? || r2.StmtReject? then StmtReject
    else
      MergeWF(r1.env, r2.env, sc.live);
      var out :=
        if MustReturn(s.thn, false) && MustReturn(s.els, false) then env
        else if MustReturn(s.thn, false) then r2.env
        else if MustReturn(s.els, false) then r1.env
        else Merge(r1.env, r2.env);
      StmtAccept(out, r1.brk + r2.brk, r1.cont + r2.cont, r1.ret + r2.ret, Plus(eff, Plus(r1.eff, r2.eff)))
  }

  datatype LoopVerdict = LoopReject | LoopAccept(entry: Env, r: StmtVerdict)

  ghost predicate LoopVisited(level: nat, s: Stmt, env: Env, sc: Scope, ctx: Context, r: LoopVerdict)
    requires s.For?
  {
    r.LoopAccept? ==>
      && r.r.StmtAccept?
      && StmtVisited(level, r.entry, BodyScope(sc), BodyContext(ctx, s.iv), r.r)
      && EnvWF(r.entry, sc.live) && Below(env, r.entry)
  }

  /** After a loop: the facts at its head, where it is left, and those of every `break`. */
  function LeaveLoop(s: Stmt, env: Env, loop: LoopVerdict, ghost level: nat, ghost sc: Scope, ghost ctx: Context)
    : (r: StmtVerdict)
    requires s.For? && EnvWF(env, sc.live) && CheckWrite(ctx, s.iv) && LoopVisited(level, s, env, sc, ctx, loop)
    ensures StmtVisited(level, env, sc, ctx, r)
  {
    if loop.LoopReject? then StmtReject
    else
      var out := if MustReturn(s.body, true) then env else loop.entry;
      EmptySets(sc.live, env.Keys);
      MergeJumpsWF(out, loop.r.brk, sc.live);
      StmtAccept(MergeJumps(out, loop.r.brk), [], [], loop.r.ret, LoopEffect(s.iv, loop.r.eff))
  }

  /** The variable of a loop is written by it, and need not be called an unseen index any more. */
  function LoopEffect(iv: Variable, body: Effect): Effect {
    Plus(WriteEffect(iv), body.(unseen := body.unseen - {iv}))
  }

  lemma EmptySets(a: set<Variable>, b: set<Variable>)
    ensures a - {} == a && b - {} == b
  {
  }

  lemma LeaveWF(dead: set<Variable>, env: Env, live: set<Variable>)
    requires EnvWF(env, live) && dead <= live
    ensures EnvWF(OutOfScope(dead, env), live - dead) && OutOfScope(dead, env).Keys == env.Keys - dead
  {
    assert live == (live - dead) + dead;
    OutOfScopeWF(dead, env, live - dead);
  }

  lemma FadedGood(dead: set<Variable>, pts: set<Target>, level: nat, live: set<Variable>, keys: set<Variable>)
    requires GoodTargets(pts, level, live, keys)
    ensures GoodTargets(Faded(dead, pts), level, live - dead, keys - dead)
  {
  }

  function VisitStmts(p: Program, k: nat, level: nat, b: Block, i: nat, env: Env, sc: Scope, ctx: Context, inLoop: bool)
    : (r: StmtVerdict)
    requires i <= |b.stms|
    requires Ready(p, k, env, sc) && WFStmts(p, k, level, b, i, sc.vis, inLoop) && Own(p, k, StmtsNames(b, i), sc)
    ensures StmtVisited(level, env, sc, ctx, r)
    decreases k, b, |b.stms| - i
  {
    if i == |b.stms| then StmtAccept(env, [], [], [], NO_EFFECT)
    else
      var r1 := VisitStmt(p, k, level, b.stms[i], env, sc, ctx, inLoop);
      if r1.StmtReject? then StmtReject
      else Then(r1, VisitStmts(p, k, level, b, i + 1, r1.env, sc, ctx, inLoop), level, env, sc, ctx)
  }

  /** One statement after another. */
  function Then(r1: StmtVerdict, r2: StmtVerdict, ghost level: nat, ghost env: Env, ghost sc: Scope, ghost ctx: Context)
    : (r: StmtVerdict)
    requires r1.StmtAccept? && StmtVisited(level, env, sc, ctx, r1) && StmtVisited(level, r1.env, sc, ctx, r2)
    ensures StmtVisited(level, env, sc, ctx, r)
  {
    match r2
    case StmtReject => StmtReject
    case StmtAccept(env2, brk2, cont2, ret2, eff2) =>
      StmtAccept(env2, r1.brk + brk2, r1.cont + cont2, r1.ret + ret2, Plus(r1.eff, eff2))
  }

  function Inner(sc: Scope, names: set<Variable>): Scope {
    Scope(sc.live + names, sc.vis + names, sc.loop + names, sc.func + names)
  }

  lemma EnterWF(p: Program, k: nat, level: nat, b: Block, env: Env, sc: Scope, inLoop: bool)
    requires Ready(p, k, env, sc) && WFBlock(p, k, level, b, sc.vis, inLoop) && Own(p, k, BlockNames(b), sc)
    ensures var sc1, env1 := Inner(sc, b.locals.Keys), env + InitFacts(b.locals);
            && Ready(p, k, env1, sc1) && Own(p, k, StmtsNames(b, 0), sc1)
            && env1.Keys - b.locals.Keys == env.Keys
  {
    var env1 := env + InitFacts(b.locals);
    forall v | v in env1
      ensures v in sc.live + b.locals.Keys && v.level > 0
      ensures GoodTargets(env1[v], v.level, sc.live + b.locals.Keys, env1.Keys)
    {
      if v in b.locals {
        forall t | t in env1[v]
          ensures GoodTarget(t, v.level, sc.live + b.locals.Keys, env1.Keys)
        {
          var i :| 0 <= i < |b.locals[v]| && t == InitTarget(b.locals[v][i]);
          assert WFInit(v, b.locals[v][i], sc.vis + b.locals.Keys);
        }
      }
    }
  }

  /** One pass over a block. */
  function VisitBlock(p: Program, k: nat, level: nat, b: Block, env: Env, sc: Scope, ctx: Context, inLoop: bool)
    : (r: StmtVerdict)
    requires Ready(p, k, env, sc) && WFBlock(p, k, level, b, sc.vis, inLoop) && Own(p, k, BlockNames(b), sc)
    ensures StmtVisited(level, env, sc, ctx, r)
    decreases k, b
  {
    var sc1 := Inner(sc, b.locals.Keys);
    EnterWF(p, k, level, b, env, sc, inLoop);
    CloseBlock(b, env, VisitStmts(p, k, level, b, 0, env + InitFacts(b.locals), sc1, ctx, inLoop), level, sc, ctx)
  }

  function CloseBlock(b: Block, ghost env: Env, inner: StmtVerdict, ghost level: nat, ghost sc: Scope,
                      ghost ctx: Context): (r: StmtVerdict)
    requires b.locals.Keys !! sc.live && b.locals.Keys !! env.Keys && sc.loop <= sc.live && sc.func <= sc.live
    requires var env1 := env + InitFacts(b.locals);
             env1.Keys - b.locals.Keys == env.Keys && StmtVisited(level, env1, Inner(sc, b.locals.Keys), ctx, inner)
    ensures StmtVisited(level, env, sc, ctx, r)
  {
    if inner.StmtReject? then StmtReject
    else
      var names := b.locals.Keys;
      OutOfScopeWF(names, inner.env, sc.live);
      InnerSets(sc, names, env.Keys, (env + InitFacts(b.locals)).Keys);
      inner.(env := OutOfScope(names, inner.env))
  }

  lemma InnerSets(sc: Scope, names: set<Variable>, keys: set<Variable>, inner: set<Variable>)
    requires names !! sc.live && names !! keys && inner - names == keys
    ensures sc.live + names - (sc.loop + names) == sc.live - sc.loop
    ensures sc.live + names - (sc.func + names) == sc.live - sc.func
    ensures inner - (sc.loop + names) == keys - sc.loop
    ensures inner - (sc.func + names) == keys - sc.func
  {
  }

  // --- loops

  /** The sources of the back edges into a loop body. */
  function BackEdges(b: Block, r: StmtVerdict): seq<Env>
    requires r.StmtAccept?
  {
    r.cont + (if FromTailToHead(b) then [r.env] else [])
  }

  function BodyScope(sc: Scope): Scope {
    sc.(loop := {})
  }

  function BodyContext(ctx: Context, iv: Variable): Context {
    ctx.(noWrite := ctx.noWrite + {iv})
  }

  /** Passes over a loop body, each with the facts of all back edges merged into its input, until they add nothing. */
  function VisitLoop(p: Program, k: nat, level: nat, s: Stmt, env: Env, sc: Scope, ctx: Context): (r: LoopVerdict)
    requires s.For? && Ready(p, k, env, sc) && WFBlock(p, k, level, s.body, sc.vis, true)
    requires Own(p, k, BlockNames(s.body), sc)
    ensures LoopVisited(level, s, env, sc, ctx, r)
    decreases k, s, |Missing(env, sc.live)|
  {
    var r := VisitBlock(p, k, level, s.body, env, BodyScope(sc), BodyContext(ctx, s.iv), true);
    if r.StmtReject? then LoopReject
    else
      BackEdgesWF(level, s.body, env, sc, BodyContext(ctx, s.iv), r);
      var next := MergeAll(env, BackEdges(s.body, r));
      if next == env then LoopAccept(env, r)
      else
        GrowingShrinksMissing(env, next, sc.live);
        AddPass(r.eff, VisitLoop(p, k, level, s, next, sc, ctx), level, s, env, next, sc, ctx)
  }

  /** The effects of every pass are kept. */
  function AddPass(eff: Effect, loop: LoopVerdict, ghost level: nat, ghost s: Stmt, ghost env: Env, ghost next: Env,
                   ghost sc: Scope, ghost ctx: Context): (r: LoopVerdict)
    requires s.For? && Below(env, next) && LoopVisited(level, s, next, sc, ctx, loop)
    requires Compatible(eff, BodyContext(ctx, s.iv))
    ensures LoopVisited(level, s, env, sc, ctx, r)
  {
    match loop
    case LoopReject => LoopReject
    case LoopAccept(entry, body) => LoopAccept(entry, body.(eff := Plus(eff, body.eff)))
  }

  lemma BackEdgesWF(level: nat, b: Block, env: Env, sc: Scope, ctx: Context, r: StmtVerdict)
    requires r.StmtAccept? && EnvWF(env, sc.live) && StmtVisited(level, env, BodyScope(sc), ctx, r)
    ensures var next := MergeAll(env, BackEdges(b, r));
            EnvWF(next, sc.live) && next.Keys == env.Keys && Below(env, next)
    ensures forall i :: 0 <= i < |BackEdges(b, r)| ==> Below(BackEdges(b, r)[i], MergeAll(env, BackEdges(b, r)))
  {
    EmptySets(sc.live, env.Keys);
    MergeAllWF(env, BackEdges(b, r), sc.live);
  }
}
