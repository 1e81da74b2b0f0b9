/** What a construct makes of the facts: all that it must, and nothing from nowhere.  Soundness alone would also hold of
  * an analysis that forgets more than it has to. */
module Precision {
  import opened Language
  import opened Facts
  import opened Effects
  import opened Analysis
  import opened Monotone

  /** May `v` point to `t`? */
  predicate May(env: Env, v: Variable, t: Target) {
    v in env && t in env[v]
  }

  // --- assignments

  /** After an accepted assignment to a pointer, a single pointer that is no array points to just what the right side
    * does; one of several may point to that as well; and all other facts are those the right side has left. */
  lemma AssignPrecise(p: Program, k: nat, e: Expr, env: Env, sc: Scope, ctx: Context, v: Variable, t: Target)
    requires e.Assign? && Ready(p, k, env, sc) && WFExpr(p, k, e, sc.vis) && Visit(p, k, e, env, sc, ctx).Accept?
    requires RefLevel(e.r) > 0 && v in env
    ensures var rhs, after := Visit(p, k, e.rhs, env, sc, ctx), Visit(p, k, e, env, sc, ctx).env;
            && rhs.Accept? && v in after
            && var cells, pts := Deref(rhs.env, {Obj(e.r.v)}, e.r.ind), RhsPointees(rhs.env, e.rhs, rhs.rets);
            && (Obj(v) !in cells ==> after[v] == rhs.env[v])
            && (Obj(v) in cells ==> pts <= after[v] && (May(after, v, t) ==> t in pts || May(rhs.env, v, t)))
            && (Obj(v) in cells && (v.isArray || exists u :: u in cells && u != Obj(v)) ==> rhs.env[v] <= after[v])
            && (cells == {Obj(v)} && !v.isArray ==> after[v] == pts)
  {
    hide VisitLhs, Deref, RhsPointees;
  }

  /** In particular, `p = e` leaves `p` with the pointees of `e`, and every other pointer with what it had. */
  lemma PlainAssign(p: Program, k: nat, e: Expr, env: Env, sc: Scope, ctx: Context)
    requires e.Assign? && Ready(p, k, env, sc) && WFExpr(p, k, e, sc.vis) && Visit(p, k, e, env, sc, ctx).Accept?
    requires e.r.ind == 0 && e.r.v.level > 0 && !e.r.v.isArray
    ensures var rhs, after := Visit(p, k, e.rhs, env, sc, ctx), Visit(p, k, e, env, sc, ctx).env;
            rhs.Accept? && after == rhs.env[e.r.v := RhsPointees(rhs.env, e.rhs, rhs.rets)]
  {
    hide VisitLhs, RhsPointees;
  }

  // --- expressions

  /** The second operand of `&&` or `||` may or may not have been evaluated, and nothing else. */
  lemma ShortPrecise(p: Program, k: nat, e: Expr, env: Env, sc: Scope, ctx: Context, v: Variable, t: Target)
    requires e.Short? && Ready(p, k, env, sc) && WFExpr(p, k, e, sc.vis) && Visit(p, k, e, env, sc, ctx).Accept?
    ensures var a := Visit(p, k, e.a, env, sc, ctx);
            && a.Accept?
            && var b := Visit(p, k, e.b, a.env, sc, ctx);
            && b.Accept? && (May(Visit(p, k, e, env, sc, ctx).env, v, t) <==> May(a.env, v, t) || May(b.env, v, t))
  {
  }

  // --- effects

  lemma {:induction false} PointedLive(env: Env, ctx: Context, ts: set<Target>, k: nat, live: set<Variable>)
    requires EnvWF(env, live)
    ensures var e := ReadPointed(env, ctx, ts, k); e.Some? ==> e.value.rds + e.value.wrs + e.value.lhs <= live
    ensures k > 0 ==> var e := WritePointed(env, ctx, ts, k);
                      e.Some? ==> e.value.rds + e.value.wrs + e.value.lhs <= live
    decreases k
  {
    if k > 0 {
      var next := Pointees(env, ts);
      forall v | v in Objects(next)
        ensures v in live
      {
        var u :| u in ts && u.Obj? && u.v in env && Obj(v) in env[u.v];
        assert GoodTarget(Obj(v), u.v.level, live, env.Keys);
      }
      PointedLive(env, ctx, next, k - 1, live);
    }
  }

  ghost predicate LiveOnly(e: Effect, live: set<Variable>) {
    e.rds + e.wrs + e.lhs <= live
  }

  /** The effect of an accepted expression is about variables that exist where it stands: what a callee does to its own
    * is nobody else's business. */
  lemma {:induction false} EffectLive(p: Program, k: nat, e: Expr, env: Env, sc: Scope, ctx: Context)
    requires Ready(p, k, env, sc) && WFExpr(p, k, e, sc.vis) && Visit(p, k, e, env, sc, ctx).Accept?
    ensures LiveOnly(Visit(p, k, e, env, sc, ctx).eff, sc.live)
    decreases e
  {
    hide Plus, LiveOnly, VisitRead, VisitStore, VisitArgs, VisitCall;
    match e
    case Const(_) => NothingLive(sc.live);
    case PtrConst(_, _) => NothingLive(sc.live);
    case AddrOf(_, ix) => AddressLive(ctx, ix, sc.live);
    case Load(r) => ReadLive(env, ctx, r, sc.live);
    case Assign(_, _, rhs) =>
      EffectLive(p, k, rhs, env, sc, ctx);
      StoreLive(p, k, e, env, sc, ctx);
    case Comma(a, b) => ThenLive(p, k, e, a, b, env, sc, ctx);
    case Short(_, a, b) => ThenLive(p, k, e, a, b, env, sc, ctx);
    case Op(_, args) => ArgsLive(p, k, e, args, env, sc, ctx);
    case Call(_, args) =>
      ArgsLive(p, k, e, args, env, sc, ctx);
      CallLive(p, k, e, env, sc, ctx);
  }

  lemma NothingLive(live: set<Variable>)
    ensures LiveOnly(NO_EFFECT, live)
  {
  }

  lemma AddressLive(ctx: Context, ix: Index, live: set<Variable>)
    ensures LiveOnly(AddressEffect(ctx, ix), live)
  {
  }

  lemma {:induction false} ThenLive(p: Program, k: nat, e: Expr, a: Expr, b: Expr, env: Env, sc: Scope, ctx: Context)
    requires a < e && b < e && (e == Comma(a, b) || (e.Short? && e.a == a && e.b == b))
    requires Ready(p, k, env, sc) && WFExpr(p, k, e, sc.vis) && Visit(p, k, e, env, sc, ctx).Accept?
    ensures LiveOnly(Visit(p, k, e, env, sc, ctx).eff, sc.live)
    decreases e, 0
  {
    ThenVerdict(p, k, e, a, b, env, sc, ctx);
    hide Visit;
    EffectLive(p, k, a, env, sc, ctx);
    EffectLive(p, k, b, Visit(p, k, a, env, sc, ctx).env, sc, ctx);
  }

  lemma CallLive(p: Program, k: nat, e: Expr, env: Env, sc: Scope, ctx: Context)
    requires e.Call? && Ready(p, k, env, sc) && WFExpr(p, k, e, sc.vis) && Visit(p, k, e, env, sc, ctx).Accept?
    requires VisitArgs(p, k, e, e.args, env, sc, ctx).ArgsAccept?
    requires LiveOnly(VisitArgs(p, k, e, e.args, env, sc, ctx).eff, sc.live)
    ensures LiveOnly(Visit(p, k, e, env, sc, ctx).eff, sc.live)
  {
    hide VisitArgs, HandOver, VisitBlock, TakeBack, Compatible, GoodArgs;
  }

  lemma StoreLive(p: Program, k: nat, e: Expr, env: Env, sc: Scope, ctx: Context)
    requires e.Assign? && Ready(p, k, env, sc) && WFExpr(p, k, e, sc.vis) && Visit(p, k, e, env, sc, ctx).Accept?
    requires LiveOnly(Visit(p, k, e.rhs, env, sc, ctx).eff, sc.live)
    ensures LiveOnly(Visit(p, k, e, env, sc, ctx).eff, sc.live)
  {
    hide AssignFacts, RhsPointees, AnyVolatile, VisitLhs;
    var r1, compound := Visit(p, k, e.rhs, env, sc, ctx), e.compound.Some?;
    SideLive(r1.env, LhsContext(ctx, r1.eff, compound), r1.eff, e.r, compound, sc.live);
  }

  lemma ReadLive(env: Env, ctx: Context, r: Ref, live: set<Variable>)
    requires EnvWF(env, live) && WFRef(r, live)
    ensures var e := VisitRead(env, ctx, r); e.Some? ==> LiveOnly(e.value, live)
  {
    hide ReadPointed, CheckRead, EnvWF;
    PointedLive(env, ctx, {Obj(r.v)}, r.ind, live);
  }

  lemma SideLive(env: Env, ctx: Context, rhs: Effect, r: Ref, compound: bool, live: set<Variable>)
    requires EnvWF(env, live) && WFRef(r, live)
    ensures var e := VisitLhs(env, ctx, rhs, r, compound); e.Some? ==> LiveOnly(e.value, live)
  {
    hide VisitRead, WritePointed, PtrModified, CheckRead, CheckWrite, EnvWF;
    ReadLive(env, ctx, r, live);
    PointedLive(env, ctx, {Obj(r.v)}, r.ind, live);
  }

  lemma {:induction false} ArgsLive(p: Program, k: nat, e: Expr, args: seq<Expr>, env: Env, sc: Scope, ctx: Context)
    requires Ready(p, k, env, sc)
    requires forall i :: 0 <= i < |args| ==> args[i] < e && WFExpr(p, k, args[i], sc.vis)
    requires VisitArgs(p, k, e, args, env, sc, ctx).ArgsAccept?
    ensures LiveOnly(VisitArgs(p, k, e, args, env, sc, ctx).eff, sc.live)
    decreases e, |args|
  {
    hide Visit, WFExpr, EnvWF, GoodRets, Compatible, WFProgram, NamesBelow;
    if args != [] {
      EffectLive(p, k, args[0], env, sc, ctx);
      var r1 := Visit(p, k, args[0], env, sc, ctx);
      ArgsLive(p, k, e, args[1..], r1.env, sc, ctx.(eff := Plus(ctx.eff, r1.eff)));
    }
  }

  // --- branches

  /** The facts after an accepted `if` are the least that cover the branches which need not return; if both must, those
    * before it stand. */
  lemma IfPrecise(p: Program, k: nat, level: nat, s: Stmt, env: Env, sc: Scope, ctx: Context, inLoop: bool,
                  v: Variable, t: Target)
    requires s.If? && Ready(p, k, env, sc) && WFStmt(p, k, level, s, sc.vis, inLoop) && Own(p, k, StmtNames(s), sc)
    requires VisitStmt(p, k, level, s, env, sc, ctx, inLoop).StmtAccept?
    ensures var test := Visit(p, k, s.test, env, sc, ctx);
            && test.Accept?
            && var a := VisitBlock(p, k, level, s.thn, test.env, sc, ctx, inLoop);
            && var b := VisitBlock(p, k, level, s.els, test.env, sc, ctx, inLoop);
            && a.StmtAccept? && b.StmtAccept?
            && (May(VisitStmt(p, k, level, s, env, sc, ctx, inLoop).env, v, t) <==>
                  || (!MustReturn(s.thn, false) && May(a.env, v, t))
                  || (!MustReturn(s.els, false) && May(b.env, v, t))
                  || (MustReturn(s.thn, false) && MustReturn(s.els, false) && May(env, v, t)))
  {
    hide Visit, VisitBlock, MustReturn, WFBlock;
  }

  // --- loops

  lemma {:induction false} MergeAllPrecise(env: Env, edges: seq<Env>, v: Variable, t: Target)
    ensures May(MergeAll(env, edges), v, t) <==> May(env, v, t) || exists i :: 0 <= i < |edges| && May(edges[i], v, t)
    decreases |edges|
  {
    if edges != [] {
      MergeAllPrecise(Merge(env, edges[0]), edges[1..], v, t);
      if i :| 0 <= i < |edges| && May(edges[i], v, t) {
        if i > 0 { assert edges[i] == edges[1..][i - 1]; }
      }
    }
  }

  lemma {:induction false} MergeJumpsPrecise(env: Env, jumps: seq<Env>, v: Variable, t: Target)
    requires forall i :: 0 <= i < |jumps| ==> jumps[i].Keys == env.Keys
    ensures May(MergeJumps(env, jumps), v, t) <==> May(env, v, t) || exists i :: 0 <= i < |jumps| && May(jumps[i], v, t)
    decreases |jumps|
  {
    if jumps != [] {
      MergeJumpsPrecise(MergeJump(env, jumps[0]), jumps[1..], v, t);
      if i :| 0 <= i < |jumps| && May(jumps[i], v, t) {
        if i > 0 { assert jumps[i] == jumps[1..][i - 1]; }
      }
    }
  }

  /** The facts after an accepted loop are the least that cover the head of the loop, or the facts before it if its body
    * must return, and every break. */
  lemma ForPrecise(p: Program, k: nat, level: nat, s: Stmt, env: Env, sc: Scope, ctx: Context, inLoop: bool,
                   v: Variable, t: Target)
    requires s.For? && Ready(p, k, env, sc) && WFStmt(p, k, level, s, sc.vis, inLoop) && Own(p, k, StmtNames(s), sc)
    requires VisitStmt(p, k, level, s, env, sc, ctx, inLoop).StmtAccept?
    ensures var loop := VisitLoop(p, k, level, s, env, sc, ctx);
            && loop.LoopAccept? && loop.r.StmtAccept?
            && (May(VisitStmt(p, k, level, s, env, sc, ctx, inLoop).env, v, t) <==>
                  || May(if MustReturn(s.body, true) then env else loop.entry, v, t)
                  || exists i :: 0 <= i < |loop.r.brk| && May(loop.r.brk[i], v, t))
  {
    hide VisitLoop, MustReturn, WFBlock, MergeJumps, LoopEffect;
    var loop := VisitLoop(p, k, level, s, env, sc, ctx);
    EmptySets(sc.live, env.Keys);
    MergeJumpsPrecise(if MustReturn(s.body, true) then env else loop.entry, loop.r.brk, v, t);
  }

  // --- calls

  /** After an accepted call, a pointer about which nothing was handed over has the fact from before it, and another one
    * just what the end of the body or one of its returns has left, as far as it still exists. */
  lemma CallPrecise(p: Program, k: nat, e: Expr, env: Env, sc: Scope, ctx: Context, eff: Effect,
                    rets: seq<set<Target>>, v: Variable, t: Target)
    requires e.Call? && Ready(p, k, env, sc) && WFExpr(p, k, e, sc.vis)
    requires Compatible(eff, ctx) && GoodArgs(p, e.args, rets, sc.live, env.Keys)
    requires VisitCall(p, k, e, env, sc, ctx, eff, rets).Accept? && v in env
    ensures e.f < |p.funcs| && |e.args| == |p.funcs[e.f].params|
    ensures var f, kept := p.funcs[e.f], HandOver(p.globals, env, p.funcs[e.f], e.args, rets);
            && WFFunction(p, e.f) && Ready(p, e.f, kept, CalleeScope(p, f, sc))
            && Own(p, e.f, BlockNames(f.body), CalleeScope(p, f, sc))
            && var body := VisitBlock(p, e.f, f.level, f.body, kept, CalleeScope(p, f, sc),
                                      CalleeContext(ctx, e.f, p.globals, kept, sc.live), false);
            && body.StmtAccept?
            && (May(VisitCall(p, k, e, env, sc, ctx, eff, rets).env, v, t) <==>
                  if v !in kept then May(env, v, t)
                  else May(OutOfScope(Elems(f.params), body.env), v, t) ||
                       exists i :: 0 <= i < |body.ret| && May(body.ret[i].env, v, t))
  {
    hide HandOver, VisitBlock, MergeAll, OutOfScope, WFBlock;
    var f := p.funcs[e.f];
    HandOverReady(p, k, env, sc, e.f, e.args, rets);
    assert WFFunction(p, e.f);
    var kept := HandOver(p.globals, env, f, e.args, rets);
    var body := VisitBlock(p, e.f, f.level, f.body, kept, CalleeScope(p, f, sc),
                           CalleeContext(ctx, e.f, p.globals, kept, sc.live), false);
    FactsBackWF(p, sc, f, kept, CalleeContext(ctx, e.f, p.globals, kept, sc.live), body);
    MergeAllPrecise(OutOfScope(Elems(f.params), body.env), RetEnvs(body.ret), v, t);
    ReturnsOnly(body.ret, v, t);
  }

  /** Each parameter starts with the pointees of its argument. */
  lemma {:induction false} ParamPrecise(env: Env, params: seq<Variable>, args: seq<Expr>, rets: seq<set<Target>>,
                                        i: nat)
    requires |params| == |args| == |rets| && i < |params| && Distinct(params)
    ensures params[i].level > 0 ==>
              var m := ParamFacts(env, params, args, rets);
              params[i] in m && m[params[i]] == RhsPointees(env, args[i], rets[i])
    decreases |params|
  {
    if i > 0 {
      assert params[i] == params[1..][i - 1] && params[0] != params[i];
      ParamPrecise(env, params[1..], args[1..], rets[1..], i - 1);
    }
  }

  lemma ReturnsOnly(rets: seq<RetFact>, v: Variable, t: Target)
    ensures (exists i :: 0 <= i < |RetEnvs(rets)| && May(RetEnvs(rets)[i], v, t)) <==>
              exists i :: 0 <= i < |rets| && May(rets[i].env, v, t)
  {
    if i :| 0 <= i < |rets| && May(rets[i].env, v, t) { assert RetEnvs(rets)[i] == rets[i].env; }
    if i :| 0 <= i < |RetEnvs(rets)| && May(RetEnvs(rets)[i], v, t) { assert RetEnvs(rets)[i] == rets[i].env; }
  }
}
