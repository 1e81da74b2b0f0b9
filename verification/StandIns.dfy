/** Code is checked with the facts that hold when everything before it has run, but it may run before that is so.  It
  * does there what it would do in a stand-in: a store that those facts describe, and that agrees with the actual one on
  * everything the facts are right about. */
module StandIns {
  import opened Language
  import opened Semantics
  import opened Footprint
  import opened Facts
  import opened Effects
  import opened Analysis
  import opened Gamma
  import opened Changes

  /** What is known of the store before visited code runs. */
  ghost predicate Before(st: Store, env: Env, sc: Scope) {
    StoreOk(st, sc.live) && Holds(env, st)
  }

  /** Facts that describe some store leave something for every pointer to point to. */
  lemma BeforeFull(st: Store, env: Env, sc: Scope)
    requires Before(st, env, sc) && EnvWF(env, sc.live)
    ensures Full(env)
  {
    forall v | v in env
      ensures env[v] != {}
    {
      CellIn(v, 0, st, sc.live);
      var l := Loc(v, 0 % Cells(v));
      assert Covers(env[v], st[l]) && TypedValue(st[l], v.level, st);
    }
  }

  function TargetValue(t: Target): Value {
    match t
    case Null => NullPtr
    case Garbage => Indet
    case Obj(v) => Addr(Loc(v, 0))
  }

  ghost function Pick(ts: set<Target>): (x: Value)
    requires ts != {}
    ensures exists t :: t in ts && x == TargetValue(t)
  {
    var t :| t in ts;
    TargetValue(t)
  }

  ghost predicate RightAbout(env: Env, st: Store, l: Loc)
    requires l in st
  {
    l.v in env ==> Covers(env[l.v], st[l])
  }

  /** The store in which every pointer that the facts are wrong about holds something they allow. */
  ghost function StandIn(st: Store, env: Env): Store
    requires Full(env)
  {
    map l | l in st :: if RightAbout(env, st, l) then st[l] else Pick(env[l.v])
  }

  lemma StandInOk(st: Store, env: Env, sc: Scope)
    requires StoreOk(st, sc.live) && EnvWF(env, sc.live) && Full(env)
    ensures Before(StandIn(st, env), env, sc) && StandIn(st, env).Keys == st.Keys
    ensures forall l :: l in st && RightAbout(env, st, l) ==> StandIn(st, env)[l] == st[l]
  {
    var z := StandIn(st, env);
    forall l | l in z
      ensures TypedValue(z[l], l.v.level, z) && RightAbout(env, z, l)
    {
      assert TypedValue(st[l], l.v.level, st);
      if !RightAbout(env, st, l) {
        var t :| t in env[l.v] && z[l] == TargetValue(t);
        assert GoodTarget(t, l.v.level, sc.live, env.Keys);
        if t.Obj? { CellIn(t.v, 0, st, sc.live); }
      }
    }
  }

  /** As if nothing but pointers had been written. */
  ghost function Changed(st: Store, z: Store): Foot {
    Foot({}, set l | l in st && l in z && st[l] != z[l], [])
  }

  /** A stand-in for the store after `e` has run, whether or not it ever does. */
  lemma AfterVisit(p: Program, k: nat, e: Expr, env: Env, sc: Scope, ctx: Context, st: Store) returns (z: Store)
    requires Ready(p, k, env, sc) && WFExpr(p, k, e, sc.vis) && Before(st, env, sc)
    requires Visit(p, k, e, env, sc, ctx).Accept?
    ensures var r := Visit(p, k, e, env, sc, ctx);
            Before(z, r.env, sc) && FramedStore(st, z, Changed(st, z)) && FootOk(Changed(st, z), r.eff, env.Keys)
  {
    hide Visit, StoreOk, StandIn, Covers, Fills;
    var r := Visit(p, k, e, env, sc, ctx);
    BeforeFull(st, env, sc);
    ExprChanges(p, k, e, env, sc, ctx);
    z := StandIn(st, r.env);
    StandInOk(st, r.env, sc);
    StoreTidy(z, sc.live);
    forall l | l in st && st[l] != z[l]
      ensures l.v in r.eff.wrs && l.v in env
    {
      assert !RightAbout(r.env, st, l);
      assert RightAbout(env, st, l);
    }
  }
}
