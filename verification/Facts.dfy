/** Points-to facts as sets: the lattice, the pointees reached through a number of stars, and what an assignment or the
  * end of a scope does to them. */
module Facts {
  import opened Language

  /** One points-to set for every pointer in scope. */
  type Env = map<Variable, set<Target>>

  function Lookup(env: Env, v: Variable): set<Target> {
    if v in env then env[v] else {}
  }

  /** `e2` is at least as permissive as `e1`. */
  predicate Below(e1: Env, e2: Env) {
    e1.Keys == e2.Keys && forall v :: v in e1 ==> e1[v] <= e2[v]
  }

  function Merge(e1: Env, e2: Env): Env {
    map v | v in e1.Keys + e2.Keys :: Lookup(e1, v) + Lookup(e2, v)
  }

  function Renew(e1: Env, e2: Env): Env {
    e1 + e2
  }

  /** Merge facts that arrive over a jump: a pointer the source knew nothing about may hold anything. */
  function MergeJump(env: Env, jump: Env): Env {
    map v | v in env :: env[v] + (if v in jump then jump[v] else {Garbage})
  }

  function MergeAll(env: Env, jumps: seq<Env>): Env
    decreases |jumps|
  {
    if jumps == [] then env else MergeAll(Merge(env, jumps[0]), jumps[1..])
  }

  function MergeJumps(env: Env, jumps: seq<Env>): Env
    decreases |jumps|
  {
    if jumps == [] then env else MergeJumps(MergeJump(env, jumps[0]), jumps[1..])
  }

  function Pointees(env: Env, ts: set<Target>): set<Target> {
    set u, t | u in ts && u.Obj? && u.v in env && t in env[u.v] :: t
  }

  /** All that `k` stars in front of something in `ts` may denote. */
  function Deref(env: Env, ts: set<Target>, k: nat): set<Target>
    decreases k
  {
    if k == 0 then ts else Deref(env, Pointees(env, ts), k - 1)
  }

  /** The single non-array variable an lvalue must be, if there is one: only then may the old fact be forgotten. */
  predicate IsStrong(lvars: set<Target>, v: Variable) {
    lvars == {Obj(v)} && !v.isArray
  }

  function Assigned(env: Env, lvars: set<Target>, pts: set<Target>): Env {
    map v | v in env ::
      if IsStrong(lvars, v) then pts
      else if Obj(v) in lvars then env[v] + pts
      else env[v]
  }

  /** The new facts of `*r = ...` when the right side may point to `pts`. */
  function AssignFacts(env: Env, r: Ref, pts: set<Target>): Env {
    if RefLevel(r) == 0 then env else Assigned(env, Deref(env, {Obj(r.v)}, r.ind), pts)
  }

  predicate PointsInto(ts: set<Target>, dead: set<Variable>) {
    exists t :: t in ts && t.Obj? && t.v in dead
  }

  /** A points-to set when the variables in `dead` go out of scope. */
  function Faded(dead: set<Variable>, ts: set<Target>): set<Target> {
    (set t | t in ts && !(t.Obj? && t.v in dead)) + (if PointsInto(ts, dead) then {Garbage} else {})
  }

  function OutOfScope(dead: set<Variable>, env: Env): Env {
    map v | v in env && v !in dead :: Faded(dead, env[v])
  }

  function InitTarget(ini: Init): Target {
    match ini
    case IntInit(_) => Garbage
    case PtrInit(z) => if z then Null else Garbage
    case AddrInit(v, _) => Obj(v)
  }

  /** Facts of a scope's variables on entry. */
  function InitFacts(locals: map<Variable, seq<Init>>): Env {
    map v | v in locals && v.level > 0 :: set i | 0 <= i < |locals[v]| :: InitTarget(locals[v][i])
  }

  /** The pointees of an assigned expression, looked up in the facts that hold after it has been visited.  `rets` is the
    * fact saved for the call whose value this is, if it is one. */
  function RhsPointees(env: Env, e: Expr, rets: set<Target>): set<Target>
    decreases e
  {
    match e
    case Const(_) => {Garbage}
    case PtrConst(_, z) => if z then {Null} else {Garbage}
    case AddrOf(v, _) => {Obj(v)}
    case Load(r) => Deref(env, {Obj(r.v)}, r.ind + 1)
    case Assign(_, _, rhs) => RhsPointees(env, rhs, rets)
    case Comma(_, b) => RhsPointees(env, b, rets)
    case Call(_, _) => rets
    case Op(_, _) => {Garbage}
    case Short(_, _, _) => {Garbage}
  }

  // --- well-formed environments

  /** A possible pointee of a pointer of depth `level`: live, of the right type, and tracked if it is a pointer
    * itself. */
  predicate GoodTarget(t: Target, level: nat, live: set<Variable>, keys: set<Variable>) {
    t.Obj? ==> t.v in live && t.v.level + 1 == level && (t.v.level > 0 ==> t.v in keys)
  }

  predicate GoodTargets(ts: set<Target>, level: nat, live: set<Variable>, keys: set<Variable>) {
    forall t :: t in ts ==> GoodTarget(t, level, live, keys)
  }

  ghost predicate EnvWF(env: Env, live: set<Variable>) {
    forall v :: v in env ==> v in live && v.level > 0 && GoodTargets(env[v], v.level, live, env.Keys)
  }

  lemma {:induction false} DerefGood(env: Env, ts: set<Target>, k: nat, level: nat, live: set<Variable>)
    requires EnvWF(env, live) && k <= level
    requires GoodTargets(ts, level + 1, live, env.Keys)
    ensures GoodTargets(Deref(env, ts, k), level - k + 1, live, env.Keys)
    decreases k
  {
    if k > 0 {
      DerefGood(env, Pointees(env, ts), k - 1, level - 1, live);
    }
  }

  lemma {:induction false} DerefStep(env: Env, ts: set<Target>, k: nat)
    ensures Deref(env, ts, k + 1) == Pointees(env, Deref(env, ts, k))
    decreases k
  {
    if k > 0 { DerefStep(env, Pointees(env, ts), k - 1); }
  }

  lemma MergeWF(e1: Env, e2: Env, live: set<Variable>)
    requires EnvWF(e1, live) && EnvWF(e2, live) && e1.Keys == e2.Keys
    ensures EnvWF(Merge(e1, e2), live) && Merge(e1, e2).Keys == e1.Keys
    ensures Below(e1, Merge(e1, e2)) && Below(e2, Merge(e1, e2))
  {
  }

  lemma MergeJumpWF(e1: Env, e2: Env, live: set<Variable>)
    requires EnvWF(e1, live) && EnvWF(e2, live) && e1.Keys == e2.Keys
    ensures EnvWF(MergeJump(e1, e2), live) && MergeJump(e1, e2).Keys == e1.Keys
    ensures Below(e1, MergeJump(e1, e2)) && Below(e2, MergeJump(e1, e2))
  {
  }

  ghost predicate AllWF(envs: seq<Env>, live: set<Variable>, keys: set<Variable>) {
    forall i :: 0 <= i < |envs| ==> EnvWF(envs[i], live) && envs[i].Keys == keys
  }

  lemma BelowTrans(e1: Env, e2: Env, e3: Env)
    requires Below(e1, e2) && Below(e2, e3)
    ensures Below(e1, e3)
  {
  }

  lemma BelowSelf(env: Env)
    ensures Below(env, env)
  {
  }

  lemma {:induction false} MergeAllWF(env: Env, jumps: seq<Env>, live: set<Variable>)
    requires EnvWF(env, live) && AllWF(jumps, live, env.Keys)
    ensures var m := MergeAll(env, jumps);
            EnvWF(m, live) && m.Keys == env.Keys && Below(env, m) && forall i :: 0 <= i < |jumps| ==> Below(jumps[i], m)
    decreases |jumps|
  {
    hide EnvWF, Below, Merge;
    BelowSelf(env);
    if jumps != [] {
      var next := Merge(env, jumps[0]);
      MergeWF(env, jumps[0], live);
      MergeAllWF(next, jumps[1..], live);
      BelowTrans(env, next, MergeAll(env, jumps));
      BelowTrans(jumps[0], next, MergeAll(env, jumps));
      forall i | 0 < i < |jumps|
        ensures Below(jumps[i], MergeAll(env, jumps))
      {
        assert jumps[i] == jumps[1..][i - 1];
      }
    }
  }

  lemma {:induction false} MergeJumpsWF(env: Env, jumps: seq<Env>, live: set<Variable>)
    requires EnvWF(env, live) && AllWF(jumps, live, env.Keys)
    ensures var m := MergeJumps(env, jumps);
            EnvWF(m, live) && m.Keys == env.Keys && Below(env, m) && forall i :: 0 <= i < |jumps| ==> Below(jumps[i], m)
    decreases |jumps|
  {
    hide EnvWF, Below, MergeJump;
    BelowSelf(env);
    if jumps != [] {
      var next := MergeJump(env, jumps[0]);
      MergeJumpWF(env, jumps[0], live);
      MergeJumpsWF(next, jumps[1..], live);
      BelowTrans(env, next, MergeJumps(env, jumps));
      BelowTrans(jumps[0], next, MergeJumps(env, jumps));
      forall i | 0 < i < |jumps|
        ensures Below(jumps[i], MergeJumps(env, jumps))
      {
        assert jumps[i] == jumps[1..][i - 1];
      }
    }
  }

  lemma AssignFactsWF(env: Env, r: Ref, pts: set<Target>, live: set<Variable>)
    requires EnvWF(env, live) && r.v in live && r.ind <= r.v.level && (r.v.level > 0 ==> r.v in env)
    requires RefLevel(r) > 0 ==> GoodTargets(pts, RefLevel(r), live, env.Keys)
    ensures EnvWF(AssignFacts(env, r, pts), live) && AssignFacts(env, r, pts).Keys == env.Keys
  {
    var env' := AssignFacts(env, r, pts);
    assert env'.Keys == env.Keys;
    if RefLevel(r) > 0 {
      DerefGood(env, {Obj(r.v)}, r.ind, r.v.level, live);
    }
  }

  lemma OutOfScopeWF(dead: set<Variable>, env: Env, live: set<Variable>)
    requires EnvWF(env, live + dead) && live !! dead
    ensures EnvWF(OutOfScope(dead, env), live) && OutOfScope(dead, env).Keys == env.Keys - dead
  {
  }

  /** All pairs that a fixed point can still add: the height of the lattice above `env`. */
  function Missing(env: Env, live: set<Variable>): set<(Variable, Target)> {
    set v, t | v in env && t in AllTargets(live) && t !in env[v] :: (v, t)
  }

  function AllTargets(live: set<Variable>): set<Target> {
    {Null, Garbage} + set v | v in live :: Obj(v)
  }

  lemma GrowingShrinksMissing(e1: Env, e2: Env, live: set<Variable>)
    requires Below(e1, e2) && e1 != e2 && EnvWF(e2, live)
    ensures Missing(e2, live) < Missing(e1, live)
    ensures |Missing(e2, live)| < |Missing(e1, live)|
  {
    var v :| v in e1 && e1[v] != e2[v];
    var t :| t in e2[v] && t !in e1[v];
    assert (v, t) in Missing(e1, live);
    assert (v, t) !in Missing(e2, live);
    SubsetSize(Missing(e2, live), Missing(e1, live));
  }

  lemma {:induction false} SubsetSize<T>(a: set<T>, b: set<T>)
    requires a < b
    ensures |a| < |b|
    decreases b
  {
    var y :| y in b && y !in a;
    if a != {} {
      var x :| x in a;
      assert y in b - {x} && y !in a - {x};
      SubsetSize(a - {x}, b - {x});
    }
  }
}
