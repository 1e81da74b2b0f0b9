/** The pointer checks on a single access are exact.  Whatever they count as possible happens in some store that the
  * facts describe, so a read or a left side is rejected only if it would go wrong in one of these. */
module Exactness {
  import opened Language
  import opened Semantics
  import opened Footprint
  import opened Facts
  import opened Effects
  import opened Analysis
  import opened Gamma
  import opened Changes
  import opened StandIns
  import opened Directives
  import opened LeftSides

  /** For every pointer, one of the things it may point to. */
  ghost predicate Picks(pick: map<Variable, Target>, env: Env) {
    pick.Keys == env.Keys && forall v :: v in env ==> pick[v] in env[v]
  }

  /** What is found `k` pointers on from `t`, if there is a way. */
  function Follow(pick: map<Variable, Target>, t: Target, k: nat): Option<Target>
    decreases k
  {
    if k == 0 then Some(t)
    else if t.Obj? && t.v in pick then Follow(pick, pick[t.v], k - 1)
    else None
  }

  /** The store in which every pointer holds what was picked for it. */
  function StoreOf(pick: map<Variable, Target>, live: set<Variable>): Store {
    map l | l in CellsOf(live) ::
      if l.v in pick then TargetValue(pick[l.v]) else if l.v.level > 0 then NullPtr else Int(0)
  }

  lemma StoreOfDescribed(pick: map<Variable, Target>, env: Env, sc: Scope)
    requires Picks(pick, env) && EnvWF(env, sc.live)
    ensures Before(StoreOf(pick, sc.live), env, sc)
  {
    var st := StoreOf(pick, sc.live);
    forall l | l in st
      ensures TypedValue(st[l], l.v.level, st)
      ensures l.v in env ==> Covers(env[l.v], st[l])
    {
      InCells(sc.live, l);
      if l.v in env {
        var t := pick[l.v];
        assert GoodTarget(t, l.v.level, sc.live, env.Keys);
        if t.Obj? { InCells(sc.live, Loc(t.v, 0)); }
      }
    }
  }

  lemma {:induction false} FollowCell(pick: map<Variable, Target>, env: Env, sc: Scope, l: Loc, k: nat, v: Variable)
    requires Picks(pick, env) && EnvWF(env, sc.live) && l in StoreOf(pick, sc.live)
    requires Follow(pick, Obj(l.v), k) == Some(Obj(v))
    ensures var c := Chase(l, k, StoreOf(pick, sc.live)); c.Lval? && c.l in StoreOf(pick, sc.live) && c.l.v == v
    decreases k
  {
    if k > 0 {
      var t := pick[l.v];
      assert GoodTarget(t, l.v.level, sc.live, env.Keys);
      assert t.Obj?;
      InCells(sc.live, Loc(t.v, 0));
      FollowCell(pick, env, sc, Loc(t.v, 0), k - 1, v);
    }
  }

  lemma {:induction false} FollowValue(pick: map<Variable, Target>, env: Env, sc: Scope, l: Loc, k: nat, t: Target)
    requires Picks(pick, env) && EnvWF(env, sc.live) && l in StoreOf(pick, sc.live)
    requires Follow(pick, Obj(l.v), k + 1) == Some(t)
    ensures var st := StoreOf(pick, sc.live);
            var c := Chase(l, k, st);
            c.Lval? && c.l in st && st[c.l] == TargetValue(t)
    decreases k
  {
    if k > 0 {
      var t1 := pick[l.v];
      assert GoodTarget(t1, l.v.level, sc.live, env.Keys);
      assert Follow(pick, t1, k) == Some(t) && t1.Obj?;
      InCells(sc.live, Loc(t1.v, 0));
      FollowValue(pick, env, sc, Loc(t1.v, 0), k - 1, t);
    } else {
      assert Follow(pick, pick[l.v], 0) == Some(t);
    }
  }

  /** Picking something else for a pointer of a higher level changes nothing on the way down. */
  lemma {:induction false} FollowKeeps(pick: map<Variable, Target>, env: Env, live: set<Variable>, t: Target, k: nat,
                                       u: Variable, s: Target)
    requires Picks(pick, env) && EnvWF(env, live) && u in env && (t.Obj? ==> t.v.level < u.level)
    ensures Follow(pick[u := s], t, k) == Follow(pick, t, k)
    decreases k
  {
    if k > 0 && t.Obj? && t.v in pick {
      assert GoodTarget(pick[t.v], t.v.level, live, env.Keys);
      FollowKeeps(pick, env, live, pick[t.v], k - 1, u, s);
    }
  }

  ghost function AnyPick(env: Env): (pick: map<Variable, Target>)
    requires Full(env)
    ensures Picks(pick, env)
  {
    map v | v in env :: OneOf(env[v])
  }

  ghost function OneOf(ts: set<Target>): (t: Target)
    requires ts != {}
    ensures t in ts
  {
    var t :| t in ts;
    t
  }

  /** Everything that a number of stars may lead to can be picked. */
  lemma {:induction false} DerefPick(env: Env, live: set<Variable>, ts: set<Target>, k: nat, t: Target)
    returns (pick: map<Variable, Target>, s: Target)
    requires Full(env) && EnvWF(env, live) && t in Deref(env, ts, k)
    ensures Picks(pick, env) && s in ts && Follow(pick, s, k) == Some(t)
    decreases k
  {
    if k == 0 {
      pick, s := AnyPick(env), t;
    } else {
      var pick', s' := DerefPick(env, live, Pointees(env, ts), k - 1, t);
      s :| s in ts && s.Obj? && s.v in env && s' in env[s.v];
      pick := pick'[s.v := s'];
      assert GoodTarget(s', s.v.level, live, env.Keys);
      FollowKeeps(pick', env, live, s', k - 1, s.v, s');
    }
  }

  /** Whatever a reference is computed to denote, it denotes in some store that the facts describe. */
  lemma CellTight(env: Env, sc: Scope, r: Ref, k: nat, v: Variable) returns (st: Store)
    requires Full(env) && EnvWF(env, sc.live) && WFRef(r, sc.live) && Obj(v) in Deref(env, {Obj(r.v)}, k)
    ensures Before(st, env, sc) && Start(r, st).Some? && Start(r, st).value in st
    ensures var c := Chase(Start(r, st).value, k, st); c.Lval? && c.l in st && c.l.v == v
  {
    var pick, s := DerefPick(env, sc.live, {Obj(r.v)}, k, Obj(v));
    st := StoreOf(pick, sc.live);
    StoreOfDescribed(pick, env, sc);
    StartOk(r, st, sc.live);
    FollowCell(pick, env, sc, Start(r, st).value, k, v);
  }

  /** Whatever a pointer is computed to point to, it points to in some store that the facts describe. */
  lemma ValueTight(env: Env, sc: Scope, r: Ref, k: nat, t: Target) returns (st: Store)
    requires Full(env) && EnvWF(env, sc.live) && WFRef(r, sc.live) && t in Deref(env, {Obj(r.v)}, k + 1)
    ensures Before(st, env, sc) && Start(r, st).Some? && Start(r, st).value in st
    ensures var c := Chase(Start(r, st).value, k, st); c.Lval? && c.l in st && st[c.l] == TargetValue(t)
  {
    var pick, s := DerefPick(env, sc.live, {Obj(r.v)}, k + 1, t);
    st := StoreOf(pick, sc.live);
    StoreOfDescribed(pick, env, sc);
    StartOk(r, st, sc.live);
    FollowValue(pick, env, sc, Start(r, st).value, k, t);
  }

  // --- what a chain of pointers touches

  lemma {:induction false} ChaseStops(l: Loc, j: nat, k: nat, st: Store)
    requires j < k && Chase(l, j, st).Lval? && Chase(l, j, st).l in st && !st[Chase(l, j, st).l].Addr?
    ensures Chase(l, k, st).NoLval?
    decreases j
  {
    if j > 0 { ChaseStops(st[l].l, j - 1, k - 1, st); }
  }

  /** Every pointer gone through is read. */
  lemma {:induction false} ChaseReads(l: Loc, j: nat, k: nat, st: Store)
    requires j < k && Chase(l, k, st).Lval?
    ensures Chase(l, j, st).Lval? && Chase(l, j, st).l in Chase(l, k, st).fp.rd
    decreases j
  {
    if j > 0 { ChaseReads(st[l].l, j - 1, k - 1, st); }
  }

  ghost predicate Traced(fp: Foot) {
    forall l :: l in fp.rd && l.v.isVolatile ==> fp.trace != []
  }

  lemma {:induction false} ChaseTraced(l: Loc, k: nat, st: Store)
    requires Chase(l, k, st).Lval?
    ensures Traced(Chase(l, k, st).fp)
    decreases k
  {
    if k > 0 && l in st && st[l].Addr? { ChaseTraced(st[l].l, k - 1, st); }
  }

  /** The cell `j` stars on from the start of a reference. */
  function CellAt(r: Ref, j: nat, st: Store): LvalResult
    requires Start(r, st).Some?
  {
    Chase(Start(r, st).value, j, st)
  }

  lemma LvalueIs(r: Ref, st: Store, live: set<Variable>)
    requires WFRef(r, live) && StoreOk(st, live)
    ensures Start(r, st).Some? && Start(r, st).value in st && Start(r, st).value.v == r.v
    ensures Lvalue(r, st).Lval? <==> CellAt(r, r.ind, st).Lval?
    ensures var c := CellAt(r, r.ind, st);
            c.Lval? ==> c.l in st && Traced(c.fp) && Lvalue(r, st) == Lval(c.l, Join(StartFoot(r), c.fp))
  {
    StartOk(r, st, live);
    if Lvalue(r, st).Lval? { StartChase(r, st); }
    if CellAt(r, r.ind, st).Lval? {
      ChaseFacts(Start(r, st).value, r.ind, st);
      ChaseTraced(Start(r, st).value, r.ind, st);
    }
  }

  /** The accesses made collide neither with what has happened nor with the directives. */
  ghost predicate Avoids(ctx: Context, fp: Foot) {
    (forall l :: l in fp.rd ==> l.v !in ctx.noRead && l.v !in ctx.eff.wrs) && !(fp.trace != [] && ctx.eff.vol)
  }

  // --- the pointers gone through

  /** The cell of a reference can be found in every store that the facts describe, and on the way nothing is touched
    * that must not be. */
  ghost predicate AlwaysFound(env: Env, sc: Scope, ctx: Context, r: Ref) {
    forall st :: Before(st, env, sc) ==> Lvalue(r, st).Lval? && Avoids(ctx, Lvalue(r, st).fp)
  }

  lemma GoesThrough(r: Ref, st: Store, live: set<Variable>, j: nat)
    requires WFRef(r, live) && StoreOk(st, live) && Lvalue(r, st).Lval? && j < r.ind
    ensures Start(r, st).Some? && CellAt(r, j, st).Lval? && CellAt(r, j, st).l in Lvalue(r, st).fp.rd
    ensures Traced(Lvalue(r, st).fp)
  {
    hide Chase;
    LvalueIs(r, st, live);
    ChaseReads(Start(r, st).value, j, r.ind, st);
  }

  lemma Dangling(r: Ref, st: Store, live: set<Variable>, j: nat)
    requires WFRef(r, live) && StoreOk(st, live) && j < r.ind && Start(r, st).Some?
    requires var c := CellAt(r, j, st); c.Lval? && c.l in st && !st[c.l].Addr?
    ensures Lvalue(r, st).NoLval?
  {
    hide Chase;
    LvalueIs(r, st, live);
    ChaseStops(Start(r, st).value, j, r.ind, st);
  }

  /** What is gone through may be read. */
  lemma PassedMayBeRead(env: Env, sc: Scope, ctx: Context, r: Ref, j: nat, v: Variable)
    requires Full(env) && EnvWF(env, sc.live) && WFRef(r, sc.live) && j < r.ind
    requires AlwaysFound(env, sc, ctx, r) && Obj(v) in Deref(env, {Obj(r.v)}, j)
    ensures CheckRead(env, ctx, v)
  {
    hide Lvalue, Chase, Deref, WFRef, EnvWF, Start;
    var st := CellTight(env, sc, r, j, v);
    assert Lvalue(r, st).Lval?;
    GoesThrough(r, st, sc.live, j);
    if v.level > 0 && Garbage in Lookup(env, v) {
      DerefStep(env, {Obj(r.v)}, j);
      var bad := ValueTight(env, sc, r, j, Garbage);
      assert Lvalue(r, bad).Lval?;
      Dangling(r, bad, sc.live, j);
    }
  }

  /** What is dereferenced may be dereferenced. */
  lemma {:induction false} PassedIsSafe(env: Env, sc: Scope, ctx: Context, r: Ref, j: nat)
    requires Full(env) && EnvWF(env, sc.live) && WFRef(r, sc.live) && j < r.ind && (r.v.level > 0 ==> r.v in env)
    requires AlwaysFound(env, sc, ctx, r)
    ensures SafePointees(Deref(env, {Obj(r.v)}, j + 1))
    decreases j
  {
    hide Lvalue, Chase;
    var next := Deref(env, {Obj(r.v)}, j + 1);
    if t: Target :| t in next && !t.Obj? {
      var bad := ValueTight(env, sc, r, j, t);
      assert Lvalue(r, bad).Lval?;
      Dangling(r, bad, sc.live, j);
    }
    if j > 0 { PassedIsSafe(env, sc, ctx, r, j - 1); }
    var u :| u in Deref(env, {Obj(r.v)}, j);
    DerefGood(env, {Obj(r.v)}, j, r.v.level, sc.live);
    DerefStep(env, {Obj(r.v)}, j);
    var t :| t in env[u.v];
    assert t in next;
  }

  /** A pointer that is dereferenced is a valid one, and its index may be read. */
  lemma FirstIsValid(env: Env, sc: Scope, ctx: Context, r: Ref)
    requires Full(env) && EnvWF(env, sc.live) && WFRef(r, sc.live) && (r.v.level > 0 ==> r.v in env)
    requires (r.ind > 0 ==> !r.v.isArray) && AlwaysFound(env, sc, ctx, r)
    ensures r.ind > 0 ==> ValidPtr(env, r.v) && CheckRead(env, ctx, r.v)
    ensures ReadIndex(env, ctx, r).Some?
  {
    if r.ind > 0 {
      hide AlwaysFound, CheckRead;
      assert Obj(r.v) in Deref(env, {Obj(r.v)}, 0);
      PassedMayBeRead(env, sc, ctx, r, 0, r.v);
      PassedIsSafe(env, sc, ctx, r, 0);
      assert Deref(env, {Obj(r.v)}, 1) == Pointees(env, {Obj(r.v)});
      assert forall t :: t in env[r.v] ==> t in Pointees(env, {Obj(r.v)});
    }
    if r.ix.By? {
      var st := CellTight(env, sc, r, 0, r.v);
      assert Lvalue(r, st).Lval?;
      LvalueIs(r, st, sc.live);
      assert Loc(r.ix.v, 0) in Lvalue(r, st).fp.rd;
    }
  }

  // --- reads

  /** A run of a read that gets to its end and touches nothing that it must not. */
  ghost predicate ReadFits(ctx: Context, x: Result) {
    x.Done? && Avoids(ctx, x.fp)
  }

  ghost predicate AlwaysFits(env: Env, sc: Scope, ctx: Context, r: Ref) {
    forall st :: Before(st, env, sc) ==> ReadFits(ctx, EvalLoad(r, st))
  }

  lemma FittingFound(env: Env, sc: Scope, ctx: Context, r: Ref)
    requires AlwaysFits(env, sc, ctx, r)
    ensures AlwaysFound(env, sc, ctx, r)
  {
    forall st | Before(st, env, sc)
      ensures Lvalue(r, st).Lval? && Avoids(ctx, Lvalue(r, st).fp)
    {
      assert ReadFits(ctx, EvalLoad(r, st));
    }
  }

  /** What is read in the end may be read. */
  lemma LastMayBeRead(env: Env, sc: Scope, ctx: Context, r: Ref, v: Variable)
    requires Full(env) && EnvWF(env, sc.live) && WFRef(r, sc.live)
    requires AlwaysFits(env, sc, ctx, r) && Obj(v) in Deref(env, {Obj(r.v)}, r.ind)
    ensures CheckRead(env, ctx, v)
  {
    hide Chase, Deref, WFRef, EnvWF, Start, Lvalue;
    var st := CellTight(env, sc, r, r.ind, v);
    assert ReadFits(ctx, EvalLoad(r, st));
    LvalueIs(r, st, sc.live);
    LastRead(r, st);
    if v.level > 0 && Garbage in Lookup(env, v) {
      DerefStep(env, {Obj(r.v)}, r.ind);
      var bad := ValueTight(env, sc, r, r.ind, Garbage);
      assert ReadFits(ctx, EvalLoad(r, bad));
      LvalueIs(r, bad, sc.live);
    }
  }

  lemma LastRead(r: Ref, st: Store)
    requires EvalLoad(r, st).Done?
    ensures Lvalue(r, st).l in EvalLoad(r, st).fp.rd
    ensures Lvalue(r, st).l.v.isVolatile ==> EvalLoad(r, st).fp.trace != []
  {
    hide Lvalue;
  }

  lemma {:induction false} ReadPointedIf(env: Env, ctx: Context, ts: set<Target>, k: nat)
    requires forall j :: 1 <= j <= k ==> SafePointees(Deref(env, ts, j))
    requires forall j, v :: 1 <= j <= k && Obj(v) in Deref(env, ts, j) ==> CheckRead(env, ctx, v)
    ensures ReadPointed(env, ctx, ts, k).Some?
    decreases k
  {
    if k > 0 {
      var next := Pointees(env, ts);
      assert forall j :: 1 <= j < k ==> Deref(env, next, j) == Deref(env, ts, j + 1);
      assert Deref(env, ts, 1) == Deref(env, next, 0) == next;
      ReadPointedIf(env, ctx, next, k - 1);
    }
  }

  /** The checks on a read are exact: it is accepted if and only if, in every store that the facts describe, it ends and
    * collides neither with what has happened nor with the directives.  (Members of arrays of pointers are never
    * dereferenced.) */
  lemma ReadExact(env: Env, sc: Scope, ctx: Context, r: Ref)
    requires Full(env) && EnvWF(env, sc.live) && WFRef(r, sc.live) && (r.v.level > 0 ==> r.v in env)
    requires r.ind > 0 ==> !r.v.isArray
    ensures VisitRead(env, ctx, r).Some? <==> AlwaysFits(env, sc, ctx, r)
  {
    if VisitRead(env, ctx, r).Some? {
      forall st | Before(st, env, sc)
        ensures ReadFits(ctx, EvalLoad(r, st))
      {
        AcceptedFits(env, sc, ctx, r, st);
      }
    } else if AlwaysFits(env, sc, ctx, r) {
      FittingAccepted(env, sc, ctx, r);
    }
  }

  lemma AcceptedFits(env: Env, sc: Scope, ctx: Context, r: Ref, st: Store)
    requires EnvWF(env, sc.live) && WFRef(r, sc.live) && (r.v.level > 0 ==> r.v in env)
    requires VisitRead(env, ctx, r).Some? && Before(st, env, sc)
    ensures ReadFits(ctx, EvalLoad(r, st))
  {
    hide VisitRead, EvalLoad, Holds, EnvWF;
    LoadSound(r, st, env, sc.live, ctx);
    VisitReadOk(env, ctx, r);
    VisitReadSeen(env, ctx, r);
    AllWithinLive(env, sc.live);
    ReadWithin(env, ctx, ctx, r, sc.live, sc.live, sc.live);
    var x := EvalLoad(r, st);
    LoadStays(r, st);
    forall l | l in x.fp.rd
      ensures l.v in sc.live
    {
      InCells(sc.live, l);
    }
  }

  lemma LoadStays(r: Ref, st: Store)
    requires EvalLoad(r, st).Done?
    ensures EvalLoad(r, st).fp.rd <= st.Keys
  {
    LvalueFacts(r, st);
  }

  lemma FittingAccepted(env: Env, sc: Scope, ctx: Context, r: Ref)
    requires Full(env) && EnvWF(env, sc.live) && WFRef(r, sc.live) && (r.v.level > 0 ==> r.v in env)
    requires (r.ind > 0 ==> !r.v.isArray) && AlwaysFits(env, sc, ctx, r)
    ensures VisitRead(env, ctx, r).Some?
  {
    FittingFound(env, sc, ctx, r);
    hide AlwaysFits, AlwaysFound, CheckRead;
    forall j, v | 0 <= j <= r.ind && Obj(v) in Deref(env, {Obj(r.v)}, j)
      ensures CheckRead(env, ctx, v)
    {
      if j < r.ind {
        PassedMayBeRead(env, sc, ctx, r, j, v);
      } else {
        LastMayBeRead(env, sc, ctx, r, v);
      }
    }
    forall j | 1 <= j <= r.ind
      ensures SafePointees(Deref(env, {Obj(r.v)}, j))
    {
      PassedIsSafe(env, sc, ctx, r, j - 1);
    }
    ReadPointedIf(env, ctx, {Obj(r.v)}, r.ind);
    assert Obj(r.v) in Deref(env, {Obj(r.v)}, 0);
    FirstIsValid(env, sc, ctx, r);
  }

  // --- what is recorded of a read

  lemma {:induction false} PointedReads(env: Env, ctx: Context, ts: set<Target>, k: nat, v: Variable) returns (j: nat)
    requires ReadPointed(env, ctx, ts, k).Some? && v in ReadPointed(env, ctx, ts, k).value.rds
    ensures 1 <= j <= k && Obj(v) in Deref(env, ts, j)
    decreases k
  {
    var next := Pointees(env, ts);
    if v in Objects(next) {
      j := 1;
      assert Deref(env, ts, 1) == Deref(env, next, 0);
    } else {
      var i := PointedReads(env, ctx, next, k - 1, v);
      j := i + 1;
    }
  }

  /** The read set of an accepted read holds just the variables that it reads in some store that the facts describe. */
  lemma ReadEffectExact(env: Env, sc: Scope, ctx: Context, r: Ref, v: Variable)
    requires Full(env) && EnvWF(env, sc.live) && WFRef(r, sc.live) && (r.v.level > 0 ==> r.v in env)
    requires VisitRead(env, ctx, r).Some?
    ensures v in VisitRead(env, ctx, r).value.rds <==>
              exists st, l :: Before(st, env, sc) && EvalLoad(r, st).Done? && l in EvalLoad(r, st).fp.rd && l.v == v
  {
    if st, l :| Before(st, env, sc) && EvalLoad(r, st).Done? && l in EvalLoad(r, st).fp.rd && l.v == v {
      LoadSound(r, st, env, sc.live, ctx);
      VisitReadSeen(env, ctx, r);
    }
    if v in VisitRead(env, ctx, r).value.rds {
      var st, l := SomeRead(env, sc, ctx, r, v);
    }
  }

  lemma SomeRead(env: Env, sc: Scope, ctx: Context, r: Ref, v: Variable) returns (st: Store, l: Loc)
    requires Full(env) && EnvWF(env, sc.live) && WFRef(r, sc.live) && (r.v.level > 0 ==> r.v in env)
    requires VisitRead(env, ctx, r).Some? && v in VisitRead(env, ctx, r).value.rds
    ensures Before(st, env, sc) && EvalLoad(r, st).Done? && l in EvalLoad(r, st).fp.rd && l.v == v
  {
    var ix, j := WhereRead(env, ctx, r, v);
    hide *;
    if ix {
      AtStart(env, r);
      st := CellTight(env, sc, r, 0, r.v);
      ReadRuns(env, sc, ctx, r, st);
      l := IndexRead(r, st, sc.live, v);
    } else {
      st := CellTight(env, sc, r, j, v);
      ReadRuns(env, sc, ctx, r, st);
      l := CellRead(r, st, sc.live, j, v);
    }
  }

  /** In the index, or some stars on. */
  lemma WhereRead(env: Env, ctx: Context, r: Ref, v: Variable) returns (ix: bool, j: nat)
    requires VisitRead(env, ctx, r).Some? && v in VisitRead(env, ctx, r).value.rds
    ensures if ix then r.ix.By? && r.ix.v == v else j <= r.ind && Obj(v) in Deref(env, {Obj(r.v)}, j)
  {
    ix, j := v in ReadIndex(env, ctx, r).value.rds, 0;
    if !ix && v in ReadPointed(env, ctx, {Obj(r.v)}, r.ind).value.rds {
      j := PointedReads(env, ctx, {Obj(r.v)}, r.ind, v);
    }
  }

  lemma AtStart(env: Env, r: Ref)
    ensures Obj(r.v) in Deref(env, {Obj(r.v)}, 0)
  {
  }

  lemma ReadRuns(env: Env, sc: Scope, ctx: Context, r: Ref, st: Store)
    requires EnvWF(env, sc.live) && WFRef(r, sc.live) && (r.v.level > 0 ==> r.v in env)
    requires VisitRead(env, ctx, r).Some? && Before(st, env, sc)
    ensures EvalLoad(r, st).Done? && StoreOk(st, sc.live)
  {
    hide VisitRead, EvalLoad;
    LoadSound(r, st, env, sc.live, ctx);
  }

  lemma IndexRead(r: Ref, st: Store, live: set<Variable>, v: Variable) returns (l: Loc)
    requires WFRef(r, live) && StoreOk(st, live) && EvalLoad(r, st).Done? && r.ix.By? && r.ix.v == v
    ensures l in EvalLoad(r, st).fp.rd && l.v == v
  {
    LvalueIs(r, st, live);
    l := Loc(v, 0);
  }

  lemma CellRead(r: Ref, st: Store, live: set<Variable>, j: nat, v: Variable) returns (l: Loc)
    requires WFRef(r, live) && StoreOk(st, live) && EvalLoad(r, st).Done? && j <= r.ind && Start(r, st).Some?
    requires Chase(Start(r, st).value, j, st).Lval? && Chase(Start(r, st).value, j, st).l.v == v
    ensures l in EvalLoad(r, st).fp.rd && l.v == v
  {
    hide Chase;
    l := Chase(Start(r, st).value, j, st).l;
    LvalueIs(r, st, live);
    LastRead(r, st);
    if j < r.ind { GoesThrough(r, st, live, j); }
  }

  /** The facts are about whole arrays: a member of an array of pointers is never followed, read or written through. */
  lemma MemberRejected(p: Program, k: nat, e: Expr, env: Env, sc: Scope, ctx: Context)
    requires (e.Load? || e.Assign?) && Ready(p, k, env, sc) && WFExpr(p, k, e, sc.vis)
    requires e.r.ind > 0 && e.r.v.isArray
    ensures Visit(p, k, e, env, sc, ctx).Reject?
  {
  }

  // --- left sides

  /** The cell of a left side is found, and may be written, without touching anything that must not be, and without
    * going through anything that its right side writes. */
  ghost predicate LhsFits(ctx: Context, rhs: Effect, r: Ref, c: Option<nat>, st: Store) {
    var s := LeftSide(r, c, st);
    && s.Lval? && Avoids(ctx, s.fp)
    && s.l.v !in ctx.noWrite + ctx.eff.wrs + ctx.eff.rds && !(s.l.v.isVolatile && ctx.eff.vol)
    && (forall l :: l in Lvalue(r, st).fp.rd ==> l.v !in rhs.wrs) && !(StartFoot(r).trace != [] && rhs.vol)
  }

  ghost predicate LhsAlwaysFits(env: Env, sc: Scope, ctx: Context, rhs: Effect, r: Ref, c: Option<nat>) {
    forall st :: Before(st, env, sc) ==> LhsFits(ctx, rhs, r, c, st)
  }

  lemma LhsFound(env: Env, sc: Scope, ctx: Context, rhs: Effect, r: Ref, c: Option<nat>)
    requires LhsAlwaysFits(env, sc, ctx, rhs, r, c)
    ensures AlwaysFound(env, sc, ctx, r)
    ensures c.Some? ==> AlwaysFits(env, sc, ctx, r)
  {
    forall st | Before(st, env, sc)
      ensures Lvalue(r, st).Lval? && Avoids(ctx, Lvalue(r, st).fp)
      ensures c.Some? ==> ReadFits(ctx, EvalLoad(r, st))
    {
      assert LhsFits(ctx, rhs, r, c, st);
    }
  }

  lemma {:induction false} WritePointedIf(env: Env, ctx: Context, ts: set<Target>, k: nat)
    requires k > 0 && forall j :: 1 <= j <= k ==> SafePointees(Deref(env, ts, j))
    requires forall j, v :: 1 <= j < k && Obj(v) in Deref(env, ts, j) ==> CheckRead(env, ctx, v)
    requires forall v :: Obj(v) in Deref(env, ts, k) ==> CheckWrite(ctx, v)
    ensures WritePointed(env, ctx, ts, k).Some?
    decreases k
  {
    var next := Pointees(env, ts);
    assert forall j :: 1 <= j < k ==> Deref(env, next, j) == Deref(env, ts, j + 1);
    assert Deref(env, ts, 1) == Deref(env, next, 0) == next;
    if k > 1 { WritePointedIf(env, ctx, next, k - 1); }
  }

  lemma {:induction false} Unmodified(env: Env, wrs: set<Variable>, ts: set<Target>, k: nat)
    requires forall j, v :: 1 <= j < k && Obj(v) in Deref(env, ts, j) ==> v !in wrs
    ensures !PtrModified(env, wrs, ts, k)
    decreases k
  {
    if k > 1 {
      var next := Pointees(env, ts);
      assert forall j :: 1 <= j < k ==> Deref(env, next, j) == Deref(env, ts, j + 1);
      assert Deref(env, ts, 1) == Deref(env, next, 0) == next;
      Unmodified(env, wrs, next, k - 1);
    }
  }

  /** What is gone through is not written by the right side. */
  lemma PassedUnwritten(env: Env, sc: Scope, ctx: Context, rhs: Effect, r: Ref, c: Option<nat>, j: nat, v: Variable)
    requires Full(env) && EnvWF(env, sc.live) && WFRef(r, sc.live) && j < r.ind
    requires LhsAlwaysFits(env, sc, ctx, rhs, r, c) && Obj(v) in Deref(env, {Obj(r.v)}, j)
    ensures v !in rhs.wrs
  {
    hide Lvalue, Chase, Deref, WFRef, EnvWF, Start;
    var st := CellTight(env, sc, r, j, v);
    assert LhsFits(ctx, rhs, r, c, st);
    GoesThrough(r, st, sc.live, j);
  }

  /** What is written in the end may be written. */
  lemma LastMayBeWritten(env: Env, sc: Scope, ctx: Context, rhs: Effect, r: Ref, c: Option<nat>, v: Variable)
    requires Full(env) && EnvWF(env, sc.live) && WFRef(r, sc.live)
    requires LhsAlwaysFits(env, sc, ctx, rhs, r, c) && Obj(v) in Deref(env, {Obj(r.v)}, r.ind)
    ensures CheckWrite(ctx, v)
  {
    hide Chase, Deref, WFRef, EnvWF, Start, Lvalue;
    var st := CellTight(env, sc, r, r.ind, v);
    assert LhsFits(ctx, rhs, r, c, st);
    LvalueIs(r, st, sc.live);
  }

  lemma IndexUnwritten(env: Env, sc: Scope, ctx: Context, rhs: Effect, r: Ref, c: Option<nat>)
    requires Full(env) && EnvWF(env, sc.live) && WFRef(r, sc.live) && LhsAlwaysFits(env, sc, ctx, rhs, r, c)
    requires ReadIndex(env, ctx, r).Some?
    ensures ReadIndex(env, Context(Plus(ctx.eff, rhs), {}, {}, {}), r).Some?
  {
    if r.ix.By? {
      var st := CellTight(env, sc, r, 0, r.v);
      assert LhsFits(ctx, rhs, r, c, st);
      LvalueIs(r, st, sc.live);
      assert Loc(r.ix.v, 0) in Lvalue(r, st).fp.rd;
    }
  }

  lemma FittingLhs(env: Env, sc: Scope, ctx: Context, rhs: Effect, r: Ref, c: Option<nat>)
    requires Full(env) && EnvWF(env, sc.live) && WFRef(r, sc.live) && (r.v.level > 0 ==> r.v in env)
    requires (r.ind > 0 ==> !r.v.isArray) && LhsAlwaysFits(env, sc, ctx, rhs, r, c)
    ensures VisitLhs(env, ctx, rhs, r, c.Some?).Some?
  {
    LhsFound(env, sc, ctx, rhs, r, c);
    hide AlwaysFits, AlwaysFound, LhsAlwaysFits, CheckRead, CheckWrite, ValidPtr, WFRef, EnvWF, ReadIndex;
    if c.Some? { FittingAccepted(env, sc, ctx, r); }
    FirstIsValid(env, sc, ctx, r);
    IndexUnwritten(env, sc, ctx, rhs, r, c);
    forall v | Obj(v) in Deref(env, {Obj(r.v)}, r.ind)
      ensures CheckWrite(ctx, v)
    {
      LastMayBeWritten(env, sc, ctx, rhs, r, c, v);
    }
    assert Obj(r.v) in Deref(env, {Obj(r.v)}, 0);
    if r.ind > 0 {
      forall j, v | 0 <= j < r.ind && Obj(v) in Deref(env, {Obj(r.v)}, j)
        ensures CheckRead(env, ctx, v) && v !in rhs.wrs
      {
        PassedMayBeRead(env, sc, ctx, r, j, v);
        PassedUnwritten(env, sc, ctx, rhs, r, c, j, v);
      }
      forall j | 1 <= j <= r.ind
        ensures SafePointees(Deref(env, {Obj(r.v)}, j))
      {
        PassedIsSafe(env, sc, ctx, r, j - 1);
      }
      WritePointedIf(env, ctx, {Obj(r.v)}, r.ind);
      Unmodified(env, rhs.wrs, {Obj(r.v)}, r.ind);
      hide Deref, VisitRead, WritePointed, PtrModified;
      assert r.v !in rhs.wrs;
    }
  }

  /** The checks on a left side are exact: it is accepted if and only if, in every store that the facts describe, its
    * cell is found through valid pointers that the right side does not write, and it may be written. */
  lemma LhsExact(env: Env, sc: Scope, ctx: Context, rhs: Effect, r: Ref, c: Option<nat>)
    requires Full(env) && EnvWF(env, sc.live) && WFRef(r, sc.live) && (r.v.level > 0 ==> r.v in env)
    requires (r.ind > 0 ==> !r.v.isArray) && (c.Some? ==> RefLevel(r) == 0)
    ensures VisitLhs(env, ctx, rhs, r, c.Some?).Some? <==> LhsAlwaysFits(env, sc, ctx, rhs, r, c)
  {
    if VisitLhs(env, ctx, rhs, r, c.Some?).Some? {
      forall st | Before(st, env, sc)
        ensures LhsFits(ctx, rhs, r, c, st)
      {
        AcceptedLhs(env, sc, ctx, rhs, r, c, st);
      }
    } else if LhsAlwaysFits(env, sc, ctx, rhs, r, c) {
      FittingLhs(env, sc, ctx, rhs, r, c);
    }
  }

  lemma AcceptedLhs(env: Env, sc: Scope, ctx: Context, rhs: Effect, r: Ref, c: Option<nat>, st: Store)
    requires EnvWF(env, sc.live) && WFRef(r, sc.live) && (r.v.level > 0 ==> r.v in env) && Before(st, env, sc)
    requires VisitLhs(env, ctx, rhs, r, c.Some?).Some? && (c.Some? ==> RefLevel(r) == 0)
    ensures LhsFits(ctx, rhs, r, c, st)
  {
    hide VisitLhs, VisitRead, Lvalue, Holds, EnvWF, StartFoot;
    var eff := VisitLhs(env, ctx, rhs, r, c.Some?).value;
    LhsCell(r, st, env, sc.live, ctx, rhs, c.Some?);
    VisitLhsOk(env, ctx, rhs, r, c.Some?);
    AllWithinLive(env, sc.live);
    LhsWithin(env, ctx, ctx, rhs, r, c.Some?, sc.live, sc.live, sc.live);
    SideReads(r, st, env, sc.live, ctx, rhs, c.Some?);
    LvalueFacts(r, st);
    ChainApart(env, sc, ctx, rhs, r, c.Some?, st);
    var v := Lvalue(r, st);
    forall l | l in v.fp.rd || l == v.l
      ensures l.v in sc.live
    {
      InCells(sc.live, l);
    }
    if c.Some? {
      PriorRead(env, ctx, rhs, r);
      AcceptedFits(env, sc, ctx, r, st);
    }
  }

  lemma ChainApart(env: Env, sc: Scope, ctx: Context, rhs: Effect, r: Ref, compound: bool, st: Store)
    requires EnvWF(env, sc.live) && WFRef(r, sc.live) && (r.v.level > 0 ==> r.v in env) && Before(st, env, sc)
    requires VisitLhs(env, ctx, rhs, r, compound).Some? && Lvalue(r, st).Lval?
    ensures forall l :: l in Lvalue(r, st).fp.rd ==> l.v !in rhs.wrs
    ensures !(StartFoot(r).trace != [] && rhs.vol)
  {
    hide VisitRead, WritePointed, Holds, EnvWF;
    LvalueIs(r, st, sc.live);
    ChainUnmodified(Start(r, st).value, r.ind, st, env, {Obj(r.v)}, sc.live, rhs.wrs);
    ChaseFacts(Start(r, st).value, r.ind, st);
    hide Chase, PtrModified;
  }

  // --- what is recorded of a left side

  lemma {:induction false} PointedWrites(env: Env, ctx: Context, ts: set<Target>, k: nat, v: Variable) returns (j: nat)
    requires k > 0 && WritePointed(env, ctx, ts, k).Some? && v in WritePointed(env, ctx, ts, k).value.rds
    ensures 1 <= j < k && Obj(v) in Deref(env, ts, j)
    decreases k
  {
    var next := Pointees(env, ts);
    if k > 1 && v in Objects(next) {
      j := 1;
      assert Deref(env, ts, 1) == Deref(env, next, 0);
    } else {
      var i := PointedWrites(env, ctx, next, k - 1, v);
      j := i + 1;
    }
  }

  /** The read set of an accepted left side holds just the variables that finding its cell - and reading it, for a
    * compound assignment - reads in some store that the facts describe; the write set just those that the cell belongs
    * to. */
  lemma LhsEffectExact(env: Env, sc: Scope, ctx: Context, rhs: Effect, r: Ref, c: Option<nat>, v: Variable)
    requires Full(env) && EnvWF(env, sc.live) && WFRef(r, sc.live) && (r.v.level > 0 ==> r.v in env)
    requires VisitLhs(env, ctx, rhs, r, c.Some?).Some? && (c.Some? ==> RefLevel(r) == 0)
    ensures v in VisitLhs(env, ctx, rhs, r, c.Some?).value.rds <==>
              exists st, l ::
                Before(st, env, sc) && LeftSide(r, c, st).Lval? && l in LeftSide(r, c, st).fp.rd && l.v == v
    ensures v in VisitLhs(env, ctx, rhs, r, c.Some?).value.wrs <==>
              exists st :: Before(st, env, sc) && LeftSide(r, c, st).Lval? && LeftSide(r, c, st).l.v == v
  {
    hide VisitLhs, LeftSide, Before, EnvWF, Full, WFRef;
    if st, l :| Before(st, env, sc) && LeftSide(r, c, st).Lval? && l in LeftSide(r, c, st).fp.rd && l.v == v {
      SideRecorded(env, sc, ctx, rhs, r, c, st);
    }
    if v in VisitLhs(env, ctx, rhs, r, c.Some?).value.rds {
      var st, l := SomeSideRead(env, sc, ctx, rhs, r, c, v);
    }
    if st :| Before(st, env, sc) && LeftSide(r, c, st).Lval? && LeftSide(r, c, st).l.v == v {
      SideRecorded(env, sc, ctx, rhs, r, c, st);
    }
    if v in VisitLhs(env, ctx, rhs, r, c.Some?).value.wrs {
      var st := SomeSideWritten(env, sc, ctx, rhs, r, c, v);
    }
  }

  lemma SideRecorded(env: Env, sc: Scope, ctx: Context, rhs: Effect, r: Ref, c: Option<nat>, st: Store)
    requires EnvWF(env, sc.live) && WFRef(r, sc.live) && (r.v.level > 0 ==> r.v in env) && Before(st, env, sc)
    requires VisitLhs(env, ctx, rhs, r, c.Some?).Some?
    ensures var s, eff := LeftSide(r, c, st), VisitLhs(env, ctx, rhs, r, c.Some?).value;
            s.Lval? ==> s.l.v in eff.wrs && forall l :: l in s.fp.rd ==> l.v in eff.rds
  {
    hide VisitLhs, VisitRead, Lvalue, Holds, EnvWF;
    LhsCell(r, st, env, sc.live, ctx, rhs, c.Some?);
    SideReads(r, st, env, sc.live, ctx, rhs, c.Some?);
    if c.Some? {
      PriorRead(env, ctx, rhs, r);
      LoadSound(r, st, env, sc.live, ctx);
      VisitReadSeen(env, ctx, r);
      assert Lvalue(r, st).l.v in VisitRead(env, ctx, r).value.rds;
    }
  }

  lemma SomeSideWritten(env: Env, sc: Scope, ctx: Context, rhs: Effect, r: Ref, c: Option<nat>, v: Variable)
    returns (st: Store)
    requires Full(env) && EnvWF(env, sc.live) && WFRef(r, sc.live) && (r.v.level > 0 ==> r.v in env)
    requires VisitLhs(env, ctx, rhs, r, c.Some?).Some? && (c.Some? ==> RefLevel(r) == 0)
    requires v in VisitLhs(env, ctx, rhs, r, c.Some?).value.wrs
    ensures Before(st, env, sc) && LeftSide(r, c, st).Lval? && LeftSide(r, c, st).l.v == v
  {
    hide VisitLhs, Chase, Start, Deref;
    VisitLhsSeen(env, ctx, rhs, r, c.Some?);
    st := CellTight(env, sc, r, r.ind, v);
    LvalueIs(r, st, sc.live);
    AcceptedLhs(env, sc, ctx, rhs, r, c, st);
  }

  lemma SomeSideRead(env: Env, sc: Scope, ctx: Context, rhs: Effect, r: Ref, c: Option<nat>, v: Variable)
    returns (st: Store, l: Loc)
    requires Full(env) && EnvWF(env, sc.live) && WFRef(r, sc.live) && (r.v.level > 0 ==> r.v in env)
    requires VisitLhs(env, ctx, rhs, r, c.Some?).Some? && (c.Some? ==> RefLevel(r) == 0)
    requires v in VisitLhs(env, ctx, rhs, r, c.Some?).value.rds
    ensures Before(st, env, sc) && LeftSide(r, c, st).Lval? && l in LeftSide(r, c, st).fp.rd && l.v == v
  {
    if c.Some? && v in VisitRead(env, ctx, r).value.rds {
      hide VisitLhs, VisitRead;
      PriorRead(env, ctx, rhs, r);
      st, l := SomeRead(env, sc, ctx, r, v);
      AcceptedLhs(env, sc, ctx, rhs, r, c, st);
      PriorCells(r, c, st);
    } else {
      var ix, j := WhereSideRead(env, ctx, rhs, r, c.Some?, v);
      hide *;
      if ix {
        AtStart(env, r);
        st := CellTight(env, sc, r, 0, r.v);
        AcceptedLhs(env, sc, ctx, rhs, r, c, st);
        l := SideIndexRead(env, sc, ctx, rhs, r, c, st, v);
      } else {
        st := CellTight(env, sc, r, j, v);
        AcceptedLhs(env, sc, ctx, rhs, r, c, st);
        l := SideCellRead(env, sc, ctx, rhs, r, c, st, j, v);
      }
    }
  }

  lemma PriorCells(r: Ref, c: Option<nat>, st: Store)
    requires c.Some? && LeftSide(r, c, st).Lval? && EvalLoad(r, st).Done?
    ensures LeftSide(r, c, st).fp.rd == EvalLoad(r, st).fp.rd
  {
  }

  /** In the index, or on the way to the cell. */
  lemma WhereSideRead(env: Env, ctx: Context, rhs: Effect, r: Ref, compound: bool, v: Variable)
    returns (ix: bool, j: nat)
    requires VisitLhs(env, ctx, rhs, r, compound).Some? && v in VisitLhs(env, ctx, rhs, r, compound).value.rds
    requires compound ==> v !in VisitRead(env, ctx, r).value.rds
    ensures if ix then r.ix.By? && r.ix.v == v else j < r.ind && Obj(v) in Deref(env, {Obj(r.v)}, j)
  {
    hide VisitRead, PtrModified, CheckRead, CheckWrite;
    ix, j := v in ReadIndex(env, ctx, r).value.rds, 0;
    if !ix && r.ind > 0 && v in WritePointed(env, ctx, {Obj(r.v)}, r.ind).value.rds {
      j := PointedWrites(env, ctx, {Obj(r.v)}, r.ind, v);
    }
  }

  lemma SideIndexRead(env: Env, sc: Scope, ctx: Context, rhs: Effect, r: Ref, c: Option<nat>, st: Store, v: Variable)
    returns (l: Loc)
    requires WFRef(r, sc.live) && Before(st, env, sc) && LhsFits(ctx, rhs, r, c, st) && r.ix.By? && r.ix.v == v
    ensures LeftSide(r, c, st).Lval? && l in LeftSide(r, c, st).fp.rd && l.v == v
  {
    LvalueIs(r, st, sc.live);
    l := Loc(v, 0);
  }

  lemma SideCellRead(env: Env, sc: Scope, ctx: Context, rhs: Effect, r: Ref, c: Option<nat>, st: Store, j: nat,
                     v: Variable) returns (l: Loc)
    requires WFRef(r, sc.live) && Before(st, env, sc) && LhsFits(ctx, rhs, r, c, st) && j < r.ind
    requires Start(r, st).Some?
    requires Chase(Start(r, st).value, j, st).Lval? && Chase(Start(r, st).value, j, st).l.v == v
    ensures LeftSide(r, c, st).Lval? && l in LeftSide(r, c, st).fp.rd && l.v == v
  {
    hide Chase, Lvalue;
    l := Chase(Start(r, st).value, j, st).l;
    GoesThrough(r, st, sc.live, j);
  }

  // --- volatile accesses

  lemma {:induction false} PointedVolatile(env: Env, ctx: Context, ts: set<Target>, k: nat)
    ensures var e := ReadPointed(env, ctx, ts, k); e.Some? ==> (e.value.vol <==> AnyVolatile(e.value.rds))
    ensures k > 0 ==>
              var e := WritePointed(env, ctx, ts, k);
              e.Some? ==> (e.value.vol <==> AnyVolatile(e.value.rds + e.value.wrs))
    decreases k
  {
    hide Pointees, Objects, CheckRead, CheckWrite, SafePointees;
    if k > 0 {
      ReadPointedOk(env, ctx, Pointees(env, ts), k - 1);
      PointedVolatile(env, ctx, Pointees(env, ts), k - 1);
    }
  }

  /** An access counts as volatile exactly if something volatile is in its read or write set. */
  lemma VolatileExact(env: Env, ctx: Context, rhs: Effect, r: Ref, compound: bool)
    ensures var e := VisitRead(env, ctx, r); e.Some? ==> (e.value.vol <==> AnyVolatile(e.value.rds))
    ensures var e := VisitLhs(env, ctx, rhs, r, compound);
            e.Some? ==> (e.value.vol <==> AnyVolatile(e.value.rds + e.value.wrs))
  {
    hide ReadPointed, WritePointed, PtrModified, CheckRead, CheckWrite;
    PointedVolatile(env, ctx, {Obj(r.v)}, r.ind);
    VisitReadSeen(env, ctx, r);
  }

  // --- what an assignment does to the facts

  /** The member of a points-to set that stands for a pointer's value. */
  ghost predicate StandsFor(t: Target, x: Value) {
    match x
    case NullPtr => t == Null
    case Addr(l) => t == Obj(l.v)
    case Indet => t == Garbage
    case Int(_) => false
  }

  /** The pointees of an rvalue are just the values it has in the stores that the facts describe. */
  lemma PointeesExact(env: Env, sc: Scope, r: Ref, t: Target)
    requires Full(env) && EnvWF(env, sc.live) && WFRef(r, sc.live) && r.v in env && RefLevel(r) > 0
    ensures t in RhsPointees(env, Load(r), {}) <==>
              exists st :: Before(st, env, sc) && Lvalue(r, st).Lval? && Lvalue(r, st).l in st
                           && StandsFor(t, st[Lvalue(r, st).l])
  {
    if t in RhsPointees(env, Load(r), {}) {
      var st := ValueTight(env, sc, r, r.ind, t);
      LvalueIs(r, st, sc.live);
    }
    if st :| Before(st, env, sc) && Lvalue(r, st).Lval? && Lvalue(r, st).l in st
             && StandsFor(t, st[Lvalue(r, st).l]) {
      LvalueIs(r, st, sc.live);
      var l := Lvalue(r, st).l;
      ChaseCovers(Start(r, st).value, r.ind, st, env, {Obj(r.v)}, sc.live);
      assert Covers(env[l.v], st[l]) && TypedValue(st[l], l.v.level, st);
      DerefStep(env, {Obj(r.v)}, r.ind);
      assert t in env[l.v];
    }
  }

  /** The variables that a reference may denote are just those it does denote in the stores that the facts describe. */
  lemma CellsExact(env: Env, sc: Scope, r: Ref, v: Variable)
    requires Full(env) && EnvWF(env, sc.live) && WFRef(r, sc.live) && (r.v.level > 0 ==> r.v in env)
    ensures Obj(v) in Deref(env, {Obj(r.v)}, r.ind) <==>
              exists st :: Before(st, env, sc) && Lvalue(r, st).Lval? && Lvalue(r, st).l.v == v
  {
    if Obj(v) in Deref(env, {Obj(r.v)}, r.ind) {
      var st := CellTight(env, sc, r, r.ind, v);
      LvalueIs(r, st, sc.live);
    }
    if st :| Before(st, env, sc) && Lvalue(r, st).Lval? && Lvalue(r, st).l.v == v {
      LvalueIs(r, st, sc.live);
      ChaseCovers(Start(r, st).value, r.ind, st, env, {Obj(r.v)}, sc.live);
    }
  }
}
