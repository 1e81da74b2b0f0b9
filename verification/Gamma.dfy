/** What a points-to environment says about a store, and why reading and writing through checked references is safe. */
module Gamma {
  import opened Language
  import opened Semantics
  import opened Footprint
  import opened Facts
  import opened Effects

  ghost predicate TypedValue(x: Value, level: nat, st: Store) {
    if level == 0 then x.Int? else !x.Int? && (x.Addr? ==> x.l in st && x.l.v.level + 1 == level)
  }

  /** The store has exactly the cells of the live variables, each holding a value of its type. */
  ghost predicate StoreOk(st: Store, live: set<Variable>) {
    && st.Keys == CellsOf(live)
    && forall l {:trigger st[l]} :: l in st ==> TypedValue(st[l], l.v.level, st)
  }

  ghost predicate Covers(ts: set<Target>, x: Value) {
    match x
    case NullPtr => Null in ts
    case Addr(l) => Obj(l.v) in ts
    case Indet => Garbage in ts
    case Int(_) => true
  }

  /** Every pointer's value lies in its points-to set. */
  ghost predicate Holds(env: Env, st: Store) {
    forall l {:trigger st[l]} :: l in st && l.v in env ==> Covers(env[l.v], st[l])
  }

  /** The accesses made are among those accounted for or read an index of an address, and every pointer written has a
    * fact. */
  ghost predicate FootOk(fp: Foot, eff: Effect, keys: set<Variable>) {
    && (forall l :: l in fp.rd ==> l.v in eff.rds + eff.wrs || (l.v.level == 0 && l.v in eff.unseen))
    && (forall l :: l in fp.wr ==> l.v in eff.wrs && (l.v.level > 0 ==> l.v in keys))
    && (fp.trace != [] ==> eff.vol)
  }

  lemma FootJoin(f: Foot, e: Effect, g: Foot, d: Effect, keys: set<Variable>)
    requires FootOk(f, e, keys) && FootOk(g, d, keys)
    ensures FootOk(Join(f, g), Plus(e, d), keys)
  {
  }

  lemma StoreTidy(st: Store, live: set<Variable>)
    requires StoreOk(st, live)
    ensures Tidy(st)
  {
    forall l | l in st && st[l].Addr?
      ensures st[l].l in st
    {
      assert TypedValue(st[l], l.v.level, st);
    }
  }

  lemma HoldsBelow(e1: Env, e2: Env, st: Store)
    requires Holds(e1, st) && Below(e1, e2)
    ensures Holds(e2, st)
  {
  }

  lemma CellIn(v: Variable, i: int, st: Store, live: set<Variable>)
    requires v in live && StoreOk(st, live)
    ensures Loc(v, i % Cells(v)) in st
  {
  }

  // --- following pointers

  /** A pointer chain that can be followed ends inside the computed set of pointees. */
  lemma {:induction false} ChaseCovers(l: Loc, k: nat, st: Store, env: Env, ts: set<Target>, live: set<Variable>)
    requires StoreOk(st, live) && Holds(env, st) && EnvWF(env, live)
    requires Obj(l.v) in ts && k <= l.v.level && (l.v.level > 0 ==> l.v in env)
    requires Chase(l, k, st).Lval?
    ensures var t := Chase(l, k, st).l;
            t in st && Obj(t.v) in Deref(env, ts, k) && t.v.level == l.v.level - k && (t.v.level > 0 ==> t.v in env)
    decreases k
  {
    if k > 0 {
      var m := st[l].l;
      assert Covers(env[l.v], st[l]) && TypedValue(st[l], l.v.level, st);
      assert GoodTarget(Obj(m.v), l.v.level, live, env.Keys);
      ChaseCovers(m, k - 1, st, env, Pointees(env, ts), live);
    }
  }

  ghost predicate ChainFoot(fp: Foot, l: Loc, eff: Effect) {
    && fp.wr == {}
    && (forall m :: m in fp.rd ==> m == l || m.v in eff.rds)
    && (fp.trace != [] ==> l.v.isVolatile || eff.vol)
  }

  /** If the checks accept a chain of reads, the chain exists, and every cell on it is accounted for. */
  lemma {:induction false} ChaseRead(l: Loc, k: nat, st: Store, env: Env, ts: set<Target>, live: set<Variable>,
                                     ctx: Context)
    requires StoreOk(st, live) && Holds(env, st) && EnvWF(env, live)
    requires l in st && Obj(l.v) in ts && k <= l.v.level && (l.v.level > 0 ==> l.v in env)
    requires CheckRead(env, ctx, l.v) && ReadPointed(env, ctx, ts, k).Some?
    ensures var c, eff := Chase(l, k, st), ReadPointed(env, ctx, ts, k).value;
            && c.Lval? && c.l in st && st[c.l] != Indet
            && ChainFoot(c.fp, l, eff) && (k == 0 ==> c.l == l && c.fp == NO_FOOT)
            && (k > 0 ==> c.l.v in eff.rds && (c.l.v.isVolatile ==> eff.vol))
    decreases k
  {
    hide EnvWF, Pointees, Objects, SafePointees;
    assert TypedValue(st[l], l.v.level, st);
    if l.v.level > 0 { assert Covers(env[l.v], st[l]); }
    if k > 0 {
      var next := Pointees(env, ts);
      NextCell(l, st, env, ts, live);
      var m := st[l].l;
      assert m.v in Objects(next);
      ChaseRead(m, k - 1, st, env, next, live, ctx);
    }
  }

  /** A pointer whose possible pointees are safe really points somewhere. */
  lemma NextCell(l: Loc, st: Store, env: Env, ts: set<Target>, live: set<Variable>)
    requires StoreOk(st, live) && Holds(env, st) && EnvWF(env, live)
    requires l in st && Obj(l.v) in ts && l.v in env && SafePointees(Pointees(env, ts))
    ensures st[l].Addr? && st[l].l in st && st[l].l.v.level + 1 == l.v.level
    ensures Obj(st[l].l.v) in Pointees(env, ts) && st[l].l.v in Objects(Pointees(env, ts))
    ensures st[l].l.v.level > 0 ==> st[l].l.v in env
  {
    assert Covers(env[l.v], st[l]) && TypedValue(st[l], l.v.level, st);
    assert env[l.v] <= Pointees(env, ts);
    var m := st[l].l;
    assert GoodTarget(Obj(m.v), l.v.level, live, env.Keys);
  }

  lemma {:induction false} ChaseWrite(l: Loc, k: nat, st: Store, env: Env, ts: set<Target>, live: set<Variable>,
                                      ctx: Context)
    requires StoreOk(st, live) && Holds(env, st) && EnvWF(env, live)
    requires l in st && Obj(l.v) in ts && 0 < k <= l.v.level && l.v in env
    requires WritePointed(env, ctx, ts, k).Some?
    ensures var c, eff := Chase(l, k, st), WritePointed(env, ctx, ts, k).value;
            && c.Lval? && c.l in st && ChainFoot(c.fp, l, eff)
            && c.l.v in eff.wrs && (c.l.v.isVolatile ==> eff.vol) && !c.l.v.isConst
    decreases k
  {
    hide StoreOk, Holds, EnvWF, Pointees, Objects, SafePointees, CheckRead;
    var next := Pointees(env, ts);
    NextCell(l, st, env, ts, live);
    var m := st[l].l;
    assert m.v in Objects(next);
    if k > 1 {
      ChaseWrite(m, k - 1, st, env, next, live, ctx);
    } else {
      assert Chase(m, 0, st) == Lval(m, NO_FOOT);
    }
  }

  /** The first cell of a reference. */
  function Start(r: Ref, st: Store): Option<Loc> {
    match r.ix
    case At(n) => Some(Loc(r.v, n % Cells(r.v)))
    case By(u, k) =>
      if Loc(u, 0) in st && st[Loc(u, 0)].Int? then Some(Loc(r.v, (st[Loc(u, 0)].n + k) % Cells(r.v))) else None
  }

  function StartFoot(r: Ref): Foot {
    if r.ix.By? then ReadFoot(Loc(r.ix.v, 0)) else NO_FOOT
  }

  lemma StartOk(r: Ref, st: Store, live: set<Variable>)
    requires WFRef(r, live) && StoreOk(st, live)
    ensures Start(r, st).Some? && Start(r, st).value in st && Start(r, st).value.v == r.v
    ensures var c := Chase(Start(r, st).value, r.ind, st);
            c.Lval? ==> Lvalue(r, st) == Lval(c.l, Join(StartFoot(r), c.fp))
  {
    match r.ix
    case At(n) =>
      CellIn(r.v, n, st, live);
      var c := Chase(Loc(r.v, n % Cells(r.v)), r.ind, st);
      if c.Lval? { assert Join(NO_FOOT, c.fp) == c.fp; }
    case By(u, k) =>
      CellIn(u, 0, st, live);
      assert TypedValue(st[Loc(u, 0)], 0, st);
      CellIn(r.v, st[Loc(u, 0)].n + k, st, live);
  }

  lemma StartFootOk(r: Ref, env: Env, ctx: Context, keys: set<Variable>)
    requires ReadIndex(env, ctx, r).Some?
    ensures FootOk(StartFoot(r), ReadIndex(env, ctx, r).value, keys)
  {
  }

  /** A chain of reads, and the read of the cell it ends in. */
  lemma ReadOfChain(l: Loc, k: nat, t: Loc, fp: Foot, e: Effect, keys: set<Variable>)
    requires ChainFoot(fp, l, e) && (k == 0 ==> t == l && fp == NO_FOOT)
    requires k > 0 ==> t.v in e.rds && (t.v.isVolatile ==> e.vol)
    ensures FootOk(Join(fp, ReadFoot(t)), Plus(ReadEffect(l.v), e), keys)
  {
  }

  /** What an rvalue is worth, once its chain of pointers can be followed. */
  lemma LoadRuns(r: Ref, st: Store, env: Env, live: set<Variable>, c: LvalResult)
    requires StoreOk(st, live) && Holds(env, st) && EnvWF(env, live)
    requires WFRef(r, live) && (r.v.level > 0 ==> r.v in env)
    requires Start(r, st).Some? && c == Chase(Start(r, st).value, r.ind, st)
    requires c.Lval? && c.l in st && st[c.l] != Indet
    ensures Lvalue(r, st) == Lval(c.l, Join(StartFoot(r), c.fp))
    ensures EvalLoad(r, st) == Done(Val(st[c.l]), st, Join(StartFoot(r), Join(c.fp, ReadFoot(c.l))))
    ensures TypedValue(st[c.l], RefLevel(r), st)
  {
    StartOk(r, st, live);
    ChaseCovers(Start(r, st).value, r.ind, st, env, {Obj(r.v)}, live);
    assert Join(Join(StartFoot(r), c.fp), ReadFoot(c.l)) == Join(StartFoot(r), Join(c.fp, ReadFoot(c.l)));
  }

  /** An accepted rvalue can be read: no null, dangling or indeterminate pointer is met on the way. */
  lemma LoadSound(r: Ref, st: Store, env: Env, live: set<Variable>, ctx: Context)
    requires StoreOk(st, live) && Holds(env, st) && EnvWF(env, live)
    requires WFRef(r, live) && (r.v.level > 0 ==> r.v in env) && VisitRead(env, ctx, r).Some?
    ensures var c := EvalLoad(r, st);
            && c.Done? && c.out.Val? && c.st == st && TypedValue(c.out.v, RefLevel(r), st)
            && FootOk(c.fp, VisitRead(env, ctx, r).value, env.Keys)
            && Lvalue(r, st).Lval? && st[Lvalue(r, st).l] == c.out.v
            && Lvalue(r, st).fp.rd + {Lvalue(r, st).l} <= c.fp.rd
  {
    StartOk(r, st, live);
    hide ReadPointed, CheckRead, EnvWF, FootOk, StoreOk, Holds, Chase, Start, StartFoot, EvalLoad, Lvalue;
    var l := Start(r, st).value;
    ChaseRead(l, r.ind, st, env, {Obj(r.v)}, live, ctx);
    StartFootOk(r, env, ctx, env.Keys);
    var c := Chase(l, r.ind, st);
    var ix, e := ReadIndex(env, ctx, r).value, ReadPointed(env, ctx, {Obj(r.v)}, r.ind).value;
    LoadRuns(r, st, env, live, c);
    ReadOfChain(l, r.ind, c.l, c.fp, e, env.Keys);
    FootJoin(StartFoot(r), ix, Join(c.fp, ReadFoot(c.l)), Plus(ReadEffect(r.v), e), env.Keys);
    PlusAssoc(ix, ReadEffect(r.v), e);
  }

  // --- assignments

  /** Updating one cell: the new facts hold, whether the old ones were replaced or only added to. */
  lemma AssignedHolds(env: Env, lvars: set<Target>, pts: set<Target>, st: Store, live: set<Variable>, l: Loc, x: Value)
    requires StoreOk(st, live) && Holds(env, st)
    requires l in st && l.v in env && Obj(l.v) in lvars && Covers(pts, x)
    ensures Holds(Assigned(env, lvars, pts), st[l := x])
  {
    var env', st' := Assigned(env, lvars, pts), st[l := x];
    forall m | m in st' && m.v in env'
      ensures Covers(env'[m.v], st'[m])
    {
      assert m in CellsOf(live) && l in CellsOf(live);
      if m != l {
        assert Covers(env[m.v], st[m]);
        if IsStrong(lvars, m.v) { assert false; }
      }
    }
  }

  lemma WriteTyped(st: Store, live: set<Variable>, l: Loc, x: Value)
    requires StoreOk(st, live) && l in st && TypedValue(x, l.v.level, st)
    ensures StoreOk(st[l := x], live)
  {
    var st' := st[l := x];
    assert st'.Keys == st.Keys;
    forall m | m in st'
      ensures TypedValue(st'[m], m.v.level, st')
    {
      if m != l { assert TypedValue(st[m], m.v.level, st); }
    }
  }

  /** The cell an accepted left side denotes. */
  lemma LhsCell(r: Ref, st: Store, env: Env, live: set<Variable>, ctx: Context, rhs: Effect, compound: bool)
    requires StoreOk(st, live) && Holds(env, st) && EnvWF(env, live)
    requires WFRef(r, live) && (r.v.level > 0 ==> r.v in env) && VisitLhs(env, ctx, rhs, r, compound).Some?
    ensures var c, eff := Lvalue(r, st), VisitLhs(env, ctx, rhs, r, compound).value;
            && c.Lval? && c.l in st && c.l.v.level == RefLevel(r) && Obj(c.l.v) in Deref(env, {Obj(r.v)}, r.ind)
            && FootOk(c.fp, eff, env.Keys) && c.l.v in eff.wrs && (c.l.v.isVolatile ==> eff.vol)
            && !c.l.v.isConst && (RefLevel(r) > 0 ==> c.l.v in env)
  {
    StartOk(r, st, live);
    var l := Start(r, st).value;
    if r.ind > 0 {
      ChaseWrite(l, r.ind, st, env, {Obj(r.v)}, live, ctx);
    }
    ChaseCovers(l, r.ind, st, env, {Obj(r.v)}, live);
    StartFootOk(r, env, ctx, env.Keys);
  }

  lemma StoreRuns(p: Program, r: Ref, c: Option<nat>, x: Value, st: Store, keys: set<Variable>, live: set<Variable>,
                  eff: Effect)
    requires StoreOk(st, live) && TypedValue(x, RefLevel(r), st) && (RefLevel(r) > 0 ==> c.None?)
    requires var v := Lvalue(r, st);
             && v.Lval? && v.l in st && v.l.v.level == RefLevel(r) && FootOk(v.fp, eff, keys)
             && v.l.v in eff.wrs && (v.l.v.isVolatile ==> eff.vol) && (RefLevel(r) > 0 ==> v.l.v in keys)
             && !v.l.v.isConst
    ensures var d, l := Store1(p, r, c, x, st), Lvalue(r, st).l;
            && d.Done? && d.out.Val? && StoreOk(d.st, live) && TypedValue(d.out.v, RefLevel(r), d.st)
            && FootOk(d.fp, eff, keys) && d.st == st[l := d.out.v] && (c.None? ==> d.out.v == x)
  {
    hide Lvalue, StoreOk;
    var l := Lvalue(r, st).l;
    CellTyped(st, live, l);
    WriteTyped(st, live, l, Store1(p, r, c, x, st).out.v);
  }

  lemma CellTyped(st: Store, live: set<Variable>, l: Loc)
    requires StoreOk(st, live) && l in st
    ensures TypedValue(st[l], l.v.level, st)
  {
  }

  lemma StoreSound(p: Program, r: Ref, c: Option<nat>, x: Value, pts: set<Target>, st: Store, env: Env,
                   live: set<Variable>, ctx: Context, rhs: Effect)
    requires StoreOk(st, live) && Holds(env, st) && EnvWF(env, live)
    requires WFRef(r, live) && (r.v.level > 0 ==> r.v in env) && VisitLhs(env, ctx, rhs, r, c.Some?).Some?
    requires TypedValue(x, RefLevel(r), st) && (RefLevel(r) > 0 ==> Covers(pts, x) && c.None?)
    ensures Lvalue(r, st).Lval?
    ensures var d, l := Store1(p, r, c, x, st), Lvalue(r, st).l;
            && d.Done? && d.out.Val? && StoreOk(d.st, live) && TypedValue(d.out.v, RefLevel(r), d.st)
            && Holds(AssignFacts(env, r, pts), d.st)
            && FootOk(d.fp, VisitLhs(env, ctx, rhs, r, c.Some?).value, env.Keys)
            && l in st && l.v.level == RefLevel(r) && d.st == st[l := d.out.v] && (c.None? ==> d.out.v == x)
  {
    hide VisitLhs, Lvalue, Deref, WFRef, FootOk;
    LhsCell(r, st, env, live, ctx, rhs, c.Some?);
    var l := Lvalue(r, st).l;
    StoreRuns(p, r, c, x, st, env.Keys, live, VisitLhs(env, ctx, rhs, r, c.Some?).value);
    if RefLevel(r) > 0 {
      AssignedHolds(env, Deref(env, {Obj(r.v)}, r.ind), pts, st, live, l, x);
    } else {
      assert forall m :: m in st && m.v in env ==> m != l;
    }
  }

  // --- remembering where a value came from

  /** The value `x` of `e` can still be found where the right side of an assignment looks for it: the analysis looks
    * pointees up in the facts that hold after everything has been visited, not in those that held when `e` was.  `rd`
    * are the cells this takes. */
  ghost predicate Recalls(p: Program, e: Expr, rets: set<Target>, x: Value, st: Store, rd: set<Loc>)
    decreases e
  {
    match e
    case Load(r) =>
      RefLevel(r) > 0 ==>
        var c := Lvalue(r, st);
        c.Lval? && c.l in st && st[c.l] == x && c.fp.rd + {c.l} <= rd
    case AddrOf(v, _) => x.Addr? && x.l.v == v
    case PtrConst(_, z) => x == (if z then NullPtr else Indet)
    case Call(_, _) => Level(p, e) > 0 ==> Covers(rets, x)
    case Assign(_, _, rhs) => Recalls(p, rhs, rets, x, st, rd)
    case Comma(_, b) => Recalls(p, b, rets, x, st, rd)
    case _ => true
  }

  lemma {:induction false} RecallsInt(p: Program, k: nat, e: Expr, vis: set<Variable>, rets: set<Target>, x: Value,
                                      st: Store, rd: set<Loc>)
    requires WFExpr(p, k, e, vis) && Level(p, e) == 0
    ensures Recalls(p, e, rets, x, st, rd)
    decreases e
  {
    match e
    case Assign(_, _, rhs) => RecallsInt(p, k, rhs, vis, rets, x, st, rd);
    case Comma(_, b) => RecallsInt(p, k, b, vis, rets, x, st, rd);
    case _ =>
  }

  lemma {:induction false} RecallCovers(p: Program, k: nat, e: Expr, rets: set<Target>, x: Value, st: Store,
                                        rd: set<Loc>, env: Env, live: set<Variable>, vis: set<Variable>)
    requires StoreOk(st, live) && Holds(env, st) && EnvWF(env, live) && vis <= live
    requires forall v :: v in vis && v.level > 0 ==> v in env
    requires WFExpr(p, k, e, vis) && Level(p, e) > 0 && Recalls(p, e, rets, x, st, rd)
    ensures Covers(RhsPointees(env, e, rets), x)
    decreases e
  {
    match e
    case Load(r) =>
      StartOk(r, st, live);
      StartChase(r, st);
      var l := Start(r, st).value;
      ChaseCovers(l, r.ind, st, env, {Obj(r.v)}, live);
      DerefStep(env, {Obj(r.v)}, r.ind);
      var t := Lvalue(r, st).l;
      assert Covers(env[t.v], st[t]);
      assert env[t.v] <= Pointees(env, Deref(env, {Obj(r.v)}, r.ind));
    case Assign(_, _, rhs) => RecallCovers(p, k, rhs, rets, x, st, rd, env, live, vis);
    case Comma(_, b) => RecallCovers(p, k, b, rets, x, st, rd, env, live, vis);
    case _ =>
  }

  lemma StartChase(r: Ref, st: Store)
    requires Start(r, st).Some? && Lvalue(r, st).Lval?
    ensures Chase(Start(r, st).value, r.ind, st).Lval? && Lvalue(r, st).l == Chase(Start(r, st).value, r.ind, st).l
  {
  }

  lemma {:induction false} RecallStable(p: Program, e: Expr, rets: set<Target>, x: Value, st: Store, st': Store,
                                        rd: set<Loc>)
    requires Recalls(p, e, rets, x, st, rd)
    requires st'.Keys == st.Keys && forall l :: l in rd && l in st ==> st'[l] == st[l]
    ensures Recalls(p, e, rets, x, st', rd)
    decreases e
  {
    match e
    case Load(r) =>
      if RefLevel(r) > 0 {
        match r.ix {
          case At(n) => ChaseStable(Loc(r.v, n % Cells(r.v)), r.ind, st, st', rd);
          case By(u, k) =>
            assert Loc(u, 0) in Lvalue(r, st).fp.rd;
            ChaseStable(Loc(r.v, (st[Loc(u, 0)].n + k) % Cells(r.v)), r.ind, st, st', rd);
        }
      }
    case Assign(_, _, rhs) => RecallStable(p, rhs, rets, x, st, st', rd);
    case Comma(_, b) => RecallStable(p, b, rets, x, st, st', rd);
    case _ =>
  }

  lemma {:induction false} ChaseStable(l: Loc, k: nat, st: Store, st': Store, rd: set<Loc>)
    requires Chase(l, k, st).Lval? && Chase(l, k, st).fp.rd <= rd
    requires st'.Keys == st.Keys && forall m :: m in rd && m in st ==> st'[m] == st[m]
    ensures Chase(l, k, st') == Chase(l, k, st)
    decreases k
  {
    if k > 0 {
      assert l in Chase(l, k, st).fp.rd;
      ChaseStable(st[l].l, k - 1, st, st', rd);
    }
  }

  /** Assigning the value itself does not disturb where it came from: everything read on the way is a deeper pointer. */
  lemma {:induction false} RecallAfterStore(p: Program, k: nat, e: Expr, vis: set<Variable>, rets: set<Target>,
                                            x: Value, st: Store, rd: set<Loc>, live: set<Variable>, l: Loc)
    requires WFExpr(p, k, e, vis) && vis <= live && StoreOk(st, live)
    requires l in st && l.v.level == Level(p, e) > 0 && Recalls(p, e, rets, x, st, rd)
    ensures Recalls(p, e, rets, x, st[l := x], rd)
    decreases e
  {
    match e
    case Load(r) => LvalueAfterStore(r, st, live, l, x);
    case Assign(_, _, rhs) => RecallAfterStore(p, k, rhs, vis, rets, x, st, rd, live, l);
    case Comma(_, b) => RecallAfterStore(p, k, b, vis, rets, x, st, rd, live, l);
    case _ =>
  }

  lemma LvalueAfterStore(r: Ref, st: Store, live: set<Variable>, l: Loc, x: Value)
    requires StoreOk(st, live) && WFRef(r, live) && l in st && l.v.level == RefLevel(r) > 0 && Lvalue(r, st).Lval?
    ensures Lvalue(r, st[l := x]) == Lvalue(r, st)
  {
    StartOk(r, st, live);
    StartChase(r, st);
    var c := Start(r, st).value;
    ChaseAfterStore(c, r.ind, st, live, l, x);
    assert Start(r, st[l := x]) == Start(r, st);
  }

  lemma {:induction false} ChaseAfterStore(c: Loc, k: nat, st: Store, live: set<Variable>, l: Loc, x: Value)
    requires StoreOk(st, live) && l in st && k <= c.v.level && c.v.level - k == l.v.level
    requires Chase(c, k, st).Lval?
    ensures Chase(c, k, st[l := x]) == Chase(c, k, st)
    decreases k
  {
    if k > 0 {
      assert TypedValue(st[c], c.v.level, st);
      ChaseAfterStore(st[c].l, k - 1, st, live, l, x);
    }
  }

  // --- scopes

  lemma KillSound(dead: set<Variable>, st: Store, live: set<Variable>, env: Env)
    requires StoreOk(st, live) && Holds(env, st) && dead <= live
    ensures StoreOk(Kill(dead, st), live - dead) && Holds(OutOfScope(dead, env), Kill(dead, st))
  {
    var st' := Kill(dead, st);
    assert st'.Keys == CellsOf(live - dead);
    forall l | l in st'
      ensures TypedValue(st'[l], l.v.level, st')
    {
      assert TypedValue(st[l], l.v.level, st);
    }
    forall l | l in st' && l.v in OutOfScope(dead, env)
      ensures Covers(OutOfScope(dead, env)[l.v], st'[l])
    {
      assert Covers(env[l.v], st[l]);
    }
  }

  lemma KillKill(a: set<Variable>, b: set<Variable>, st: Store)
    ensures Kill(a, Kill(b, st)) == Kill(a + b, st)
  {
  }

  lemma FadeFade(a: set<Variable>, b: set<Variable>, x: Value)
    ensures Fade(a, Fade(b, x)) == Fade(a + b, x)
  {
  }

  lemma KillNone(st: Store)
    ensures Kill({}, st) == st
  {
  }

  lemma FadeCovers(dead: set<Variable>, ts: set<Target>, x: Value)
    requires Covers(ts, x)
    ensures Covers(Faded(dead, ts), Fade(dead, x))
  {
  }

  /** Facts about variables that did not exist before tell nothing about those that did. */
  lemma OutOfScopeNone(names: set<Variable>, env: Env, inits: Env, live: set<Variable>)
    requires EnvWF(env, live) && names !! live && inits.Keys <= names
    ensures OutOfScope(names, env + inits) == env
  {
    forall v | v in env
      ensures Faded(names, env[v]) == env[v]
    {
      assert GoodTargets(env[v], v.level, live, env.Keys);
    }
  }

  ghost predicate InitsOk(locals: map<Variable, seq<Init>>, live: set<Variable>) {
    && locals.Keys !! live
    && forall v :: v in locals ==>
         |locals[v]| > 0 && forall j :: 0 <= j < |locals[v]| ==> WFInit(v, locals[v][j], live + locals.Keys)
  }

  lemma EnterSound(locals: map<Variable, seq<Init>>, st: Store, live: set<Variable>, env: Env)
    requires StoreOk(st, live) && Holds(env, st) && InitsOk(locals, live) && EnvWF(env, live)
    ensures CanEnter(locals, st)
    ensures StoreOk(Enter(locals, st), live + locals.Keys) && Holds(env + InitFacts(locals), Enter(locals, st))
  {
    forall v, j | v in locals && 0 <= j < |locals[v]|
      ensures InitOk(locals[v][j], st, locals.Keys)
    {
      assert WFInit(v, locals[v][j], live + locals.Keys);
    }
    StoreTidy(st, live);
    EnterFacts(locals, st);
    var st' := Enter(locals, st);
    assert st'.Keys == CellsOf(live + locals.Keys);
    hide Enter, CellsOf;
    forall l | l in st'
      ensures TypedValue(st'[l], l.v.level, st')
      ensures l.v in env + InitFacts(locals) ==> Covers((env + InitFacts(locals))[l.v], st'[l])
    {
      InCells(locals.Keys, l);
      InCells(live, l);
      if l in st {
        assert TypedValue(st[l], l.v.level, st);
      } else {
        EnteredCell(locals, st, live, l);
      }
    }
  }

  lemma EnteredCell(locals: map<Variable, seq<Init>>, st: Store, live: set<Variable>, l: Loc)
    requires InitsOk(locals, live) && st.Keys == CellsOf(live) && l.v in locals && l.i < Cells(l.v)
    ensures var st' := Enter(locals, st);
            && l in st' && TypedValue(st'[l], l.v.level, st')
            && (l.v.level > 0 ==> Covers(InitFacts(locals)[l.v], st'[l]))
  {
    var j := l.i % |locals[l.v]|;
    var ini := locals[l.v][j];
    InCells(locals.Keys, l);
    assert WFInit(l.v, ini, live + locals.Keys);
    if ini.AddrInit? {
      InCells(locals.Keys, Loc(ini.v, ini.at % Cells(ini.v)));
      InCells(live, Loc(ini.v, ini.at % Cells(ini.v)));
    }
    if l.v.level > 0 {
      assert InitTarget(ini) in InitFacts(locals)[l.v];
    }
  }
}
