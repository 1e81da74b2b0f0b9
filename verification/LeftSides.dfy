/** The left side of an accepted assignment may as well be evaluated before the right side. */
module LeftSides {
  import opened Language
  import opened Semantics
  import opened Footprint
  import opened Facts
  import opened Effects
  import opened Analysis
  import opened Gamma
  import opened StandIns

  /** The pointers that an accepted left side goes through are not among those its right side writes. */
  lemma {:induction false} ChainUnmodified(l: Loc, k: nat, st: Store, env: Env, ts: set<Target>, live: set<Variable>,
                                           wrs: set<Variable>)
    requires StoreOk(st, live) && Holds(env, st) && EnvWF(env, live)
    requires Obj(l.v) in ts && k <= l.v.level && (l.v.level > 0 ==> l.v in env)
    requires !PtrModified(env, wrs, ts, k) && Chase(l, k, st).Lval?
    ensures forall m :: m in Chase(l, k, st).fp.rd ==> m == l || m.v !in wrs
    decreases k
  {
    if k > 0 {
      var m := st[l].l;
      assert Covers(env[l.v], st[l]) && TypedValue(st[l], l.v.level, st);
      assert GoodTarget(Obj(m.v), l.v.level, live, env.Keys);
      if k > 1 {
        assert m.v in Objects(Pointees(env, ts));
        ChainUnmodified(m, k - 1, st, env, Pointees(env, ts), live, wrs);
      }
    }
  }

  /** Found in the store after the right side, the cell was to be found in the store before it. */
  lemma SameCell(r: Ref, st: Store, st': Store, env: Env, live: set<Variable>, ctx: Context, rhs: Effect,
                 compound: bool, fp: Foot, keys: set<Variable>)
    requires StoreOk(st', live) && Holds(env, st') && EnvWF(env, live) && WFRef(r, live)
    requires (r.v.level > 0 ==> r.v in env)
    requires VisitLhs(env, ctx, rhs, r, compound).Some?
    requires FramedStore(st, st', fp) && FootOk(fp, rhs, keys)
    ensures Lvalue(r, st).Lval? && Lvalue(r, st) == Lvalue(r, st')
  {
    hide WritePointed, Tidy, VisitRead, Holds, EnvWF;
    LhsCell(r, st', env, live, ctx, rhs, compound);
    StartOk(r, st', live);
    var l := Start(r, st').value;
    ChainUnmodified(l, r.ind, st', env, {Obj(r.v)}, live, rhs.wrs);
    var c := Chase(l, r.ind, st');
    ChaseFacts(l, r.ind, st');
    forall m | m in c.fp.rd && m in st'
      ensures st[m] == st'[m]
    {
      assert m.v !in rhs.wrs;
      assert m !in fp.wr;
    }
    ChaseStable(l, r.ind, st', st, c.fp.rd);
    if r.ix.By? {
      var u := Loc(r.ix.v, 0);
      assert CheckRead(env, Context(Plus(ctx.eff, rhs), {}, {}, {}), r.ix.v);
      assert r.ix.v !in rhs.wrs && u !in fp.wr;
    }
  }

  // --- volatile reads on the way to the cell

  lemma {:induction false} ChaseTrace(l: Loc, k: nat, st: Store)
    requires Chase(l, k, st).Lval?
    ensures var f := Chase(l, k, st).fp; f.trace != [] ==> exists m :: m in f.rd && m.v.isVolatile
    decreases k
  {
    if k > 0 {
      var f, rest := Chase(l, k, st).fp, Chase(st[l].l, k - 1, st).fp;
      ChaseTrace(st[l].l, k - 1, st);
      if rest.trace != [] {
        var m :| m in rest.rd && m.v.isVolatile;
        assert m in f.rd;
      } else if l.v.isVolatile {
        assert l in f.rd;
      }
    }
  }

  /** All that is read on the way is in the read set of the left side. */
  lemma SideReads(r: Ref, st: Store, env: Env, live: set<Variable>, ctx: Context, rhs: Effect, compound: bool)
    requires StoreOk(st, live) && Holds(env, st) && EnvWF(env, live)
    requires WFRef(r, live) && (r.v.level > 0 ==> r.v in env) && VisitLhs(env, ctx, rhs, r, compound).Some?
    ensures Lvalue(r, st).Lval?
    ensures var f, eff := Lvalue(r, st).fp, VisitLhs(env, ctx, rhs, r, compound).value;
            && (forall m :: m in f.rd ==> m.v in eff.rds)
            && (f.trace != [] ==> AnyVolatile(eff.rds))
  {
    hide StoreOk, Holds, EnvWF, VisitRead, WritePointed, CheckRead, CheckWrite, PtrModified;
    LhsCell(r, st, env, live, ctx, rhs, compound);
    StartOk(r, st, live);
    var l := Start(r, st).value;
    if r.ind > 0 {
      ChaseWrite(l, r.ind, st, env, {Obj(r.v)}, live, ctx);
    }
    ChaseTrace(l, r.ind, st);
    StartFootOk(r, env, ctx, env.Keys);
    var f, eff := Lvalue(r, st).fp, VisitLhs(env, ctx, rhs, r, compound).value;
    forall m | m in f.rd
      ensures m.v in eff.rds
    {
      assert m in StartFoot(r).rd || m in Chase(l, r.ind, st).fp.rd;
    }
    if f.trace != [] {
      if StartFoot(r).trace != [] {
        assert r.ix.v in eff.rds;
      } else {
        var m :| m in Chase(l, r.ind, st).fp.rd && m.v.isVolatile;
        assert m in f.rd;
      }
    }
  }

  /** A compound assignment's left side is not written by its right side. */
  lemma OldValue(r: Ref, st: Store, st': Store, env: Env, live: set<Variable>, ctx: Context, rhs: Effect, fp: Foot,
                 keys: set<Variable>)
    requires StoreOk(st', live) && Holds(env, st') && EnvWF(env, live) && WFRef(r, live)
    requires (r.v.level > 0 ==> r.v in env)
    requires VisitRead(env, ctx, r).Some? && rhs.wrs <= ctx.eff.wrs && (rhs.vol ==> ctx.eff.vol)
    requires FramedStore(st, st', fp) && FootOk(fp, rhs, keys)
    ensures var c, eff := Lvalue(r, st'), VisitRead(env, ctx, r).value;
            && c.Lval? && c.l in st && st[c.l] == st'[c.l] != Indet && c.l.v in eff.rds
            && (rhs.vol ==> Join(c.fp, ReadFoot(c.l)).trace == [])
            && (Join(c.fp, ReadFoot(c.l)).trace != [] ==> eff.vol)
  {
    hide VisitRead, Tidy, StoreOk, Holds, EnvWF;
    LoadSound(r, st', env, live, ctx);
    VisitReadOk(env, ctx, r);
    VisitReadSeen(env, ctx, r);
    var l, eff := Lvalue(r, st').l, VisitRead(env, ctx, r).value;
    LvalueFacts(r, st');
    assert l.v in eff.rds;
    assert l !in fp.wr;
  }

  /** A compound assignment's left side is accepted as a right side, too. */
  lemma PriorRead(env: Env, ctx: Context, rhs: Effect, r: Ref)
    requires VisitLhs(env, ctx, rhs, r, true).Some?
    ensures VisitRead(env, ctx, r).Some?
    ensures VisitRead(env, ctx, r).value.rds <= VisitLhs(env, ctx, rhs, r, true).value.rds
    ensures VisitRead(env, ctx, r).value.vol ==> VisitLhs(env, ctx, rhs, r, true).value.vol
  {
    hide VisitRead, WritePointed, PtrModified, CheckRead, CheckWrite;
  }

  /** A volatile read of the cell itself is a volatile in the read set. */
  lemma SideTrace(f: Foot, l: Loc, compound: bool, rds: set<Variable>)
    requires f.trace != [] ==> AnyVolatile(rds)
    requires compound ==> l.v in rds
    ensures (if compound then Join(f, ReadFoot(l)) else f).trace != [] ==> AnyVolatile(rds)
  {
  }

  /** The two ways of evaluating an assignment. */
  lemma AssignWays(p: Program, e: Expr, st: Store, n: nat, o: Order)
    requires e.Assign?
    ensures var x, s := Eval(p, e.rhs, st, n, Sub(o, 0)), LeftSide(e.r, e.compound, st);
            && (LeftFirst(o) && s.Lval? && s.l in st ==>
                  Eval(p, e, st, n, o) == StoreTo(p, s.l, s.fp, e.compound, st[s.l], x))
            && (!LeftFirst(o) && x.Done? && x.out.Val? ==>
                  Eval(p, e, st, n, o) == After(x.fp, Store1(p, e.r, e.compound, x.out.v, x.st)))
            && (Eval(p, e, st, n, o).Done? ==> x.Done? && x.out.Val?)
  {
    hide LeftSide, Store1;
  }

  /** What it takes to accept an assignment. */
  lemma AssignParts(p: Program, k: nat, e: Expr, env: Env, sc: Scope, ctx: Context)
    requires e.Assign? && Ready(p, k, env, sc) && WFExpr(p, k, e, sc.vis) && Visit(p, k, e, env, sc, ctx).Accept?
    ensures var r1, compound := Visit(p, k, e.rhs, env, sc, ctx), e.compound.Some?;
            && r1.Accept?
            && var lhs := VisitLhs(r1.env, LhsContext(ctx, r1.eff, compound), r1.eff, e.r, compound);
            && lhs.Some? && (r1.eff.clash ==> Visit(p, k, e, env, sc, ctx).eff.clash)
            && Visit(p, k, e, env, sc, ctx).eff.mixed == (r1.eff.mixed || (r1.eff.vol && AnyVolatile(lhs.value.rds)))
  {
    hide VisitLhs, AssignFacts, AnyVolatile;
  }

  lemma SameSide(r: Ref, compound: Option<nat>, st: Store, st': Store, env: Env, sc: Scope, ctx: Context, rhs: Effect,
                 fp: Foot, keys: set<Variable>)
    requires StoreOk(st', sc.live) && Holds(env, st') && EnvWF(env, sc.live) && (r.v.level > 0 ==> r.v in env)
    requires WFRef(r, sc.vis) && sc.vis <= sc.live
    requires VisitLhs(env, LhsContext(ctx, rhs, compound.Some?), rhs, r, compound.Some?).Some?
    requires FramedStore(st, st', fp) && FootOk(fp, rhs, keys)
    ensures var s := LeftSide(r, compound, st);
            && s.Lval? && s == LeftSide(r, compound, st')
            && s.l in st && s.l in st' && (compound.Some? ==> st[s.l] == st'[s.l])
            && (s.fp.trace != [] ==>
                  AnyVolatile(VisitLhs(env, LhsContext(ctx, rhs, compound.Some?), rhs, r, compound.Some?).value.rds))
  {
    hide Lvalue, VisitLhs, VisitRead, AnyVolatile, FootOk, Holds, StoreOk, EnvWF;
    var lctx := LhsContext(ctx, rhs, compound.Some?);
    var lhs := VisitLhs(env, lctx, rhs, r, compound.Some?).value;
    SameCell(r, st, st', env, sc.live, lctx, rhs, compound.Some?, fp, keys);
    SideReads(r, st', env, sc.live, lctx, rhs, compound.Some?);
    LhsCell(r, st', env, sc.live, lctx, rhs, compound.Some?);
    LvalueFacts(r, st);
    if compound.Some? {
      PriorRead(env, lctx, rhs, r);
      OldValue(r, st, st', env, sc.live, lctx, rhs, fp, keys);
    }
    SideTrace(Lvalue(r, st').fp, Lvalue(r, st').l, compound.Some?, lhs.rds);
  }

  /** What an accepted left side reads is accounted for. */
  lemma SideFoot(r: Ref, compound: Option<nat>, st: Store, st': Store, env: Env, sc: Scope, ctx: Context, rhs: Effect,
                 fp: Foot, keys: set<Variable>)
    requires StoreOk(st', sc.live) && Holds(env, st') && EnvWF(env, sc.live) && (r.v.level > 0 ==> r.v in env)
    requires WFRef(r, sc.vis) && sc.vis <= sc.live && env.Keys == keys
    requires VisitLhs(env, LhsContext(ctx, rhs, compound.Some?), rhs, r, compound.Some?).Some?
    requires FramedStore(st, st', fp) && FootOk(fp, rhs, keys)
    ensures LeftSide(r, compound, st').Lval?
    ensures var s, lhs := LeftSide(r, compound, st'),
                          VisitLhs(env, LhsContext(ctx, rhs, compound.Some?), rhs, r, compound.Some?).value;
            FootOk(s.fp, lhs, keys) && s.l.v in lhs.wrs
  {
    hide Lvalue, VisitLhs, VisitRead, StoreOk, Holds, EnvWF;
    var lctx := LhsContext(ctx, rhs, compound.Some?);
    LhsCell(r, st', env, sc.live, lctx, rhs, compound.Some?);
    if compound.Some? {
      PriorRead(env, lctx, rhs, r);
      OldValue(r, st, st', env, sc.live, lctx, rhs, fp, keys);
    }
  }

  /** The cell an accepted left side denotes can be found before the right side has run. */
  lemma LhsEarly(p: Program, k: nat, e: Expr, env: Env, sc: Scope, ctx: Context, st: Store)
    requires e.Assign? && Ready(p, k, env, sc) && WFExpr(p, k, e, sc.vis) && Before(st, env, sc)
    requires Visit(p, k, e, env, sc, ctx).Accept?
    ensures var r1, s, compound := Visit(p, k, e.rhs, env, sc, ctx), LeftSide(e.r, e.compound, st), e.compound.Some?;
            && r1.Accept? && s.Lval? && s.l in st
            && var lhs := VisitLhs(r1.env, LhsContext(ctx, r1.eff, compound), r1.eff, e.r, compound);
            && lhs.Some? && FootOk(s.fp, lhs.value, env.Keys) && s.l.v in lhs.value.wrs
            && (s.fp.trace != [] ==> AnyVolatile(lhs.value.rds))
  {
    AssignParts(p, k, e, env, sc, ctx);
    hide Visit, VisitLhs, LeftSide, FootOk, FramedStore, StoreOk, Holds, AnyVolatile;
    var r1 := Visit(p, k, e.rhs, env, sc, ctx);
    var z := AfterVisit(p, k, e.rhs, env, sc, ctx, st);
    SameSide(e.r, e.compound, st, z, r1.env, sc, ctx, r1.eff, Changed(st, z), env.Keys);
    SideFoot(e.r, e.compound, st, z, r1.env, sc, ctx, r1.eff, Changed(st, z), env.Keys);
  }
}
