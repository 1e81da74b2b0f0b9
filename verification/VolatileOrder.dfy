/** The one thing that the checks leave to the evaluation order: a simple assignment's left side is not held against the
  * volatile accesses of its right side, so both sides may make some.  When exactly that can be told from the trace. */
module VolatileOrder {
  import opened Language
  import opened Semantics
  import opened Facts
  import opened Effects
  import opened Analysis
  import opened Footprint
  import opened Gamma
  import opened Soundness
  import opened LeftSides
  import opened OrderIndependence
  import opened StandIns

  // --- traces that commute

  function Repeat<T>(s: seq<T>, k: nat): seq<T> {
    if k == 0 then [] else s + Repeat(s, k - 1)
  }

  ghost predicate NoRepeats<T>(s: seq<T>) {
    forall i, j :: 0 <= i < j < |s| ==> s[i] != s[j]
  }

  lemma {:induction false} Commute<T>(s: seq<T>, t: seq<T>)
    requires NoRepeats(s) && s != []
    ensures s + t == t + s <==> exists k: nat :: t == Repeat(s, k)
    decreases |t|
  {
    if t == [] {
      CommuteNone(s);
    } else if |t| >= |s| && t[..|s|] == s {
      var u := t[|s|..];
      assert t == s + u;
      Commute(s, u);
      OneLess(s, u);
    } else {
      NotARepeat(s, t);
      if |t| < |s| {
        assert (s + t)[|t|] == s[|t|] && (t + s)[|t|] == s[0];
      } else {
        assert (s + t)[..|s|] == s && (t + s)[..|s|] == t[..|s|];
      }
      assert s + t != t + s;
    }
  }

  lemma CommuteNone<T>(s: seq<T>)
    ensures s + [] == [] + s && exists k: nat :: [] == Repeat(s, k)
  {
    var none: nat := 0;
    assert s + [] == s == [] + s && [] == Repeat(s, none);
  }

  lemma NotARepeat<T>(s: seq<T>, t: seq<T>)
    requires t != [] && !(|t| >= |s| && t[..|s|] == s)
    ensures forall k: nat :: t != Repeat(s, k)
  {
    forall k: nat
      ensures t != Repeat(s, k)
    {
      if k > 0 { assert (s + Repeat(s, k - 1))[..|s|] == s; }
    }
  }

  lemma OneLess<T>(s: seq<T>, u: seq<T>)
    ensures s + (s + u) == (s + u) + s <==> s + u == u + s
    ensures (exists k: nat :: s + u == Repeat(s, k)) <==> (exists k: nat :: u == Repeat(s, k)) || s + u == []
  {
    assert (s + u) + s == s + (u + s);
    assert (s + (s + u))[|s|..] == s + u && (s + (u + s))[|s|..] == u + s;
    if k: nat :| u == Repeat(s, k) { assert s + u == Repeat(s, k + 1); }
    if k: nat :| s + u == Repeat(s, k) {
      if k > 0 {
        assert (s + u)[|s|..] == u && (s + Repeat(s, k - 1))[|s|..] == Repeat(s, k - 1);
        assert u == Repeat(s, k - 1);
      }
    }
    if s + u == [] {
      var none: nat := 0;
      assert s + u == Repeat(s, none);
    }
  }

  lemma SameEnd<T>(s: seq<T>, t: seq<T>, w: seq<T>)
    ensures s + (t + w) == t + (s + w) <==> s + t == t + s
  {
    assert (s + (t + w))[..|s| + |t|] == s + t && (t + (s + w))[..|s| + |t|] == t + s;
    assert s + (t + w) == s + t + w && t + (s + w) == t + s + w;
  }

  // --- the two sides of an assignment

  /** A chain of pointers is read from the deeper to the shallower, so nothing is read twice. */
  lemma {:induction false} ChaseLevels(l: Loc, k: nat, st: Store, live: set<Variable>)
    requires StoreOk(st, live) && k <= l.v.level && Chase(l, k, st).Lval?
    ensures var t := Chase(l, k, st).fp.trace;
            && (forall i :: 0 <= i < |t| ==> t[i].l.v.level <= l.v.level)
            && (forall i, j :: 0 <= i < j < |t| ==> t[i].l.v.level > t[j].l.v.level)
    decreases k
  {
    if k > 0 {
      assert TypedValue(st[l], l.v.level, st);
      ChaseLevels(st[l].l, k - 1, st, live);
    }
  }

  /** Where the right side makes volatile accesses, the left side makes none, or reads volatile pointers, each once. */
  lemma SideOnce(r: Ref, compound: Option<nat>, st: Store, st': Store, env: Env, live: set<Variable>, ctx: Context,
                 rhs: Effect, fp: Foot, keys: set<Variable>)
    requires StoreOk(st', live) && Holds(env, st') && EnvWF(env, live) && WFRef(r, live)
    requires (r.v.level > 0 ==> r.v in env)
    requires VisitLhs(env, LhsContext(ctx, rhs, compound.Some?), rhs, r, compound.Some?).Some? && rhs.vol
    requires FramedStore(st, st', fp) && FootOk(fp, rhs, keys)
    requires LeftSide(r, compound, st').Lval?
    ensures NoRepeats(LeftSide(r, compound, st').fp.trace)
  {
    hide WritePointed, ReadPointed, PtrModified, FootOk, FramedStore, CheckRead, CheckWrite;
    var lctx := LhsContext(ctx, rhs, compound.Some?);
    if compound.Some? {
      OldValue(r, st, st', env, live, lctx, rhs, fp, keys);
    } else {
      LhsCell(r, st', env, live, lctx, rhs, false);
      StartOk(r, st', live);
      ChaseLevels(Start(r, st').value, r.ind, st', live);
      if r.ix.By? { SilentIndex(env, lctx, rhs, r.ix.v); }
    }
  }

  lemma SilentIndex(env: Env, ctx: Context, rhs: Effect, u: Variable)
    requires CheckRead(env, Context(Plus(ctx.eff, rhs), {}, {}, {}), u) && rhs.vol
    ensures !u.isVolatile
  {
  }

  /** An accepted assignment makes its volatile accesses in one and the same order, whichever of its sides goes first,
    * exactly when the left side makes none on its way to the cell, or the right side does nothing but the same over
    * again (any number of times, zero included). */
  lemma AssignTraces(p: Program, k: nat, e: Expr, env: Env, sc: Scope, ctx: Context, st: Store, n: nat, o: Order)
    requires e.Assign? && Ready(p, k, env, sc) && WFExpr(p, k, e, sc.vis) && Before(st, env, sc)
    requires Visit(p, k, e, env, sc, ctx).Accept? && Eval(p, e, st, n, Any).Done?
    requires LeftFirst(o) && Sub(o, 0) == Any
    ensures LeftSide(e.r, e.compound, st).Lval? && Eval(p, e.rhs, st, n, Any).Done? && Eval(p, e, st, n, o).Done?
    ensures var lhs, rhs := LeftSide(e.r, e.compound, st).fp.trace, Eval(p, e.rhs, st, n, Any).fp.trace;
            Eval(p, e, st, n, o).fp.trace == Eval(p, e, st, n, Any).fp.trace <==>
              lhs == [] || exists k: nat :: rhs == Repeat(lhs, k)
  {
    var r1, x := Visit(p, k, e.rhs, env, sc, ctx), Eval(p, e.rhs, st, n, Any);
    AssignWays(p, e, st, n, o);
    AssignWays(p, e, st, n, Any);
    AssignParts(p, k, e, env, sc, ctx);
    hide *;
    ExprSound(p, k, e.rhs, env, sc, ctx, st, n, Any);
    LhsFirst(p, k, e, env, sc, ctx, st, n, Any);
    var s := LeftSide(e.r, e.compound, st);
    TwoTraces(p, e.r, e.compound, s.l, s.fp, st[s.l], x);
    OnceOrSilent(p, k, e, env, sc, ctx, st, n, r1, x);
    EitherFirst(s.fp.trace, x.fp.trace, WriteFoot(s.l).trace);
  }

  lemma TwoTraces(p: Program, r: Ref, c: Option<nat>, l: Loc, fp: Foot, was: Value, x: Result)
    requires x.Done? && x.out.Val? && LeftSide(r, c, x.st) == Lval(l, fp) && l in x.st
    ensures var w := WriteFoot(l).trace;
            && StoreTo(p, l, fp, c, was, x).Done?
            && StoreTo(p, l, fp, c, was, x).fp.trace == fp.trace + (x.fp.trace + w)
            && var y := After(x.fp, Store1(p, r, c, x.out.v, x.st));
               y.Done? && y.fp.trace == x.fp.trace + (fp.trace + w)
  {
    hide LeftSide;
  }

  lemma OnceOrSilent(p: Program, k: nat, e: Expr, env: Env, sc: Scope, ctx: Context, st: Store, n: nat, r1: Verdict,
                     x: Result)
    requires e.Assign? && Ready(p, k, env, sc) && WFExpr(p, k, e, sc.vis) && Before(st, env, sc)
    requires Visit(p, k, e, env, sc, ctx).Accept? && r1 == Visit(p, k, e.rhs, env, sc, ctx)
    requires x == Eval(p, e.rhs, st, n, Any) && x.Done?
    ensures var s := LeftSide(e.r, e.compound, st);
            s.Lval? && (x.fp.trace != [] ==> NoRepeats(s.fp.trace))
  {
    AssignParts(p, k, e, env, sc, ctx);
    hide LeftSide, Visit, Eval, VisitLhs, Holds, StoreOk, Tidy, FramedStore;
    ExprSound(p, k, e.rhs, env, sc, ctx, st, n, Any);
    LhsFirst(p, k, e, env, sc, ctx, st, n, Any);
    StoreTidy(st, sc.live);
    EvalFrame(p, e.rhs, st, n, Any);
    if x.fp.trace != [] {
      SideOnce(e.r, e.compound, st, x.st, r1.env, sc.live, ctx, r1.eff, x.fp, env.Keys);
    }
  }

  lemma EitherFirst(s: seq<Access>, t: seq<Access>, w: seq<Access>)
    requires t != [] ==> NoRepeats(s)
    ensures s + (t + w) == t + (s + w) <==> s == [] || exists k: nat :: t == Repeat(s, k)
  {
    SameEnd(s, t, w);
    CommuteNone(t);
    CommuteNone(s);
    if s != [] && t != [] { Commute(s, t); }
  }

  /** What `*vp = v` reads before it writes. */
  lemma ThroughPointer(env: Env)
    requires env == map[Pointer() := {Obj(Cell())}]
    ensures WritePointed(env, Context(NO_EFFECT, {}, {}, {}), {Obj(Pointer())}, 1) == Some(Writes({Cell()}))
    ensures Lvalue(Ref(Pointer(), At(0), 1), ThreeCells()) == Lval(Loc(Cell(), 0), ReadFoot(Loc(Pointer(), 0)))
  {
    var start: set<Target>, st := {Obj(Pointer())}, ThreeCells();
    assert Obj(Pointer()) in start && Obj(Cell()) in env[Obj(Pointer()).v];
    assert Pointees(env, start) == {Obj(Cell())};
    assert Objects({Obj(Cell())}) == {Cell()};
    assert Chase(Loc(Cell(), 0), 0, st) == Lval(Loc(Cell(), 0), NO_FOOT);
    var f := ReadFoot(Loc(Pointer(), 0));
    assert Join(f, NO_FOOT) == f;
  }

  lemma ThreeCellsOk(env: Env, live: set<Variable>)
    requires env == map[Pointer() := {Obj(Cell())}] && live == {Cell(), Pointer(), Other()}
    ensures StoreOk(ThreeCells(), live) && Holds(env, ThreeCells())
  {
    forall l
      ensures l in ThreeCells() <==> l in CellsOf(live)
    {
      InCells(live, l);
    }
  }

  /** `*vp = v` with `vp` and `v` volatile is accepted, and the order of the two volatile reads is up to the evaluation
    * order. */
  lemma BothVolatile(p: Program, n: nat)
    requires p.funcs == [] && p.globals == {Cell(), Pointer(), Other()}
    ensures var sc, env, e := Scope(p.globals, p.globals, {}, {}), map[Pointer() := {Obj(Cell())}], StoreThrough();
            && Ready(p, 0, env, sc) && WFExpr(p, 0, e, sc.vis) && Before(ThreeCells(), env, sc)
            && Visit(p, 0, e, env, sc, Context(NO_EFFECT, {}, {}, {})).Accept?
            && Visit(p, 0, e, env, sc, Context(NO_EFFECT, {}, {}, {})).eff.mixed
    ensures var e, vp, v := StoreThrough(), Access(Loc(Pointer(), 0), false), Access(Loc(Other(), 0), false);
            && Eval(p, e, ThreeCells(), n, Any).Done? && Eval(p, e, ThreeCells(), n, Any).fp.trace == [v, vp]
            && Eval(p, e, ThreeCells(), n, Order([1, 0], [])).Done?
            && Eval(p, e, ThreeCells(), n, Order([1, 0], [])).fp.trace == [vp, v]
  {
    var env: Env := map[Pointer() := {Obj(Cell())}];
    ThreeCellsOk(env, p.globals);
    AcceptedThrough(p, env);
    RunThrough(p, n);
  }

  lemma AcceptedThrough(p: Program, env: Env)
    requires p.funcs == [] && p.globals == {Cell(), Pointer(), Other()} && env == map[Pointer() := {Obj(Cell())}]
    ensures var sc, e := Scope(p.globals, p.globals, {}, {}), StoreThrough();
            && Ready(p, 0, env, sc) && WFExpr(p, 0, e, sc.vis)
            && Visit(p, 0, e, env, sc, Context(NO_EFFECT, {}, {}, {})).Accept?
            && Visit(p, 0, e, env, sc, Context(NO_EFFECT, {}, {}, {})).eff.mixed
  {
    ThroughPointer(env);
    hide WritePointed;
    assert Pointer() in ReadEffect(Pointer()).rds;
  }

  lemma RunThrough(p: Program, n: nat)
    ensures var e, vp, v := StoreThrough(), Access(Loc(Pointer(), 0), false), Access(Loc(Other(), 0), false);
            && Eval(p, e, ThreeCells(), n, Any).Done? && Eval(p, e, ThreeCells(), n, Any).fp.trace == [v, vp]
            && Eval(p, e, ThreeCells(), n, Order([1, 0], [])).Done?
            && Eval(p, e, ThreeCells(), n, Order([1, 0], [])).fp.trace == [vp, v]
  {
    var e, st, o := StoreThrough(), ThreeCells(), Order([1, 0], []);
    var x, f := Eval(p, e.rhs, st, n, Any), ReadFoot(Loc(Pointer(), 0));
    ThroughPointer(map[Pointer() := {Obj(Cell())}]);
    OtherCell(p, n);
    AssignWays(p, e, st, n, Any);
    AssignWays(p, e, st, n, o);
    TwoTraces(p, e.r, e.compound, Loc(Cell(), 0), f, st[Loc(Cell(), 0)], x);
  }

  lemma OtherCell(p: Program, n: nat)
    ensures var f := ReadFoot(Loc(Other(), 0));
            Eval(p, StoreThrough().rhs, ThreeCells(), n, Any) == Done(Val(Int(1)), ThreeCells(), f)
  {
    var f := ReadFoot(Loc(Other(), 0));
    assert Join(NO_FOOT, f) == f;
  }

  function Cell(): Variable { Variable(0, 0, false, 1, false, false) }

  function Pointer(): Variable { Variable(1, 1, false, 1, false, true) }

  function Other(): Variable { Variable(2, 0, false, 1, false, true) }

  function StoreThrough(): Expr { Assign(Ref(Pointer(), At(0), 1), None, Load(Ref(Other(), At(0), 0))) }

  function ThreeCells(): Store {
    map[Loc(Cell(), 0) := Int(0), Loc(Pointer(), 0) := Addr(Loc(Cell(), 0)), Loc(Other(), 0) := Int(1)]
  }
}
