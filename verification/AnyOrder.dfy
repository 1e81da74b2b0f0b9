/** Operands that cannot disturb each other may be run in any permutation: if they all end, then with the values, the
  * final store, the cells read and written and the volatile accesses of the run from left to right; and if one of them
  * does not end, no permutation does. */
module AnyOrder {
  import opened Language
  import opened Semantics
  import opened Footprint
  import opened Locality
  import opened Alikeness
  import opened Effects

  // --- operands that cannot disturb each other

  /** A variable whose cells code with this effect may look at. */
  ghost predicate Names(e: Effect, v: Variable) {
    v in e.rds + e.wrs || (v in e.unseen && v.level == 0)
  }

  /** Neither writes what the other reads or writes, and at most one makes volatile accesses. */
  ghost predicate Apart(a: Effect, b: Effect) {
    && (forall v :: Names(a, v) ==> v !in b.wrs)
    && (forall v :: Names(b, v) ==> v !in a.wrs)
    && !(a.vol && b.vol)
  }

  ghost predicate Bounded(fp: Foot, e: Effect) {
    && (forall l :: l in fp.rd ==> Names(e, l.v))
    && (forall l :: l in fp.wr ==> l.v in e.wrs)
    && (fp.trace != [] ==> e.vol)
  }

  /** Run from `z`, which agrees with `st` on all that `e` may look at, `e` stays within its effect and does much the
    * same as `x` in every order. */
  ghost predicate Steady(p: Program, e: Expr, st: Store, n: nat, mixed: bool, z: Store, eff: Effect, x: Result) {
    && Tidy(z) && z.Keys == st.Keys && (forall l :: l in st && Names(eff, l.v) ==> z[l] == st[l])
    && x != Stuck && (x.Done? ==> x.out.Val? && FramedStore(z, x.st, x.fp)) && Bounded(x.fp, eff)
    && forall o :: EndAlike(mixed, Eval(p, e, z, n, o), x) && Bounded(Eval(p, e, z, n, o).fp, eff)
  }

  /** The operands' runs `xs`, each from a store of its own. */
  ghost predicate Parts(p: Program, args: seq<Expr>, st: Store, n: nat, mixed: bool, zs: seq<Store>, effs: seq<Effect>,
                        xs: seq<Result>) {
    && |args| == |zs| == |effs| == |xs| && Tidy(st)
    && (forall i :: 0 <= i < |args| ==> Steady(p, args[i], st, n, mixed, zs[i], effs[i], xs[i]))
    && (forall i, j :: 0 <= i < |effs| && 0 <= j < |effs| && i != j ==> Apart(effs[i], effs[j]))
  }

  ghost predicate AllEnd(xs: seq<Result>, done: set<nat>) {
    forall i :: i in done ==> i < |xs| && xs[i].Done? && xs[i].out.Val?
  }

  /** No cell is written by two operands. */
  ghost predicate Disjoint(st: Store, xs: seq<Result>, done: set<nat>)
    requires AllEnd(xs, done)
  {
    && (forall i :: i in done ==> xs[i].st.Keys == st.Keys && Tidy(xs[i].st))
    && (forall i, j :: i in done && j in done && i != j ==> xs[i].fp.wr !! xs[j].fp.wr)
  }

  lemma PartsDisjoint(p: Program, args: seq<Expr>, st: Store, n: nat, mixed: bool, zs: seq<Store>, effs: seq<Effect>,
                      xs: seq<Result>, done: set<nat>)
    requires Parts(p, args, st, n, mixed, zs, effs, xs) && forall i :: i in done ==> i < |xs| && xs[i].Done?
    ensures AllEnd(xs, done) && Disjoint(st, xs, done)
  {
    hide EndAlike, Eval;
    forall i | i in done
      ensures xs[i].out.Val? && xs[i].st.Keys == st.Keys && Tidy(xs[i].st) && Bounded(xs[i].fp, effs[i])
    {
      assert Steady(p, args[i], st, n, mixed, zs[i], effs[i], xs[i]);
    }
    forall i, j | i in done && j in done && i != j
      ensures xs[i].fp.wr !! xs[j].fp.wr
    {
      assert Apart(effs[i], effs[j]);
    }
  }

  ghost predicate WrittenBy(xs: seq<Result>, done: set<nat>, l: Loc)
    requires AllEnd(xs, done)
  {
    exists j :: j in done && l in xs[j].fp.wr
  }

  /** What the operands in `done` have left in a cell. */
  ghost function CellNow(st: Store, xs: seq<Result>, done: set<nat>, l: Loc): Value
    requires AllEnd(xs, done) && Disjoint(st, xs, done) && l in st
  {
    if WrittenBy(xs, done, l) then var j :| j in done && l in xs[j].fp.wr; xs[j].st[l] else st[l]
  }

  /** The store when just the operands in `done` have run, in whatever order. */
  ghost function Partial(st: Store, xs: seq<Result>, done: set<nat>): Store
    requires AllEnd(xs, done) && Disjoint(st, xs, done)
  {
    map l | l in st :: CellNow(st, xs, done, l)
  }

  lemma PartialTidy(st: Store, xs: seq<Result>, done: set<nat>)
    requires AllEnd(xs, done) && Disjoint(st, xs, done) && Tidy(st)
    ensures Tidy(Partial(st, xs, done)) && Partial(st, xs, done).Keys == st.Keys
  {
    var s := Partial(st, xs, done);
    forall l | l in s && s[l].Addr?
      ensures s[l].l in s
    {
      if WrittenBy(xs, done, l) {
        var j :| j in done && l in xs[j].fp.wr && s[l] == xs[j].st[l];
        assert xs[j].st[l].l in xs[j].st;
      }
    }
  }

  lemma PartialNext(st: Store, xs: seq<Result>, done: set<nat>, i: nat, y: Store)
    requires AllEnd(xs, done + {i}) && Disjoint(st, xs, done + {i}) && i !in done
    requires AllEnd(xs, done) && Disjoint(st, xs, done) && y.Keys == st.Keys
    requires forall l :: l in st ==>
               y[l] == if l in xs[i].fp.wr then xs[i].st[l] else Partial(st, xs, done)[l]
    ensures y == Partial(st, xs, done + {i})
  {
    hide Tidy;
    forall l | l in st
      ensures y[l] == CellNow(st, xs, done + {i}, l)
    {
      if l in xs[i].fp.wr {
        assert WrittenBy(xs, done + {i}, l);
      } else if WrittenBy(xs, done, l) {
        var j :| j in done && l in xs[j].fp.wr;
        assert j in done + {i};
      }
    }
  }

  // --- the operands, run in any order

  function ValsOf(xs: seq<Result>, ord: seq<nat>): map<nat, Value>
    requires AllEnd(xs, Indices(ord))
  {
    if ord == [] then map[]
    else
      Later(ord);
      ValsOf(xs, ord[1..])[ord[0] := xs[ord[0]].out.v]
  }

  function FootOf(xs: seq<Result>, ord: seq<nat>): Foot
    requires AllEnd(xs, Indices(ord))
  {
    if ord == [] then NO_FOOT
    else
      Later(ord);
      Join(xs[ord[0]].fp, FootOf(xs, ord[1..]))
  }

  lemma Later(ord: seq<nat>)
    requires ord != []
    ensures ord[0] in Indices(ord) && Indices(ord) == {ord[0]} + Indices(ord[1..])
  {
  }

  /** What running the operands in `ord` comes to, after those in `done`. */
  ghost predicate RunsTo(p: Program, e: Expr, st: Store, mixed: bool, xs: seq<Result>, done: set<nat>, ord: seq<nat>,
                         c: OpsResult)
    requires forall i :: i in done ==> i < |xs| && xs[i].Done?
  {
    if forall i :: i in ord ==> i < |xs| && xs[i].Done? then
      var all := done + Indices(ord);
      && AllEnd(xs, all) && Disjoint(st, xs, all) && AllEnd(xs, Indices(ord))
      && AlikeOps(mixed, c, OpsDone(ValsOf(xs, ord), Partial(st, xs, all), FootOf(xs, ord)))
    else c.OpsTimeout?
  }

  lemma {:induction false} AnyRun(p: Program, e: Expr, st: Store, n: nat, mixed: bool, zs: seq<Store>,
                                  effs: seq<Effect>, xs: seq<Result>, done: set<nat>, ord: seq<nat>, o: Order)
    requires Parts(p, Args(e), st, n, mixed, zs, effs, xs) && forall i :: i in done ==> i < |xs| && xs[i].Done?
    requires AllEnd(xs, done) && Disjoint(st, xs, done)
    requires Distinctly(ord, |Args(e)|) && Indices(ord) !! done
    ensures RunsTo(p, e, st, mixed, xs, done, ord, EvalOps(p, e, ord, Partial(st, xs, done), n, o))
    decreases |ord|
  {
    hide *;
    if ord == [] {
      NoneLeft(p, e, st, n, mixed, xs, done, ord, o);
    } else {
      Lengths(p, Args(e), st, n, mixed, zs, effs, xs);
      NextOne(ord, |xs|, done);
      var i, s := ord[0], Partial(st, xs, done);
      var y := Eval(p, Args(e)[i], s, n, Sub(o, i));
      OneRun(p, e, st, n, mixed, zs, effs, xs, done, i, Sub(o, i));
      if y.Done? {
        PartsDisjoint(p, Args(e), st, n, mixed, zs, effs, xs, done + {i});
        AnyRun(p, e, st, n, mixed, zs, effs, xs, done + {i}, ord[1..], o);
      }
      OneThenRest(p, e, st, n, mixed, xs, done, ord, o);
    }
  }

  lemma Lengths(p: Program, args: seq<Expr>, st: Store, n: nat, mixed: bool, zs: seq<Store>, effs: seq<Effect>,
                xs: seq<Result>)
    requires Parts(p, args, st, n, mixed, zs, effs, xs)
    ensures |args| == |zs| == |effs| == |xs| && Tidy(st)
  {
  }

  lemma NextOne(ord: seq<nat>, n: nat, done: set<nat>)
    requires ord != [] && Distinctly(ord, n) && Indices(ord) !! done
    ensures ord[0] < n && Distinctly(ord[1..], n) && Indices(ord[1..]) !! done + {ord[0]} && ord[0] !in done
    ensures forall i :: 0 <= i < |ord| ==> ord[i] < n
  {
    Later(ord);
    assert ord[0] !in ord[1..];
  }

  lemma NoneLeft(p: Program, e: Expr, st: Store, n: nat, mixed: bool, xs: seq<Result>, done: set<nat>, ord: seq<nat>,
                 o: Order)
    requires ord == [] && AllEnd(xs, done) && Disjoint(st, xs, done)
    ensures RunsTo(p, e, st, mixed, xs, done, ord, EvalOps(p, e, ord, Partial(st, xs, done), n, o))
  {
    assert done + Indices(ord) == done;
    AlikeSelf(mixed, NO_FOOT);
  }

  lemma OneThenRest(p: Program, e: Expr, st: Store, n: nat, mixed: bool, xs: seq<Result>, done: set<nat>,
                    ord: seq<nat>, o: Order)
    requires AllEnd(xs, done) && Disjoint(st, xs, done) && |xs| == |Args(e)|
    requires ord != [] && Distinctly(ord, |xs|) && Indices(ord) !! done
    requires var i, y := ord[0], Eval(p, Args(e)[ord[0]], Partial(st, xs, done), n, Sub(o, ord[0]));
             && y != Stuck && (y.Done? <==> xs[i].Done?)
             && (y.Done? ==>
                   && AllEnd(xs, done + {i}) && Disjoint(st, xs, done + {i})
                   && y.out.Val? && y.out == xs[i].out && y.st == Partial(st, xs, done + {i})
                   && AlikeFoot(mixed, y.fp, xs[i].fp)
                   && RunsTo(p, e, st, mixed, xs, done + {i}, ord[1..], EvalOps(p, e, ord[1..], y.st, n, o)))
    ensures RunsTo(p, e, st, mixed, xs, done, ord, EvalOps(p, e, ord, Partial(st, xs, done), n, o))
  {
    hide Eval, Partial, Disjoint, AlikeFoot;
    var i, y := ord[0], Eval(p, Args(e)[ord[0]], Partial(st, xs, done), n, Sub(o, ord[0]));
    Later(ord);
    assert done + {i} + Indices(ord[1..]) == done + Indices(ord);
    assert forall j :: j in ord <==> j == i || j in ord[1..];
    if y.Done? {
      var rest := EvalOps(p, e, ord[1..], y.st, n, o);
      if forall j :: j in ord ==> j < |xs| && xs[j].Done? {
        SomeEnd(xs, done, ord);
        AlikeJoin(mixed, mixed, y.fp, xs[i].fp, rest.fp, FootOf(xs, ord[1..]));
      }
    }
  }

  lemma SomeEnd(xs: seq<Result>, done: set<nat>, ord: seq<nat>)
    requires AllEnd(xs, done + Indices(ord))
    ensures AllEnd(xs, Indices(ord)) && (ord != [] ==> AllEnd(xs, Indices(ord[1..])))
  {
    if ord != [] { Later(ord); }
  }

  /** One operand does what it does from its own store. */
  lemma OneRun(p: Program, e: Expr, st: Store, n: nat, mixed: bool, zs: seq<Store>, effs: seq<Effect>,
               xs: seq<Result>, done: set<nat>, i: nat, o: Order)
    requires Parts(p, Args(e), st, n, mixed, zs, effs, xs) && forall j :: j in done ==> j < |xs| && xs[j].Done?
    requires AllEnd(xs, done) && Disjoint(st, xs, done) && i < |Args(e)| && i !in done
    ensures var y := Eval(p, Args(e)[i], Partial(st, xs, done), n, o);
            && y != Stuck && |xs| == |Args(e)| && (y.Done? <==> xs[i].Done?)
            && (y.Done? ==>
                  && AllEnd(xs, done + {i}) && Disjoint(st, xs, done + {i})
                  && y.out.Val? && y.out == xs[i].out && y.st == Partial(st, xs, done + {i})
                  && AlikeFoot(mixed, y.fp, xs[i].fp))
  {
    hide *;
    Lengths(p, Args(e), st, n, mixed, zs, effs, xs);
    var a, s, z := Args(e)[i], Partial(st, xs, done), zs[i];
    var x, y := Eval(p, a, z, n, o), Eval(p, a, s, n, o);
    PartSteady(p, Args(e), st, n, mixed, zs, effs, xs, i, o);
    PartialTidy(st, xs, done);
    PartialAgrees(p, Args(e), st, n, mixed, zs, effs, xs, done, i, x.fp);
    EvalLocal(p, a, z, s, n, o);
    EvalFrame(p, a, s, n, o);
    EvalFrame(p, a, z, n, o);
    SameEnd(mixed, x, y, xs[i]);
    if x.Done? {
      PartsDisjoint(p, Args(e), st, n, mixed, zs, effs, xs, done + {i});
      SameStore(mixed, z, s, x, y, xs[i]);
      PartialNext(st, xs, done, i, y.st);
    }
  }

  lemma PartSteady(p: Program, args: seq<Expr>, st: Store, n: nat, mixed: bool, zs: seq<Store>, effs: seq<Effect>,
                   xs: seq<Result>, i: nat, o: Order)
    requires Parts(p, args, st, n, mixed, zs, effs, xs) && i < |args|
    ensures Tidy(zs[i]) && zs[i].Keys == st.Keys && EndAlike(mixed, Eval(p, args[i], zs[i], n, o), xs[i])
    ensures !Eval(p, args[i], zs[i], n, o).Stuck? && Bounded(Eval(p, args[i], zs[i], n, o).fp, effs[i])
    ensures xs[i].Done? ==> xs[i].out.Val?
  {
    hide Eval, Bounded;
    assert Steady(p, args[i], st, n, mixed, zs[i], effs[i], xs[i]);
  }

  /** What an operand may look at, no other operand has changed. */
  lemma PartialAgrees(p: Program, args: seq<Expr>, st: Store, n: nat, mixed: bool, zs: seq<Store>, effs: seq<Effect>,
                      xs: seq<Result>, done: set<nat>, i: nat, fp: Foot)
    requires Parts(p, args, st, n, mixed, zs, effs, xs) && forall j :: j in done ==> j < |xs| && xs[j].Done?
    requires AllEnd(xs, done) && Disjoint(st, xs, done) && i < |args| && i !in done && Bounded(fp, effs[i])
    ensures Agree(zs[i], Partial(st, xs, done), fp.rd)
  {
    hide EndAlike, Eval, Tidy;
    assert Steady(p, args[i], st, n, mixed, zs[i], effs[i], xs[i]);
    forall l | l in fp.rd && l in st
      ensures !WrittenBy(xs, done, l)
    {
      forall j | j in done
        ensures l !in xs[j].fp.wr
      {
        assert Steady(p, args[j], st, n, mixed, zs[j], effs[j], xs[j]);
        assert Apart(effs[i], effs[j]);
      }
    }
  }

  lemma SameEnd(mixed: bool, x: Result, y: Result, c: Result)
    requires EndAlike(mixed, x, c) && Same(x, y) && !x.Stuck? && (c.Done? ==> c.out.Val?)
    ensures y != Stuck && (y.Done? <==> c.Done?) && (x.Done? <==> y.Done?)
    ensures y.Done? ==> y.out.Val? && y.out == c.out && AlikeFoot(mixed, y.fp, c.fp)
  {
  }

  lemma SameStore(mixed: bool, z: Store, s: Store, x: Result, y: Result, c: Result)
    requires EndAlike(mixed, x, c) && Same(x, y) && x.Done? && y.Done? && c.Done?
    requires Framed(z, x) && Framed(s, y) && z.Keys == s.Keys
    ensures y.st.Keys == s.Keys && c.st.Keys == s.Keys
    ensures forall l :: l in s ==> y.st[l] == if l in c.fp.wr then c.st[l] else s[l]
  {
  }

  // --- what the order cannot be told from

  lemma {:induction false} ValsAre(xs: seq<Result>, ord: seq<nat>)
    requires AllEnd(xs, Indices(ord))
    ensures ValsOf(xs, ord) == map i | i in Indices(ord) :: xs[i].out.v
    decreases |ord|
  {
    if ord != [] {
      Later(ord);
      ValsAre(xs, ord[1..]);
    }
  }

  lemma {:induction false} CellsAre(xs: seq<Result>, ord: seq<nat>)
    requires AllEnd(xs, Indices(ord))
    ensures FootOf(xs, ord).rd == set i, l | i in Indices(ord) && l in xs[i].fp.rd :: l
    ensures FootOf(xs, ord).wr == set i, l | i in Indices(ord) && l in xs[i].fp.wr :: l
    decreases |ord|
  {
    if ord != [] {
      Later(ord);
      CellsAre(xs, ord[1..]);
    }
  }

  lemma {:induction false} TraceIs(xs: seq<Result>, ord: seq<nat>, t: nat)
    requires AllEnd(xs, Indices(ord)) && Distinctly(ord, |xs|)
    requires forall i :: i in Indices(ord) && i != t ==> xs[i].fp.trace == []
    ensures FootOf(xs, ord).trace == if t in ord then xs[t].fp.trace else []
    decreases |ord|
  {
    if ord != [] {
      Later(ord);
      TraceIs(xs, ord[1..], t);
    }
  }

  lemma SameFoot(xs: seq<Result>, ord: seq<nat>, ord': seq<nat>)
    requires Distinctly(ord, |xs|) && Distinctly(ord', |xs|) && Indices(ord) == Indices(ord')
    requires AllEnd(xs, Indices(ord))
    requires forall i, j :: i in Indices(ord) && j in Indices(ord) && i != j ==>
               xs[i].fp.trace == [] || xs[j].fp.trace == []
    ensures FootOf(xs, ord) == FootOf(xs, ord') && ValsOf(xs, ord) == ValsOf(xs, ord')
  {
    ValsAre(xs, ord);
    ValsAre(xs, ord');
    CellsAre(xs, ord);
    CellsAre(xs, ord');
    var t: nat := 0;
    if i :| i in Indices(ord) && xs[i].fp.trace != [] { t := i; }
    TraceIs(xs, ord, t);
    TraceIs(xs, ord', t);
    assert t in ord <==> t in Indices(ord);
    assert t in ord' <==> t in Indices(ord');
  }

  lemma OneTrace(p: Program, args: seq<Expr>, st: Store, n: nat, mixed: bool, zs: seq<Store>, effs: seq<Effect>,
                 xs: seq<Result>)
    requires Parts(p, args, st, n, mixed, zs, effs, xs)
    ensures forall i, j :: 0 <= i < |xs| && 0 <= j < |xs| && i != j && xs[i].Done? && xs[j].Done? ==>
              xs[i].fp.trace == [] || xs[j].fp.trace == []
  {
    hide EndAlike, Eval, Tidy;
    forall i, j | 0 <= i < |xs| && 0 <= j < |xs| && i != j && xs[i].Done? && xs[j].Done?
      ensures xs[i].fp.trace == [] || xs[j].fp.trace == []
    {
      assert Steady(p, args[i], st, n, mixed, zs[i], effs[i], xs[i]);
      assert Steady(p, args[j], st, n, mixed, zs[j], effs[j], xs[j]);
      assert Apart(effs[i], effs[j]);
    }
  }

  /** Independent operands end alike in any two orders. */
  lemma AnyTwoRuns(p: Program, e: Expr, st: Store, n: nat, mixed: bool, zs: seq<Store>, effs: seq<Effect>,
                   xs: seq<Result>, o: Order)
    requires Parts(p, Args(e), st, n, mixed, zs, effs, xs)
    ensures OpsEndAlike(mixed, EvalOps(p, e, Perm(o, |Args(e)|), st, n, o),
                        EvalOps(p, e, Identity(|Args(e)|), st, n, Any))
  {
    hide *;
    Lengths(p, Args(e), st, n, mixed, zs, effs, xs);
    var m := |Args(e)|;
    var ord, id := Perm(o, m), Identity(m);
    IdentityIsPerm(m);
    PermIndices(ord, m);
    PermIndices(id, m);
    NothingRun(p, Args(e), st, n, mixed, zs, effs, xs);
    AnyRun(p, e, st, n, mixed, zs, effs, xs, {}, ord, o);
    AnyRun(p, e, st, n, mixed, zs, effs, xs, {}, id, Any);
    OneTrace(p, Args(e), st, n, mixed, zs, effs, xs);
    SameRuns(p, e, st, mixed, xs, ord, id, EvalOps(p, e, ord, st, n, o), EvalOps(p, e, id, st, n, Any));
  }

  lemma NothingRun(p: Program, args: seq<Expr>, st: Store, n: nat, mixed: bool, zs: seq<Store>, effs: seq<Effect>,
                   xs: seq<Result>)
    requires Parts(p, args, st, n, mixed, zs, effs, xs)
    ensures AllEnd(xs, {}) && Disjoint(st, xs, {}) && Partial(st, xs, {}) == st
    ensures forall ord: seq<nat> :: Indices(ord) !! {}
  {
  }

  lemma SameRuns(p: Program, e: Expr, st: Store, mixed: bool, xs: seq<Result>, ord: seq<nat>, id: seq<nat>,
                 c: OpsResult, d: OpsResult)
    requires RunsTo(p, e, st, mixed, xs, {}, ord, c) && RunsTo(p, e, st, mixed, xs, {}, id, d)
    requires Distinctly(ord, |xs|) && Distinctly(id, |xs|) && Indices(ord) == Indices(id)
    requires forall i, j :: 0 <= i < |xs| && 0 <= j < |xs| && i != j && xs[i].Done? && xs[j].Done? ==>
               xs[i].fp.trace == [] || xs[j].fp.trace == []
    ensures OpsEndAlike(mixed, c, d)
  {
    hide Disjoint, Partial, AlikeFoot;
    SameMembers(ord, id);
    if forall i :: i in ord ==> i < |xs| && xs[i].Done? {
      SameFoot(xs, ord, id);
      AlikeThird(mixed, c.fp, d.fp, FootOf(xs, id));
    }
  }

  lemma SameMembers(ord: seq<nat>, id: seq<nat>)
    requires Indices(ord) == Indices(id)
    ensures forall i :: i in ord <==> i in id
  {
    forall i
      ensures i in ord <==> i in id
    {
      assert i in Indices(ord) <==> i in Indices(id);
    }
  }
}
