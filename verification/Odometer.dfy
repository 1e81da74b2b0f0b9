/** An enumerator over a table of bounded values: each step advances the last value that can still grow and clears those
  * after it, until every combination has been visited. */
module Odometer {
  import opened Lexicographic

  function Product(bounds: seq<nat>): nat {
    if bounds == [] then 1 else bounds[0] * Product(bounds[1..])
  }

  predicate InBox(vs: seq<nat>, bounds: seq<nat>) {
    |vs| == |bounds| && forall i :: 0 <= i < |vs| ==> vs[i] < bounds[i]
  }

  /** The position of a vector among all those within the bounds. */
  function Rank(vs: seq<nat>, bounds: seq<nat>): nat
    requires |vs| == |bounds|
  {
    if vs == [] then 0 else vs[0] * Product(bounds[1..]) + Rank(vs[1..], bounds[1..])
  }

  lemma {:induction false} RankBound(vs: seq<nat>, bounds: seq<nat>)
    requires InBox(vs, bounds)
    ensures Rank(vs, bounds) < Product(bounds)
    decreases vs
  {
    if vs != [] {
      var p := Product(bounds[1..]);
      RankBound(vs[1..], bounds[1..]);
      Distribute(vs[0], p);
      Widen(vs[0] + 1, bounds[0], p);
    }
  }

  lemma Distribute(a: nat, p: nat)
    ensures (a + 1) * p == a * p + p
  {
  }

  lemma Widen(a: nat, b: nat, p: nat)
    requires a <= b
    ensures a * p <= b * p
  {
  }

  /** Ranks order vectors lexicographically; in particular, no two vectors share one. */
  lemma {:induction false} RankOrder(a: seq<nat>, b: seq<nat>, bounds: seq<nat>)
    requires InBox(a, bounds) && InBox(b, bounds)
    ensures Less(a, b) <==> Rank(a, bounds) < Rank(b, bounds)
    ensures Rank(a, bounds) == Rank(b, bounds) ==> a == b
    decreases bounds
  {
    if bounds != [] {
      var p := Product(bounds[1..]);
      RankBound(a[1..], bounds[1..]);
      RankBound(b[1..], bounds[1..]);
      RankOrder(a[1..], b[1..], bounds[1..]);
      Distribute(a[0], p);
      Distribute(b[0], p);
      if a[0] < b[0] { Widen(a[0] + 1, b[0], p); }
      if b[0] < a[0] { Widen(b[0] + 1, a[0], p); }
      assert a == [a[0]] + a[1..] && b == [b[0]] + b[1..];
    }
  }

  lemma {:induction false} RankZero(vs: seq<nat>, bounds: seq<nat>)
    requires |vs| == |bounds| && forall i :: 0 <= i < |vs| ==> vs[i] == 0
    ensures Rank(vs, bounds) == 0
    decreases vs
  {
    if vs != [] { RankZero(vs[1..], bounds[1..]); }
  }

  lemma {:induction false} RankMax(vs: seq<nat>, bounds: seq<nat>)
    requires |vs| == |bounds| && forall i :: 0 <= i < |vs| ==> vs[i] + 1 == bounds[i]
    ensures Rank(vs, bounds) + 1 == Product(bounds)
    decreases vs
  {
    if vs != [] {
      RankMax(vs[1..], bounds[1..]);
      Distribute(vs[0], Product(bounds[1..]));
    }
  }

  /** `ws` is `vs` with digit `j` advanced and all later digits, which were at their bounds, cleared. */
  predicate Carried(vs: seq<nat>, bounds: seq<nat>, j: nat, ws: seq<nat>) {
    && |vs| == |bounds| == |ws| && j < |vs|
    && (forall i :: 0 <= i < j ==> ws[i] == vs[i])
    && ws[j] == vs[j] + 1
    && (forall i :: j < i < |vs| ==> vs[i] + 1 == bounds[i] && ws[i] == 0)
  }

  lemma {:induction false} CarryIsNext(vs: seq<nat>, bounds: seq<nat>, j: nat, ws: seq<nat>)
    requires Carried(vs, bounds, j, ws)
    ensures Rank(ws, bounds) == Rank(vs, bounds) + 1
    decreases j
  {
    if j > 0 {
      CarryIsNext(vs[1..], bounds[1..], j - 1, ws[1..]);
    } else {
      RankMax(vs[1..], bounds[1..]);
      RankZero(ws[1..], bounds[1..]);
      Distribute(vs[0], Product(bounds[1..]));
    }
  }

  datatype EnumObject = EnumObject(bound: nat, value: nat, changed: bool)

  class Enumerator {
    const objs: array<EnumObject>
    var forwardPos: int
    var backwardPos: int

    ghost function Bounds(): (r: seq<nat>)
      reads this, objs
      ensures |r| == objs.Length && forall i :: 0 <= i < |r| ==> r[i] == objs[i].bound
    {
      seq(objs.Length, i requires 0 <= i < objs.Length reads this, objs => objs[i].bound)
    }

    ghost function Values(): (r: seq<nat>)
      reads this, objs
      ensures |r| == objs.Length && forall i :: 0 <= i < |r| ==> r[i] == objs[i].value
    {
      seq(objs.Length, i requires 0 <= i < objs.Length reads this, objs => objs[i].value)
    }

    ghost predicate Valid()
      reads this, objs
    {
      objs.Length >= 2 && InBox(Values(), Bounds())
    }

    /** Both positions as they stand between steps. */
    ghost predicate AtEnd()
      reads this
    {
      forwardPos == objs.Length - 1 && backwardPos == objs.Length - 2
    }

    /** Elements are added with bounds that are positive. */
    constructor (bounds: seq<nat>)
      requires |bounds| >= 2 && forall i :: 0 <= i < |bounds| ==> bounds[i] > 0
      ensures Valid() && fresh(objs) && Bounds() == bounds && AtEnd()
      ensures forall i :: 0 <= i < |bounds| ==> Values()[i] == 0
    {
      objs := new EnumObject[|bounds|](i requires 0 <= i < |bounds| => EnumObject(bounds[i], 0, false));
      forwardPos, backwardPos := |bounds| - 1, |bounds| - 2;
    }

    /** Advance one value, unless it is at its bound. */
    method AdvanceObject(i: nat) returns (ok: bool)
      requires i < objs.Length && objs[i].value < objs[i].bound
      modifies objs
      ensures ok <==> old(objs[i].value) + 1 < objs[i].bound
      ensures objs[i] == if ok then old(objs[i]).(value := old(objs[i].value) + 1, changed := true) else old(objs[i])
      ensures forall j :: 0 <= j < objs.Length && j != i ==> objs[j] == old(objs[j])
    {
      objs[i] := objs[i].(value := objs[i].value + 1);
      if objs[i].value < objs[i].bound {
        objs[i] := objs[i].(changed := true);
        return true;
      }
      objs[i] := objs[i].(value := objs[i].value - 1);
      return false;
    }

    method ResetAllChanged()
      modifies objs
      ensures forall i :: 0 <= i < objs.Length ==> objs[i] == old(objs[i]).(changed := false)
    {
      for i := 0 to objs.Length
        invariant forall j :: 0 <= j < i ==> objs[j] == old(objs[j]).(changed := false)
        invariant forall j :: i <= j < objs.Length ==> objs[j] == old(objs[j])
      {
        objs[i] := objs[i].(changed := false);
      }
    }

    method ResetPos()
      modifies this
      ensures AtEnd()
    {
      forwardPos := objs.Length - 1;
      backwardPos := forwardPos - 1;
    }

    method ResetAfterBackwardPos()
      requires 0 <= backwardPos < objs.Length
      modifies this, objs
      ensures backwardPos == old(backwardPos) && forwardPos == backwardPos + 1
      ensures forall i :: 0 <= i <= backwardPos ==> objs[i] == old(objs[i])
      ensures forall i :: backwardPos < i < objs.Length ==> objs[i] == old(objs[i]).(value := 0)
    {
      for i := backwardPos + 1 to objs.Length
        invariant forwardPos == old(forwardPos) && backwardPos == old(backwardPos)
        invariant forall j :: 0 <= j <= backwardPos || i <= j < objs.Length ==> objs[j] == old(objs[j])
        invariant forall j :: backwardPos < j < i ==> objs[j] == old(objs[j]).(value := 0)
      {
        objs[i] := objs[i].(value := 0);
      }
      forwardPos := backwardPos + 1;
    }

    /** Look backwards for a value that can still grow. */
    method RollBackCurrentPos() returns (ok: bool, ghost j: nat)
      requires Valid() && 0 <= backwardPos < objs.Length - 1
      modifies this, objs
      ensures Bounds() == old(Bounds())
      ensures ok ==> j <= old(backwardPos) && AtEnd() && objs[j].changed
                     && objs[j].value == old(objs[j].value) + 1 < objs[j].bound
      ensures ok ==> forall i :: 0 <= i < j ==> objs[i] == old(objs[i])
      ensures ok ==> forall i :: j < i < objs.Length ==> objs[i] == old(objs[i]).(value := 0)
      ensures ok ==> forall i :: j < i <= old(backwardPos) ==> old(objs[i].value) + 1 == old(objs[i].bound)
      ensures !ok ==> forall i :: 0 <= i < objs.Length ==> objs[i] == old(objs[i])
      ensures !ok ==> forall i :: 0 <= i <= old(backwardPos) ==> old(objs[i].value) + 1 == old(objs[i].bound)
      decreases backwardPos
    {
      assert Values()[backwardPos] < Bounds()[backwardPos];
      var more := AdvanceObject(backwardPos);
      if more {
        j := backwardPos;
        ResetAfterBackwardPos();
        ResetPos();
        return true, j;
      }
      if backwardPos == 0 { return false, 0; }
      backwardPos := backwardPos - 1;
      assert Values() == old(Values()) && Bounds() == old(Bounds());
      ok, j := RollBackCurrentPos();
    }

    /** The next vector; what was advanced is marked as changed. */
    method Advance() returns (more: bool)
      requires Valid() && AtEnd()
      modifies this, objs
      ensures Valid() && Bounds() == old(Bounds())
      ensures more <==> Rank(old(Values()), Bounds()) + 1 < Product(Bounds())
      ensures more ==> AtEnd() && Rank(Values(), Bounds()) == Rank(old(Values()), Bounds()) + 1
      ensures forall i :: 0 <= i < objs.Length ==> (objs[i].changed <==> objs[i].value == old(objs[i].value) + 1)
    {
      hide Rank, Product;
      ResetAllChanged();
      ghost var vs, bounds := Values(), Bounds();
      assert vs == old(Values()) && bounds == old(Bounds());
      assert vs[forwardPos] < bounds[forwardPos];
      var last := forwardPos;
      more := AdvanceObject(last);
      if more {
        Settle(vs, bounds, last);
      } else {
        assert Values() == vs && Bounds() == bounds;
        more := RollForward();
      }
    }

    /** The last value is at its bound: carry over to one before it. */
    method RollForward() returns (more: bool)
      requires Valid() && AtEnd() && Values()[objs.Length - 1] + 1 == Bounds()[objs.Length - 1]
      requires forall i :: 0 <= i < objs.Length ==> !objs[i].changed
      modifies this, objs
      ensures Valid() && Bounds() == old(Bounds())
      ensures more <==> Rank(old(Values()), Bounds()) + 1 < Product(Bounds())
      ensures more ==> AtEnd() && Rank(Values(), Bounds()) == Rank(old(Values()), Bounds()) + 1
      ensures forall i :: 0 <= i < objs.Length ==> (objs[i].changed <==> objs[i].value == old(objs[i].value) + 1)
    {
      hide Rank, Product;
      ghost var vs, bounds := Values(), Bounds();
      forwardPos := forwardPos + 1;
      assert Values() == vs && Bounds() == bounds;
      ghost var j: nat;
      more, j := RollBackCurrentPos();
      if more {
        Settle(vs, bounds, j);
      } else {
        assert Values() == vs && Bounds() == bounds;
        RankMax(vs, bounds);
      }
    }

    method Read() returns (vs: seq<nat>)
      ensures vs == Values()
    {
      vs := [];
      for i := 0 to objs.Length
        invariant |vs| == i && forall j :: 0 <= j < i ==> vs[j] == objs[j].value
      {
        vs := vs + [objs[i].value];
      }
    }

    lemma Settle(vs: seq<nat>, bounds: seq<nat>, j: nat)
      requires Bounds() == bounds && Carried(vs, bounds, j, Values()) && InBox(vs, bounds) && Values()[j] < bounds[j]
      ensures InBox(Values(), bounds)
      ensures Rank(Values(), bounds) == Rank(vs, bounds) + 1 < Product(bounds)
    {
      CarryIsNext(vs, bounds, j, Values());
      RankBound(Values(), bounds);
    }
  }

  /** All vectors within the bounds, each exactly once, in lexicographic order. */
  method EnumerateAll(bounds: seq<nat>) returns (all: seq<seq<nat>>)
    requires |bounds| >= 2 && forall i :: 0 <= i < |bounds| ==> bounds[i] > 0
    ensures |all| == Product(bounds) && Increasing(all)
    ensures forall k :: 0 <= k < |all| ==> InBox(all[k], bounds) && Rank(all[k], bounds) == k
    ensures forall vs :: InBox(vs, bounds) ==> vs in all
  {
    var e := new Enumerator(bounds);
    RankZero(e.Values(), bounds);
    RankBound(e.Values(), bounds);
    all := [];
    var more := true;
    while more
      invariant e.Valid() && fresh(e) && fresh(e.objs) && e.Bounds() == bounds
      invariant forall k :: 0 <= k < |all| ==> InBox(all[k], bounds) && Rank(all[k], bounds) == k
      invariant more ==> e.AtEnd() && Rank(e.Values(), bounds) == |all|
      invariant |all| <= Product(bounds)
      invariant !more ==> |all| == Product(bounds)
      decreases more, Product(bounds) - |all|
    {
      RankBound(e.Values(), bounds);
      var now := e.Read();
      all := all + [now];
      more := e.Advance();
    }
    forall i, j | 0 <= i < j < |all|
      ensures Less(all[i], all[j])
    {
      RankOrder(all[i], all[j], bounds);
    }
    forall vs | InBox(vs, bounds)
      ensures vs in all
    {
      RankBound(vs, bounds);
      RankOrder(vs, all[Rank(vs, bounds)], bounds);
    }
  }
}
