/** Read and write records over variables with members: when does an access overlap with a recorded one? */
module Overlap {
  datatype Type = Simple | Struct(fields: seq<Type>) | Union(fields: seq<Type>)

  /** A member of a variable, given by the way to it. */
  datatype Var = Var(id: nat, root: Type, path: seq<nat>)

  function TypeAt(t: Type, path: seq<nat>): (r: Type)
    requires Leads(t, path)
    decreases path
  {
    if path == [] then t else TypeAt(t.fields[path[0]], path[1..])
  }

  predicate Leads(t: Type, path: seq<nat>)
    decreases path
  {
    path != [] ==> !t.Simple? && path[0] < |t.fields| && Leads(t.fields[path[0]], path[1..])
  }

  predicate Exists(v: Var) {
    Leads(v.root, v.path)
  }

  lemma {:induction false} LeadsShorter(t: Type, path: seq<nat>, n: nat)
    requires Leads(t, path) && n <= |path|
    ensures Leads(t, path[..n])
    ensures n < |path| ==> !TypeAt(t, path[..n]).Simple? && path[n] < |TypeAt(t, path[..n]).fields|
    decreases n
  {
    if n > 0 {
      LeadsShorter(t.fields[path[0]], path[1..], n - 1);
      assert path[..n][0] == path[0] && path[..n][1..] == path[1..][..n - 1];
    }
  }

  lemma {:induction false} LeadsLonger(t: Type, path: seq<nat>, i: nat)
    requires Leads(t, path) && !TypeAt(t, path).Simple? && i < |TypeAt(t, path).fields|
    ensures Leads(t, path + [i]) && TypeAt(t, path + [i]) == TypeAt(t, path).fields[i]
    decreases path
  {
    if path != [] {
      LeadsLonger(t.fields[path[0]], path[1..], i);
      assert (path + [i])[0] == path[0] && (path + [i])[1..] == path[1..] + [i];
    } else {
      assert (path + [i])[1..] == [];
    }
  }

  function Parent(v: Var): (p: Var)
    requires Exists(v) && v.path != []
    ensures Exists(p) && !TypeOf(p).Simple?
  {
    LeadsShorter(v.root, v.path, |v.path| - 1);
    v.(path := v.path[..|v.path| - 1])
  }

  function Member(v: Var, i: nat): (m: Var)
    requires Exists(v) && !TypeOf(v).Simple? && i < |TypeOf(v).fields|
    ensures Exists(m) && TypeOf(m) == TypeOf(v).fields[i]
  {
    LeadsLonger(v.root, v.path, i);
    v.(path := v.path + [i])
  }

  function TypeOf(v: Var): Type
    requires Exists(v)
  {
    TypeAt(v.root, v.path)
  }

  /** `a` is `v` or something that `v` is a member of. */
  predicate Covers(a: Var, v: Var) {
    a.id == v.id && a.root == v.root && a.path <= v.path
  }

  ghost predicate SameUnion(v: Var, w: Var) {
    exists u :: Exists(u) && TypeOf(u).Union? && Covers(u, v) && Covers(u, w)
  }

  /** Do two variables share memory? */
  ghost predicate Overlaps(v: Var, w: Var) {
    Covers(v, w) || Covers(w, v) || SameUnion(v, w)
  }

  // --- the queries

  function IsWritten(ws: seq<Var>, v: Var): bool
    requires Exists(v)
    decreases |v.path|
  {
    v in ws || (v.path != [] && IsWritten(ws, Parent(v)))
  }

  /** A read of a whole struct reads its members; a read of a whole union says nothing about them. */
  function IsRead(rs: seq<Var>, v: Var): bool
    requires Exists(v)
    decreases |v.path|
  {
    v in rs || (v.path != [] && TypeOf(Parent(v)).Struct? && IsRead(rs, Parent(v)))
  }

  function FieldIsWritten(ws: seq<Var>, v: Var): bool
    requires Exists(v)
    decreases TypeOf(v), 0
  {
    !TypeOf(v).Simple? && SomeFieldIsWritten(ws, v, 0)
  }

  function SomeFieldIsWritten(ws: seq<Var>, v: Var, i: nat): bool
    requires Exists(v) && !TypeOf(v).Simple? && i <= |TypeOf(v).fields|
    decreases TypeOf(v), 0, |TypeOf(v).fields| - i
  {
    i < |TypeOf(v).fields| &&
      (IsWritten(ws, Member(v, i)) || FieldIsWritten(ws, Member(v, i)) || SomeFieldIsWritten(ws, v, i + 1))
  }

  function FieldIsRead(rs: seq<Var>, v: Var): bool
    requires Exists(v)
    decreases TypeOf(v), 0
  {
    !TypeOf(v).Simple? && SomeFieldIsRead(rs, v, 0)
  }

  function SomeFieldIsRead(rs: seq<Var>, v: Var, i: nat): bool
    requires Exists(v) && !TypeOf(v).Simple? && i <= |TypeOf(v).fields|
    decreases TypeOf(v), 0, |TypeOf(v).fields| - i
  {
    i < |TypeOf(v).fields| &&
      (IsRead(rs, Member(v, i)) || FieldIsRead(rs, Member(v, i)) || SomeFieldIsRead(rs, v, i + 1))
  }

  datatype Option<T> = None | Some(value: T)

  /** The innermost union around a variable, the variable itself included. */
  function ContainerUnion(v: Var): (u: Option<Var>)
    requires Exists(v)
    ensures u.Some? ==> Exists(u.value) && TypeOf(u.value).Union? && Covers(u.value, v)
    decreases |v.path|
  {
    if TypeOf(v).Union? then Some(v)
    else if v.path == [] then None
    else ContainerUnion(Parent(v))
  }

  ghost predicate AllExist(vs: seq<Var>) {
    forall i :: 0 <= i < |vs| ==> Exists(vs[i])
  }

  function SiblingUsed(vs: seq<Var>, v: Var): bool
    requires Exists(v) && AllExist(vs)
  {
    ContainerUnion(v).Some? && exists i :: 0 <= i < |vs| && ContainerUnion(vs[i]) == ContainerUnion(v)
  }

  function IsWrittenPartially(ws: seq<Var>, v: Var): bool
    requires Exists(v) && AllExist(ws)
  {
    IsWritten(ws, v) || FieldIsWritten(ws, v) || SiblingUsed(ws, v)
  }

  function IsReadPartially(rs: seq<Var>, v: Var): bool
    requires Exists(v) && AllExist(rs)
  {
    IsRead(rs, v) || FieldIsRead(rs, v) || SiblingUsed(rs, v)
  }

  // --- what they compute

  lemma {:induction false} WrittenMeans(ws: seq<Var>, v: Var)
    requires Exists(v)
    ensures IsWritten(ws, v) <==> exists w :: w in ws && Covers(w, v)
    decreases |v.path|
  {
    if v.path != [] {
      WrittenMeans(ws, Parent(v));
      forall w | w in ws && Covers(w, v) && w != v
        ensures Covers(w, Parent(v))
      {
        assert |w.path| < |v.path|;
      }
    }
  }

  lemma {:induction false} FieldMeans(ws: seq<Var>, v: Var)
    requires Exists(v)
    ensures FieldIsWritten(ws, v) ==> exists w :: w in ws && (Covers(w, v) || Covers(v, w))
    ensures (exists w :: w in ws && Exists(w) && Covers(v, w) && w != v) ==> FieldIsWritten(ws, v)
    decreases TypeOf(v), 1
  {
    if !TypeOf(v).Simple? {
      SomeFieldMeans(ws, v, 0);
      forall w | w in ws && Exists(w) && Covers(v, w) && w != v
        ensures BelowMember(v, w, 0)
      {
        NextMember(v, w);
      }
    } else {
      forall w | w in ws && Exists(w) && Covers(v, w)
        ensures w == v
      {
        if w != v { NextMember(v, w); }
      }
    }
  }

  /** `w` is at or below one of the members of `v` from the `i`-th on. */
  predicate BelowMember(v: Var, w: Var, i: nat) {
    w.id == v.id && w.root == v.root && v.path < w.path && i <= w.path[|v.path|]
  }

  lemma NextMember(v: Var, w: Var)
    requires Exists(v) && Exists(w) && Covers(v, w) && w != v
    ensures !TypeOf(v).Simple? && w.path[|v.path|] < |TypeOf(v).fields|
    ensures Covers(Member(v, w.path[|v.path|]), w)
  {
    LeadsShorter(w.root, w.path, |v.path|);
    assert w.path[..|v.path|] == v.path;
  }

  lemma {:induction false} SomeFieldMeans(ws: seq<Var>, v: Var, i: nat)
    requires Exists(v) && !TypeOf(v).Simple? && i <= |TypeOf(v).fields|
    ensures SomeFieldIsWritten(ws, v, i) ==> exists w :: w in ws && (Covers(w, v) || Covers(v, w))
    ensures (exists w :: w in ws && Exists(w) && BelowMember(v, w, i)) ==> SomeFieldIsWritten(ws, v, i)
    decreases TypeOf(v), 0, |TypeOf(v).fields| - i
  {
    hide IsWritten, FieldIsWritten, Leads, TypeAt;
    forall w | w in ws && Exists(w) && BelowMember(v, w, i)
      ensures i < |TypeOf(v).fields|
    {
      NextMember(v, w);
    }
    if i < |TypeOf(v).fields| {
      var m := Member(v, i);
      WrittenMeans(ws, m);
      FieldMeans(ws, m);
      SomeFieldMeans(ws, v, i + 1);
      forall w | w in ws && (Covers(w, m) || Covers(m, w))
        ensures Covers(w, v) || Covers(v, w)
      {
      }
      forall w | w in ws && Exists(w) && BelowMember(v, w, i) && !BelowMember(v, w, i + 1)
        ensures IsWritten(ws, m) || FieldIsWritten(ws, m)
      {
        NextMember(v, w);
        assert Covers(m, w);
      }
    }
  }

  // --- unions inside unions

  /** Is the type a union, or does it have one somewhere inside? */
  predicate HasUnion(t: Type)
    decreases t
  {
    t.Union? || (t.Struct? && exists i :: 0 <= i < |t.fields| && HasUnion(t.fields[i]))
  }

  /** Is there, at or below this type, a type of two or more members with a union inside? */
  predicate Crowded(t: Type)
    decreases t
  {
    && !t.Simple?
    && ((|t.fields| >= 2 && exists i :: 0 <= i < |t.fields| && HasUnion(t.fields[i]))
        || exists i :: 0 <= i < |t.fields| && Crowded(t.fields[i]))
  }

  /** Does a union have another one inside, with a type of two or more members on the way from the outer to the
    * inner? */
  predicate Nested(t: Type)
    decreases t
  {
    !t.Simple? && ((t.Union? && Crowded(t)) || exists i :: 0 <= i < |t.fields| && Nested(t.fields[i]))
  }

  lemma {:induction false} HasUnionAt(t: Type, q: seq<nat>)
    requires Leads(t, q) && TypeAt(t, q).Union?
    ensures HasUnion(t)
    decreases q
  {
    if q != [] { HasUnionAt(t.fields[q[0]], q[1..]); }
  }

  lemma {:induction false} UnionInside(t: Type) returns (q: seq<nat>)
    requires HasUnion(t)
    ensures Leads(t, q) && TypeAt(t, q).Union?
    decreases t
  {
    if t.Union? {
      q := [];
    } else {
      var i :| 0 <= i < |t.fields| && HasUnion(t.fields[i]);
      var rest := UnionInside(t.fields[i]);
      q := [i] + rest;
    }
  }

  lemma {:induction false} CrowdedAt(t: Type, c: seq<nat>, q: seq<nat>)
    requires Leads(t, q) && c < q && Leads(t, c) && !TypeAt(t, c).Simple? && |TypeAt(t, c).fields| >= 2
    requires TypeAt(t, q).Union?
    ensures Crowded(t)
    decreases q
  {
    if c == [] {
      HasUnionAt(t.fields[q[0]], q[1..]);
    } else {
      CrowdedAt(t.fields[q[0]], c[1..], q[1..]);
    }
  }

  lemma {:induction false} NestedAt(t: Type, p: seq<nat>, c: seq<nat>, q: seq<nat>)
    requires Leads(t, q) && p <= c < q && Leads(t, c) && Leads(t, p) && TypeAt(t, p).Union?
    requires !TypeAt(t, c).Simple? && |TypeAt(t, c).fields| >= 2 && TypeAt(t, q).Union?
    ensures Nested(t)
    decreases q
  {
    if p == [] {
      CrowdedAt(t, c, q);
    } else {
      NestedAt(t.fields[q[0]], p[1..], c[1..], q[1..]);
    }
  }

  /** Where a crowded type branches, and a union below. */
  lemma {:induction false} BranchInside(t: Type) returns (c: seq<nat>, q: seq<nat>)
    requires Crowded(t)
    ensures Leads(t, q) && c < q && Leads(t, c) && !TypeAt(t, c).Simple? && |TypeAt(t, c).fields| >= 2
    ensures TypeAt(t, q).Union?
    decreases t
  {
    if |t.fields| >= 2 && exists i :: 0 <= i < |t.fields| && HasUnion(t.fields[i]) {
      var i :| 0 <= i < |t.fields| && HasUnion(t.fields[i]);
      var rest := UnionInside(t.fields[i]);
      c, q := [], [i] + rest;
      assert q[1..] == rest;
    } else {
      var i :| 0 <= i < |t.fields| && Crowded(t.fields[i]);
      var c1, q1 := BranchInside(t.fields[i]);
      c, q := [i] + c1, [i] + q1;
      assert c[1..] == c1 && q[1..] == q1;
    }
  }

  /** The outer union, the branch on the way, and the inner union. */
  lemma {:induction false} NestInside(t: Type) returns (p: seq<nat>, c: seq<nat>, q: seq<nat>)
    requires Nested(t)
    ensures Leads(t, q) && p <= c < q && Leads(t, c) && Leads(t, p) && TypeAt(t, p).Union?
    ensures !TypeAt(t, c).Simple? && |TypeAt(t, c).fields| >= 2 && TypeAt(t, q).Union?
    decreases t
  {
    if t.Union? && Crowded(t) {
      p := [];
      c, q := BranchInside(t);
    } else {
      var i :| 0 <= i < |t.fields| && Nested(t.fields[i]);
      var p1, c1, q1 := NestInside(t.fields[i]);
      p, c, q := [i] + p1, [i] + c1, [i] + q1;
      assert p[1..] == p1 && c[1..] == c1 && q[1..] == q1;
    }
  }

  // --- the write test

  /** The container is the innermost union around a variable. */
  lemma {:induction false} Innermost(v: Var, u: Var)
    requires Exists(v) && Exists(u) && TypeOf(u).Union? && Covers(u, v)
    ensures ContainerUnion(v).Some? && |u.path| <= |ContainerUnion(v).value.path|
    decreases |v.path|
  {
    if !TypeOf(v).Union? {
      assert u != v && |u.path| < |v.path|;
      Innermost(Parent(v), u);
    }
  }

  /** Where two paths part. */
  lemma {:induction false} Part(p: seq<nat>, q: seq<nat>) returns (n: nat)
    requires !(p <= q) && !(q <= p)
    ensures n < |p| && n < |q| && p[..n] == q[..n] && p[n] != q[n]
    decreases p
  {
    if p[0] != q[0] {
      n := 0;
    } else {
      assert p == [p[0]] + p[1..] && q == [q[0]] + q[1..];
      var m := Part(p[1..], q[1..]);
      n := m + 1;
      assert p[..n] == [p[0]] + p[1..][..m] && q[..n] == [q[0]] + q[1..][..m];
    }
  }

  lemma BeforeParting(p: seq<nat>, q: seq<nat>, r: seq<nat>, n: nat)
    requires r <= p && r <= q && n < |p| && n < |q| && p[n] != q[n]
    ensures |r| <= n
  {
  }

  /** What comes before the place where two paths part comes before both. */
  lemma SharedPrefix(p: seq<nat>, q: seq<nat>, r: seq<nat>, n: nat)
    requires n <= |p| && n <= |q| && p[..n] == q[..n] && r <= p && |r| <= n
    ensures r <= q
  {
    assert r == p[..n][..|r|] == q[..n][..|r|];
  }

  /** Between the place where two members of a union part and either of them there is no union. */
  lemma NoneBetween(v: Var, w: Var, u: Var, n: nat)
    requires Exists(v) && Exists(w) && Exists(u) && TypeOf(u).Union? && Covers(u, v) && Covers(u, w) && !Nested(v.root)
    requires n < |v.path| && n < |w.path| && v.path[..n] == w.path[..n] && v.path[n] != w.path[n]
    ensures ContainerUnion(v).Some? && |ContainerUnion(v).value.path| <= n
  {
    Innermost(v, u);
    var c := ContainerUnion(v).value;
    if |c.path| > n {
      var at := v.path[..n];
      LeadsShorter(v.root, v.path, n);
      LeadsShorter(w.root, w.path, n);
      BeforeParting(v.path, w.path, u.path, n);
      assert u.path == v.path[..|u.path|] && u.path == at[..|u.path|];
      assert c.path == v.path[..|c.path|] && at == c.path[..n];
      NestedAt(v.root, u.path, at, c.path);
    }
  }

  lemma SameContainer(v: Var, w: Var)
    requires Exists(v) && Exists(w) && SameUnion(v, w) && !Covers(v, w) && !Covers(w, v) && !Nested(v.root)
    ensures ContainerUnion(v).Some? && ContainerUnion(v) == ContainerUnion(w)
  {
    hide Nested, Leads, TypeAt, ContainerUnion;
    var u :| Exists(u) && TypeOf(u).Union? && Covers(u, v) && Covers(u, w);
    SameRoot(u, v, w);
    var n := Part(v.path, w.path);
    hide Covers, Exists, TypeOf;
    NoneBetween(v, w, u, n);
    NoneBetween(w, v, u, n);
    var c, d := ContainerUnion(v).value, ContainerUnion(w).value;
    AboveBoth(v, w, c, n);
    AboveBoth(w, v, d, n);
    Innermost(w, c);
    Innermost(v, d);
    SameDepth(v, c, d);
  }

  lemma SameRoot(u: Var, v: Var, w: Var)
    requires Covers(u, v) && Covers(u, w)
    ensures v.id == w.id && v.root == w.root
    ensures Covers(v, w) <==> v.path <= w.path
    ensures Covers(w, v) <==> w.path <= v.path
  {
  }

  lemma AboveBoth(v: Var, w: Var, c: Var, n: nat)
    requires v.id == w.id && v.root == w.root && Covers(c, v) && |c.path| <= n
    requires n <= |v.path| && n <= |w.path| && v.path[..n] == w.path[..n]
    ensures Covers(c, w)
  {
    SharedPrefix(v.path, w.path, c.path, n);
  }

  lemma SameDepth(v: Var, c: Var, d: Var)
    requires Covers(c, v) && Covers(d, v) && |c.path| == |d.path|
    ensures c == d
  {
    assert c.path == v.path[..|c.path|] && d.path == v.path[..|d.path|];
  }

  ghost predicate Hits(vs: seq<Var>, v: Var) {
    exists w :: w in vs && Overlaps(v, w)
  }

  /** The write test never claims too much. */
  lemma WrittenOverlaps(ws: seq<Var>, v: Var)
    requires Exists(v) && AllExist(ws) && IsWrittenPartially(ws, v)
    ensures Hits(ws, v)
  {
    WrittenMeans(ws, v);
    FieldMeans(ws, v);
    if w :| w in ws && (Covers(w, v) || Covers(v, w)) {
      assert Overlaps(v, w);
    } else {
      var i :| 0 <= i < |ws| && ContainerUnion(ws[i]) == ContainerUnion(v);
      var u := ContainerUnion(v).value;
      assert Covers(u, v) && Covers(u, ws[i]) && Overlaps(v, ws[i]);
    }
  }

  /** It finds a recorded write of the variable, of something around it, of something inside it, or of a member of the
    * same union. */
  lemma WrittenPartiallyExact(ws: seq<Var>, v: Var)
    requires Exists(v) && AllExist(ws) && !Nested(v.root)
    ensures IsWrittenPartially(ws, v) <==> Hits(ws, v)
  {
    WrittenMeans(ws, v);
    FieldMeans(ws, v);
    forall w | w in ws && Overlaps(v, w)
      ensures IsWrittenPartially(ws, v)
    {
      if !Covers(w, v) && !Covers(v, w) {
        SameContainer(v, w);
        var i :| 0 <= i < |ws| && ws[i] == w;
      } else if w == v {
        assert Covers(w, v);
      }
    }
    if IsWrittenPartially(ws, v) { WrittenOverlaps(ws, v); }
  }

  /** The write test is exact for every variable of a type, whatever has been recorded. */
  ghost predicate WriteTestExact(t: Type) {
    forall v, ws :: Exists(v) && v.root == t && AllExist(ws) ==> (IsWrittenPartially(ws, v) <==> Hits(ws, v))
  }

  /** In a nested type, a write of the inner union goes unnoticed where its way parts from another's. */
  lemma NestedMissed(t: Type) returns (v: Var, w: Var)
    requires Nested(t)
    ensures Exists(v) && v.root == t && Exists(w) && Overlaps(v, w) && !IsWrittenPartially([w], v)
  {
    hide Nested, Leads, TypeAt, IsWritten, FieldIsWritten, ContainerUnion;
    var p, c, q := NestInside(t);
    var i: nat := if q[|c|] == 0 then 1 else 0;
    v, w := Var(0, t, c + [i]), Var(0, t, q);
    var u := Var(0, t, p);
    LeadsLonger(t, c, i);
    assert v.path[|c|] != q[|c|] && p <= c + [i] && p <= q;
    assert Covers(u, v) && Covers(u, w) && Exists(u) && TypeOf(u).Union? && SameUnion(v, w);
    assert !Covers(v, w) && !Covers(w, v);
    WrittenMeans([w], v);
    FieldMeans([w], v);
    OwnContainer(w);
    assert ContainerUnion(v) != Some(w);
  }

  lemma OwnContainer(w: Var)
    requires Exists(w) && TypeOf(w).Union?
    ensures ContainerUnion(w) == Some(w)
  {
  }

  /** The write test is exact for just the types without such a nest. */
  lemma WriteTestExactIff(t: Type)
    ensures WriteTestExact(t) <==> !Nested(t)
  {
    if Nested(t) {
      var v, w := NestedMissed(t);
      assert AllExist([w]) && w in [w] && Hits([w], v);
    } else {
      forall v, ws | Exists(v) && v.root == t && AllExist(ws)
        ensures IsWrittenPartially(ws, v) <==> Hits(ws, v)
      {
        WrittenPartiallyExact(ws, v);
      }
    }
  }

  // --- the read test

  /** A union that has members, here or inside. */
  predicate HasFilled(t: Type)
    decreases t
  {
    !t.Simple? && ((t.Union? && t.fields != []) || exists i :: 0 <= i < |t.fields| && HasFilled(t.fields[i]))
  }

  /** No union inside the union that the type is; or, if it is none, no union with members inside. */
  predicate ReadSafe(t: Type) {
    if t.Union? then forall i :: 0 <= i < |t.fields| ==> !HasUnion(t.fields[i]) else !HasFilled(t)
  }

  /** From `w` down to `v`, everything that has members is a struct. */
  ghost predicate Through(w: Var, v: Var)
    requires Exists(v)
  {
    Covers(w, v) && forall k :: |w.path| <= k < |v.path| ==> StructAt(v, k)
  }

  predicate StructAt(v: Var, k: nat)
    requires Exists(v) && k <= |v.path|
  {
    LeadsShorter(v.root, v.path, k);
    TypeAt(v.root, v.path[..k]).Struct?
  }

  lemma {:induction false} ReadMeans(rs: seq<Var>, v: Var)
    requires Exists(v)
    ensures IsRead(rs, v) <==> exists w :: w in rs && Through(w, v)
    decreases |v.path|
  {
    if v in rs { assert Through(v, v); }
    if v.path != [] {
      var p := Parent(v);
      ReadMeans(rs, p);
      assert forall k :: 0 <= k < |p.path| ==> p.path[..k] == v.path[..k];
      assert StructAt(v, |p.path|) <==> TypeOf(p).Struct?;
      forall w | w in rs && Through(w, v) && w != v
        ensures TypeOf(p).Struct? && Through(w, p)
      {
        assert |w.path| < |v.path|;
        assert StructAt(v, |p.path|);
        forall k | |w.path| <= k < |p.path|
          ensures StructAt(p, k)
        {
          assert StructAt(v, k);
        }
      }
      forall w | w in rs && Through(w, p) && TypeOf(p).Struct?
        ensures Through(w, v)
      {
        forall k | |w.path| <= k < |v.path|
          ensures StructAt(v, k)
        {
          if k < |p.path| { assert StructAt(p, k); }
        }
      }
    }
  }

  /** Recorded reads are found at and below the variable, and above it through structs. */
  lemma {:induction false} FieldReadMeans(rs: seq<Var>, v: Var)
    requires Exists(v)
    ensures FieldIsRead(rs, v) <==> exists m, w :: w in rs && Exists(m) && Covers(v, m) && m != v && Through(w, m)
    decreases TypeOf(v), 1
  {
    if !TypeOf(v).Simple? {
      SomeFieldReadMeans(rs, v, 0);
      forall m | Exists(m) && Covers(v, m) && m != v
        ensures BelowMember(v, m, 0)
      {
        NextMember(v, m);
      }
    } else {
      forall m | Exists(m) && Covers(v, m)
        ensures m == v
      {
        if m != v { NextMember(v, m); }
      }
    }
  }

  lemma {:induction false} SomeFieldReadMeans(rs: seq<Var>, v: Var, i: nat)
    requires Exists(v) && !TypeOf(v).Simple? && i <= |TypeOf(v).fields|
    ensures SomeFieldIsRead(rs, v, i) <==> exists m, w :: w in rs && Exists(m) && BelowMember(v, m, i) && Through(w, m)
    decreases TypeOf(v), 0, |TypeOf(v).fields| - i
  {
    hide IsRead, FieldIsRead, Leads, TypeAt, Through;
    forall m | Exists(m) && BelowMember(v, m, i)
      ensures i < |TypeOf(v).fields|
    {
      NextMember(v, m);
    }
    if i < |TypeOf(v).fields| {
      var x := Member(v, i);
      ReadMeans(rs, x);
      FieldReadMeans(rs, x);
      SomeFieldReadMeans(rs, v, i + 1);
      forall m | Exists(m) && BelowMember(v, m, i)
        ensures Covers(x, m) || BelowMember(v, m, i + 1)
      {
        NextMember(v, m);
      }
      forall m | Exists(m) && Covers(x, m)
        ensures BelowMember(v, m, i)
      {
      }
    }
  }

  lemma {:induction false} NotFilledAt(t: Type, p: seq<nat>)
    requires Leads(t, p) && !HasFilled(t) && TypeAt(t, p).Union?
    ensures TypeAt(t, p).fields == []
    decreases p
  {
    if p != [] { NotFilledAt(t.fields[p[0]], p[1..]); }
  }

  lemma {:induction false} NestedIsFilled(t: Type)
    requires Nested(t)
    ensures HasFilled(t)
    decreases t
  {
    if !(t.Union? && Crowded(t)) {
      var i :| 0 <= i < |t.fields| && Nested(t.fields[i]);
      NestedIsFilled(t.fields[i]);
    }
  }

  /** Without unions that have members, a read of something above is always seen. */
  lemma ReadAbove(v: Var, w: Var)
    requires Exists(v) && !HasFilled(v.root) && Covers(w, v)
    ensures Through(w, v)
  {
    forall k | |w.path| <= k < |v.path|
      ensures StructAt(v, k)
    {
      LeadsShorter(v.root, v.path, k);
      if TypeAt(v.root, v.path[..k]).Union? { NotFilledAt(v.root, v.path[..k]); }
    }
  }

  /** The read test never claims too much. */
  lemma ReadOverlaps(rs: seq<Var>, v: Var)
    requires Exists(v) && AllExist(rs) && IsReadPartially(rs, v)
    ensures Hits(rs, v)
  {
    ReadMeans(rs, v);
    FieldReadMeans(rs, v);
    if IsRead(rs, v) {
      var w :| w in rs && Through(w, v);
      assert Overlaps(v, w);
    } else if FieldIsRead(rs, v) {
      var m, w :| w in rs && Exists(m) && Covers(v, m) && m != v && Through(w, m);
      Comparable(v, w, m);
      assert Overlaps(v, w);
    } else {
      var i :| 0 <= i < |rs| && ContainerUnion(rs[i]) == ContainerUnion(v);
      var u := ContainerUnion(v).value;
      assert Covers(u, v) && Covers(u, rs[i]) && Overlaps(v, rs[i]);
    }
  }

  lemma ReadPartiallyExact(rs: seq<Var>, v: Var)
    requires Exists(v) && AllExist(rs) && ReadSafe(v.root)
    ensures IsReadPartially(rs, v) <==> Hits(rs, v)
  {
    forall w | w in rs && Overlaps(v, w)
      ensures IsReadPartially(rs, v)
    {
      var i :| 0 <= i < |rs| && rs[i] == w;
      ReadFound(rs, v, w);
    }
    if IsReadPartially(rs, v) { ReadOverlaps(rs, v); }
  }

  lemma ReadFound(rs: seq<Var>, v: Var, w: Var)
    requires Exists(v) && AllExist(rs) && ReadSafe(v.root) && w in rs && Exists(w) && Overlaps(v, w)
    ensures IsReadPartially(rs, v)
  {
    ReadMeans(rs, v);
    FieldReadMeans(rs, v);
    var i :| 0 <= i < |rs| && rs[i] == w;
    if v.root.Union? {
      RootContains(v);
      RootContains(w);
    } else if Covers(w, v) {
      ReadAbove(v, w);
    } else if Covers(v, w) {
      assert Through(w, w) && w != v;
    } else {
      if Nested(v.root) { NestedIsFilled(v.root); }
      SameContainer(v, w);
    }
  }

  /** If the root is the only union, it contains everything. */
  lemma RootContains(v: Var)
    requires Exists(v) && v.root.Union? && ReadSafe(v.root)
    ensures ContainerUnion(v) == Some(v.(path := []))
  {
    Innermost(v, v.(path := []));
    var c := ContainerUnion(v).value;
    if c.path != [] { HasUnionAt(v.root.fields[c.path[0]], c.path[1..]); }
  }

  ghost predicate ReadTestExact(t: Type) {
    forall v, rs :: Exists(v) && v.root == t && AllExist(rs) ==> (IsReadPartially(rs, v) <==> Hits(rs, v))
  }

  /** A read of the whole variable goes unnoticed below a union that it does not look through. */
  lemma UnsafeMissed(t: Type) returns (v: Var, w: Var)
    requires !ReadSafe(t)
    ensures Exists(v) && v.root == t && Exists(w) && Overlaps(v, w) && !IsReadPartially([w], v)
  {
    w := Var(0, t, []);
    var x: Var;
    if t.Union? {
      var i :| 0 <= i < |t.fields| && HasUnion(t.fields[i]);
      var rest := UnionInside(t.fields[i]);
      v, x := Var(0, t, [i] + rest), w;
      assert v.path[1..] == rest && ContainerUnion(v) == Some(v);
    } else {
      var q := FilledInside(t);
      LeadsLonger(t, q, 0);
      v, x := Var(0, t, q + [0]), Var(0, t, q);
      Innermost(v, x);
    }
    assert v.path[..|x.path|] == x.path && !StructAt(v, |x.path|);
    ReadMeans([w], v);
    FieldReadMeans([w], v);
    forall m | Exists(m) && Covers(v, m)
      ensures !Through(w, m)
    {
      assert m.path[..|x.path|] == x.path && !StructAt(m, |x.path|);
    }
  }

  lemma {:induction false} FilledInside(t: Type) returns (q: seq<nat>)
    requires HasFilled(t)
    ensures Leads(t, q) && TypeAt(t, q).Union? && TypeAt(t, q).fields != []
    decreases t
  {
    if t.Union? && t.fields != [] {
      q := [];
    } else {
      var i :| 0 <= i < |t.fields| && HasFilled(t.fields[i]);
      var rest := FilledInside(t.fields[i]);
      q := [i] + rest;
    }
  }

  /** The read test is exact for just the types that are unions without a union inside, or have no union with
    * members. */
  lemma ReadTestExactIff(t: Type)
    ensures ReadTestExact(t) <==> ReadSafe(t)
  {
    if !ReadSafe(t) {
      var v, w := UnsafeMissed(t);
      assert AllExist([w]) && w in [w] && Hits([w], v);
    } else {
      forall v, rs | Exists(v) && v.root == t && AllExist(rs)
        ensures IsReadPartially(rs, v) <==> Hits(rs, v)
      {
        ReadPartiallyExact(rs, v);
      }
    }
  }

  // --- the types that are generated

  /** Structs are made before there are any unions. */
  predicate NoUnions(t: Type)
    decreases t
  {
    !t.Union? && (t.Struct? ==> forall i :: 0 <= i < |t.fields| ==> NoUnions(t.fields[i]))
  }

  /** A generated type: a simple type, a struct of types made before it, or a union, whose members are never unions. */
  predicate Generated(t: Type) {
    if t.Union? then forall i :: 0 <= i < |t.fields| ==> NoUnions(t.fields[i]) else NoUnions(t)
  }

  lemma {:induction false} NoUnionsNoUnion(t: Type)
    requires NoUnions(t)
    ensures !HasUnion(t) && !HasFilled(t) && !Nested(t) && !Crowded(t)
    decreases t
  {
    if t.Struct? {
      forall i | 0 <= i < |t.fields|
        ensures !HasUnion(t.fields[i]) && !HasFilled(t.fields[i]) && !Nested(t.fields[i]) && !Crowded(t.fields[i])
      {
        NoUnionsNoUnion(t.fields[i]);
      }
    }
  }

  /** For all types that are generated, both tests are exact. */
  lemma GeneratedExact(t: Type)
    requires Generated(t)
    ensures WriteTestExact(t) && ReadTestExact(t)
  {
    if t.Union? {
      forall i | 0 <= i < |t.fields|
        ensures !HasUnion(t.fields[i]) && !HasFilled(t.fields[i]) && !Nested(t.fields[i]) && !Crowded(t.fields[i])
      {
        NoUnionsNoUnion(t.fields[i]);
      }
    } else {
      NoUnionsNoUnion(t);
    }
    WriteTestExactIff(t);
    ReadTestExactIff(t);
  }

  // --- recording

  /** What covers a variable overlaps with all that the variable overlaps with. */
  lemma CoverOverlaps(a: Var, v: Var, x: Var)
    requires Exists(a) && Exists(v) && Exists(x) && Covers(a, v) && Overlaps(x, v)
    ensures Overlaps(x, a)
  {
    if Covers(x, v) {
      Comparable(x, a, v);
    } else if !Covers(v, x) {
      var u :| Exists(u) && TypeOf(u).Union? && Covers(u, x) && Covers(u, v);
      Comparable(u, a, v);
      if Covers(u, a) { assert SameUnion(x, a); }
    }
  }

  lemma Comparable(a: Var, b: Var, v: Var)
    requires Covers(a, v) && Covers(b, v)
    ensures Covers(a, b) || Covers(b, a)
  {
    assert a.path == v.path[..|a.path|] && b.path == v.path[..|b.path|];
  }

  class Effect {
    var readVars: seq<Var>
    var writeVars: seq<Var>

    ghost predicate Valid()
      reads this
    {
      AllExist(readVars) && AllExist(writeVars)
    }

    /** Record a read, unless the variable counts as read already. */
    method ReadVar(v: Var)
      requires Valid() && Exists(v)
      modifies `readVars
      ensures Valid() && IsRead(readVars, v)
      ensures forall x :: Exists(x) ==> (Hits(readVars, x) <==> Hits(old(readVars), x) || Overlaps(x, v))
    {
      if IsRead(readVars, v) {
        ReadIsWritten(readVars, v);
        AlreadyThere(readVars, v);
      } else {
        OneMore(readVars, v);
        readVars := readVars + [v];
      }
    }

    /** Record a write, unless the variable counts as written already. */
    method WriteVar(v: Var)
      requires Valid() && Exists(v)
      modifies `writeVars
      ensures Valid() && IsWritten(writeVars, v)
      ensures forall x :: Exists(x) ==> (Hits(writeVars, x) <==> Hits(old(writeVars), x) || Overlaps(x, v))
    {
      if IsWritten(writeVars, v) {
        AlreadyThere(writeVars, v);
      } else {
        OneMore(writeVars, v);
        writeVars := writeVars + [v];
      }
    }

    /** Drop recorded reads of members of what is recorded as read itself: no test that is exact can tell. */
    method ConsolidateReads()
      requires Valid()
      modifies `readVars
      ensures Valid() && |readVars| <= old(|readVars|)
      ensures forall x :: Exists(x) ==> (Hits(readVars, x) <==> Hits(old(readVars), x))
      ensures forall x :: Exists(x) && ReadSafe(x.root) ==>
          (IsReadPartially(readVars, x) <==> IsReadPartially(old(readVars), x))
      ensures forall i :: 0 <= i < |readVars| ==> readVars[i].path != [] ==> !IsRead(readVars, Parent(readVars[i]))
    {
      ghost var start := readVars;
      DropReads();
      forall x | Exists(x) && ReadSafe(x.root)
        ensures IsReadPartially(readVars, x) <==> IsReadPartially(start, x)
      {
        ReadPartiallyExact(readVars, x);
        ReadPartiallyExact(start, x);
      }
    }

    method DropReads()
      requires Valid()
      modifies `readVars
      ensures Valid() && |readVars| <= old(|readVars|)
      ensures forall x :: Exists(x) ==> (Hits(readVars, x) <==> Hits(old(readVars), x))
      ensures forall i :: 0 <= i < |readVars| ==> readVars[i].path != [] ==> !IsRead(readVars, Parent(readVars[i]))
    {
      hide IsRead, Exists, Overlaps, Hits;
      var i := 0;
      while i < |readVars|
        invariant Valid() && i <= |readVars| <= old(|readVars|)
        invariant forall x :: Exists(x) ==> (Hits(readVars, x) <==> Hits(old(readVars), x))
        invariant forall j :: 0 <= j < i ==> readVars[j].path != [] ==> !IsRead(readVars, Parent(readVars[j]))
        decreases |readVars| - i
      {
        if readVars[i].path != [] && IsRead(readVars, Parent(readVars[i])) {
          ghost var was := readVars;
          readVars := readVars[..i] + readVars[i + 1..];
          DroppedRead(was, i, readVars);
        } else {
          i := i + 1;
        }
      }
    }

    /** Drop recorded writes of members of what is recorded as written itself: no test can tell. */
    method ConsolidateWrites()
      requires Valid()
      modifies `writeVars
      ensures Valid() && |writeVars| <= old(|writeVars|)
      ensures forall x :: Exists(x) ==> (Hits(writeVars, x) <==> Hits(old(writeVars), x))
      ensures forall i :: 0 <= i < |writeVars| ==> writeVars[i].path != [] ==>
          !IsWritten(writeVars, Parent(writeVars[i]))
    {
      hide IsWritten, Exists, Overlaps, Hits;
      var i := 0;
      while i < |writeVars|
        invariant Valid() && i <= |writeVars| <= old(|writeVars|)
        invariant forall x :: Exists(x) ==> (Hits(writeVars, x) <==> Hits(old(writeVars), x))
        invariant forall j :: 0 <= j < i ==> writeVars[j].path != [] ==> !IsWritten(writeVars, Parent(writeVars[j]))
        decreases |writeVars| - i
      {
        if writeVars[i].path != [] && IsWritten(writeVars, Parent(writeVars[i])) {
          ghost var was := writeVars;
          writeVars := writeVars[..i] + writeVars[i + 1..];
          Dropped(was, i, writeVars);
        } else {
          i := i + 1;
        }
      }
    }
  }

  lemma ReadIsWritten(rs: seq<Var>, v: Var)
    requires Exists(v) && IsRead(rs, v)
    ensures IsWritten(rs, v)
  {
    ReadMeans(rs, v);
    WrittenMeans(rs, v);
  }

  lemma AlreadyThere(vs: seq<Var>, v: Var)
    requires AllExist(vs) && Exists(v) && IsWritten(vs, v)
    ensures forall x :: Exists(x) && Overlaps(x, v) ==> Hits(vs, x)
  {
    WrittenMeans(vs, v);
    var a :| a in vs && Covers(a, v);
    forall x | Exists(x) && Overlaps(x, v)
      ensures Hits(vs, x)
    {
      CoverOverlaps(a, v, x);
    }
  }

  lemma OneMore(vs: seq<Var>, v: Var)
    ensures forall x :: Hits(vs + [v], x) <==> Hits(vs, x) || Overlaps(x, v)
  {
    forall x
      ensures Hits(vs + [v], x) <==> Hits(vs, x) || Overlaps(x, v)
    {
      assert v in vs + [v];
      if Hits(vs, x) {
        var w :| w in vs && Overlaps(x, w);
        assert w in vs + [v];
      }
    }
  }

  lemma Dropped(was: seq<Var>, i: nat, now: seq<Var>)
    requires AllExist(was) && i < |was| && was[i].path != [] && IsWritten(was, Parent(was[i]))
    requires now == was[..i] + was[i + 1..]
    ensures AllExist(now)
    ensures forall x :: Exists(x) ==> (Hits(now, x) <==> Hits(was, x))
    ensures forall x :: Exists(x) && IsWritten(now, x) ==> IsWritten(was, x)
  {
    hide IsWritten, Hits, Overlaps, Leads, TypeAt;
    assert forall j :: 0 <= j < |now| ==> now[j] == was[if j < i then j else j + 1];
    WrittenMeans(was, Parent(was[i]));
    var a :| a in was && Covers(a, Parent(was[i]));
    assert a != was[i] && Covers(a, was[i]);
    KeptOthers(was, i, now, a);
    assert Exists(a) && Exists(was[i]);
    hide IsWritten, Exists, Covers;
    forall x | Exists(x)
      ensures Hits(now, x) <==> Hits(was, x)
      ensures IsWritten(now, x) ==> IsWritten(was, x)
    {
      DroppedFor(was, i, now, a, x);
    }
  }

  lemma DroppedRead(was: seq<Var>, i: nat, now: seq<Var>)
    requires AllExist(was) && i < |was| && was[i].path != [] && IsRead(was, Parent(was[i]))
    requires now == was[..i] + was[i + 1..]
    ensures AllExist(now)
    ensures forall x :: Exists(x) ==> (Hits(now, x) <==> Hits(was, x))
    ensures forall x :: Exists(x) && IsRead(now, x) ==> IsRead(was, x)
  {
    ReadIsWritten(was, Parent(was[i]));
    Dropped(was, i, now);
    forall x | Exists(x) && IsRead(now, x)
      ensures IsRead(was, x)
    {
      ReadMeans(now, x);
      ReadMeans(was, x);
    }
  }

  lemma DroppedFor(was: seq<Var>, i: nat, now: seq<Var>, a: Var, x: Var)
    requires i < |was| && now == was[..i] + was[i + 1..] && a in now && Exists(a) && Exists(was[i]) && Covers(a, was[i])
    requires Exists(x)
    ensures Hits(now, x) <==> Hits(was, x)
    ensures IsWritten(now, x) ==> IsWritten(was, x)
  {
    hide IsWritten, Exists, Covers, Overlaps;
    assert forall w :: w in now ==> w in was;
    WrittenMeans(now, x);
    WrittenMeans(was, x);
    if Hits(was, x) {
      var w :| w in was && Overlaps(x, w);
      if w == was[i] {
        CoverOverlaps(a, w, x);
      } else {
        KeptOthers(was, i, now, w);
      }
    }
  }

  lemma KeptOthers(was: seq<Var>, i: nat, now: seq<Var>, w: Var)
    requires i < |was| && now == was[..i] + was[i + 1..] && w in was && w != was[i]
    ensures w in now
  {
    var j :| 0 <= j < |was| && was[j] == w;
    assert now[if j < i then j else j - 1] == w;
  }
}
