/** Facts about the last written member of a union, and when a member may be read after paths have merged. */
module Unions {
  const SIZE_UNKNOWN: nat := 0xFFFF

  datatype Field = Pointer(toChar: bool) | Plain(size: nat, bitfield: bool)

  /** The members of one union type; all pointers have the size `pointerSize`. */
  datatype UnionType = UnionType(fields: seq<Field>, pointerSize: nat, sensitive: bool)

  /** What is known: member number `fid` was written last, or nothing at all. */
  datatype Written = Bottom | Fid(fid: nat)

  function SizeInBytes(u: UnionType, f: Field): nat {
    if f.Pointer? then u.pointerSize else f.size
  }

  predicate Fits(u: UnionType, w: Written) {
    w.Fid? ==> w.fid < |u.fields|
  }

  /** Does a union about which `a` is known allow no more than one about which `b` is known? */
  predicate Imply(u: UnionType, a: Written, b: Written)
    requires Fits(u, a) && Fits(u, b)
  {
    if a.Bottom? then true
    else if b.Bottom? then false
    else if a == b then true
    else if !u.sensitive then false
    else
      var t, other := u.fields[a.fid], u.fields[b.fid];
      if t.Pointer? && other.Pointer? then t.toChar
      else if SizeInBytes(u, t) == SIZE_UNKNOWN || SizeInBytes(u, other) == SIZE_UNKNOWN then false
      else SizeInBytes(u, t) <= SizeInBytes(u, other) && !(other.Plain? && other.bitfield)
  }

  function Join(u: UnionType, a: Written, b: Written): (r: Written)
    requires Fits(u, a) && Fits(u, b)
    ensures Fits(u, r)
    ensures Imply(u, r, a) && Imply(u, r, b)
  {
    if Imply(u, a, b) then a else if Imply(u, b, a) then b else Bottom
  }

  ghost predicate AllFit(u: UnionType, ws: seq<Written>) {
    forall i :: 0 <= i < |ws| ==> Fits(u, ws[i])
  }

  function JoinAll(u: UnionType, ws: seq<Written>): (r: Written)
    requires ws != [] && AllFit(u, ws)
    ensures Fits(u, r)
  {
    if |ws| == 1 then ws[0] else Join(u, JoinAll(u, ws[..|ws| - 1]), ws[|ws| - 1])
  }

  /** The loop over the facts of several variables. */
  method JoinVarFacts(u: UnionType, ws: seq<Written>) returns (r: Written)
    requires ws != [] && AllFit(u, ws)
    ensures r == JoinAll(u, ws)
  {
    r := ws[0];
    assert ws[..1] == [ws[0]];
    for i := 1 to |ws|
      invariant Fits(u, r) && r == JoinAll(u, ws[..i])
    {
      assert ws[..i + 1][..i] == ws[..i];
      if !Imply(u, r, ws[i]) {
        r := if Imply(u, ws[i], r) then ws[i] else Bottom;
      }
    }
    assert ws[..|ws|] == ws;
  }

  predicate Readable(u: UnionType, fid: nat, w: Written)
    requires fid < |u.fields| && Fits(u, w)
  {
    Imply(u, Fid(fid), w)
  }

  /** All members start at the first byte of the union. */
  function Bytes(u: UnionType, f: Field): set<nat> {
    FirstBytes(SizeInBytes(u, f))
  }

  function FirstBytes(n: nat): (s: set<nat>)
    ensures forall i :: i in s <==> 0 <= i < n
  {
    if n == 0 then {} else FirstBytes(n - 1) + {n - 1}
  }

  predicate SizeKnown(u: UnionType, f: Field) {
    SizeInBytes(u, f) != SIZE_UNKNOWN
  }

  predicate IsBitfield(f: Field) {
    f.Plain? && f.bitfield
  }

  /** What a read of another member than the one last written needs: the bytes that it reads have all been written, and
    * not through a bit-field, which leaves some of their bits alone.  Pointers are only ever read as `char*`, and of
    * members of unknown sizes nothing is known. */
  ghost predicate AllWritten(u: UnionType, f: Field, written: Field) {
    if f.Pointer? && written.Pointer? then f.toChar
    else SizeKnown(u, f) && SizeKnown(u, written) && Bytes(u, f) <= Bytes(u, written) && !IsBitfield(written)
  }

  /** A member may be read exactly if it was written last, or, where that is asked for at all, if every byte it has
    * was. */
  lemma ReadableIff(u: UnionType, fid: nat, w: Written)
    requires fid < |u.fields| && Fits(u, w)
    ensures Readable(u, fid, w) <==>
              w.Fid? && (w.fid == fid || (u.sensitive && AllWritten(u, u.fields[fid], u.fields[w.fid])))
  {
    if w.Fid? {
      var f, g := u.fields[fid], u.fields[w.fid];
      if SizeInBytes(u, g) < SizeInBytes(u, f) {
        assert SizeInBytes(u, g) in Bytes(u, f) && SizeInBytes(u, g) !in Bytes(u, g);
      }
    }
  }

  /** Hence what may be read after paths have merged holds, on each of them, bytes that were all written last. */
  lemma BytesOnEveryPath(u: UnionType, fid: nat, ws: seq<Written>, i: nat)
    requires fid < |u.fields| && i < |ws| && AllFit(u, ws) && !Clash(u)
    requires Readable(u, fid, JoinAll(u, ws)) && u.fields[fid].Plain?
    ensures ws[i].Fid? && (ws[i].fid == fid || !IsBitfield(u.fields[ws[i].fid]))
    ensures Bytes(u, u.fields[fid]) <= Bytes(u, u.fields[ws[i].fid])
  {
    hide Bytes, Clash, JoinAll;
    ReadableOnEveryPath(u, fid, ws, i);
    ReadableIff(u, fid, ws[i]);
  }

  /** Merging does not forget more than it must: a member last written on one path stays readable if it was so on the
    * other. */
  lemma JoinKeeps(u: UnionType, a: Written, b: Written)
    requires Fits(u, a) && Fits(u, b)
    ensures a.Fid? && Readable(u, a.fid, b) ==> Readable(u, a.fid, Join(u, a, b))
    ensures b.Fid? && Readable(u, b.fid, a) ==> Readable(u, b.fid, Join(u, a, b))
  {
  }

  /** A plain member of exactly the size of a pointer stands between two pointer members, of which the first is no
    * `char*`. */
  predicate Clash(u: UnionType) {
    && u.sensitive && u.pointerSize != SIZE_UNKNOWN
    && exists a, b, c :: 0 <= a < |u.fields| && 0 <= b < |u.fields| && 0 <= c < |u.fields| && ClashAt(u, a, b, c)
  }

  predicate ClashAt(u: UnionType, a: nat, b: nat, c: nat)
    requires a < |u.fields| && b < |u.fields| && c < |u.fields|
  {
    && a != c && u.fields[a].Pointer? && !u.fields[a].toChar && u.fields[c].Pointer?
    && u.fields[b].Plain? && !u.fields[b].bitfield && u.fields[b].size == u.pointerSize
  }

  lemma ImplyTransitive(u: UnionType, a: Written, b: Written, c: Written)
    requires Fits(u, a) && Fits(u, b) && Fits(u, c) && !Clash(u)
    requires Imply(u, a, b) && Imply(u, b, c)
    ensures Imply(u, a, c)
  {
    if a.Fid? && b.Fid? && c.Fid? && u.sensitive && u.pointerSize != SIZE_UNKNOWN {
      assert !ClashAt(u, a.fid, b.fid, c.fid);
    }
  }

  /** A member that is readable after any number of paths have merged is readable after each of them. */
  lemma {:induction false} ReadableOnEveryPath(u: UnionType, fid: nat, ws: seq<Written>, i: nat)
    requires fid < |u.fields| && i < |ws| && AllFit(u, ws) && !Clash(u)
    requires Readable(u, fid, JoinAll(u, ws))
    ensures Readable(u, fid, ws[i])
    decreases |ws|
  {
    if |ws| > 1 {
      var rest, last := ws[..|ws| - 1], ws[|ws| - 1];
      var r := Join(u, JoinAll(u, rest), last);
      ImplyTransitive(u, Fid(fid), r, last);
      ImplyTransitive(u, Fid(fid), r, JoinAll(u, rest));
      if i < |ws| - 1 {
        ReadableOnEveryPath(u, fid, rest, i);
        assert rest[i] == ws[i];
      }
    }
  }

  /** Merging two paths never makes readable what was not. */
  ghost predicate MergeSafe(u: UnionType) {
    forall fid: nat, f, g :: fid < |u.fields| && Fits(u, f) && Fits(u, g) && Readable(u, fid, Join(u, f, g)) ==>
      Readable(u, fid, f) && Readable(u, fid, g)
  }

  /** Merging is safe for exactly the unions without such a clash. */
  lemma MergeSafeIff(u: UnionType)
    ensures MergeSafe(u) <==> !Clash(u)
  {
    if Clash(u) {
      var a, b, c :| 0 <= a < |u.fields| && 0 <= b < |u.fields| && 0 <= c < |u.fields| && ClashAt(u, a, b, c);
      assert Join(u, Fid(b), Fid(c)) == Fid(b);
      assert Readable(u, a, Join(u, Fid(b), Fid(c))) && !Readable(u, a, Fid(c));
    } else {
      forall fid: nat, f, g | fid < |u.fields| && Fits(u, f) && Fits(u, g) && Readable(u, fid, Join(u, f, g))
        ensures Readable(u, fid, f) && Readable(u, fid, g)
      {
        ImplyTransitive(u, Fid(fid), Join(u, f, g), f);
        ImplyTransitive(u, Fid(fid), Join(u, f, g), g);
      }
    }
  }

  /** As the size of a pointer is computed (it falls through to zero), no member of a real size can clash; nor does one
    * when the size is not known. */
  lemma NoClashInPractice(u: UnionType)
    requires u.pointerSize == SIZE_UNKNOWN
             || (u.pointerSize == 0 && forall f :: f in u.fields && f.Plain? ==> f.size > 0)
    ensures !Clash(u)
  {
  }

  /** With pointers of eight bytes: `int*`, a 64-bit integer, `char*`. */
  lemma EightByteClash()
    ensures Clash(UnionType([Pointer(false), Plain(8, false), Pointer(true)], 8, true))
  {
    var u := UnionType([Pointer(false), Plain(8, false), Pointer(true)], 8, true);
    assert ClashAt(u, 0, 1, 2);
  }
}
