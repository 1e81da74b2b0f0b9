/** Removing a statement from a block: control-flow edges into it and out of the jumps inside it go too, and with them
  * every `goto` that would be left without its target. */
module Deletion {
  datatype Option<T> = None | Some(value: T)

  datatype Kind = Goto | Break | Continue | Plain | Compound | Block(looping: bool)

  /** A statement or block, with what is around it: a statement stands in a block, a block belongs to a compound
    * statement. */
  datatype Node = Node(id: nat, kind: Kind, up: Option<Node>)

  datatype Edge = Edge(src: Node, dest: Node, postDest: bool, backLink: bool)

  predicate IsJump(x: Node) {
    x.kind.Goto? || x.kind.Break? || x.kind.Continue?
  }

  /** Is `x` the node `s` or something inside it? */
  predicate Contains(s: Node, x: Node)
    decreases x
  {
    x == s || (x.up.Some? && Contains(s, x.up.value))
  }

  predicate WellPlaced(x: Node)
    decreases x
  {
    match x.up
    case None => x.kind.Block?
    case Some(u) => WellPlaced(u) && (if x.kind.Block? then u.kind.Compound? else u.kind.Block?)
  }

  function Depth(x: Node): nat
    decreases x
  {
    if x.up.None? then 0 else 1 + Depth(x.up.value)
  }

  lemma {:induction false} ContainsTrans(a: Node, b: Node, x: Node)
    requires Contains(a, b) && Contains(b, x)
    ensures Contains(a, x)
    decreases x
  {
    if x != b { ContainsTrans(a, b, x.up.value); }
  }

  /** A jump has nothing inside it. */
  lemma {:induction false} LeafContains(s: Node, x: Node)
    requires WellPlaced(x) && IsJump(s) && Contains(s, x)
    ensures x == s
    decreases x
  {
    if x != s { LeafContains(s, x.up.value); }
  }

  // --- lists

  function Without(xs: seq<Node>, gone: set<Node>): (r: seq<Node>)
    ensures forall x :: x in r <==> x in xs && x !in gone
  {
    if xs == [] then []
    else (if xs[0] in gone then [] else [xs[0]]) + Without(xs[1..], gone)
  }

  ghost predicate NoDups(xs: seq<Node>) {
    forall i, j :: 0 <= i < j < |xs| ==> xs[i] != xs[j]
  }

  lemma {:induction false} WithoutNone(xs: seq<Node>)
    ensures Without(xs, {}) == xs
    decreases xs
  {
    if xs != [] { WithoutNone(xs[1..]); }
  }

  lemma {:induction false} WithoutMore(xs: seq<Node>, a: set<Node>, b: set<Node>)
    ensures Without(Without(xs, a), b) == Without(xs, a + b)
    decreases xs
  {
    if xs != [] {
      var rest := Without(xs[1..], a);
      WithoutMore(xs[1..], a, b);
      if xs[0] in a {
        assert Without(xs, a) == rest;
        assert Without(xs, a + b) == Without(xs[1..], a + b);
      } else {
        assert Without(xs, a) == [xs[0]] + rest;
        assert ([xs[0]] + rest)[0] == xs[0] && ([xs[0]] + rest)[1..] == rest;
        assert xs[0] in a + b <==> xs[0] in b;
      }
    }
  }

  lemma {:induction false} WithoutOne(xs: seq<Node>, i: nat)
    requires i < |xs| && NoDups(xs)
    ensures xs[..i] + xs[i + 1..] == Without(xs, {xs[i]})
    decreases xs
  {
    if i > 0 {
      WithoutOne(xs[1..], i - 1);
      assert xs[..i] + xs[i + 1..] == [xs[0]] + (xs[1..][..i - 1] + xs[1..][i..]);
    } else {
      WithoutAbsent(xs[1..], xs[0]);
    }
  }

  lemma {:induction false} WithoutAbsent(xs: seq<Node>, x: Node)
    requires x !in xs
    ensures Without(xs, {x}) == xs
    decreases xs
  {
    if xs != [] { WithoutAbsent(xs[1..], x); }
  }

  lemma {:induction false} WithoutNoDups(xs: seq<Node>, gone: set<Node>)
    requires NoDups(xs)
    ensures NoDups(Without(xs, gone))
    decreases xs
  {
    if xs != [] {
      WithoutNoDups(xs[1..], gone);
      assert xs[0] !in xs[1..];
    }
  }

  // --- the state

  /** Statements of each block, and the flow edges between them. */
  type Lists = map<Node, seq<Node>>

  ghost predicate ListsOk(stms: Lists, kids: Lists, maxDepth: nat) {
    && (forall b :: b in stms ==> b.kind.Block? && WellPlaced(b) && NoDups(stms[b]))
    && (forall b, x :: b in stms && x in stms[b] ==>
          !x.kind.Block? && x.up == Some(b) && Depth(x) <= maxDepth && (x.kind.Compound? ==> x in kids))
    && (forall s, b :: s in kids && b in kids[s] ==> b.kind.Block? && b.up == Some(s))
    && (forall b :: b in stms && b.up.Some? ==> b.up.value in kids && b in kids[b.up.value])
  }

  /** In the program: listed in its block, and so is everything around it. */
  ghost predicate Live(stms: Lists, x: Node)
    decreases x
  {
    if x.kind.Block? then x in stms && (x.up.Some? ==> Live(stms, x.up.value))
    else x.up.Some? && x.up.value in stms && x in stms[x.up.value] && Live(stms, x.up.value)
  }

  /** An edge leads from a jump to its target, or from the end of a loop body back to its head. */
  ghost predicate EdgeOk(stms: Lists, e: Edge) {
    && Live(stms, e.src) && Live(stms, e.dest) && WellPlaced(e.src) && WellPlaced(e.dest)
    && (IsJump(e.src) || e.src == e.dest)
  }

  function BlocksOf(kids: Lists, s: Node): seq<Node> {
    if s in kids then kids[s] else []
  }

  // --- the jumps inside a statement

  /** Jumps at or below `s`, found by walking down the current lists. */
  function Jumps(stms: Lists, kids: Lists, maxDepth: nat, s: Node): seq<Node>
    requires ListsOk(stms, kids, maxDepth) && Depth(s) <= maxDepth && !s.kind.Block?
    decreases maxDepth - Depth(s), 1, 0
  {
    (if IsJump(s) then [s] else []) + JumpsInBlocks(stms, kids, maxDepth, s, 0)
  }

  function JumpsInBlocks(stms: Lists, kids: Lists, maxDepth: nat, s: Node, i: nat): seq<Node>
    requires ListsOk(stms, kids, maxDepth) && Depth(s) <= maxDepth && !s.kind.Block? && i <= |BlocksOf(kids, s)|
    decreases maxDepth - Depth(s), 0, |BlocksOf(kids, s)| - i, 1, 0
  {
    if i == |BlocksOf(kids, s)| then []
    else JumpsInList(stms, kids, maxDepth, s, i, 0) + JumpsInBlocks(stms, kids, maxDepth, s, i + 1)
  }

  function JumpsInList(stms: Lists, kids: Lists, maxDepth: nat, s: Node, i: nat, j: nat): seq<Node>
    requires ListsOk(stms, kids, maxDepth) && Depth(s) <= maxDepth && !s.kind.Block? && i < |BlocksOf(kids, s)|
    requires j <= |Listed(stms, BlocksOf(kids, s)[i])|
    decreases maxDepth - Depth(s), 0, |BlocksOf(kids, s)| - i, 0, |Listed(stms, BlocksOf(kids, s)[i])| - j
  {
    var b := BlocksOf(kids, s)[i];
    if j == |Listed(stms, b)| then []
    else
      assert Depth(Listed(stms, b)[j]) == Depth(s) + 2;
      Jumps(stms, kids, maxDepth, Listed(stms, b)[j]) + JumpsInList(stms, kids, maxDepth, s, i, j + 1)
  }

  function Listed(stms: Lists, b: Node): seq<Node> {
    if b in stms then stms[b] else []
  }

  /** Every jump inside `s` that is part of the program is found, and nothing else. */
  lemma {:induction false} JumpsInside(stms: Lists, kids: Lists, maxDepth: nat, s: Node, x: Node)
    requires ListsOk(stms, kids, maxDepth) && Depth(s) <= maxDepth && !s.kind.Block?
    requires x in Jumps(stms, kids, maxDepth, s)
    ensures IsJump(x) && Contains(s, x)
    decreases maxDepth - Depth(s), 1, 0
  {
    if !(IsJump(s) && x == s) { JumpsInBlocksInside(stms, kids, maxDepth, s, 0, x); }
  }

  lemma {:induction false} JumpsInBlocksInside(stms: Lists, kids: Lists, maxDepth: nat, s: Node, i: nat, x: Node)
    requires ListsOk(stms, kids, maxDepth) && Depth(s) <= maxDepth && !s.kind.Block? && i <= |BlocksOf(kids, s)|
    requires x in JumpsInBlocks(stms, kids, maxDepth, s, i)
    ensures IsJump(x) && Contains(s, x)
    decreases maxDepth - Depth(s), 0, |BlocksOf(kids, s)| - i, 1, 0
  {
    if x in JumpsInList(stms, kids, maxDepth, s, i, 0) {
      JumpsInListInside(stms, kids, maxDepth, s, i, 0, x);
    } else {
      JumpsInBlocksInside(stms, kids, maxDepth, s, i + 1, x);
    }
  }

  lemma {:induction false} JumpsInListInside(stms: Lists, kids: Lists, maxDepth: nat, s: Node, i: nat, j: nat, x: Node)
    requires ListsOk(stms, kids, maxDepth) && Depth(s) <= maxDepth && !s.kind.Block? && i < |BlocksOf(kids, s)|
    requires j <= |Listed(stms, BlocksOf(kids, s)[i])| && x in JumpsInList(stms, kids, maxDepth, s, i, j)
    ensures IsJump(x) && Contains(s, x)
    decreases maxDepth - Depth(s), 0, |BlocksOf(kids, s)| - i, 0, |Listed(stms, BlocksOf(kids, s)[i])| - j
  {
    var b := BlocksOf(kids, s)[i];
    var y := Listed(stms, b)[j];
    assert Depth(y) == Depth(s) + 2 && Contains(s, b) && Contains(b, y);
    if x in Jumps(stms, kids, maxDepth, y) {
      JumpsInside(stms, kids, maxDepth, y, x);
      ContainsTrans(s, b, y);
      ContainsTrans(s, y, x);
    } else {
      JumpsInListInside(stms, kids, maxDepth, s, i, j + 1, x);
    }
  }

  /** What is found below a statement that stands in a block of `s` is found below `s`. */
  lemma {:induction false} JumpsReach(stms: Lists, kids: Lists, maxDepth: nat, s: Node, i: nat, y: Node, x: Node)
    requires ListsOk(stms, kids, maxDepth) && Depth(s) <= maxDepth && !s.kind.Block? && i <= |BlocksOf(kids, s)|
    requires y.up.Some? && y.up.value in BlocksOf(kids, s)[i..] && y.up.value in stms && y in stms[y.up.value]
    requires Depth(y) <= maxDepth && !y.kind.Block? && x in Jumps(stms, kids, maxDepth, y)
    ensures x in JumpsInBlocks(stms, kids, maxDepth, s, i)
    decreases |BlocksOf(kids, s)| - i
  {
    if BlocksOf(kids, s)[i] == y.up.value {
      JumpsReachList(stms, kids, maxDepth, s, i, 0, y, x);
    } else {
      JumpsReach(stms, kids, maxDepth, s, i + 1, y, x);
    }
  }

  lemma {:induction false} JumpsReachList(stms: Lists, kids: Lists, maxDepth: nat, s: Node, i: nat, j: nat, y: Node,
                                          x: Node)
    requires ListsOk(stms, kids, maxDepth) && Depth(s) <= maxDepth && !s.kind.Block? && i < |BlocksOf(kids, s)|
    requires j <= |Listed(stms, BlocksOf(kids, s)[i])| && y in Listed(stms, BlocksOf(kids, s)[i])[j..]
    requires Depth(y) <= maxDepth && !y.kind.Block? && x in Jumps(stms, kids, maxDepth, y)
    ensures x in JumpsInList(stms, kids, maxDepth, s, i, j)
    decreases |Listed(stms, BlocksOf(kids, s)[i])| - j
  {
    var ys := Listed(stms, BlocksOf(kids, s)[i]);
    if ys[j] != y { JumpsReachList(stms, kids, maxDepth, s, i, j + 1, y, x); }
  }

  lemma {:induction false} LiveJumpFound(stms: Lists, kids: Lists, maxDepth: nat, s: Node, y: Node, x: Node)
    requires ListsOk(stms, kids, maxDepth) && Depth(s) <= maxDepth && !s.kind.Block?
    requires Contains(s, y) && Live(stms, y) && !y.kind.Block? && Depth(y) <= maxDepth
    requires x in Jumps(stms, kids, maxDepth, y)
    ensures x in Jumps(stms, kids, maxDepth, s)
    decreases y
  {
    if y != s {
      var b := y.up.value;
      assert b in stms && b.kind.Block? && Contains(s, b) && b != s;
      var o := b.up.value;
      assert o in kids && b in kids[o] && Depth(o) + 2 == Depth(y);
      assert BlocksOf(kids, o)[0..] == kids[o];
      OwnerIsStatement(stms, b);
      JumpsReach(stms, kids, maxDepth, o, 0, y, x);
      LiveJumpFound(stms, kids, maxDepth, s, o, x);
    }
  }

  lemma OwnerIsStatement(stms: Lists, b: Node)
    requires b.kind.Block? && b.up.Some? && WellPlaced(b)
    ensures !b.up.value.kind.Block?
  {
  }

  lemma JumpsExact(stms: Lists, kids: Lists, maxDepth: nat, s: Node, x: Node)
    requires ListsOk(stms, kids, maxDepth) && Depth(s) <= maxDepth && !s.kind.Block? && Live(stms, x)
    ensures x in Jumps(stms, kids, maxDepth, s) <==> IsJump(x) && Contains(s, x)
  {
    if x in Jumps(stms, kids, maxDepth, s) { JumpsInside(stms, kids, maxDepth, s, x); }
    if IsJump(x) && Contains(s, x) {
      assert x in Jumps(stms, kids, maxDepth, x);
      LiveJumpFound(stms, kids, maxDepth, s, x, x);
    }
  }

  // --- what goes with a statement

  ghost predicate Targets(gone: set<Node>, x: Node) {
    exists d :: d in gone && Contains(d, x)
  }

  /** With `s`, a set of statements that leaves no `goto` outside `s` without its target. */
  ghost predicate Closed(s: Node, edges: seq<Edge>, gone: set<Node>) {
    && s in gone
    && forall e :: e in edges && e.src.kind.Goto? && !Contains(s, e.src) && Targets(gone, e.dest) ==> e.src in gone
  }

  /** Edges that lead into what has gone, or out of a jump that has. */
  ghost predicate Cut(s: Node, gone: set<Node>, e: Edge) {
    Targets(gone, e.dest) || e.src in gone || (IsJump(e.src) && Contains(s, e.src))
  }

  function RemoveFrom(stms: Lists, gone: set<Node>): Lists {
    map b | b in stms :: Without(stms[b], gone)
  }

  /** How many statements a block lists. */
  function Length(stms: Lists, b: Option<Node>): nat {
    if b.Some? && b.value in stms then |stms[b.value]| else 0
  }

  lemma {:induction false} WithoutShorter(xs: seq<Node>, gone: set<Node>)
    ensures |Without(xs, gone)| <= |xs|
    ensures (exists x :: x in xs && x in gone) ==> |Without(xs, gone)| < |xs|
    decreases |xs|
  {
    if xs != [] { WithoutShorter(xs[1..], gone); }
  }

  lemma RemoveShrinks(stms: Lists, gone: set<Node>, b: Option<Node>)
    ensures Length(RemoveFrom(stms, gone), b) <= Length(stms, b)
  {
    if b.Some? && b.value in stms { WithoutShorter(stms[b.value], gone); }
  }

  ghost predicate Conserved(stms: Lists, deleted: Lists, stms': Lists, deleted': Lists) {
    && stms'.Keys == stms.Keys && deleted'.Keys == deleted.Keys == stms.Keys
    && forall b :: b in stms ==> multiset(stms'[b]) + multiset(deleted'[b]) == multiset(stms[b]) + multiset(deleted[b])
  }

  /** Of the breaks listed for the loops, none is new, and only those inside what has gone are missing. */
  ghost predicate BreaksLeft(was: Lists, now: Lists, gone: set<Node>) {
    && now.Keys == was.Keys
    && (forall l, x :: l in now && x in now[l] ==> x in was[l])
    && (forall l, x :: l in was && x in was[l] && !Targets(gone, x) ==> x in now[l])
  }

  lemma BreaksSame(breaks: Lists)
    ensures BreaksLeft(breaks, breaks, {})
  {
  }

  lemma BreaksMore(a: Lists, b: Lists, c: Lists, gone: set<Node>, more: set<Node>)
    requires BreaksLeft(a, b, gone) && BreaksLeft(b, c, more)
    ensures BreaksLeft(a, c, gone + more)
  {
    hide Contains;
    forall l, x | l in a && x in a[l] && !Targets(gone + more, x)
      ensures x in c[l]
    {
      TargetsPlus(gone, more, x);
      assert x in b[l];
    }
    forall l, x | l in c && x in c[l]
      ensures x in a[l]
    {
      assert x in b[l];
    }
  }

  /** The innermost loop body at or around a block. */
  function LoopOf(b: Node): Option<Node>
    decreases b
  {
    if b.kind.Block? && b.kind.looping then Some(b)
    else if b.up.Some? && b.up.value.up.Some? then LoopOf(b.up.value.up.value)
    else None
  }

  lemma {:induction false} LiveAfter(stms: Lists, s: Node, x: Node)
    requires Live(stms, x) && !Contains(s, x)
    ensures Live(RemoveFrom(stms, {s}), x)
    decreases x
  {
    if x.up.Some? { LiveAfter(stms, s, x.up.value); }
  }

  lemma {:induction false} LiveIsDeep(stms: Lists, kids: Lists, maxDepth: nat, x: Node)
    requires ListsOk(stms, kids, maxDepth) && Live(stms, x) && !x.kind.Block?
    ensures Depth(x) <= maxDepth && WellPlaced(x)
  {
  }

  lemma RemoveKeepsLists(stms: Lists, kids: Lists, maxDepth: nat, gone: set<Node>)
    requires ListsOk(stms, kids, maxDepth)
    ensures ListsOk(RemoveFrom(stms, gone), kids, maxDepth)
  {
    hide NoDups, WellPlaced, Depth, Without;
    forall b | b in stms
      ensures NoDups(Without(stms[b], gone))
    {
      WithoutNoDups(stms[b], gone);
    }
  }

  lemma RemoveTwice(stms: Lists, a: set<Node>, b: set<Node>)
    ensures RemoveFrom(RemoveFrom(stms, a), b) == RemoveFrom(stms, a + b)
  {
    forall k | k in stms
      ensures Without(Without(stms[k], a), b) == Without(stms[k], a + b)
    {
      WithoutMore(stms[k], a, b);
    }
  }

  /** A loop or jump edge that does not lead into `s` does not start inside it either. */
  lemma SourceOutside(stms: Lists, s: Node, e: Edge)
    requires EdgeOk(stms, e) && !Contains(s, e.dest) && !(IsJump(e.src) && Contains(s, e.src))
    ensures !Contains(s, e.src)
  {
  }

  method IndexOf(xs: seq<Node>, x: Node) returns (i: nat)
    requires x in xs
    ensures i < |xs| && xs[i] == x && x !in xs[..i]
  {
    i := 0;
    while xs[i] != x
      invariant i < |xs| && x in xs[i..] && x !in xs[..i]
      decreases |xs| - i
    {
      assert xs[i..] == [xs[i]] + xs[i + 1..] && xs[..i + 1] == xs[..i] + [xs[i]];
      i := i + 1;
    }
  }

  class Function {
    const kids: Lists
    const maxDepth: nat
    var stms: Lists
    var deleted: Lists
    var breaks: Lists
    var edges: seq<Edge>
    var blocks: seq<Node>

    ghost predicate Valid()
      reads this
    {
      && ListsOk(stms, kids, maxDepth) && deleted.Keys == stms.Keys
      && forall i :: 0 <= i < |edges| ==> EdgeOk(stms, edges[i])
    }

    /** Erase the edges that start at one of the jumps. */
    method EraseSources(jumps: seq<Node>)
      modifies `edges
      ensures |edges| <= |old(edges)| && (|edges| == |old(edges)| ==> edges == old(edges))
      ensures forall e :: e in edges <==> e in old(edges) && e.src !in jumps
      ensures multiset(edges) <= multiset(old(edges))
    {
      var i := 0;
      while i < |edges|
        invariant i <= |edges| <= |old(edges)| && (|edges| == |old(edges)| ==> edges == old(edges))
        invariant multiset(edges) <= multiset(old(edges))
        invariant forall e :: e in edges ==> e in old(edges)
        invariant forall e :: e in old(edges) && e.src !in jumps ==> e in edges
        invariant forall j :: 0 <= j < i ==> edges[j].src !in jumps
        decreases |edges| - i
      {
        if edges[i].src in jumps {
          EraseEdge(i, jumps);
        } else {
          i := i + 1;
        }
      }
    }

    method EraseEdge(i: nat, ghost jumps: seq<Node>)
      requires i < |edges|
      modifies `edges
      ensures edges == old(edges)[..i] + old(edges)[i + 1..]
      ensures forall e :: e in edges ==> e in old(edges)
      ensures forall e :: e in old(edges) && e != old(edges)[i] ==> e in edges
      ensures multiset(edges) <= multiset(old(edges))
    {
      ghost var was := edges;
      assert was == was[..i] + [was[i]] + was[i + 1..];
      edges := edges[..i] + edges[i + 1..];
      forall e | e in was && e != was[i]
        ensures e in edges
      {
        var j :| 0 <= j < |was| && was[j] == e;
        assert edges[if j < i then j else j - 1] == e;
      }
    }

    /** Breaks that go are no longer breaks of their loop. */
    method PruneBreaks(b: Node, jumps: seq<Node>)
      modifies `breaks
      ensures breaks.Keys == old(breaks).Keys
      ensures forall l, x :: l in breaks && x in breaks[l] ==> x in old(breaks)[l]
      ensures forall l, x :: l in breaks && x in old(breaks)[l] && x !in jumps ==> x in breaks[l]
      ensures LoopOf(b).Some? && LoopOf(b).value in breaks ==> forall x :: x in breaks[LoopOf(b).value] ==> x !in jumps
    {
      if LoopOf(b).Some? && LoopOf(b).value in breaks {
        var l := LoopOf(b).value;
        var rest := Without(breaks[l], set x | x in jumps);
        breaks := breaks[l := rest];
      }
    }

    /** Blocks inside `s` are no longer blocks of the function. */
    method PruneBlocks(s: Node)
      modifies `blocks
      ensures forall b :: b in blocks <==> b in old(blocks) && !Contains(s, b)
    {
      var i := 0;
      while i < |blocks|
        invariant i <= |blocks|
        invariant forall b :: b in blocks ==> b in old(blocks)
        invariant forall b :: b in old(blocks) && !Contains(s, b) ==> b in blocks
        invariant forall j :: 0 <= j < i ==> !Contains(s, blocks[j])
        decreases |blocks| - i
      {
        if Contains(s, blocks[i]) {
          ghost var was := blocks;
          blocks := blocks[..i] + blocks[i + 1..];
          forall b | b in was && b != was[i]
            ensures b in blocks
          {
            var j :| 0 <= j < |was| && was[j] == b;
            assert blocks[if j < i then j else j - 1] == b;
          }
        } else {
          i := i + 1;
        }
      }
    }

    /** Take the statement out of its block and keep it with the deleted ones. */
    method Detach(s: Node)
      requires ListsOk(stms, kids, maxDepth) && deleted.Keys == stms.Keys
      requires s.up.Some? && s.up.value in stms && s in stms[s.up.value]
      modifies `stms, `deleted
      ensures stms == RemoveFrom(old(stms), {s}) && Length(stms, s.up) + 1 == Length(old(stms), s.up)
      ensures Conserved(old(stms), old(deleted), stms, deleted)
    {
      var b := s.up.value;
      var i := IndexOf(stms[b], s);
      DetachedLists(stms, deleted, b, i);
      deleted := deleted[b := deleted[b] + [s]];
      stms := stms[b := stms[b][..i] + stms[b][i + 1..]];
    }

    /** Where the loop over the edges stands: `gone` has been removed so far. */
    ghost predicate Cutting(s: Node, stms1: Lists, deleted1: Lists, breaks1: Lists, edges1: seq<Edge>, gone: set<Node>)
      reads this
    {
      && Valid() && Live(stms, s) && !s.kind.Block?
      && (forall e :: e in edges1 ==> !(IsJump(e.src) && Contains(s, e.src)))
      && InStep(s, stms1, edges1, stms, edges, gone) && Conserved(stms1, deleted1, stms, deleted)
      && BreaksLeft(breaks1, breaks, gone)
    }

    /** Erase one edge into `s`; a `goto` at its other end is removed as well. */
    method CutEdge(s: Node, i: nat, ghost stms1: Lists, ghost deleted1: Lists, ghost breaks1: Lists,
                   ghost edges1: seq<Edge>, ghost gone: set<Node>) returns (more: nat, ghost gone': set<Node>)
      requires Cutting(s, stms1, deleted1, breaks1, edges1, gone) && i < |edges| && Contains(s, edges[i].dest)
      modifies this
      ensures Cutting(s, stms1, deleted1, breaks1, edges1, gone')
      ensures |edges| < |old(edges)| && multiset(edges) <= multiset(old(edges))
      ensures |edges| + 1 == |old(edges)| ==> edges == old(edges)[..i] + old(edges)[i + 1..]
      ensures forall b :: b in blocks ==> b in old(blocks)
      ensures more + Length(stms, s.up) <= Length(old(stms), s.up)
      decreases |edges|, 0
    {
      hide Length, ListsOk, Live, Conserved, EdgeOk, InStep, Closed, Cut, Contains, RemoveFrom, BreaksLeft, LoopOf;
      ghost var edges2, breaks2 := edges, breaks;
      var e := edges[i];
      EraseEdge(i, []);
      ghost var stms3, deleted3, edges3 := stms, deleted, edges;
      if e.src.kind.Goto? {
        StepSources(s, stms, edges);
        EdgeFacts(stms, e);
        LiveIsDeep(stms, kids, maxDepth, s);
        ghost var removed: set<Node>;
        more, removed := RemoveStmt(e.src);
        if e.src.up != s.up {
          more := 0;
          RemoveShrinks(stms3, removed, s.up);
        }
        GotoGone(s, stms1, edges1, stms3, edges2, edges3, gone, e, stms, edges, removed);
        ConservedMore(stms1, deleted1, stms3, deleted3, stms, deleted);
        BreaksMore(breaks1, breaks2, breaks, gone, removed);
        gone' := gone + removed;
      } else {
        OneErased(s, stms1, edges1, stms, edges2, edges, gone, e);
        more, gone' := 0, gone;
      }
    }

    /** Erase the edges into `s`; a `goto` at the other end is removed as well, which may erase more edges: then start
      * again. */
    method RemoveTargets(s: Node) returns (cnt: nat, ghost gone: set<Node>)
      requires Cutting(s, stms, deleted, breaks, edges, {})
      modifies this
      ensures Cutting(s, old(stms), old(deleted), old(breaks), old(edges), gone)
      ensures |edges| <= |old(edges)| && (|edges| == |old(edges)| ==> edges == old(edges))
      ensures multiset(edges) <= multiset(old(edges))
      ensures forall k :: 0 <= k < |edges| ==> !Contains(s, edges[k].dest)
      ensures forall b :: b in blocks ==> b in old(blocks)
      ensures cnt + Length(stms, s.up) <= Length(old(stms), s.up)
      decreases |edges|, 1
    {
      hide Cutting, Contains, Length;
      ghost var stms1, deleted1, breaks1, edges1 := stms, deleted, breaks, edges;
      gone := {};
      cnt := 0;
      var i := 0;
      while i < |edges|
        invariant i <= |edges| <= |edges1| && (|edges| == |edges1| ==> edges == edges1)
        invariant Cutting(s, stms1, deleted1, breaks1, edges1, gone)
        invariant multiset(edges) <= multiset(edges1)
        invariant forall k :: 0 <= k < i ==> !Contains(s, edges[k].dest)
        invariant forall b :: b in blocks ==> b in old(blocks)
        invariant cnt + Length(stms, s.up) <= Length(stms1, s.up)
        decreases |edges|, |edges| - i
      {
        if !Contains(s, edges[i].dest) {
          i := i + 1;
        } else {
          var len := |edges| - 1;
          var more: nat;
          more, gone := CutEdge(s, i, stms1, deleted1, breaks1, edges1, gone);
          cnt := cnt + more;
          if |edges| != len { i := 0; }
        }
      }
    }

    /** Erase the edges from the jumps inside a statement, and take its breaks off the list of the loop around it. */
    method CutJumps(s: Node)
      requires Valid() && Live(stms, s) && !s.kind.Block?
      modifies `breaks, `edges
      ensures |edges| <= |old(edges)| && (|edges| == |old(edges)| ==> edges == old(edges))
      ensures SourcesOutside(s, old(edges), edges) && forall e :: e in old(edges) ==> EdgeOk(stms, e)
      ensures multiset(edges) <= multiset(old(edges))
      ensures BreaksLeft(old(breaks), breaks, {s})
      ensures s.up.Some? && NoBreakInside(s, LoopOf(s.up.value), stms, breaks)
    {
      hide ListsOk, Live, EdgeOk, Contains, Jumps, BreaksLeft, LoopOf, NoBreakInside;
      ghost var breaks0, edges0 := breaks, edges;
      assert forall e :: e in edges0 ==> EdgeOk(stms, e);
      DetachReady(stms, kids, maxDepth, s);
      LiveIsDeep(stms, kids, maxDepth, s);
      var jumps := Jumps(stms, kids, maxDepth, s);
      forall i | 0 <= i < |edges|
        ensures edges[i].src in jumps <==> IsJump(edges[i].src) && Contains(s, edges[i].src)
      {
        EdgeFacts(stms, edges[i]);
        JumpsExact(stms, kids, maxDepth, s, edges[i].src);
      }
      if jumps != [] {
        PruneBreaks(s.up.value, jumps);
        EraseSources(jumps);
      }
      BreaksPruned(s, stms, kids, maxDepth, jumps, breaks0, breaks);
    }

    /** Remove a statement, with all that cannot stay without it.  `gone` are the statements taken out of their
      * blocks. */
    method RemoveStmt(s: Node) returns (cnt: nat, ghost gone: set<Node>)
      requires Valid() && Live(stms, s) && !s.kind.Block?
      modifies this
      ensures Valid() && 0 < cnt <= Length(old(stms), s.up) - Length(stms, s.up)
      ensures stms == RemoveFrom(old(stms), gone) && Conserved(old(stms), old(deleted), stms, deleted)
      ensures |edges| <= |old(edges)| && (|edges| == |old(edges)| ==> edges == old(edges))
      ensures forall e :: e in edges <==> e in old(edges) && !Cut(s, gone, e)
      ensures multiset(edges) <= multiset(old(edges))
      ensures Closed(s, old(edges), gone) && forall d: set<Node> :: Closed(s, old(edges), d) ==> gone <= d
      ensures forall b :: b in blocks ==> b in old(blocks) && !Contains(s, b)
      ensures BreaksLeft(old(breaks), breaks, gone)
      ensures s.up.Some? && NoBreakInside(s, LoopOf(s.up.value), old(stms), breaks)
      decreases |edges|, 2
    {
      hide ListsOk, Live, Conserved, EdgeOk, Closed, Cut, InStep, RemoveFrom, Contains, BreaksLeft, LoopOf,
           NoBreakInside, Length;
      ghost var stms0, deleted0, breaks0, edges0 := stms, deleted, breaks, edges;
      CutJumps(s);
      ghost var edges1, breaks1 := edges, breaks;
      NothingRemoved(s, stms, deleted, edges);
      BreaksSame(breaks);
      cnt, gone := RemoveTargets(s);
      PruneBlocks(s);
      ghost var stms2, deleted2 := stms, deleted;
      RemovedAll(s, kids, maxDepth, stms0, stms, edges0, edges1, edges, gone);
      DetachReady(stms, kids, maxDepth, s);
      Detach(s);
      ConservedMore(stms0, deleted0, stms2, deleted2, stms, deleted);
      FinalBreaks(s, stms0, breaks0, breaks1, breaks, gone);
      cnt, gone := cnt + 1, gone + {s};
    }
  }

  lemma FinalBreaks(s: Node, stms0: Lists, breaks0: Lists, breaks1: Lists, breaks: Lists, gone: set<Node>)
    requires s.up.Some? && BreaksLeft(breaks0, breaks1, {s}) && BreaksLeft(breaks1, breaks, gone)
    requires NoBreakInside(s, LoopOf(s.up.value), stms0, breaks1)
    ensures BreaksLeft(breaks0, breaks, gone + {s}) && NoBreakInside(s, LoopOf(s.up.value), stms0, breaks)
  {
    hide BreaksLeft, NoBreakInside, LoopOf;
    BreaksMore(breaks0, breaks1, breaks, {s}, gone);
    StillNoBreak(s, LoopOf(s.up.value), stms0, breaks1, breaks, gone);
    assert {s} + gone == gone + {s};
  }

  /** The edges from jumps inside `s` have been erased, and no others. */
  ghost predicate SourcesOutside(s: Node, edges0: seq<Edge>, edges1: seq<Edge>) {
    |edges1| <= |edges0| && forall e :: e in edges1 <==> e in edges0 && !(IsJump(e.src) && Contains(s, e.src))
  }

  /** The loop around a statement has no break inside that statement any more. */
  ghost predicate NoBreakInside(s: Node, loop: Option<Node>, stms: Lists, breaks: Lists) {
    loop.Some? && loop.value in breaks ==>
      forall x :: x in breaks[loop.value] && IsJump(x) && Live(stms, x) ==> !Contains(s, x)
  }

  lemma BreaksPruned(s: Node, stms: Lists, kids: Lists, maxDepth: nat, jumps: seq<Node>, was: Lists, now: Lists)
    requires ListsOk(stms, kids, maxDepth) && Live(stms, s) && !s.kind.Block? && s.up.Some?
    requires jumps == Jumps(stms, kids, maxDepth, s) && now.Keys == was.Keys
    requires if jumps == [] then now == was
             else && (forall l, x :: l in now && x in now[l] ==> x in was[l])
                  && (forall l, x :: l in now && x in was[l] && x !in jumps ==> x in now[l])
                  && (var l := LoopOf(s.up.value);
                      l.Some? && l.value in now ==> forall x :: x in now[l.value] ==> x !in jumps)
    ensures BreaksLeft(was, now, {s}) && NoBreakInside(s, LoopOf(s.up.value), stms, now)
  {
    hide LoopOf, Jumps, Contains;
    LiveIsDeep(stms, kids, maxDepth, s);
    forall l, x | l in was && x in was[l] && !Targets({s}, x)
      ensures x in now[l]
    {
      if x in jumps { JumpsInside(stms, kids, maxDepth, s, x); }
    }
    forall x | IsJump(x) && Live(stms, x) && Contains(s, x)
      ensures x in jumps
    {
      JumpsExact(stms, kids, maxDepth, s, x);
    }
  }

  lemma StillNoBreak(s: Node, loop: Option<Node>, stms: Lists, was: Lists, now: Lists, gone: set<Node>)
    requires NoBreakInside(s, loop, stms, was) && BreaksLeft(was, now, gone)
    ensures NoBreakInside(s, loop, stms, now)
  {
  }

  lemma DetachedLists(stms: Lists, deleted: Lists, b: Node, i: nat)
    requires deleted.Keys == stms.Keys && b in stms && i < |stms[b]| && NoDups(stms[b])
    requires forall k, x :: k in stms && x in stms[k] ==> x.up == Some(k)
    ensures var stms' := stms[b := stms[b][..i] + stms[b][i + 1..]];
            && stms' == RemoveFrom(stms, {stms[b][i]})
            && Conserved(stms, deleted, stms', deleted[b := deleted[b] + [stms[b][i]]])
  {
    hide NoDups, Without;
    var s := stms[b][i];
    var rest := stms[b][..i] + stms[b][i + 1..];
    var stms', deleted' := stms[b := rest], deleted[b := deleted[b] + [s]];
    WithoutOne(stms[b], i);
    assert stms[b] == stms[b][..i] + [s] + stms[b][i + 1..];
    assert s in stms[b] && s.up == Some(b);
    assert forall k, x :: k in stms && x in stms[k] && k != b ==> x != s;
    forall k | k in stms
      ensures stms'[k] == Without(stms[k], {s})
      ensures multiset(stms'[k]) + multiset(deleted'[k]) == multiset(stms[k]) + multiset(deleted[k])
    {
      if k != b { WithoutAbsent(stms[k], s); }
    }
  }

  lemma StepSources(s: Node, stms: Lists, edges: seq<Edge>)
    requires forall i :: 0 <= i < |edges| ==> EdgeOk(stms, edges[i])
    ensures forall e :: e in edges ==> EdgeOk(stms, e)
  {
  }

  lemma EdgeFacts(stms: Lists, e: Edge)
    requires EdgeOk(stms, e)
    ensures Live(stms, e.src) && Live(stms, e.dest)
  {
  }

  /** Part of the way: some edges into `s` are erased, and the statements in `gone` removed. */
  ghost predicate InStep(s: Node, stms1: Lists, edges1: seq<Edge>, stms: Lists, edges: seq<Edge>, gone: set<Node>) {
    && stms == RemoveFrom(stms1, gone)
    && s !in gone && (forall d :: d in gone ==> d.kind.Goto?)
    && (forall e :: e in edges ==> e in edges1 && !Targets(gone, e.dest) && e.src !in gone)
    && (forall e :: e in edges1 && e !in edges ==> Contains(s, e.dest) || Targets(gone, e.dest) || e.src in gone)
    && (forall e :: e in edges1 && e !in edges && e.src.kind.Goto? ==> e.src in gone)
    && (forall d: set<Node> :: Closed(s, edges1, d) ==> gone <= d)
  }

  lemma NothingRemoved(s: Node, stms: Lists, deleted: Lists, edges: seq<Edge>)
    requires deleted.Keys == stms.Keys
    ensures InStep(s, stms, edges, stms, edges, {}) && Conserved(stms, deleted, stms, deleted)
  {
    forall b | b in stms
      ensures Without(stms[b], {}) == stms[b]
    {
      WithoutNone(stms[b]);
    }
  }

  lemma ConservedMore(stms1: Lists, deleted1: Lists, stms2: Lists, deleted2: Lists, stms3: Lists, deleted3: Lists)
    requires Conserved(stms1, deleted1, stms2, deleted2) && Conserved(stms2, deleted2, stms3, deleted3)
    ensures Conserved(stms1, deleted1, stms3, deleted3)
  {
  }

  /** The sources of all edges from a `goto` are enough to remove. */
  ghost function AllGotos(s: Node, edges: seq<Edge>): set<Node> {
    {s} + set i | 0 <= i < |edges| && edges[i].src.kind.Goto? :: edges[i].src
  }

  lemma AllGotosClosed(s: Node, edges: seq<Edge>)
    ensures Closed(s, edges, AllGotos(s, edges))
  {
  }

  lemma {:induction false} LiveAfterMany(stms: Lists, gone: set<Node>, x: Node)
    requires Live(stms, x) && !Targets(gone, x)
    ensures Live(RemoveFrom(stms, gone), x)
    decreases x
  {
    assert forall d :: d in gone ==> !Contains(d, x);
    if x.up.Some? {
      assert !Targets(gone, x.up.value);
      LiveAfterMany(stms, gone, x.up.value);
    }
  }

  lemma DetachReady(stms: Lists, kids: Lists, maxDepth: nat, s: Node)
    requires ListsOk(stms, kids, maxDepth) && Live(stms, s) && !s.kind.Block?
    ensures s.up.Some? && s.up.value in stms && s in stms[s.up.value]
  {
  }

  lemma OneErased(s: Node, stms1: Lists, edges1: seq<Edge>, stms: Lists, edges: seq<Edge>, edges': seq<Edge>,
                  gone: set<Node>, e: Edge)
    requires InStep(s, stms1, edges1, stms, edges, gone) && e in edges && Contains(s, e.dest) && !e.src.kind.Goto?
    requires forall x :: x in edges' ==> x in edges
    requires forall x :: x in edges && x != e ==> x in edges'
    ensures InStep(s, stms1, edges1, stms, edges', gone)
  {
    hide Contains, Targets, Closed, RemoveFrom;
  }

  /** What removing a `goto` whose target was inside `s` adds. */
  lemma GotoGone(s: Node, stms1: Lists, edges1: seq<Edge>, stms: Lists, edges: seq<Edge>, edges2: seq<Edge>,
                 gone: set<Node>, e: Edge, stms': Lists, edges': seq<Edge>, gone': set<Node>)
    requires InStep(s, stms1, edges1, stms, edges, gone) && e in edges && Contains(s, e.dest) && e.src.kind.Goto?
    requires !s.kind.Block?
    requires forall x :: x in edges1 ==> !(IsJump(x.src) && Contains(s, x.src))
    requires forall x :: x in edges2 ==> x in edges && EdgeOk(stms, x)
    requires forall x :: x in edges && x != e ==> x in edges2
    requires stms' == RemoveFrom(stms, gone') && Live(stms, s) && WellPlaced(s)
    requires forall x :: x in edges' <==> x in edges2 && !Cut(e.src, gone', x)
    requires Closed(e.src, edges2, gone') && forall d: set<Node> :: Closed(e.src, edges2, d) ==> gone' <= d
    ensures InStep(s, stms1, edges1, stms', edges', gone + gone') && Live(stms', s)
  {
    hide Live, RemoveFrom, InStep;
    GotosOnly(s, stms1, edges1, stms, edges, edges2, gone, e, gone');
    RemoveTwiceIn(stms1, gone, gone', s, edges1, stms, edges);
    forall d | d in gone'
      ensures !Contains(d, s)
    {
      if Contains(d, s) { LeafContains(d, s); }
    }
    LiveAfterMany(stms, gone', s);
    StepEdges(s, stms1, edges1, stms, edges, edges2, gone, e, edges', gone');
    StepLeast(s, stms1, edges1, stms, edges, edges2, gone, e, gone');
    StepDone(s, stms1, edges1, stms', edges', gone, gone');
  }

  lemma GotosOnly(s: Node, stms1: Lists, edges1: seq<Edge>, stms: Lists, edges: seq<Edge>, edges2: seq<Edge>,
                  gone: set<Node>, e: Edge, gone': set<Node>)
    requires InStep(s, stms1, edges1, stms, edges, gone) && e in edges && e.src.kind.Goto? && !s.kind.Block?
    requires forall x :: x in edges1 ==> !(IsJump(x.src) && Contains(s, x.src))
    requires forall x :: x in edges2 ==> x in edges && EdgeOk(stms, x)
    requires Closed(e.src, edges2, gone') && forall d: set<Node> :: Closed(e.src, edges2, d) ==> gone' <= d
    ensures s !in gone' && (forall d :: d in gone' ==> d.kind.Goto?) && s !in gone
    ensures (forall d :: d in gone ==> d.kind.Goto?)
  {
    AllGotosClosed(e.src, edges2);
    assert gone' <= AllGotos(e.src, edges2);
    assert Contains(s, s);
  }

  lemma RemoveTwiceIn(stms1: Lists, gone: set<Node>, gone': set<Node>, s: Node, edges1: seq<Edge>, stms: Lists,
                      edges: seq<Edge>)
    requires InStep(s, stms1, edges1, stms, edges, gone)
    ensures RemoveFrom(stms, gone') == RemoveFrom(stms1, gone + gone')
  {
    RemoveTwice(stms1, gone, gone');
  }

  ghost predicate EdgesInStep(s: Node, edges1: seq<Edge>, edges: seq<Edge>, gone: set<Node>) {
    && (forall e :: e in edges ==> e in edges1 && !Targets(gone, e.dest) && e.src !in gone)
    && (forall e :: e in edges1 && e !in edges ==> Contains(s, e.dest) || Targets(gone, e.dest) || e.src in gone)
    && (forall e :: e in edges1 && e !in edges && e.src.kind.Goto? ==> e.src in gone)
  }

  lemma StepEdges(s: Node, stms1: Lists, edges1: seq<Edge>, stms: Lists, edges: seq<Edge>, edges2: seq<Edge>,
                  gone: set<Node>, e: Edge, edges': seq<Edge>, gone': set<Node>)
    requires InStep(s, stms1, edges1, stms, edges, gone) && e in edges && Contains(s, e.dest) && e.src.kind.Goto?
    requires forall x :: x in edges2 ==> x in edges && EdgeOk(stms, x)
    requires forall x :: x in edges && x != e ==> x in edges2
    requires forall x :: x in edges' <==> x in edges2 && !Cut(e.src, gone', x)
    requires Closed(e.src, edges2, gone')
    ensures EdgesInStep(s, edges1, edges', gone + gone')
  {
    hide RemoveFrom, Live;
    forall x
      ensures Targets(gone + gone', x) <==> Targets(gone, x) || Targets(gone', x)
    {
      TargetsPlus(gone, gone', x);
    }
    forall x | x in edges2 && IsJump(x.src) && Contains(e.src, x.src)
      ensures x.src in gone'
    {
      LeafContains(e.src, x.src);
    }
    hide Targets, Contains, EdgeOk;
  }

  lemma TargetsPlus(a: set<Node>, b: set<Node>, x: Node)
    ensures Targets(a + b, x) <==> Targets(a, x) || Targets(b, x)
  {
    if Targets(a, x) { var d :| d in a && Contains(d, x); assert d in a + b; }
    if Targets(b, x) { var d :| d in b && Contains(d, x); assert d in a + b; }
  }

  lemma StepLeast(s: Node, stms1: Lists, edges1: seq<Edge>, stms: Lists, edges: seq<Edge>, edges2: seq<Edge>,
                  gone: set<Node>, e: Edge, gone': set<Node>)
    requires InStep(s, stms1, edges1, stms, edges, gone) && e in edges && Contains(s, e.dest) && e.src.kind.Goto?
    requires forall x :: x in edges1 ==> !(IsJump(x.src) && Contains(s, x.src))
    requires forall x :: x in edges2 ==> x in edges
    requires forall d: set<Node> :: Closed(e.src, edges2, d) ==> gone' <= d
    ensures forall d: set<Node> :: Closed(s, edges1, d) ==> gone + gone' <= d
  {
    forall d: set<Node> | Closed(s, edges1, d)
      ensures gone + gone' <= d
    {
      assert Targets(d, e.dest);
      assert Closed(e.src, edges2, d);
    }
  }

  lemma StepDone(s: Node, stms1: Lists, edges1: seq<Edge>, stms': Lists, edges': seq<Edge>, gone: set<Node>,
                 gone': set<Node>)
    requires stms' == RemoveFrom(stms1, gone + gone') && s !in gone + gone' && forall d :: d in gone' ==> d.kind.Goto?
    requires forall d :: d in gone ==> d.kind.Goto?
    requires EdgesInStep(s, edges1, edges', gone + gone')
    requires forall d: set<Node> :: Closed(s, edges1, d) ==> gone + gone' <= d
    ensures InStep(s, stms1, edges1, stms', edges', gone + gone')
  {
  }

  /** All of it, when the statement itself goes too. */
  lemma RemovedAll(s: Node, kids: Lists, maxDepth: nat, stms0: Lists, stms: Lists, edges0: seq<Edge>, edges1: seq<Edge>,
                   edges: seq<Edge>, gone: set<Node>)
    requires SourcesOutside(s, edges0, edges1) && InStep(s, stms0, edges1, stms, edges, gone) && !s.kind.Block?
    requires ListsOk(stms, kids, maxDepth) && forall e :: e in edges ==> EdgeOk(stms, e) && !Contains(s, e.dest)
    ensures RemoveFrom(stms, {s}) == RemoveFrom(stms0, gone + {s}) && ListsOk(RemoveFrom(stms, {s}), kids, maxDepth)
    ensures forall e :: e in edges ==> EdgeOk(RemoveFrom(stms, {s}), e)
    ensures forall e :: e in edges <==> e in edges0 && !Cut(s, gone + {s}, e)
    ensures Closed(s, edges0, gone + {s}) && forall d: set<Node> :: Closed(s, edges0, d) ==> gone + {s} <= d
  {
    hide Live, RemoveFrom, ListsOk;
    RemoveTwiceIn(stms0, gone, {s}, s, edges1, stms, edges);
    RemoveKeepsLists(stms, kids, maxDepth, {s});
    forall e | e in edges
      ensures EdgeOk(RemoveFrom(stms, {s}), e)
    {
      assert e in edges1;
      SourceOutside(stms, s, e);
      LiveAfter(stms, s, e.src);
      LiveAfter(stms, s, e.dest);
    }
    forall x
      ensures Targets(gone + {s}, x) <==> Targets(gone, x) || Contains(s, x)
    {
      TargetsPlus(gone, {s}, x);
      if Contains(s, x) { assert s in {s}; }
    }
    CutExact(s, stms0, stms, edges0, edges1, edges, gone);
  }

  lemma CutExact(s: Node, stms0: Lists, stms: Lists, edges0: seq<Edge>, edges1: seq<Edge>, edges: seq<Edge>,
                 gone: set<Node>)
    requires SourcesOutside(s, edges0, edges1) && InStep(s, stms0, edges1, stms, edges, gone) && !s.kind.Block?
    requires forall e :: e in edges ==> EdgeOk(stms, e) && !Contains(s, e.dest)
    requires forall x :: Targets(gone + {s}, x) <==> Targets(gone, x) || Contains(s, x)
    ensures forall e :: e in edges <==> e in edges0 && !Cut(s, gone + {s}, e)
    ensures Closed(s, edges0, gone + {s}) && forall d: set<Node> :: Closed(s, edges0, d) ==> gone + {s} <= d
  {
    hide Targets, RemoveFrom;
    assert Contains(s, s);
    forall d: set<Node> | Closed(s, edges0, d)
      ensures gone + {s} <= d
    {
      assert Closed(s, edges1, d);
    }
  }
}
