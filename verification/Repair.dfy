/** After a block has been generated: analyse it, and as long as that fails, delete the statement it failed at and what
  * follows. */
module Repair {
  import opened Deletion

  /** The search for a fixed point, as far as it matters here: none if it succeeds, else the index of the statement that
    * it failed at.  It depends on the statements, the edges, and on whether every statement has to be visited. */
  type Analysis = (Lists, seq<Edge>, bool) -> Option<nat>

  ghost predicate FailsInside(analyse: Analysis, b: Node) {
    forall stms: Lists, edges, visit :: b in stms && analyse(stms, edges, visit).Some? ==>
      analyse(stms, edges, visit).value < |stms[b]|
  }

  ghost predicate Subsequence(xs: seq<Node>, ys: seq<Node>) {
    exists gone: set<Node> :: xs == Without(ys, gone)
  }

  /** What the analysis is given. */
  datatype Pass = Pass(stms: Lists, edges: seq<Edge>)

  function BackEdge(b: Node): Edge {
    Edge(b, b, false, true)
  }

  // --- what is removed

  /** An edge into what has gone, or out of a jump that has. */
  ghost predicate Severed(gone: set<Node>, e: Edge) {
    Targets(gone, e.dest) || e.src in gone || (IsJump(e.src) && Targets(gone, e.src))
  }

  /** A `goto` whose target has gone. */
  ghost predicate Orphaned(edges: seq<Edge>, gone: set<Node>, x: Node) {
    x.kind.Goto? && exists e :: e in edges && e.src == x && Targets(gone, e.dest)
  }

  /** What goes with a statement are that statement and `goto`s. */
  lemma GoneAreGotos(s: Node, edges: seq<Edge>, gone: set<Node>)
    requires forall d: set<Node> :: Closed(s, edges, d) ==> gone <= d
    ensures forall x :: x in gone ==> x == s || x.kind.Goto?
  {
    AllGotosClosed(s, edges);
  }

  /** And these `goto`s have lost their targets. */
  lemma GoneAreOrphaned(s: Node, edges: seq<Edge>, gone: set<Node>)
    requires Closed(s, edges, gone) && forall d: set<Node> :: Closed(s, edges, d) ==> gone <= d
    ensures s in gone && forall x :: x in gone ==> x == s || Orphaned(edges, gone, x)
  {
    hide Contains;
    var d := set x | x in gone && (x == s || Orphaned(edges, gone, x));
    forall e | e in edges && e.src.kind.Goto? && !Contains(s, e.src) && Targets(d, e.dest)
      ensures e.src in d
    {
      assert Targets(gone, e.dest);
    }
    assert Closed(s, edges, d);
  }

  /** Seen from what has gone, the edges that went with a statement are those severed. */
  lemma CutIsSevered(s: Node, gone: set<Node>, e: Edge)
    requires s in gone && (forall x :: x in gone ==> x == s || x.kind.Goto?) && WellPlaced(e.src)
    ensures Cut(s, gone, e) <==> Severed(gone, e)
  {
    if IsJump(e.src) && Targets(gone, e.src) {
      var d :| d in gone && Contains(d, e.src);
      if d != s { LeafContains(d, e.src); }
    }
  }

  lemma SeveredPlus(a: set<Node>, b: set<Node>, e: Edge)
    ensures Severed(a + b, e) <==> Severed(a, e) || Severed(b, e)
  {
    TargetsPlus(a, b, e.dest);
    TargetsPlus(a, b, e.src);
  }

  lemma {:induction false} InsideIsDeeper(s: Node, x: Node)
    requires Contains(s, x)
    ensures Depth(s) <= Depth(x)
    decreases x
  {
    if x != s { InsideIsDeeper(s, x.up.value); }
  }

  /** A block stays when one of its statements goes. */
  lemma BlockStays(stms: Lists, s: Node, b: Node, gone: set<Node>)
    requires Live(stms, b) && WellPlaced(b) && b.kind.Block? && s.up == Some(b)
    requires forall x :: x in gone ==> x == s || x.kind.Goto?
    ensures Live(RemoveFrom(stms, gone), b) && !Targets(gone, b)
  {
    forall d | d in gone
      ensures !Contains(d, b)
    {
      if Contains(d, b) {
        InsideIsDeeper(d, b);
        if d.kind.Goto? { LeafContains(d, b); }
      }
    }
    LiveAfterMany(stms, gone, b);
  }

  lemma StatementIsLive(stms: Lists, kids: Lists, maxDepth: nat, b: Node, i: nat)
    requires ListsOk(stms, kids, maxDepth) && Live(stms, b) && b in stms && i < |stms[b]|
    ensures var s := stms[b][i]; Live(stms, s) && !s.kind.Block? && s.up == Some(b) && b.kind.Block? && WellPlaced(b)
  {
    assert stms[b][i] in stms[b];
  }

  /** What removing a statement of the block comes to. */
  ghost predicate Taken(b: Node, s: Node, was: Pass, now: Pass, gone: set<Node>) {
    && b in was.stms && now.stms == RemoveFrom(was.stms, gone)
    && s in was.stms[b] && s in gone && !Targets(gone, b)
    && (forall x :: x in gone ==> x == s || Orphaned(was.edges, gone, x))
    && (forall e :: e in now.edges <==> e in was.edges && !Severed(gone, e))
    && multiset(now.edges) <= multiset(was.edges)
  }

  /** Delete one statement of the block. */
  method DeleteAt(f: Function, b: Node, i: nat) returns (ghost gone: set<Node>)
    requires f.Valid() && Live(f.stms, b) && b in f.stms && i < |f.stms[b]|
    modifies f
    ensures f.Valid() && Live(f.stms, b) && b in f.stms
    ensures Taken(b, old(f.stms)[b][i], Pass(old(f.stms), old(f.edges)), Pass(f.stms, f.edges), gone)
    ensures |f.stms[b]| < |old(f.stms)[b]|
  {
    hide ListsOk, Live, EdgeOk, Closed, Cut, Conserved, BreaksLeft, NoBreakInside, LoopOf, RemoveFrom, Taken;
    ghost var was := Pass(f.stms, f.edges);
    StatementIsLive(was.stms, f.kids, f.maxDepth, b, i);
    StepSources(f.stms[b][i], f.stms, f.edges);
    var s := f.stms[b][i];
    var cnt: nat;
    cnt, gone := f.RemoveStmt(s);
    GoneAreGotos(s, was.edges, gone);
    BlockStays(was.stms, s, b, gone);
    TakenBy(b, s, was, Pass(f.stms, f.edges), gone);
  }

  lemma TakenBy(b: Node, s: Node, was: Pass, now: Pass, gone: set<Node>)
    requires b in was.stms && s in was.stms[b] && now.stms == RemoveFrom(was.stms, gone) && !Targets(gone, b)
    requires forall e :: e in was.edges ==> EdgeOk(was.stms, e)
    requires Closed(s, was.edges, gone) && forall d: set<Node> :: Closed(s, was.edges, d) ==> gone <= d
    requires forall e :: e in now.edges <==> e in was.edges && !Cut(s, gone, e)
    requires multiset(now.edges) <= multiset(was.edges)
    ensures Taken(b, s, was, now, gone) && b in now.stms && |now.stms[b]| < |was.stms[b]|
  {
    hide Closed, Cut, Severed, Orphaned, Targets, Live;
    GoneAreGotos(s, was.edges, gone);
    GoneAreOrphaned(s, was.edges, gone);
    WithoutShorter(was.stms[b], gone);
    forall e | e in was.edges
      ensures Cut(s, gone, e) <==> Severed(gone, e)
    {
      CutIsSevered(s, gone, e);
    }
  }

  // --- from one pass to the next

  /** In the middle of deleting: all that has gone stood at `index` or after it, or is a `goto` that has lost its
    * target. */
  ghost predicate InRound(b: Node, index: nat, was: Pass, now: Pass, gone: set<Node>) {
    && b in was.stms && index < |was.stms[b]| && now.stms == RemoveFrom(was.stms, gone)
    && (gone != {} ==> was.stms[b][index] in gone) && !Targets(gone, b)
    && (forall x :: x in gone ==> x in was.stms[b][index..] || Orphaned(was.edges, gone, x))
    && (forall e :: e in now.edges <==> e in was.edges && !Severed(gone, e))
    && multiset(now.edges) <= multiset(was.edges)
  }

  lemma {:induction false} WithoutLater(xs: seq<Node>, gone: set<Node>, i: nat)
    requires i < |Without(xs, gone)|
    ensures |Without(xs, gone)| <= |xs| && Without(xs, gone)[i] in xs[i..]
    decreases xs
  {
    WithoutShorter(xs, gone);
    var rest := xs[1..];
    if xs[0] in gone {
      WithoutLater(rest, gone, i);
      assert rest[i..] == xs[i + 1..] && forall x :: x in xs[i + 1..] ==> x in xs[i..];
    } else if i > 0 {
      WithoutLater(rest, gone, i - 1);
      assert rest[i - 1..] == xs[i..];
    }
  }

  lemma RoundMore(b: Node, index: nat, was: Pass, mid: Pass, now: Pass, gone: set<Node>, more: set<Node>)
    requires InRound(b, index, was, mid, gone) && b in mid.stms && index < |mid.stms[b]|
    requires Taken(b, mid.stms[b][index], mid, now, more)
    ensures InRound(b, index, was, now, gone + more)
  {
    hide Severed, Targets, Orphaned, RemoveFrom, Without;
    StillThere(b, index, was.stms, mid.stms, gone);
    RemoveTwice(was.stms, gone, more);
    TargetsPlus(gone, more, b);
    forall e
      ensures Severed(gone + more, e) <==> Severed(gone, e) || Severed(more, e)
    {
      SeveredPlus(gone, more, e);
    }
    forall x | x in gone + more
      ensures x in was.stms[b][index..] || Orphaned(was.edges, gone + more, x)
    {
      if x in gone && Orphaned(was.edges, gone, x) {
        StillOrphaned(was.edges, was.edges, gone, more, x);
      } else if x in more && x != mid.stms[b][index] {
        StillOrphaned(mid.edges, was.edges, more, gone, x);
        assert more + gone == gone + more;
      }
    }
  }

  /** What now stands at `index` stood there or later. */
  lemma StillThere(b: Node, index: nat, was: Lists, now: Lists, gone: set<Node>)
    requires b in was && now == RemoveFrom(was, gone) && index < |now[b]|
    ensures index < |was[b]| && now[b][index] in was[b][index..] && (gone == {} ==> now[b][index] == was[b][index])
  {
    WithoutLater(was[b], gone, index);
    if gone == {} { RemovedNone(was); }
  }

  lemma StillOrphaned(edges: seq<Edge>, edges0: seq<Edge>, gone: set<Node>, more: set<Node>, x: Node)
    requires Orphaned(edges, gone, x) && forall e :: e in edges ==> e in edges0
    ensures Orphaned(edges0, gone + more, x)
  {
    var e :| e in edges && e.src == x && Targets(gone, e.dest);
    TargetsPlus(gone, more, e.dest);
  }

  lemma RemovedNone(stms: Lists)
    ensures stms == RemoveFrom(stms, {})
  {
    forall b | b in stms
      ensures Without(stms[b], {}) == stms[b]
    {
      WithoutNone(stms[b]);
    }
  }

  /** A pass failed at `index`; the next one is for what is left after deleting.  If control can run off what is left,
    * the block has an edge back to its head from then on. */
  ghost predicate Next(b: Node, index: nat, runsOff: bool, was: Pass, now: Pass, gone: set<Node>) {
    && b in was.stms && b in now.stms && index < |was.stms[b]| && now.stms == RemoveFrom(was.stms, gone)
    && was.stms[b][index] in gone && |now.stms[b]| <= index && !Targets(gone, b)
    && (forall x :: x in gone ==> x in was.stms[b][index..] || Orphaned(was.edges, gone, x))
    && (forall e :: e in now.edges <==>
          (e in was.edges && !Severed(gone, e)) || (e == BackEdge(b) && runsOff))
  }

  ghost predicate FollowsOn(b: Node, failed: Option<nat>, runsOff: bool, was: Pass, now: Pass) {
    failed.Some? && exists gone :: Next(b, failed.value, runsOff, was, now, gone)
  }

  /** All passes over a block: the first with an edge back to its head if it is a loop body that control can run off. */
  ghost predicate Passes(b: Node, analyse: Analysis, tailToHead: seq<Node> -> bool, isLoopBody: bool, visit: bool,
                         start: Pass, passes: seq<Pass>) {
    && |passes| > 0 && b in start.stms && passes[0].stms == start.stms
    && passes[0].edges == start.edges + (if isLoopBody && tailToHead(start.stms[b]) then [BackEdge(b)] else [])
    && forall i :: 0 < i < |passes| ==>
         && b in passes[i].stms
         && FollowsOn(b, analyse(passes[i - 1].stms, passes[i - 1].edges, visit || i > 1),
                      tailToHead(passes[i].stms[b]), passes[i - 1], passes[i])
  }

  /** Has the block got an edge back to its head by the i-th pass? */
  ghost predicate TurnsBack(b: Node, tailToHead: seq<Node> -> bool, isLoopBody: bool, passes: seq<Pass>, i: nat)
    requires i < |passes| && forall j :: 0 <= j < |passes| ==> b in passes[j].stms
  {
    (isLoopBody && tailToHead(passes[0].stms[b])) || exists j :: 0 < j <= i && tailToHead(passes[j].stms[b])
  }

  lemma BlockInAll(b: Node, analyse: Analysis, tailToHead: seq<Node> -> bool, isLoopBody: bool, visit: bool,
                   start: Pass, passes: seq<Pass>)
    requires Passes(b, analyse, tailToHead, isLoopBody, visit, start, passes)
    ensures forall j :: 0 <= j < |passes| ==> b in passes[j].stms
  {
    hide FollowsOn;
  }

  /** From the first lists to later ones: what has gone took its edges along, and none is new but the one from the end
    * of the block to its head. */
  ghost predicate EdgesFrom(b: Node, start: Pass, now: Pass, gone: set<Node>, turned: bool) {
    && now.stms == RemoveFrom(start.stms, gone) && !Targets(gone, b)
    && forall e :: e in now.edges <==> (e in start.edges && !Severed(gone, e)) || (e == BackEdge(b) && turned)
  }

  /** At each pass the edges are those from before that nothing removed has severed, and the one from the end of the
    * block to its head if control could run off the block when it was new, as a loop body, or after a round of
    * deletions. */
  lemma {:induction false} EdgesAtPass(b: Node, analyse: Analysis, tailToHead: seq<Node> -> bool, isLoopBody: bool,
                                       visit: bool, start: Pass, passes: seq<Pass>, i: nat)
    requires Passes(b, analyse, tailToHead, isLoopBody, visit, start, passes) && i < |passes|
    requires forall j :: 0 <= j < |passes| ==> b in passes[j].stms
    ensures exists gone :: EdgesFrom(b, start, passes[i], gone, TurnsBack(b, tailToHead, isLoopBody, passes, i))
    decreases i
  {
    hide EdgesFrom, Next;
    if i == 0 {
      FirstEdges(b, start, passes[0], isLoopBody && tailToHead(start.stms[b]));
      assert EdgesFrom(b, start, passes[0], {}, TurnsBack(b, tailToHead, isLoopBody, passes, 0));
    } else {
      EdgesAtPass(b, analyse, tailToHead, isLoopBody, visit, start, passes, i - 1);
      var turned := TurnsBack(b, tailToHead, isLoopBody, passes, i - 1);
      var gone :| EdgesFrom(b, start, passes[i - 1], gone, turned);
      var failed := analyse(passes[i - 1].stms, passes[i - 1].edges, visit || i > 1);
      var runsOff := tailToHead(passes[i].stms[b]);
      assert FollowsOn(b, failed, runsOff, passes[i - 1], passes[i]);
      var more :| Next(b, failed.value, runsOff, passes[i - 1], passes[i], more);
      MoreEdges(b, failed.value, start, passes[i - 1], passes[i], gone, more, turned, runsOff);
      assert TurnsBack(b, tailToHead, isLoopBody, passes, i) == (turned || runsOff);
    }
  }

  lemma FirstEdges(b: Node, start: Pass, now: Pass, turned: bool)
    requires now.stms == start.stms && now.edges == start.edges + (if turned then [BackEdge(b)] else [])
    ensures EdgesFrom(b, start, now, {}, turned)
  {
    RemovedNone(start.stms);
  }

  lemma MoreEdges(b: Node, index: nat, start: Pass, was: Pass, now: Pass, gone: set<Node>, more: set<Node>,
                  turned: bool, runsOff: bool)
    requires EdgesFrom(b, start, was, gone, turned) && Next(b, index, runsOff, was, now, more)
    ensures EdgesFrom(b, start, now, gone + more, turned || runsOff)
  {
    RemoveTwice(start.stms, gone, more);
    TargetsPlus(gone, more, b);
    BackEdgeStays(b, more);
    forall e
      ensures Severed(gone + more, e) <==> Severed(gone, e) || Severed(more, e)
    {
      SeveredPlus(gone, more, e);
    }
    hide Severed, Targets, RemoveFrom, Orphaned, BackEdge;
  }

  // --- how much is deleted

  lemma {:induction false} WithoutSplit(xs: seq<Node>, ys: seq<Node>, gone: set<Node>)
    ensures Without(xs + ys, gone) == Without(xs, gone) + Without(ys, gone)
    decreases xs
  {
    if xs == [] {
      assert xs + ys == ys;
    } else {
      assert (xs + ys)[0] == xs[0] && (xs + ys)[1..] == xs[1..] + ys;
      WithoutSplit(xs[1..], ys, gone);
    }
  }

  lemma {:induction false} WithoutOthers(xs: seq<Node>, gone: set<Node>)
    requires forall x :: x in xs ==> x !in gone
    ensures Without(xs, gone) == xs
    decreases xs
  {
    if xs != [] { WithoutOthers(xs[1..], gone); }
  }

  /** A round deletes all from the failing statement on, and nothing else of the block, if and only if no statement of
    * the block before that one goes along: the index stays the same when the list becomes shorter at its beginning. */
  lemma RoundExact(b: Node, index: nat, runsOff: bool, was: Pass, now: Pass, gone: set<Node>)
    requires Next(b, index, runsOff, was, now, gone)
    ensures now.stms[b] == was.stms[b][..index] <==> forall x :: x in was.stms[b][..index] ==> x !in gone
  {
    var xs, before := was.stms[b], was.stms[b][..index];
    assert xs == before + xs[index..];
    WithoutSplit(before, xs[index..], gone);
    if forall x :: x in before ==> x !in gone {
      WithoutOthers(before, gone);
    }
  }

  /** With `goto L; a; L: s; t` and a failure at `s`, the `goto` goes along, two statements are left, and that is no
    * more than stood before `s`: so `t` stays. */
  lemma LaterSurvives()
    ensures var b := Node(0, Block(true), None);
            var g, a, s, t := Node(1, Goto, Some(b)), Node(2, Plain, Some(b)), Node(3, Plain, Some(b)),
                              Node(4, Plain, Some(b));
            var edges := [Edge(g, s, false, false)];
            && Closed(s, edges, {s, g}) && (forall d: set<Node> :: Closed(s, edges, d) ==> {s, g} <= d)
            && Without([g, a, s, t], {s, g}) == [a, t]
  {
    var b := Node(0, Block(true), None);
    var g, a, s, t := Node(1, Goto, Some(b)), Node(2, Plain, Some(b)), Node(3, Plain, Some(b)), Node(4, Plain, Some(b));
    var edges := [Edge(g, s, false, false)];
    var e := edges[0];
    assert e in edges && !Contains(s, e.src);
    forall d: set<Node> | Closed(s, edges, d)
      ensures {s, g} <= d
    {
      assert Contains(s, s) && Targets(d, e.dest);
    }
    var gone := {s, g};
    assert [g, a, s, t][1..] == [a, s, t] && [a, s, t][1..] == [s, t] && [s, t][1..] == [t] && [t][1..] == [];
    assert Without([t], gone) == [t] && Without([s, t], gone) == [t] && Without([a, s, t], gone) == [a] + [t];
  }

  // --- the method

  /** The loop that turns back from the end of the body to its head gets an edge. */
  method AddBackEdge(f: Function, b: Node)
    requires f.Valid() && Live(f.stms, b) && WellPlaced(b)
    modifies f`edges
    ensures f.Valid() && f.edges == old(f.edges) + [BackEdge(b)]
  {
    hide ListsOk, Live;
    f.edges := f.edges + [BackEdge(b)];
  }

  /** Delete the statement that the analysis failed at and, as far as they are still in their places, those after it. */
  method DeleteRound(f: Function, b: Node, index: nat) returns (ghost gone: set<Node>)
    requires f.Valid() && Live(f.stms, b) && b in f.stms && index < |f.stms[b]|
    modifies f
    ensures f.Valid() && Live(f.stms, b) && b in f.stms && |f.stms[b]| <= index
    ensures InRound(b, index, Pass(old(f.stms), old(f.edges)), Pass(f.stms, f.edges), gone) && gone != {}
  {
    hide ListsOk, Live, EdgeOk, InRound, Taken;
    ghost var was := Pass(f.stms, f.edges);
    gone := {};
    NoneYet(b, index, was);
    while index < |f.stms[b]|
      invariant f.Valid() && Live(f.stms, b) && b in f.stms && InRound(b, index, was, Pass(f.stms, f.edges), gone)
      invariant gone == {} ==> f.stms == was.stms
      decreases |f.stms[b]|
    {
      ghost var mid := Pass(f.stms, f.edges);
      ghost var more := DeleteAt(f, b, index);
      RoundMore(b, index, was, mid, Pass(f.stms, f.edges), gone, more);
      TookOne(b, mid.stms[b][index], mid, Pass(f.stms, f.edges), more);
      gone := gone + more;
    }
  }

  lemma RoundFacts(b: Node, index: nat, was: Pass, now: Pass, gone: set<Node>)
    requires InRound(b, index, was, now, gone)
    ensures multiset(now.edges) <= multiset(was.edges) && (BackEdge(b) in was.edges ==> BackEdge(b) in now.edges)
  {
    BackEdgeStays(b, gone);
  }

  lemma BackEdgeStays(b: Node, gone: set<Node>)
    requires !Targets(gone, b)
    ensures !Severed(gone, BackEdge(b))
  {
    assert Contains(b, b);
  }

  lemma NoneYet(b: Node, index: nat, was: Pass)
    requires b in was.stms && index < |was.stms[b]|
    ensures InRound(b, index, was, was, {})
  {
    RemovedNone(was.stms);
  }

  lemma TookOne(b: Node, s: Node, was: Pass, now: Pass, gone: set<Node>)
    requires Taken(b, s, was, now, gone)
    ensures s in gone
  {
  }

  lemma OneMorePass(b: Node, analyse: Analysis, tailToHead: seq<Node> -> bool, isLoopBody: bool, visit: bool,
                    start: Pass, passes: seq<Pass>, mid: Pass, now: Pass, gone: set<Node>)
    requires Passes(b, analyse, tailToHead, isLoopBody, visit, start, passes)
    requires var last := passes[|passes| - 1];
             var failed := analyse(last.stms, last.edges, visit || |passes| > 1);
             && failed.Some? && InRound(b, failed.value, last, mid, gone) && gone != {} && b in mid.stms
             && |mid.stms[b]| <= failed.value && now.stms == mid.stms
             && forall e :: e in now.edges <==> e in mid.edges || (e == BackEdge(b) && tailToHead(mid.stms[b]))
    ensures Passes(b, analyse, tailToHead, isLoopBody, visit, start, passes + [now])
  {
    hide Next, InRound;
    var last, all := passes[|passes| - 1], passes + [now];
    var failed := analyse(last.stms, last.edges, visit || |passes| > 1);
    RoundDone(b, failed.value, tailToHead(now.stms[b]), last, mid, now, gone);
    assert FollowsOn(b, failed, tailToHead(now.stms[b]), last, now);
    forall i | 0 < i < |all|
      ensures b in all[i].stms
      ensures FollowsOn(b, analyse(all[i - 1].stms, all[i - 1].edges, visit || i > 1), tailToHead(all[i].stms[b]),
                        all[i - 1], all[i])
    {
      if i < |passes| { assert all[i] == passes[i] && all[i - 1] == passes[i - 1]; }
    }
  }

  lemma RoundDone(b: Node, index: nat, runsOff: bool, was: Pass, mid: Pass, now: Pass, gone: set<Node>)
    requires InRound(b, index, was, mid, gone) && gone != {} && b in mid.stms && |mid.stms[b]| <= index
    requires now.stms == mid.stms
    requires forall e :: e in now.edges <==> e in mid.edges || (e == BackEdge(b) && runsOff)
    ensures Next(b, index, runsOff, was, now, gone)
  {
  }

  /** Only blocks that control can come back to are analysed again.  This ends for every analysis, because each failure
    * costs at least one statement; what is left has passed. */
  method PostCreationAnalysis(f: Function, b: Node, analyse: Analysis, tailToHead: seq<Node> -> bool, isLoopBody: bool,
                              needRevisit: bool, hasBackEdge: bool) returns (ghost passes: seq<Pass>)
    requires f.Valid() && Live(f.stms, b) && b in f.stms && WellPlaced(b) && FailsInside(analyse, b)
    modifies f
    ensures f.Valid() && Live(f.stms, b) && b in f.stms
    ensures !isLoopBody && !needRevisit && !hasBackEdge ==> f.stms == old(f.stms) && f.edges == old(f.edges)
    ensures isLoopBody || needRevisit || hasBackEdge ==>
              && Passes(b, analyse, tailToHead, isLoopBody, needRevisit, Pass(old(f.stms), old(f.edges)), passes)
              && Pass(f.stms, f.edges) == passes[|passes| - 1]
              && analyse(f.stms, f.edges, needRevisit || |passes| > 1).None?
    ensures multiset(f.edges)[BackEdge(b)] <= multiset(old(f.edges))[BackEdge(b)] + 1
    ensures Subsequence(f.stms[b], old(f.stms)[b])
    ensures exists gone :: f.stms == RemoveFrom(old(f.stms), gone)
  {
    hide ListsOk, Live, EdgeOk, InRound, Passes, RemoveFrom, FailsInside, Subsequence;
    ghost var start := Pass(f.stms, f.edges);
    passes := [];
    var revisit, selfBackEdge := needRevisit, false;
    RemovedNone(start.stms);
    if !isLoopBody && !needRevisit && !hasBackEdge {
      StillSubsequence(b, start.stms, f.stms, {});
      return;
    }
    if isLoopBody && tailToHead(f.stms[b]) {
      selfBackEdge := true;
      AddBackEdge(f, b);
    }
    passes := [Pass(f.stms, f.edges)];
    OnePass(b, analyse, tailToHead, isLoopBody, needRevisit, start, passes[0]);
    var failed := analyse(f.stms, f.edges, revisit);
    while failed.Some?
      invariant f.Valid() && Live(f.stms, b) && b in f.stms
      invariant Passes(b, analyse, tailToHead, isLoopBody, needRevisit, start, passes)
      invariant |passes| > 0 && Pass(f.stms, f.edges) == passes[|passes| - 1]
      invariant revisit == (needRevisit || |passes| > 1)
      invariant failed == analyse(f.stms, f.edges, revisit)
      invariant selfBackEdge ==> BackEdge(b) in f.edges
      invariant multiset(f.edges)[BackEdge(b)] <= multiset(start.edges)[BackEdge(b)] + (if selfBackEdge then 1 else 0)
      decreases |f.stms[b]|
    {
      FailedInside(b, analyse, f.stms, f.edges, revisit);
      ghost var gone := DeleteRound(f, b, failed.value);
      ghost var mid := Pass(f.stms, f.edges);
      RoundFacts(b, failed.value, passes[|passes| - 1], mid, gone);
      revisit := true;
      if !selfBackEdge && tailToHead(f.stms[b]) {
        selfBackEdge := true;
        AddBackEdge(f, b);
      }
      OneMorePass(b, analyse, tailToHead, isLoopBody, needRevisit, start, passes, mid, Pass(f.stms, f.edges),
                  gone);
      passes := passes + [Pass(f.stms, f.edges)];
      failed := analyse(f.stms, f.edges, revisit);
    }
    WhatIsLeft(b, analyse, tailToHead, isLoopBody, needRevisit, start, passes);
  }

  lemma WhatIsLeft(b: Node, analyse: Analysis, tailToHead: seq<Node> -> bool, isLoopBody: bool, visit: bool,
                   start: Pass, passes: seq<Pass>)
    requires Passes(b, analyse, tailToHead, isLoopBody, visit, start, passes)
    ensures var now := passes[|passes| - 1].stms;
            && b in now && b in start.stms && Subsequence(now[b], start.stms[b])
            && exists gone :: now == RemoveFrom(start.stms, gone)
  {
    hide Subsequence, Next;
    BlockInAll(b, analyse, tailToHead, isLoopBody, visit, start, passes);
    EdgesAtPass(b, analyse, tailToHead, isLoopBody, visit, start, passes, |passes| - 1);
    var last := passes[|passes| - 1];
    var gone :| EdgesFrom(b, start, last, gone, TurnsBack(b, tailToHead, isLoopBody, passes, |passes| - 1));
    StillSubsequence(b, start.stms, last.stms, gone);
  }

  lemma StillSubsequence(b: Node, start: Lists, now: Lists, gone: set<Node>)
    requires b in start && now == RemoveFrom(start, gone)
    ensures b in now && Subsequence(now[b], start[b])
  {
  }

  lemma FailedInside(b: Node, analyse: Analysis, stms: Lists, edges: seq<Edge>, visit: bool)
    requires FailsInside(analyse, b) && b in stms && analyse(stms, edges, visit).Some?
    ensures analyse(stms, edges, visit).value < |stms[b]|
  {
  }

  lemma OnePass(b: Node, analyse: Analysis, tailToHead: seq<Node> -> bool, isLoopBody: bool, visit: bool, start: Pass,
                first: Pass)
    requires b in start.stms && first.stms == start.stms
    requires first.edges == start.edges + (if isLoopBody && tailToHead(start.stms[b]) then [BackEdge(b)] else [])
    ensures Passes(b, analyse, tailToHead, isLoopBody, visit, start, [first])
  {
  }
}
