/** Exhaustive search by replay: a client is run again and again from scratch; a generator of "random" numbers replays
  * the choices of the previous run and switches the last one. */
module Replay {
  import opened Language
  import opened Lexicographic

  /** What a deterministic client asks for: a leaf is a finished program, a guard says how much depth is still
    * needed. */
  datatype Tree =
    | Leaf
    | Guard(needed: int, rest: Tree)
    | Choice(filter: set<nat>, invalid: seq<nat>, kids: seq<Tree>)

  predicate Rejected(t: Tree, v: nat)
    requires t.Choice?
  {
    v in t.filter || v in t.invalid
  }

  /** The first value from `v` on that is not filtered out, or the bound. */
  function Next(t: Tree, v: nat): (r: nat)
    requires t.Choice? && v <= |t.kids|
    ensures v <= r <= |t.kids|
    ensures forall j :: v <= j < r ==> Rejected(t, j)
    ensures r < |t.kids| ==> !Rejected(t, r)
    decreases |t.kids| - v
  {
    if v == |t.kids| || !Rejected(t, v) then v else Next(t, v + 1)
  }

  /** After choice number `pos`, too little depth is left. */
  predicate Pruned(needed: int, pos: int, m: int) {
    pos > 0 && m - pos < needed
  }

  function Prefix(v: nat, ps: seq<seq<nat>>): (r: seq<seq<nat>>)
    ensures |r| == |ps| && forall i :: 0 <= i < |r| ==> r[i] == [v] + ps[i]
  {
    seq(|ps|, i requires 0 <= i < |ps| => [v] + ps[i])
  }

  /** The choices that lead to each leaf, from the smallest to the largest. */
  function Leaves(t: Tree, pos: int, m: int): seq<seq<nat>>
    decreases t, 1, 0
  {
    match t
    case Leaf => [[]]
    case Guard(needed, rest) => if Pruned(needed, pos, m) then [] else Leaves(rest, pos, m)
    case Choice(_, _, _) => if pos + 1 >= m then [] else LeavesFrom(t, 0, pos, m)
  }

  function LeavesFrom(t: Tree, v: nat, pos: int, m: int): seq<seq<nat>>
    requires t.Choice? && v <= |t.kids|
    decreases t, 0, |t.kids| - v
  {
    if v == |t.kids| then []
    else (if Rejected(t, v) then [] else Prefix(v, Leaves(t.kids[v], pos + 1, m))) + LeavesFrom(t, v + 1, pos, m)
  }

  // --- one run, as a function

  /** `vs` are the values decided so far; everything below the last of them has been explored. */
  predicate Consistent(t: Tree, pos: int, m: int, vs: seq<nat>)
    decreases t
  {
    vs != [] ==>
      match t
      case Leaf => false
      case Guard(needed, rest) => !Pruned(needed, pos, m) && Consistent(rest, pos, m, vs)
      case Choice(_, _, kids) =>
        pos + 1 < m && vs[0] < |kids| && !Rejected(t, vs[0]) && Consistent(kids[vs[0]], pos + 1, m, vs[1..])
  }

  /** What is left to be found below `t`. */
  function Remaining(t: Tree, pos: int, m: int, vs: seq<nat>): seq<seq<nat>>
    requires Consistent(t, pos, m, vs)
    decreases t
  {
    if vs == [] then Leaves(t, pos, m)
    else
      match t
      case Guard(_, rest) => Remaining(rest, pos, m, vs)
      case Choice(_, _, kids) =>
        (if |vs| == 1 then [] else Prefix(vs[0], Remaining(kids[vs[0]], pos + 1, m, vs[1..])))
        + LeavesFrom(t, vs[0] + 1, pos, m)
  }

  /** Leaves and inner nodes still to be met: what every run makes smaller. */
  function Work(t: Tree, pos: int, m: int, vs: seq<nat>): (w: nat)
    requires Consistent(t, pos, m, vs)
    ensures w > 0
    decreases t, 1, 0
  {
    match t
    case Leaf => 1
    case Guard(needed, rest) => if vs == [] && Pruned(needed, pos, m) then 1 else Work(rest, pos, m, vs)
    case Choice(_, _, kids) =>
      if vs == [] then 1 + WorkFrom(t, 0, pos, m)
      else (if |vs| == 1 then 0 else Work(kids[vs[0]], pos + 1, m, vs[1..])) + 1 + WorkFrom(t, vs[0] + 1, pos, m)
  }

  function WorkFrom(t: Tree, v: nat, pos: int, m: int): nat
    requires t.Choice? && v <= |t.kids|
    decreases t, 0, |t.kids| - v
  {
    if v == |t.kids| then 0 else Work(t.kids[v], pos + 1, m, []) + WorkFrom(t, v + 1, pos, m)
  }

  /** The result of a run: the choices that led to a leaf, if one was reached, and the values now decided. */
  datatype Run = Run(out: Option<seq<nat>>, vs: seq<nat>)

  function Chosen(v: nat, r: Run): Run {
    Run(if r.out.Some? then Some([v] + r.out.value) else None, [v] + r.vs)
  }

  function Step(t: Tree, pos: int, m: int, vs: seq<nat>): (r: Run)
    requires Consistent(t, pos, m, vs)
    ensures Consistent(t, pos, m, r.vs)
    decreases t
  {
    match t
    case Leaf => Run(Some([]), [])
    case Guard(needed, rest) => if Pruned(needed, pos, m) then Run(None, []) else Step(rest, pos, m, vs)
    case Choice(_, _, kids) =>
      if pos + 1 >= m then Run(None, [])
      else if |vs| > 1 then Chosen(vs[0], Step(kids[vs[0]], pos + 1, m, vs[1..]))
      else
        var v := Next(t, if vs == [] then 0 else vs[0] + 1);
        if v == |kids| then Run(None, []) else Chosen(v, Step(kids[v], pos + 1, m, []))
  }

  function Found(o: Option<seq<nat>>): seq<seq<nat>> {
    if o.Some? then [o.value] else []
  }

  function Rest(t: Tree, pos: int, m: int, vs: seq<nat>): seq<seq<nat>>
    requires Consistent(t, pos, m, vs)
  {
    if vs == [] then [] else Remaining(t, pos, m, vs)
  }

  lemma {:induction false} SkipRejected(t: Tree, v: nat, pos: int, m: int)
    requires t.Choice? && v <= |t.kids|
    ensures LeavesFrom(t, v, pos, m) == LeavesFrom(t, Next(t, v), pos, m)
    ensures WorkFrom(t, Next(t, v), pos, m) <= WorkFrom(t, v, pos, m)
    decreases |t.kids| - v
  {
    if v < |t.kids| && Rejected(t, v) {
      SkipRejected(t, v + 1, pos, m);
      assert LeavesFrom(t, v, pos, m) == LeavesFrom(t, v + 1, pos, m);
    }
  }

  lemma PrefixPlus(v: nat, a: seq<seq<nat>>, b: seq<seq<nat>>)
    ensures Prefix(v, a + b) == Prefix(v, a) + Prefix(v, b)
  {
  }

  /** A run finds the next of the remaining leaves, or none. */
  lemma {:induction false} StepFinds(t: Tree, pos: int, m: int, vs: seq<nat>)
    requires Consistent(t, pos, m, vs)
    ensures var r := Step(t, pos, m, vs); Remaining(t, pos, m, vs) == Found(r.out) + Rest(t, pos, m, r.vs)
    decreases t
  {
    match t
    case Leaf =>
    case Guard(needed, rest) =>
      if !Pruned(needed, pos, m) { StepFinds(rest, pos, m, vs); }
    case Choice(_, _, kids) =>
      if pos + 1 < m {
        if |vs| > 1 {
          StepFinds(kids[vs[0]], pos + 1, m, vs[1..]);
          DeeperFinds(t, pos, m, vs);
        } else {
          var v := Next(t, if vs == [] then 0 else vs[0] + 1);
          if v < |kids| { StepFinds(kids[v], pos + 1, m, []); }
          SwitchFinds(t, pos, m, vs, v);
        }
      }
  }

  lemma DeeperFinds(t: Tree, pos: int, m: int, vs: seq<nat>)
    requires t.Choice? && Consistent(t, pos, m, vs) && |vs| > 1
    requires var kid := t.kids[vs[0]]; var r := Step(kid, pos + 1, m, vs[1..]);
             Remaining(kid, pos + 1, m, vs[1..]) == Found(r.out) + Rest(kid, pos + 1, m, r.vs)
    ensures var r := Step(t, pos, m, vs); Remaining(t, pos, m, vs) == Found(r.out) + Rest(t, pos, m, r.vs)
  {
    hide LeavesFrom;
    var kid := t.kids[vs[0]];
    ChoiceFinds(t, pos, m, vs[0], Remaining(kid, pos + 1, m, vs[1..]), Step(kid, pos + 1, m, vs[1..]));
  }

  lemma LeavesAt(t: Tree, v: nat, pos: int, m: int)
    requires t.Choice? && v < |t.kids| && !Rejected(t, v)
    ensures LeavesFrom(t, v, pos, m) == Prefix(v, Leaves(t.kids[v], pos + 1, m)) + LeavesFrom(t, v + 1, pos, m)
  {
    hide Leaves;
  }

  lemma SwitchFinds(t: Tree, pos: int, m: int, vs: seq<nat>, v: nat)
    requires t.Choice? && Consistent(t, pos, m, vs) && |vs| <= 1 && pos + 1 < m
    requires v == Next(t, if vs == [] then 0 else vs[0] + 1)
    requires v < |t.kids| ==>
               var r := Step(t.kids[v], pos + 1, m, []);
               Leaves(t.kids[v], pos + 1, m) == Found(r.out) + Rest(t.kids[v], pos + 1, m, r.vs)
    ensures var r := Step(t, pos, m, vs); Remaining(t, pos, m, vs) == Found(r.out) + Rest(t, pos, m, r.vs)
  {
    var from := if vs == [] then 0 else vs[0] + 1;
    SkipRejected(t, from, pos, m);
    assert Remaining(t, pos, m, vs) == LeavesFrom(t, v, pos, m);
    if v == |t.kids| {
      assert LeavesFrom(t, v, pos, m) == [];
    } else {
      hide LeavesFrom, Remaining, Consistent;
      var all := Leaves(t.kids[v], pos + 1, m);
      LeavesAt(t, v, pos, m);
      ChoiceFinds(t, pos, m, v, all, Step(t.kids[v], pos + 1, m, []));
    }
  }

  /** Every run gets closer to the end. */
  lemma {:induction false} StepShrinks(t: Tree, pos: int, m: int, vs: seq<nat>)
    requires Consistent(t, pos, m, vs)
    ensures var r := Step(t, pos, m, vs); r.vs != [] ==> Work(t, pos, m, r.vs) < Work(t, pos, m, vs)
    decreases t
  {
    match t
    case Leaf =>
    case Guard(needed, rest) =>
      if !Pruned(needed, pos, m) { StepShrinks(rest, pos, m, vs); }
    case Choice(_, _, kids) =>
      if pos + 1 < m {
        if |vs| > 1 {
          StepShrinks(kids[vs[0]], pos + 1, m, vs[1..]);
          ChoiceShrinks(t, pos, m, vs[0], vs[1..], Step(kids[vs[0]], pos + 1, m, vs[1..]));
        } else {
          var from := if vs == [] then 0 else vs[0] + 1;
          var v := Next(t, from);
          SkipRejected(t, from, pos, m);
          if v < |kids| {
            StepShrinks(kids[v], pos + 1, m, []);
            ChoiceShrinks(t, pos, m, v, [], Step(kids[v], pos + 1, m, []));
          }
        }
      }
  }

  lemma ChoiceShrinks(t: Tree, pos: int, m: int, v: nat, vs: seq<nat>, r: Run)
    requires t.Choice? && v < |t.kids| && !Rejected(t, v) && pos + 1 < m
    requires Consistent(t.kids[v], pos + 1, m, vs) && Consistent(t.kids[v], pos + 1, m, r.vs)
    requires r.vs != [] ==> Work(t.kids[v], pos + 1, m, r.vs) < Work(t.kids[v], pos + 1, m, vs)
    ensures var c := Chosen(v, r);
            && Consistent(t, pos, m, c.vs)
            && Work(t, pos, m, c.vs) < Work(t.kids[v], pos + 1, m, vs) + 1 + WorkFrom(t, v + 1, pos, m)
  {
    var c := Chosen(v, r);
    assert c.vs[0] == v && c.vs[1..] == r.vs;
  }

  lemma ChoiceFinds(t: Tree, pos: int, m: int, v: nat, all: seq<seq<nat>>, r: Run)
    requires t.Choice? && v < |t.kids| && !Rejected(t, v) && pos + 1 < m && Consistent(t.kids[v], pos + 1, m, r.vs)
    requires all == Found(r.out) + Rest(t.kids[v], pos + 1, m, r.vs)
    ensures var c := Chosen(v, r);
            && Consistent(t, pos, m, c.vs)
            && Prefix(v, all) + LeavesFrom(t, v + 1, pos, m) == Found(c.out) + Rest(t, pos, m, c.vs)
  {
    var c, rest := Chosen(v, r), Rest(t.kids[v], pos + 1, m, r.vs);
    RestOfChoice(t, pos, m, v, r.vs);
    hide *;
    PrefixPlus(v, Found(r.out), rest);
    PrefixFound(v, r);
    Regroup(Found(c.out), Prefix(v, rest), LeavesFrom(t, v + 1, pos, m));
  }

  lemma Regroup(a: seq<seq<nat>>, b: seq<seq<nat>>, c: seq<seq<nat>>)
    ensures a + b + c == a + (b + c)
  {
  }

  lemma PrefixFound(v: nat, r: Run)
    ensures Prefix(v, Found(r.out)) == Found(Chosen(v, r).out) && Chosen(v, r).vs == [v] + r.vs
  {
  }

  lemma RestOfChoice(t: Tree, pos: int, m: int, v: nat, vs: seq<nat>)
    requires t.Choice? && v < |t.kids| && !Rejected(t, v) && pos + 1 < m && Consistent(t.kids[v], pos + 1, m, vs)
    ensures Consistent(t, pos, m, [v] + vs)
    ensures Rest(t, pos, m, [v] + vs) == Prefix(v, Rest(t.kids[v], pos + 1, m, vs)) + LeavesFrom(t, v + 1, pos, m)
  {
    hide LeavesFrom, Leaves;
    assert ([v] + vs)[0] == v && ([v] + vs)[1..] == vs;
    if vs == [] { assert Prefix(v, []) == []; }
  }

  // --- which leaves, and in which order

  predicate Reaches(t: Tree, pos: int, m: int, p: seq<nat>)
    decreases t
  {
    match t
    case Leaf => p == []
    case Guard(needed, rest) => !Pruned(needed, pos, m) && Reaches(rest, pos, m, p)
    case Choice(_, _, kids) =>
      pos + 1 < m && p != [] && p[0] < |kids| && !Rejected(t, p[0]) && Reaches(kids[p[0]], pos + 1, m, p[1..])
  }

  /** The leaves are those that no filter rejects and no guard or depth limit cuts off. */
  lemma {:induction false} LeavesExact(t: Tree, pos: int, m: int, p: seq<nat>)
    ensures p in Leaves(t, pos, m) <==> Reaches(t, pos, m, p)
    decreases t, 1, 0
  {
    match t
    case Leaf =>
    case Guard(needed, rest) => LeavesExact(rest, pos, m, p);
    case Choice(_, _, _) =>
      if pos + 1 < m { LeavesFromExact(t, 0, pos, m, p); }
  }

  lemma {:induction false} LeavesFromExact(t: Tree, v: nat, pos: int, m: int, p: seq<nat>)
    requires t.Choice? && v <= |t.kids|
    ensures p in LeavesFrom(t, v, pos, m) <==>
              p != [] && v <= p[0] < |t.kids| && !Rejected(t, p[0]) && Reaches(t.kids[p[0]], pos + 1, m, p[1..])
    decreases t, 0, |t.kids| - v
  {
    if v < |t.kids| {
      LeavesFromExact(t, v + 1, pos, m, p);
      InPrefix(v, Leaves(t.kids[v], pos + 1, m), p);
      if p != [] { LeavesExact(t.kids[v], pos + 1, m, p[1..]); }
    }
  }

  /** What a program was asked on its way, after choice number `at`: how much depth is needed, or for a number. */
  datatype Met = MetGuard(needed: int, at: int) | MetChoice(filter: set<nat>, invalid: seq<nat>, v: nat, at: int)

  /** Do the choices lead to a finished program, if nothing rejects them? */
  predicate Finishes(t: Tree, p: seq<nat>)
    decreases t
  {
    match t
    case Leaf => p == []
    case Guard(_, rest) => Finishes(rest, p)
    case Choice(_, _, kids) => p != [] && p[0] < |kids| && Finishes(kids[p[0]], p[1..])
  }

  function OnTheWay(t: Tree, at: int, p: seq<nat>): seq<Met>
    requires Finishes(t, p)
    decreases t
  {
    match t
    case Leaf => []
    case Guard(needed, rest) => [MetGuard(needed, at)] + OnTheWay(rest, at, p)
    case Choice(filter, invalid, kids) =>
      [MetChoice(filter, invalid, p[0], at)] + OnTheWay(kids[p[0]], at + 1, p[1..])
  }

  /** Enough depth is left - which is not asked before the second choice - and the number is neither filtered out nor
    * among the invalid ones. */
  predicate Allowed(met: Met, m: int) {
    match met
    case MetGuard(needed, at) => at <= 0 || needed <= m - at
    case MetChoice(filter, invalid, v, at) => at + 1 < m && v !in filter && v !in invalid
  }

  ghost predicate Generated(t: Tree, at: int, m: int, p: seq<nat>) {
    Finishes(t, p) && forall i :: 0 <= i < |OnTheWay(t, at, p)| ==> Allowed(OnTheWay(t, at, p)[i], m)
  }

  /** A program is reached exactly if all that is asked on its way allows it. */
  lemma {:induction false} ReachesIff(t: Tree, at: int, m: int, p: seq<nat>)
    ensures Reaches(t, at, m, p) <==> Generated(t, at, m, p)
    decreases t
  {
    if Finishes(t, p) {
      var mets := OnTheWay(t, at, p);
      match t
      case Leaf =>
      case Guard(needed, rest) =>
        ReachesIff(rest, at, m, p);
        FirstAndRest(MetGuard(needed, at), OnTheWay(rest, at, p), m);
      case Choice(filter, invalid, kids) =>
        ReachesIff(kids[p[0]], at + 1, m, p[1..]);
        FirstAndRest(MetChoice(filter, invalid, p[0], at), OnTheWay(kids[p[0]], at + 1, p[1..]), m);
    } else if Reaches(t, at, m, p) {
      ReachesFinishes(t, at, m, p);
    }
  }

  lemma FirstAndRest(met: Met, rest: seq<Met>, m: int)
    ensures (forall i :: 0 <= i < |[met] + rest| ==> Allowed(([met] + rest)[i], m)) <==>
              Allowed(met, m) && forall i :: 0 <= i < |rest| ==> Allowed(rest[i], m)
  {
    var all := [met] + rest;
    assert all[0] == met;
    if forall i :: 0 <= i < |all| ==> Allowed(all[i], m) {
      forall i | 0 <= i < |rest|
        ensures Allowed(rest[i], m)
      {
        assert all[i + 1] == rest[i];
      }
    }
  }

  lemma {:induction false} ReachesFinishes(t: Tree, at: int, m: int, p: seq<nat>)
    requires Reaches(t, at, m, p)
    ensures Finishes(t, p)
    decreases t
  {
    match t
    case Leaf =>
    case Guard(_, rest) => ReachesFinishes(rest, at, m, p);
    case Choice(_, _, kids) => ReachesFinishes(kids[p[0]], at + 1, m, p[1..]);
  }

  lemma InPrefix(v: nat, ps: seq<seq<nat>>, p: seq<nat>)
    ensures p in Prefix(v, ps) <==> p != [] && p[0] == v && p[1..] in ps
  {
    if p != [] && p[0] == v && p[1..] in ps {
      var i :| 0 <= i < |ps| && ps[i] == p[1..];
      assert Prefix(v, ps)[i] == [v] + p[1..] == p;
    }
    if p in Prefix(v, ps) {
      var i :| 0 <= i < |ps| && p == [v] + ps[i];
      assert p[1..] == ps[i];
    }
  }

  lemma {:induction false} LeavesSorted(t: Tree, pos: int, m: int)
    ensures Increasing(Leaves(t, pos, m))
    decreases t, 1, 0
  {
    match t
    case Leaf =>
    case Guard(needed, rest) => LeavesSorted(rest, pos, m);
    case Choice(_, _, _) =>
      if pos + 1 < m { LeavesFromSorted(t, 0, pos, m); }
  }

  lemma {:induction false} LeavesFromSorted(t: Tree, v: nat, pos: int, m: int)
    requires t.Choice? && v <= |t.kids|
    ensures Increasing(LeavesFrom(t, v, pos, m))
    decreases t, 0, |t.kids| - v
  {
    if v < |t.kids| {
      LeavesFromSorted(t, v + 1, pos, m);
      if !Rejected(t, v) {
        var ps, qs := Leaves(t.kids[v], pos + 1, m), LeavesFrom(t, v + 1, pos, m);
        LeavesSorted(t.kids[v], pos + 1, m);
        forall j | 0 <= j < |qs|
          ensures qs[j] != [] && v < qs[j][0]
        {
          LeavesFromExact(t, v + 1, pos, m, qs[j]);
        }
        SortedPlus(v, ps, qs);
      }
    }
  }

  lemma SortedPlus(v: nat, ps: seq<seq<nat>>, qs: seq<seq<nat>>)
    requires Increasing(ps) && Increasing(qs) && forall j :: 0 <= j < |qs| ==> qs[j] != [] && v < qs[j][0]
    ensures Increasing(Prefix(v, ps) + qs)
  {
    var all := Prefix(v, ps) + qs;
    forall i, j | 0 <= i < j < |all|
      ensures Less(all[i], all[j])
    {
      if j < |ps| {
        assert all[i][1..] == ps[i] && all[j][1..] == ps[j];
      } else if i >= |ps| {
        assert all[i] == qs[i - |ps|] && all[j] == qs[j - |ps|];
      }
    }
  }

  // --- the generator

  datatype SearchState = SearchState(init: bool, value: nat, bound: nat)

  datatype Error = Success | Backtracking | ExceedMaxDepth

  class DFSRndNumGenerator {
    const states: array<SearchState>
    var decisionDepth: int
    var currentPos: int
    var allDone: bool
    var numbers: seq<nat>
    var error: Error

    ghost predicate Valid()
      reads this, states
    {
      && states.Length > 0
      && -1 <= decisionDepth < states.Length && -1 <= currentPos
      && (forall i :: 0 <= i <= decisionDepth ==> states[i].init)
      && (forall i :: decisionDepth < i < states.Length ==> !states[i].init)
    }

    /** The values decided so far. */
    ghost function Path(): (r: seq<nat>)
      requires Valid()
      reads this, states
      ensures |r| == decisionDepth + 1 && forall i :: 0 <= i < |r| ==> r[i] == states[i].value
    {
      seq(decisionDepth + 1, i requires 0 <= i <= decisionDepth reads this, states requires Valid() => states[i].value)
    }

    constructor (maxDepth: nat)
      requires maxDepth > 0
      ensures Valid() && fresh(states) && states.Length == maxDepth && Path() == []
      ensures currentPos == -1 && !allDone && numbers == []
    {
      states := new SearchState[maxDepth](_ => SearchState(false, 0, 0));
      decisionDepth, currentPos, allDone, numbers, error := -1, -1, false, [], Success;
    }

    /** Forget all states from `from` on. */
    method ResetFrom(from: nat)
      requires from <= states.Length
      modifies states
      ensures forall i :: 0 <= i < from ==> states[i] == old(states[i])
      ensures forall i :: from <= i < states.Length ==> !states[i].init
    {
      for i := from to states.Length
        invariant forall j :: 0 <= j < from || i <= j < states.Length ==> states[j] == old(states[j])
        invariant forall j :: from <= j < i ==> !states[j].init
      {
        states[i] := states[i].(init := false);
      }
    }

    method RandomChoice(t: Tree) returns (rv: int)
      requires Valid() && t.Choice? && error == Success && currentPos <= decisionDepth
      requires currentPos + 1 < decisionDepth ==> Path()[currentPos + 1] < |t.kids|
      requires currentPos + 1 == decisionDepth ==> Path()[decisionDepth] < |t.kids|
      requires !allDone
      modifies this, states
      ensures Valid()
      ensures var pos, path := old(currentPos) + 1, old(Path());
              if pos >= states.Length then
                error == ExceedMaxDepth && Path() == path && !allDone
              else if pos < |path| - 1 then
                error == Success && Path() == path && rv == path[pos] && !allDone
              else
                var v := Next(t, if pos == |path| then 0 else path[pos] + 1);
                if v == |t.kids| then error == Backtracking && Path() == path[..pos] && (allDone <==> pos == 0)
                else error == Success && Path() == path[..pos] + [v] && rv == v && !allDone
      ensures error == Success ==> currentPos == old(currentPos) + 1 && numbers == old(numbers) + [rv]
    {
      hide Next;
      currentPos := currentPos + 1;
      if currentPos >= states.Length || decisionDepth >= states.Length {
        error := ExceedMaxDepth;
        return -1;
      }
      ghost var path := Path();
      var bound := |t.kids|;
      var pos := currentPos;
      if pos < decisionDepth && states[pos].init {
        rv := RevisitNode(pos, bound);
        return;
      }
      var v: nat;
      if states[pos].init {
        v := Switch(t, pos);
      } else {
        v := FirstVisit(t, pos);
      }
      if v >= bound {
        assert pos == decisionDepth && Path()[..pos] == path[..pos];
        GiveUp(pos);
        return -1;
      }
      assert Path() == path[..pos] + [v];
      numbers := numbers + [v];
      return v;
    }

    /** Replay a decision. */
    method RevisitNode(pos: nat, bound: nat) returns (rv: nat)
      requires Valid() && pos < decisionDepth
      modifies states, `numbers
      ensures Valid() && Path() == old(Path()) && rv == Path()[pos] && numbers == old(numbers) + [rv]
    {
      ghost var path := Path();
      rv := states[pos].value;
      states[pos] := states[pos].(bound := bound);
      numbers := numbers + [rv];
      assert Path() == path;
    }

    /** No value is left for the last decision: go back to the one before it, if there is one. */
    method GiveUp(pos: nat)
      requires Valid() && pos == decisionDepth && !allDone
      modifies states, `decisionDepth, `allDone, `error
      ensures Valid() && Path() == old(Path())[..pos] && error == Backtracking && (allDone <==> pos == 0)
    {
      ResetFrom(pos);
      decisionDepth := decisionDepth - 1;
      if decisionDepth < 0 { allDone := true; }
      error := Backtracking;
    }

    /** Move the last decision on to the next value that is not filtered out. */
    method Switch(t: Tree, pos: nat) returns (v: nat)
      requires Valid() && t.Choice? && pos == decisionDepth && states[pos].value < |t.kids|
      modifies states
      ensures Valid() && v == Next(t, old(states[pos].value) + 1) && states[pos].value == v
      ensures forall i :: 0 <= i < pos ==> states[i] == old(states[i])
    {
      v := states[pos].value;
      ghost var from := v + 1;
      v := v + 1;
      states[pos] := states[pos].(value := v, bound := |t.kids|);
      while v < |t.kids| && (v in t.filter || v in t.invalid)
        invariant Valid() && from <= v <= |t.kids| && Next(t, v) == Next(t, from) && states[pos].value == v
        invariant forall i :: 0 <= i < pos ==> states[i] == old(states[i])
      {
        v := v + 1;
        states[pos] := states[pos].(value := v);
      }
    }

    /** A node not met before: decide on the first value that is not filtered out. */
    method FirstVisit(t: Tree, pos: nat) returns (v: nat)
      requires Valid() && t.Choice? && pos == decisionDepth + 1 && pos < states.Length && currentPos == pos
      modifies states, `decisionDepth
      ensures Valid() && v == Next(t, 0) && states[pos].value == v && decisionDepth == pos
      ensures forall i :: 0 <= i < pos ==> states[i] == old(states[i])
    {
      v := 0;
      decisionDepth := decisionDepth + 1;
      states[pos] := SearchState(true, v, |t.kids|);
      while v < |t.kids| && (v in t.filter || v in t.invalid)
        invariant Valid() && v <= |t.kids| && Next(t, v) == Next(t, 0) && decisionDepth == pos
        invariant forall i :: 0 <= i < pos ==> states[i] == old(states[i])
      {
        for i := decisionDepth to states.Length
          invariant Valid() && decisionDepth == pos
          invariant forall j :: 0 <= j < pos ==> states[j] == old(states[j])
        {
          states[i] := states[i].(value := 0);
        }
        decisionDepth := pos;
        v := v + 1;
      }
      decisionDepth := pos;
      states[pos] := states[pos].(value := v);
    }

    /** Give up early when the depth left cannot be enough. */
    method EagerBacktracking(needed: int) returns (pruned: bool)
      requires Valid() && error == Success
      modifies this, states
      ensures Valid() && pruned == Pruned(needed, currentPos, states.Length)
      ensures currentPos == old(currentPos) && allDone == old(allDone) && numbers == old(numbers)
      ensures if pruned
              then error == Backtracking
                   && Path() == if currentPos < |old(Path())| then old(Path())[..currentPos + 1] else old(Path())
              else error == Success && Path() == old(Path())
    {
      if currentPos <= 0 { return false; }
      if states.Length - currentPos >= needed { return false; }
      if currentPos > decisionDepth {
        error := Backtracking;
        return true;
      }
      decisionDepth := currentPos;
      ResetFrom(currentPos + 1);
      error := Backtracking;
      return true;
    }

    method ResetState()
      requires Valid()
      modifies this
      ensures Valid() && Path() == old(Path()) && currentPos == -1 && numbers == []
      ensures allDone == old(allDone) && error == old(error)
    {
      currentPos := -1;
      numbers := [];
    }
  }

  /** Is there a choice before anything is finished? */
  predicate HasChoice(t: Tree)
    decreases t
  {
    match t
    case Leaf => false
    case Guard(_, rest) => HasChoice(rest)
    case Choice(_, _, _) => true
  }

  /** What a run below choice number `pos` makes of the values decided so far and of the numbers handed out. */
  ghost predicate Ran(t: Tree, pos: int, m: int, path: seq<nat>, numbers: seq<nat>, path': seq<nat>, numbers': seq<nat>,
                      ok: bool, done: bool)
    requires -1 <= pos < |path| && Consistent(t, pos, m, path[pos + 1..])
  {
    var r := Step(t, pos, m, path[pos + 1..]);
    && path' == path[..pos + 1] + r.vs
    && (ok <==> r.out.Some?)
    && (r.out.Some? ==> numbers' == numbers + r.out.value)
    && (done <==> HasChoice(t) && path' == [])
  }

  /** Value `v` was replayed, or is the one that is switched to. */
  ghost predicate Made(t: Tree, pos: int, path: seq<nat>, v: nat, path1: seq<nat>)
    requires t.Choice? && -1 <= pos < |path|
  {
    if pos + 1 < |path| - 1 then path1 == path && v == path[pos + 1]
    else
      && (pos + 1 == |path| - 1 ==> path[pos + 1] < |t.kids|)
      && path1 == path[..pos + 1] + [v] && v == Next(t, if pos + 1 == |path| then 0 else path[pos + 1] + 1)
  }

  /** A choice that was made, and the run below it. */
  lemma ChoiceRan(t: Tree, pos: int, m: int, path: seq<nat>, numbers: seq<nat>, v: nat, path1: seq<nat>,
                  path': seq<nat>, numbers': seq<nat>, ok: bool, done: bool)
    requires t.Choice? && -1 <= pos < |path| && Consistent(t, pos, m, path[pos + 1..]) && pos + 1 < m && v < |t.kids|
    requires Made(t, pos, path, v, path1)
    requires pos + 1 < |path1| && Consistent(t.kids[v], pos + 1, m, path1[pos + 2..])
    requires Ran(t.kids[v], pos + 1, m, path1, numbers + [v], path', numbers', ok, done)
    ensures Ran(t, pos, m, path, numbers, path', numbers', ok, done)
  {
    MadeStep(t, pos, m, path, v, path1);
    hide Step, Consistent, Made, HasChoice;
    var r, head := Step(t.kids[v], pos + 1, m, path1[pos + 2..]), path[..pos + 1];
    Behind(head, v, r.vs);
    if r.out.Some? { Behind(numbers, v, r.out.value); }
    assert path' == head + ([v] + r.vs);
  }

  lemma Behind(a: seq<nat>, v: nat, b: seq<nat>)
    ensures (a + [v]) + b == a + ([v] + b) && a + ([v] + b) != []
  {
    assert (a + ([v] + b))[|a|] == v;
  }

  lemma MadeStep(t: Tree, pos: int, m: int, path: seq<nat>, v: nat, path1: seq<nat>)
    requires t.Choice? && -1 <= pos < |path| && Consistent(t, pos, m, path[pos + 1..]) && pos + 1 < m && v < |t.kids|
    requires Made(t, pos, path, v, path1)
    requires pos + 1 < |path1| && Consistent(t.kids[v], pos + 1, m, path1[pos + 2..])
    ensures Step(t, pos, m, path[pos + 1..]) == Chosen(v, Step(t.kids[v], pos + 1, m, path1[pos + 2..]))
    ensures path1[..pos + 2] == path[..pos + 1] + [v]
  {
    var vs, rest := path[pos + 1..], path1[pos + 2..];
    if pos + 1 < |path| - 1 {
      assert vs[0] == v && vs[1..] == rest;
    } else {
      assert rest == [] && |vs| <= 1 && (vs != [] ==> vs[0] == path[pos + 1]);
    }
  }

  /** A choice that could not be made. */
  lemma ChoiceFailed(t: Tree, pos: int, m: int, path: seq<nat>, numbers: seq<nat>, path': seq<nat>, done: bool)
    requires t.Choice? && -1 <= pos < |path| && Consistent(t, pos, m, path[pos + 1..])
    requires if pos + 1 >= m then path' == path && !done && path != [] && |path| <= m
             else && pos + 1 >= |path| - 1 && Next(t, if pos + 1 == |path| then 0 else path[pos + 1] + 1) == |t.kids|
                  && path' == path[..pos + 1] && (done <==> pos + 1 == 0)
    ensures Ran(t, pos, m, path, numbers, path', numbers, false, done)
  {
    assert path[..pos + 1] + [] == path[..pos + 1];
    if pos + 1 >= m {
      assert path[pos + 1..] == [] && path[..pos + 1] == path;
    }
  }

  lemma KidConsistent(t: Tree, pos: int, m: int, path: seq<nat>)
    requires t.Choice? && -1 <= pos < |path| - 1 && Consistent(t, pos, m, path[pos + 1..])
    ensures pos + 1 < m && path[pos + 1] < |t.kids| && !Rejected(t, path[pos + 1])
    ensures Consistent(t.kids[path[pos + 1]], pos + 1, m, path[pos + 2..])
  {
    assert path[pos + 1..][0] == path[pos + 1] && path[pos + 1..][1..] == path[pos + 2..];
  }

  /** The client, asking the generator on its way down. */
  method Generate(t: Tree, g: DFSRndNumGenerator)
    requires g.Valid() && g.error == Success && !g.allDone && g.currentPos <= g.decisionDepth
    requires Consistent(t, g.currentPos, g.states.Length, g.Path()[g.currentPos + 1..])
    modifies g, g.states
    ensures g.Valid()
    ensures Ran(t, old(g.currentPos), g.states.Length, old(g.Path()), old(g.numbers), g.Path(), g.numbers,
                g.error == Success, g.allDone)
    decreases t
  {
    match t
    case Leaf =>
      assert g.Path() == g.Path()[..g.currentPos + 1] + [];
    case Guard(needed, rest) =>
      var pruned := g.EagerBacktracking(needed);
      if !pruned { Generate(rest, g); }
    case Choice(_, _, kids) =>
      hide Step, Consistent, Ran, Made;
      ghost var pos, path, numbers := g.currentPos, g.Path(), g.numbers;
      var v := Choose(t, g);
      if g.error == Success {
        ghost var path1 := g.Path();
        Generate(kids[v], g);
        ChoiceRan(t, pos, g.states.Length, path, numbers, v, path1, g.Path(), g.numbers, g.error == Success, g.allDone);
      }
  }

  /** Make one choice, or end the run. */
  method Choose(t: Tree, g: DFSRndNumGenerator) returns (v: nat)
    requires t.Choice? && g.Valid() && g.error == Success && !g.allDone && g.currentPos <= g.decisionDepth
    requires Consistent(t, g.currentPos, g.states.Length, g.Path()[g.currentPos + 1..])
    modifies g, g.states
    ensures g.Valid()
    ensures var pos, m, path := old(g.currentPos), g.states.Length, old(g.Path());
            if g.error == Success then
              && pos + 1 < m && v < |t.kids| && Made(t, pos, path, v, g.Path())
              && g.numbers == old(g.numbers) + [v] && !g.allDone
              && g.currentPos == pos + 1 <= g.decisionDepth
              && Consistent(t.kids[v], pos + 1, m, g.Path()[pos + 2..])
            else Ran(t, pos, m, path, old(g.numbers), g.Path(), g.numbers, false, g.allDone)
  {
    hide Step, Consistent, Ran, Next, Rejected;
    ghost var pos, path, numbers := g.currentPos, g.Path(), g.numbers;
    if pos + 1 < |path| { KidConsistent(t, pos, g.states.Length, path); }
    var rv := g.RandomChoice(t);
    if g.error == Success {
      v := rv;
      NothingDecided(t.kids[v], pos + 1, g.states.Length, g.Path()[pos + 2..]);
    } else {
      v := 0;
      ChoiceFailed(t, pos, g.states.Length, path, numbers, g.Path(), g.allDone);
      RanAnyhow(t, pos, g.states.Length, path, numbers, g.Path(), g.numbers, g.allDone);
    }
  }

  lemma NothingDecided(t: Tree, pos: int, m: int, vs: seq<nat>)
    ensures vs == [] ==> Consistent(t, pos, m, vs)
  {
  }

  lemma RanAnyhow(t: Tree, pos: int, m: int, path: seq<nat>, numbers: seq<nat>, path': seq<nat>, numbers': seq<nat>,
                  done: bool)
    requires -1 <= pos < |path| && Consistent(t, pos, m, path[pos + 1..])
    requires Ran(t, pos, m, path, numbers, path', numbers, false, done)
    ensures Ran(t, pos, m, path, numbers, path', numbers', false, done)
  {
  }

  /** After a run, the programs found and those still to be found are all the leaves. */
  lemma NextRun(t: Tree, m: int, vs: seq<nat>, programs: seq<seq<nat>>)
    requires Consistent(t, -1, m, vs) && programs + Remaining(t, -1, m, vs) == Leaves(t, -1, m)
    ensures var r := Step(t, -1, m, vs);
            if r.vs == [] then programs + Found(r.out) == Leaves(t, -1, m)
            else && programs + Found(r.out) + Remaining(t, -1, m, r.vs) == Leaves(t, -1, m)
                 && Work(t, -1, m, r.vs) < Work(t, -1, m, vs)
  {
    hide Step, Remaining, Leaves, Work, Consistent;
    StepFinds(t, -1, m, vs);
    StepShrinks(t, -1, m, vs);
    var r := Step(t, -1, m, vs);
    if r.vs == [] {
      assert programs + (Found(r.out) + []) == programs + Found(r.out);
    } else {
      assert programs + (Found(r.out) + Remaining(t, -1, m, r.vs)) ==
          programs + Found(r.out) + Remaining(t, -1, m, r.vs);
    }
  }

  /** One run of the driver. */
  method OneRun(t: Tree, g: DFSRndNumGenerator, programs: seq<seq<nat>>) returns (more: seq<seq<nat>>)
    requires g.Valid() && !g.allDone && g.currentPos == -1 && g.numbers == []
    requires Consistent(t, -1, g.states.Length, g.Path())
    modifies g, g.states
    ensures g.Valid() && g.currentPos == -1 && g.numbers == []
    ensures var r := Step(t, -1, g.states.Length, old(g.Path()));
            more == programs + Found(r.out) && g.Path() == r.vs && (g.allDone <==> HasChoice(t) && r.vs == [])
  {
    hide Step, Consistent;
    ghost var vs := g.Path();
    g.error := Success;
    assert g.Path() == vs && g.Path()[g.currentPos + 1..] == vs && vs[-1 + 1..] == vs && vs[..-1 + 1] == [];
    Generate(t, g);
    ghost var r := Step(t, -1, g.states.Length, vs);
    assert [] + r.vs == r.vs;
    more := programs;
    if g.error == Success {
      assert [] + r.out.value == r.out.value;
      more := more + [g.numbers];
    }
    g.ResetState();
  }

  /** The driver: run the client until the generator has nothing left to switch. */
  method GoGenerator(t: Tree, maxDepth: nat) returns (programs: seq<seq<nat>>)
    requires maxDepth > 0 && HasChoice(t)
    ensures programs == Leaves(t, -1, maxDepth)
  {
    hide Step, Consistent, Remaining, Leaves, Work;
    var g := new DFSRndNumGenerator(maxDepth);
    programs := [];
    NothingDecided(t, -1, maxDepth, []);
    AllRemain(t, maxDepth);
    while !g.allDone
      invariant g.Valid() && fresh(g) && fresh(g.states) && g.states.Length == maxDepth && g.currentPos == -1
      invariant g.numbers == []
      invariant Consistent(t, -1, maxDepth, g.Path())
      invariant if g.allDone then programs == Leaves(t, -1, maxDepth)
                else programs + Remaining(t, -1, maxDepth, g.Path()) == Leaves(t, -1, maxDepth)
      decreases !g.allDone, Work(t, -1, maxDepth, g.Path())
    {
      NextRun(t, maxDepth, g.Path(), programs);
      programs := OneRun(t, g, programs);
    }
  }

  lemma AllRemain(t: Tree, m: int)
    ensures Consistent(t, -1, m, []) && [] + Remaining(t, -1, m, []) == Leaves(t, -1, m)
  {
  }

  /** A client that finishes without choosing leaves the generator as it found it: the driver would never stop. */
  lemma {:induction false} NoChoiceNoProgress(t: Tree, m: int)
    requires !HasChoice(t)
    ensures Step(t, -1, m, []) == Run(Some([]), [])
    decreases t
  {
    match t
    case Leaf =>
    case Guard(_, rest) => NoChoiceNoProgress(rest, m);
    case Choice(_, _, _) =>
  }

  /** Every program that is neither filtered nor cut off is generated, once, in lexicographic order. */
  method Enumerate(t: Tree, maxDepth: nat) returns (programs: seq<seq<nat>>)
    requires maxDepth > 0 && HasChoice(t)
    ensures forall p :: p in programs <==> Generated(t, -1, maxDepth, p)
    ensures Increasing(programs) && forall i, j :: 0 <= i < j < |programs| ==> programs[i] != programs[j]
  {
    programs := GoGenerator(t, maxDepth);
    forall p
      ensures p in programs <==> Generated(t, -1, maxDepth, p)
    {
      LeavesExact(t, -1, maxDepth, p);
      ReachesIff(t, -1, maxDepth, p);
    }
    LeavesSorted(t, -1, maxDepth);
    forall i, j | 0 <= i < j < |programs|
      ensures programs[i] != programs[j]
    {
      NotLess(programs[i]);
    }
  }
}
