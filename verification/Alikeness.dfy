/** When two runs are as good as the same: they may differ in the order of their volatile accesses, if that. */
module Alikeness {
  import opened Language
  import opened Semantics

  /** The same accesses, and in the same order unless `mixed`. */
  ghost predicate Shuffled(mixed: bool, t: seq<Access>, u: seq<Access>) {
    multiset(t) == multiset(u) && (!mixed ==> t == u)
  }

  ghost predicate AlikeFoot(mixed: bool, f: Foot, g: Foot) {
    f.rd == g.rd && f.wr == g.wr && Shuffled(mixed, f.trace, g.trace)
  }

  /** Same outcome, same store, same cells read and written, same volatile accesses. */
  ghost predicate Alike(mixed: bool, d: Result, c: Result) {
    d.Done? && c.Done? && d.out == c.out && d.st == c.st && AlikeFoot(mixed, d.fp, c.fp)
  }

  ghost predicate AlikeOps(mixed: bool, d: OpsResult, c: OpsResult) {
    d.OpsDone? && c.OpsDone? && d.vals == c.vals && d.st == c.st && AlikeFoot(mixed, d.fp, c.fp)
  }

  /** Neither gets stuck, both end or neither does, and if they end, then alike. */
  ghost predicate EndAlike(mixed: bool, d: Result, c: Result) {
    d != Stuck && c != Stuck && (d.Done? <==> c.Done?) && (c.Done? ==> Alike(mixed, d, c))
  }

  ghost predicate OpsEndAlike(mixed: bool, d: OpsResult, c: OpsResult) {
    d != OpsStuck && c != OpsStuck && (d.OpsDone? <==> c.OpsDone?) && (c.OpsDone? ==> AlikeOps(mixed, d, c))
  }

  lemma SilentTrace(mixed: bool, t: seq<Access>, u: seq<Access>)
    requires Shuffled(mixed, t, u)
    ensures t == [] <==> u == []
  {
    assert |t| == |multiset(t)| == |multiset(u)| == |u|;
  }

  lemma AlikeSelf(mixed: bool, f: Foot)
    ensures AlikeFoot(mixed, f, f)
  {
  }

  lemma AlikeMore(mixed: bool, more: bool, d: Result, c: Result)
    requires Alike(mixed, d, c) && (mixed ==> more)
    ensures Alike(more, d, c)
  {
  }

  lemma AlikeThird(mixed: bool, f: Foot, g: Foot, h: Foot)
    requires AlikeFoot(mixed, f, h) && AlikeFoot(mixed, g, h)
    ensures AlikeFoot(mixed, f, g)
  {
  }

  lemma AlikeJoin(a: bool, b: bool, f: Foot, f': Foot, g: Foot, g': Foot)
    requires AlikeFoot(a, f, f') && AlikeFoot(b, g, g')
    ensures AlikeFoot(a || b, Join(f, g), Join(f', g'))
  {
    assert multiset(f.trace + g.trace) == multiset(f.trace) + multiset(g.trace);
    assert multiset(f'.trace + g'.trace) == multiset(f'.trace) + multiset(g'.trace);
  }

  lemma AlikeAfter(a: bool, b: bool, f: Foot, f': Foot, d: Result, c: Result)
    requires AlikeFoot(a, f, f') && Alike(b, d, c)
    ensures Alike(a || b, After(f, d), After(f', c))
  {
    AlikeJoin(a, b, f, f', d.fp, c.fp);
  }

  lemma OpenAlike(mixed: bool, d: Result, c: Result)
    requires Alike(mixed, d, c)
    ensures d.Done? && c.Done? && d.out == c.out && d.st == c.st && AlikeFoot(mixed, d.fp, c.fp)
  {
  }

  lemma EndMore(mixed: bool, more: bool, d: Result, c: Result)
    requires EndAlike(mixed, d, c) && (mixed ==> more)
    ensures EndAlike(more, d, c)
  {
  }

  lemma EndAfter(a: bool, b: bool, f: Foot, f': Foot, d: Result, c: Result)
    requires AlikeFoot(a, f, f') && EndAlike(b, d, c)
    ensures EndAlike(a || b, After(f, d), After(f', c))
  {
    if c.Done? { AlikeAfter(a, b, f, f', d, c); }
  }

  lemma EndLeave(mixed: bool, dead: set<Variable>, d: Result, c: Result)
    requires EndAlike(mixed, d, c)
    ensures EndAlike(mixed, Leave(dead, d), Leave(dead, c))
  {
    if c.Done? { AlikeLeave(mixed, dead, d, c); }
  }

  lemma {:induction false} FilterCounts(dead: set<Variable>, t: seq<Access>, a: Access)
    ensures multiset(FilterTrace(dead, t))[a] == if a.l.v in dead then 0 else multiset(t)[a]
    decreases |t|
  {
    if t != [] {
      FilterCounts(dead, t[1..], a);
      assert t == [t[0]] + t[1..];
    }
  }

  lemma AlikeLeave(mixed: bool, dead: set<Variable>, d: Result, c: Result)
    requires Alike(mixed, d, c)
    ensures Alike(mixed, Leave(dead, d), Leave(dead, c))
  {
    var t, u := FilterTrace(dead, d.fp.trace), FilterTrace(dead, c.fp.trace);
    forall a
      ensures multiset(t)[a] == multiset(u)[a]
    {
      FilterCounts(dead, d.fp.trace, a);
      FilterCounts(dead, c.fp.trace, a);
    }
    assert multiset(t) == multiset(u);
  }
}
