/** Lexicographic order on lists of numbers. */
module Lexicographic {
  predicate Less(a: seq<nat>, b: seq<nat>) {
    b != [] && (a == [] || a[0] < b[0] || (a[0] == b[0] && Less(a[1..], b[1..])))
  }

  lemma {:induction false} NotLess(a: seq<nat>)
    ensures !Less(a, a)
    decreases a
  {
    if a != [] { NotLess(a[1..]); }
  }

  predicate Increasing(ps: seq<seq<nat>>) {
    forall i, j :: 0 <= i < j < |ps| ==> Less(ps[i], ps[j])
  }
}
