/** The fact vectors the analysis edits in place, and the points-to lists inside them: each loop computes what the
  * set-based facts say. */
module FactLists {
  import opened Language
  import opened Facts

  /** What one pointer may point to, as an ordered list. */
  datatype Fact = Fact(v: Variable, pts: seq<Target>)

  function SetOf(ts: seq<Target>): set<Target> {
    set t | t in ts
  }

  ghost predicate NoDups(ts: seq<Target>) {
    forall i, j :: 0 <= i < j < |ts| ==> ts[i] != ts[j]
  }

  ghost predicate Unique(fs: seq<Fact>) {
    forall i, j :: 0 <= i < j < |fs| ==> fs[i].v != fs[j].v
  }

  /** One fact per pointer, and no target listed twice. */
  ghost predicate Good(fs: seq<Fact>) {
    Unique(fs) && forall i :: 0 <= i < |fs| ==> NoDups(fs[i].pts)
  }

  ghost function EnvOf(fs: seq<Fact>): Env
    requires Unique(fs)
  {
    map i: int | 0 <= i < |fs| :: fs[i].v := SetOf(fs[i].pts)
  }

  lemma {:induction false} ListSize(ts: seq<Target>)
    requires NoDups(ts)
    ensures |SetOf(ts)| == |ts|
    decreases |ts|
  {
    if ts != [] {
      var rest := ts[..|ts| - 1];
      ListSize(rest);
      assert SetOf(ts) == SetOf(rest) + {ts[|ts| - 1]};
    }
  }

  lemma {:induction false} SubsetLeq<T>(a: set<T>, b: set<T>)
    requires a <= b
    ensures |a| <= |b|
  {
    if a != b { SubsetSize(a, b); }
  }

  function VarsOf(fs: seq<Fact>): set<Variable> {
    set i | 0 <= i < |fs| :: fs[i].v
  }

  /** `e` holds just the facts of `fs`. */
  ghost predicate Represents(fs: seq<Fact>, e: Env) {
    && e.Keys == VarsOf(fs)
    && forall i :: 0 <= i < |fs| ==> fs[i].v in e && e[fs[i].v] == SetOf(fs[i].pts)
  }

  lemma Determined(fs: seq<Fact>, e: Env)
    requires Unique(fs)
    ensures Represents(fs, EnvOf(fs))
    ensures Represents(fs, e) ==> e == EnvOf(fs)
  {
    var m := EnvOf(fs);
    assert m.Keys == VarsOf(fs);
    if Represents(fs, e) {
      forall v | v in e
        ensures v in m && e[v] == m[v]
      {
        var i :| 0 <= i < |fs| && fs[i].v == v;
        assert m[fs[i].v] == SetOf(fs[i].pts);
      }
    }
  }

  lemma ReplaceFact(fs: seq<Fact>, i: nat, ts: seq<Target>)
    requires Good(fs) && i < |fs| && NoDups(ts)
    ensures Good(fs[i := Fact(fs[i].v, ts)]) && fs[i].v in EnvOf(fs)
    ensures EnvOf(fs[i := Fact(fs[i].v, ts)]) == EnvOf(fs)[fs[i].v := SetOf(ts)]
  {
    hide NoDups, EnvOf;
    var fs' := fs[i := Fact(fs[i].v, ts)];
    assert Unique(fs') && VarsOf(fs') == VarsOf(fs) by {
      assert forall j :: 0 <= j < |fs| ==> fs'[j].v == fs[j].v;
    }
    Determined(fs, EnvOf(fs));
    Determined(fs', EnvOf(fs)[fs[i].v := SetOf(ts)]);
  }

  lemma AppendFact(fs: seq<Fact>, f: Fact)
    requires Good(fs) && NoDups(f.pts) && f.v !in EnvOf(fs)
    ensures Good(fs + [f]) && EnvOf(fs + [f]) == EnvOf(fs)[f.v := SetOf(f.pts)]
  {
    hide NoDups, EnvOf;
    var fs' := fs + [f];
    Determined(fs, EnvOf(fs));
    assert Unique(fs') && VarsOf(fs') == VarsOf(fs) + {f.v} by {
      assert forall j :: 0 <= j < |fs| ==> fs'[j] == fs[j] && fs[j].v in EnvOf(fs);
      assert fs'[|fs|] == f;
    }
    Determined(fs', EnvOf(fs)[f.v := SetOf(f.pts)]);
  }

  lemma EraseFact(fs: seq<Fact>, i: nat)
    requires Good(fs) && i < |fs|
    ensures Good(fs[..i] + fs[i + 1..])
    ensures EnvOf(fs[..i] + fs[i + 1..]) == EnvOf(fs) - {fs[i].v}
  {
    hide NoDups, EnvOf;
    var fs' := fs[..i] + fs[i + 1..];
    assert forall j :: 0 <= j < |fs'| ==> fs'[j] == fs[if j < i then j else j + 1];
    ErasedVars(fs, i, fs');
    Determined(fs, EnvOf(fs));
    Determined(fs', EnvOf(fs) - {fs[i].v});
  }

  lemma ErasedVars(fs: seq<Fact>, i: nat, fs': seq<Fact>)
    requires Unique(fs) && i < |fs| && |fs'| == |fs| - 1
    requires forall j :: 0 <= j < |fs'| ==> fs'[j] == fs[if j < i then j else j + 1]
    ensures Unique(fs') && VarsOf(fs') == VarsOf(fs) - {fs[i].v}
  {
    forall v
      ensures v in VarsOf(fs') <==> v in VarsOf(fs) && v != fs[i].v
    {
      if v in VarsOf(fs) && v != fs[i].v {
        var j :| 0 <= j < |fs| && fs[j].v == v;
        assert fs'[if j < i then j else j - 1].v == v;
      }
    }
  }

  // --- points-to lists

  method InList(ts: seq<Target>, t: Target) returns (r: bool)
    ensures r <==> t in ts
  {
    var i := 0;
    while i < |ts|
      invariant i <= |ts| && t !in ts[..i]
    {
      if ts[i] == t { return true; }
      i := i + 1;
    }
    return false;
  }

  method AddToList(ts: seq<Target>, t: Target) returns (r: seq<Target>)
    requires NoDups(ts)
    ensures NoDups(r) && SetOf(r) == SetOf(ts) + {t}
  {
    var here := InList(ts, t);
    r := if here then ts else ts + [t];
  }

  /** Does a points-to list already contain another one? */
  method Implies(ts: seq<Target>, us: seq<Target>) returns (r: bool)
    requires NoDups(ts) && NoDups(us)
    ensures r <==> SetOf(us) <= SetOf(ts)
  {
    ListSize(ts);
    ListSize(us);
    if |us| > |ts| {
      if SetOf(us) <= SetOf(ts) { SubsetLeq(SetOf(us), SetOf(ts)); }
      return false;
    }
    var i := 0;
    while i < |us|
      invariant i <= |us| && forall j :: 0 <= j < i ==> us[j] in ts
    {
      var here := InList(ts, us[i]);
      if !here {
        assert us[i] in SetOf(us) && us[i] !in SetOf(ts);
        return false;
      }
      i := i + 1;
    }
    return true;
  }

  method SameList(ts: seq<Target>, us: seq<Target>) returns (r: bool)
    requires NoDups(ts) && NoDups(us)
    ensures r <==> SetOf(us) == SetOf(ts)
  {
    ListSize(ts);
    ListSize(us);
    if |us| != |ts| { return false; }
    r := Implies(us, ts);
    if r && SetOf(ts) != SetOf(us) {
      SubsetSize(SetOf(ts), SetOf(us));
    }
  }

  method Join(ts: seq<Target>, us: seq<Target>) returns (r: seq<Target>)
    requires NoDups(ts)
    ensures NoDups(r) && SetOf(r) == SetOf(ts) + SetOf(us)
  {
    r := ts;
    for i := 0 to |us|
      invariant NoDups(r) && SetOf(r) == SetOf(ts) + SetOf(us[..i])
    {
      r := AddToList(r, us[i]);
      assert SetOf(us[..i + 1]) == SetOf(us[..i]) + {us[i]};
    }
    assert us[..|us|] == us;
  }

  /** Replace the first mention of `v` by garbage, or drop it where garbage is listed already. */
  method MarkDeadVar(ts: seq<Target>, v: Variable) returns (changed: bool, r: seq<Target>)
    requires NoDups(ts)
    ensures NoDups(r) && SetOf(r) == Faded({v}, SetOf(ts))
    ensures changed <==> Obj(v) in ts
    ensures !changed ==> r == ts
  {
    var pos := 0;
    while pos < |ts| && ts[pos] != Obj(v)
      invariant pos <= |ts| && forall j :: 0 <= j < pos ==> ts[j] != Obj(v)
    {
      pos := pos + 1;
    }
    if pos == |ts| {
      assert Faded({v}, SetOf(ts)) == SetOf(ts);
      return false, ts;
    }
    assert Obj(v) in SetOf(ts);
    var had := InList(ts, Garbage);
    if had {
      r := ts[..pos] + ts[pos + 1..];
      assert forall j :: 0 <= j < |r| ==> r[j] == ts[if j < pos then j else j + 1];
    } else {
      r := ts[pos := Garbage];
    }
    MarkedSet(ts, r, pos, v);
    return true, r;
  }

  lemma MarkedSet(ts: seq<Target>, r: seq<Target>, pos: nat, v: Variable)
    requires NoDups(ts) && pos < |ts| && ts[pos] == Obj(v)
    requires r == if Garbage in ts then ts[..pos] + ts[pos + 1..] else ts[pos := Garbage]
    ensures SetOf(r) == Faded({v}, SetOf(ts))
  {
    assert Obj(v) in SetOf(ts);
    forall t
      ensures t in SetOf(r) <==> t in Faded({v}, SetOf(ts))
    {
      if Garbage in ts {
        assert t in r <==> t in ts[..pos] || t in ts[pos + 1..];
        if t in ts && t != Obj(v) {
          var j :| 0 <= j < |ts| && ts[j] == t;
          assert t in ts[..pos] || t in ts[pos + 1..];
        }
      } else if t in ts && t != Obj(v) {
        var j :| 0 <= j < |ts| && ts[j] == t;
        assert r[j] == t;
      } else if t == Garbage {
        assert r[pos] == t;
      }
    }
  }

  /** The first part of a list has been faded, the rest is as it was. */
  ghost predicate PartlyFaded(ts: seq<Target>, dead: set<Variable>, k: nat, r: seq<Target>, i: nat) {
    && k <= |ts| && i <= |r| && NoDups(r) && r[i..] == ts[k..]
    && (Garbage in r <==> Garbage in ts || PointsInto(SetOf(ts[..k]), dead))
    && (forall t :: t != Garbage ==> (t in r[..i] <==> t in ts[..k] && !(t.Obj? && t.v in dead)))
  }

  lemma FadedAll(ts: seq<Target>, dead: set<Variable>, r: seq<Target>)
    requires PartlyFaded(ts, dead, |ts|, r, |r|)
    ensures SetOf(r) == Faded(dead, SetOf(ts))
  {
    assert ts[..|ts|] == ts && r[..|r|] == r;
    forall t
      ensures t in SetOf(r) <==> t in Faded(dead, SetOf(ts))
    {
    }
  }

  lemma FadeOne(ts: seq<Target>, dead: set<Variable>, k: nat, r: seq<Target>, i: nat)
    requires PartlyFaded(ts, dead, k, r, i) && k < |ts| && i < |r|
    ensures r[i] == ts[k]
    ensures !(r[i].Obj? && r[i].v in dead) ==> PartlyFaded(ts, dead, k + 1, r, i + 1)
    ensures r[i].Obj? && r[i].v in dead ==>
              if Garbage in r then PartlyFaded(ts, dead, k + 1, r[..i] + r[i + 1..], i)
              else PartlyFaded(ts, dead, k + 1, r[i := Garbage], i + 1)
  {
    assert r[i] == r[i..][0] == ts[k..][0] == ts[k];
    assert ts[k + 1..] == ts[k..][1..] == r[i..][1..] == r[i + 1..];
    assert ts[..k + 1] == ts[..k] + [ts[k]] && r[..i + 1] == r[..i] + [r[i]];
    assert SetOf(ts[..k + 1]) == SetOf(ts[..k]) + {ts[k]};
    PointsIntoMore(SetOf(ts[..k]), ts[k], dead);
    if r[i].Obj? && r[i].v in dead {
      if Garbage in r {
        var r' := r[..i] + r[i + 1..];
        ErasedList(r, i);
        assert Garbage in SetOf(r') && r'[..i] == r[..i] && r'[i..] == r[i + 1..];
      } else {
        var r' := r[i := Garbage];
        assert r'[i] == Garbage && r'[i + 1..] == r[i + 1..] && r'[..i + 1] == r[..i] + [Garbage];
      }
    }
  }

  /** All of a function's variables at once, in one pass with in-place erasure. */
  method MarkFuncEnd(ts: seq<Target>, dead: set<Variable>) returns (r: seq<Target>)
    requires NoDups(ts)
    ensures NoDups(r) && SetOf(r) == Faded(dead, SetOf(ts))
  {
    r := ts;
    var hasGarbage := InList(ts, Garbage);
    var i := 0;
    ghost var k := 0;
    while i < |r|
      invariant k <= |ts| && |r| - i == |ts| - k
      invariant PartlyFaded(ts, dead, k, r, i) && (hasGarbage <==> Garbage in r)
      decreases |r| - i
    {
      FadeOne(ts, dead, k, r, i);
      if r[i].Obj? && r[i].v in dead {
        if hasGarbage {
          r := r[..i] + r[i + 1..];
        } else {
          r := r[i := Garbage];
          assert r[i] == Garbage;
          hasGarbage := true;
          i := i + 1;
        }
      } else {
        i := i + 1;
      }
      k := k + 1;
    }
    FadedAll(ts, dead, r);
  }

  lemma ErasedList(r: seq<Target>, i: nat)
    requires NoDups(r) && i < |r|
    ensures NoDups(r[..i] + r[i + 1..])
    ensures SetOf(r[..i] + r[i + 1..]) == SetOf(r) - {r[i]}
  {
    var r' := r[..i] + r[i + 1..];
    assert forall j :: 0 <= j < |r'| ==> r'[j] == r[if j < i then j else j + 1];
    forall t | t in SetOf(r) && t != r[i]
      ensures t in SetOf(r')
    {
      var j :| 0 <= j < |r| && r[j] == t;
      assert r'[if j < i then j else j - 1] == t;
    }
  }

  lemma PointsIntoMore(s: set<Target>, t: Target, dead: set<Variable>)
    ensures PointsInto(s + {t}, dead) <==> PointsInto(s, dead) || (t.Obj? && t.v in dead)
  {
    if t.Obj? && t.v in dead { assert t in s + {t}; }
  }

  /** Fading the variables of a scope one at a time, in any order, is fading them together. */
  lemma FadeStep(dead: set<Variable>, v: Variable, s: set<Target>)
    ensures Faded({v}, Faded(dead, s)) == Faded(dead + {v}, s)
  {
    var once := Faded(dead, s);
    if Obj(v) in s && v !in dead {
      assert Obj(v) in once;
    }
    if PointsInto(s, dead + {v}) {
      var t :| t in s && t.Obj? && t.v in dead + {v};
    }
  }
}
