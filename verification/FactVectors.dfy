/** The fact vector as an object edited in place, one method per operation of the analysis. */
module FactVectors {
  import opened Language
  import opened Facts
  import opened Analysis
  import opened FactLists

  method MergePointees(ptrs: seq<Target>, facts: seq<Fact>) returns (r: seq<Target>)
    requires Good(facts)
    ensures NoDups(r) && SetOf(r) == Pointees(EnvOf(facts), SetOf(ptrs))
  {
    ghost var env := EnvOf(facts);
    r := [];
    assert Pointees(env, SetOf(ptrs[..0])) == {} == SetOf(r);
    for i := 0 to |ptrs|
      invariant NoDups(r) && SetOf(r) == Pointees(env, SetOf(ptrs[..i]))
    {
      assert SetOf(ptrs[..i + 1]) == SetOf(ptrs[..i]) + {ptrs[i]};
      PointeesMore(env, SetOf(ptrs[..i]), ptrs[i]);
      if ptrs[i].Obj? {
        var k := Find(facts, ptrs[i].v);
        if k < |facts| {
          Determined(facts, env);
          r := Join(r, facts[k].pts);
        }
      }
    }
    assert ptrs[..|ptrs|] == ptrs;
  }

  lemma PointeesMore(env: Env, ts: set<Target>, t: Target)
    ensures Pointees(env, ts + {t}) == Pointees(env, ts) + (if t.Obj? && t.v in env then env[t.v] else {})
  {
  }

  method MergePointeesOfPointer(v: Variable, ind: nat, facts: seq<Fact>) returns (r: seq<Target>)
    requires Good(facts)
    ensures NoDups(r) && SetOf(r) == Deref(EnvOf(facts), {Obj(v)}, ind)
  {
    r := [Obj(v)];
    OneTarget(r);
    var k := ind;
    while k > 0
      invariant NoDups(r) && Deref(EnvOf(facts), SetOf(r), k) == Deref(EnvOf(facts), {Obj(v)}, ind)
    {
      r := MergePointees(r, facts);
      k := k - 1;
    }
  }

  /** The position of the fact about `v`, or the length if there is none. */
  method Find(facts: seq<Fact>, v: Variable) returns (i: nat)
    requires Good(facts)
    ensures i <= |facts|
    ensures if i < |facts| then facts[i].v == v && v in EnvOf(facts) else v !in EnvOf(facts)
  {
    i := 0;
    while i < |facts| && facts[i].v != v
      invariant i <= |facts| && forall j :: 0 <= j < i ==> facts[j].v != v
    {
      i := i + 1;
    }
    Determined(facts, EnvOf(facts));
  }

  /** Are two vectors equal up to order? */
  method SameFacts(fs: seq<Fact>, gs: seq<Fact>) returns (r: bool)
    requires Good(fs) && Good(gs)
    ensures r <==> EnvOf(fs) == EnvOf(gs)
  {
    hide EnvOf, NoDups;
    Determined(fs, EnvOf(fs));
    Determined(gs, EnvOf(gs));
    FactCount(fs);
    FactCount(gs);
    if |fs| != |gs| { return false; }
    var i := 0;
    while i < |fs|
      invariant i <= |fs|
      invariant forall j :: 0 <= j < i ==> fs[j].v in EnvOf(gs) && EnvOf(gs)[fs[j].v] == EnvOf(fs)[fs[j].v]
    {
      var k := Find(gs, fs[i].v);
      if k == |gs| { return false; }
      var same := SameList(gs[k].pts, fs[i].pts);
      if !same {
        assert EnvOf(fs)[fs[i].v] != EnvOf(gs)[gs[k].v];
        return false;
      }
      i := i + 1;
    }
    AllKeys(fs, gs);
    return true;
  }

  /** Does the second vector allow all that the first does? */
  method SubsetFacts(fs: seq<Fact>, gs: seq<Fact>) returns (r: bool)
    requires Good(fs) && Good(gs)
    ensures r <==> Below(EnvOf(fs), EnvOf(gs))
  {
    hide EnvOf, NoDups;
    Determined(fs, EnvOf(fs));
    Determined(gs, EnvOf(gs));
    FactCount(fs);
    FactCount(gs);
    if |fs| != |gs| { return false; }
    var i := 0;
    while i < |fs|
      invariant i <= |fs|
      invariant forall j :: 0 <= j < i ==> fs[j].v in EnvOf(gs) && EnvOf(fs)[fs[j].v] <= EnvOf(gs)[fs[j].v]
    {
      var k := Find(gs, fs[i].v);
      if k == |gs| { return false; }
      var implied := Implies(gs[k].pts, fs[i].pts);
      if !implied {
        assert !(EnvOf(fs)[fs[i].v] <= EnvOf(gs)[gs[k].v]);
        return false;
      }
      i := i + 1;
    }
    AllKeys(fs, gs);
    return true;
  }

  lemma {:induction false} FactCount(fs: seq<Fact>)
    requires Unique(fs)
    ensures |VarsOf(fs)| == |fs|
    decreases |fs|
  {
    if fs != [] {
      var rest := fs[..|fs| - 1];
      FactCount(rest);
      assert VarsOf(fs) == VarsOf(rest) + {fs[|fs| - 1].v};
    }
  }

  lemma AllKeys(fs: seq<Fact>, gs: seq<Fact>)
    requires Unique(fs) && Unique(gs) && |fs| == |gs|
    requires forall j :: 0 <= j < |fs| ==> fs[j].v in EnvOf(gs)
    ensures EnvOf(fs).Keys == EnvOf(gs).Keys
  {
    hide EnvOf, NoDups;
    Determined(fs, EnvOf(fs));
    Determined(gs, EnvOf(gs));
    FactCount(fs);
    FactCount(gs);
    assert VarsOf(fs) <= VarsOf(gs);
    if VarsOf(fs) < VarsOf(gs) {
      SubsetSize(VarsOf(fs), VarsOf(gs));
    }
  }

  class FactVec {
    var facts: seq<Fact>

    ghost predicate Valid()
      reads this
    {
      Good(facts)
    }

    ghost function Env(): Env
      requires Valid()
      reads this
    {
      EnvOf(facts)
    }

    constructor (fs: seq<Fact>)
      requires Good(fs)
      ensures Valid() && facts == fs
    {
      facts := fs;
    }

    /** Join a fact into the one about the same pointer. */
    method MergeFact(f: Fact) returns (changed: bool)
      requires Valid() && NoDups(f.pts)
      modifies this
      ensures Valid() && Env() == Merge(old(Env()), map[f.v := SetOf(f.pts)])
      ensures changed <==> Env() != old(Env())
    {
      hide EnvOf, NoDups, Merge;
      var i := Find(facts, f.v);
      MergeOne(Env(), f.v, SetOf(f.pts));
      if i < |facts| {
        Determined(facts, EnvOf(facts));
        var implied := Implies(facts[i].pts, f.pts);
        ghost var both := EnvOf(facts)[f.v] + SetOf(f.pts);
        if implied {
          assert both == EnvOf(facts)[f.v];
          changed := false;
        } else {
          var joined := Join(f.pts, facts[i].pts);
          assert SetOf(joined) == both != EnvOf(facts)[f.v];
          ReplaceFact(facts, i, joined);
          facts := facts[i := Fact(f.v, joined)];
          changed := true;
        }
      } else {
        AppendFact(facts, f);
        assert Lookup(Env(), f.v) + SetOf(f.pts) == SetOf(f.pts);
        facts := facts + [f];
        changed := true;
      }
    }

    /** Replace the fact about the same pointer. */
    method RenewFact(f: Fact) returns (changed: bool)
      requires Valid() && NoDups(f.pts)
      modifies this
      ensures Valid() && Env() == Renew(old(Env()), map[f.v := SetOf(f.pts)])
      ensures changed <==> Env() != old(Env())
    {
      hide EnvOf, NoDups;
      var i := Find(facts, f.v);
      if i < |facts| {
        Determined(facts, EnvOf(facts));
        var same := SameList(f.pts, facts[i].pts);
        if same { return false; }
        ReplaceFact(facts, i, f.pts);
        facts := facts[i := f];
      } else {
        AppendFact(facts, f);
        facts := facts + [f];
      }
      return true;
    }

    method MergeFacts(fs: seq<Fact>) returns (changed: bool)
      requires Valid() && Good(fs)
      modifies this
      ensures Valid() && Env() == Merge(old(Env()), EnvOf(fs))
      ensures changed <==> Env() != old(Env())
    {
      hide EnvOf, NoDups;
      changed := false;
      ghost var was := Env();
      EmptyEnv(was, fs[..0]);
      for i := 0 to |fs|
        invariant Valid() && Unique(fs[..i]) && Env() == Merge(was, EnvOf(fs[..i]))
        invariant changed <==> Env() != was
      {
        PrefixEnv(fs, i);
        ghost var before := Env();
        var one := MergeFact(fs[i]);
        MergeGrows(was, EnvOf(fs[..i]), fs[i].v, SetOf(fs[i].pts));
        changed := changed || one;
      }
      assert fs[..|fs|] == fs;
    }

    method RenewFacts(fs: seq<Fact>) returns (changed: bool)
      requires Valid() && Good(fs)
      modifies this
      ensures Valid() && Env() == Renew(old(Env()), EnvOf(fs))
    {
      hide EnvOf, NoDups, Renew;
      changed := false;
      ghost var was := Env();
      EmptyEnv(was, fs[..0]);
      for i := 0 to |fs|
        invariant Valid() && Unique(fs[..i]) && Env() == Renew(was, EnvOf(fs[..i]))
      {
        PrefixEnv(fs, i);
        RenewMore(was, EnvOf(fs[..i]), fs[i].v, SetOf(fs[i].pts));
        var one := RenewFact(fs[i]);
        changed := changed || one;
      }
      assert fs[..|fs|] == fs;
    }

    /** `*..*v = ...`: renew when one pointer that is no array is sure to be meant, otherwise merge. */
    method UpdateForAssign(r: Ref, pts: seq<Target>)
      requires Valid() && NoDups(pts)
      requires forall t :: t in Deref(Env(), {Obj(r.v)}, r.ind) ==> t.Obj? && t.v in Env()
      modifies this
      ensures Valid() && Env() == Facts.AssignFacts(old(Env()), r, SetOf(pts))
    {
      hide EnvOf, NoDups;
      if RefLevel(r) == 0 { return; }
      var lvars := MergePointeesOfPointer(r.v, r.ind, facts);
      ghost var was := Env();
      assert forall j :: 0 <= j < |lvars| ==> lvars[j] in SetOf(lvars);
      if |lvars| == 1 && !lvars[0].v.isArray {
        var _ := RenewFact(Fact(lvars[0].v, pts));
        OneTarget(lvars);
      } else {
        assert Weakened(was, {}, SetOf(pts)) == was;
        for j := 0 to |lvars|
          invariant Valid() && Env() == Weakened(was, SetOf(lvars[..j]), SetOf(pts))
        {
          assert SetOf(lvars[..j + 1]) == SetOf(lvars[..j]) + {lvars[j]};
          var _ := MergeFact(Fact(lvars[j].v, pts));
          WeakenedMore(was, SetOf(lvars[..j]), lvars[j].v, SetOf(pts));
        }
        assert lvars[..|lvars|] == lvars;
        NeverStrong(was, lvars, SetOf(pts));
      }
    }

    /** Drop the facts about the variables in `vs`, then turn every mention of one of them into garbage. */
    method OutOfScopeVars(vs: seq<Variable>)
      requires Valid()
      modifies this
      ensures Valid() && Env() == OutOfScope(Elems(vs), old(Env()))
    {
      hide EnvOf, NoDups;
      ghost var was := Env();
      assert was - {} == was;
      for i := 0 to |vs|
        invariant Valid() && Env() == was - Elems(vs[..i])
      {
        assert Elems(vs[..i + 1]) == Elems(vs[..i]) + {vs[i]};
        EraseAll(vs[i]);
      }
      assert vs[..|vs|] == vs;
      FadedNone(was - Elems(vs));
      assert Elems(vs[..0]) == {};
      for i := 0 to |vs|
        invariant Valid() && Env() == FadedMap(Elems(vs[..i]), was - Elems(vs))
      {
        assert Elems(vs[..i + 1]) == Elems(vs[..i]) + {vs[i]};
        FadeAll(vs[i]);
        FadedMapMore(Elems(vs[..i]), vs[i], was - Elems(vs));
      }
    }

    method EraseAll(v: Variable)
      requires Valid()
      modifies this
      ensures Valid() && Env() == old(Env()) - {v}
    {
      hide EnvOf, NoDups;
      ghost var was := Env();
      var j := 0;
      while j < |facts|
        invariant Valid() && j <= |facts|
        invariant Env() == was || Env() == was - {v}
        invariant forall k :: 0 <= k < j ==> facts[k].v != v
        decreases |facts| - j
      {
        if facts[j].v == v {
          EraseFact(facts, j);
          facts := facts[..j] + facts[j + 1..];
        } else {
          j := j + 1;
        }
      }
      Determined(facts, EnvOf(facts));
    }

    method FadeAll(v: Variable)
      requires Valid()
      modifies this
      ensures Valid() && Env() == FadedMap({v}, old(Env()))
    {
      hide EnvOf, NoDups;
      ghost var was := facts;
      Determined(facts, Env());
      for j := 0 to |facts|
        invariant Valid() && |facts| == |was|
        invariant forall k :: 0 <= k < |was| ==> facts[k].v == was[k].v
        invariant forall k :: 0 <= k < j ==> SetOf(facts[k].pts) == Faded({v}, SetOf(was[k].pts))
        invariant forall k :: j <= k < |was| ==> facts[k] == was[k]
      {
        var changed, pts := MarkDeadVar(facts[j].pts, v);
        if changed {
          ReplaceFact(facts, j, pts);
          facts := facts[j := Fact(facts[j].v, pts)];
        }
      }
      FadedFacts(was, facts, {v});
    }

    /** At the end of a function: one erasing pass over the facts, and one over each points-to list that is left. */
    method RemoveFunctionLocals(dead: set<Variable>)
      requires Valid()
      modifies this
      ensures Valid() && Env() == OutOfScope(dead, old(Env()))
    {
      hide EnvOf, NoDups;
      FadedRest(dead, Env());
      EraseLocals(dead);
      FadeLocals(dead);
    }

    method EraseLocals(dead: set<Variable>)
      requires Valid()
      modifies this
      ensures Valid() && Env() == old(Env()) - dead
    {
      hide EnvOf, NoDups;
      ghost var env := Env();
      var i := 0;
      while i < |facts|
        invariant Valid() && i <= |facts|
        invariant Env() - dead == env - dead
        invariant forall k :: 0 <= k < i ==> facts[k].v !in dead
        decreases |facts| - i
      {
        if facts[i].v in dead {
          EraseFact(facts, i);
          assert Env() - {facts[i].v} - dead == Env() - dead;
          facts := facts[..i] + facts[i + 1..];
        } else {
          i := i + 1;
        }
      }
      Determined(facts, Env());
      assert Env().Keys !! dead;
      assert Env() - dead == Env();
    }

    method FadeLocals(dead: set<Variable>)
      requires Valid()
      modifies this
      ensures Valid() && Env() == FadedMap(dead, old(Env()))
    {
      hide EnvOf, NoDups;
      ghost var was := facts;
      for j := 0 to |facts|
        invariant Valid() && |facts| == |was|
        invariant forall k :: 0 <= k < |was| ==> facts[k].v == was[k].v
        invariant forall k :: 0 <= k < j ==> SetOf(facts[k].pts) == Faded(dead, SetOf(was[k].pts))
        invariant forall k :: j <= k < |was| ==> facts[k] == was[k]
      {
        var pts := MarkFuncEnd(facts[j].pts, dead);
        ReplaceFact(facts, j, pts);
        facts := facts[j := Fact(facts[j].v, pts)];
      }
      FadedFacts(was, facts, dead);
    }

    /** Keep the facts of globals and parameters, and, round after round, those about anything a kept fact mentions. */
    method KeepReachable(globals: set<Variable>, params: seq<Variable>)
      requires Valid()
      modifies this
      ensures Valid()
      ensures var roots := set v | v in old(Env()) && (v in globals || v in params);
              Env() == Restrict(old(Env()), Reach(old(Env()), roots))
    {
      hide EnvOf, NoDups, SplitOf, Reach, NoneMentioned;
      ghost var env := Env();
      ghost var roots := set v | v in env && (v in globals || v in params);
      var keep, inputs := KeepRoots(facts, globals, params, roots);
      var more := true;
      while more
        invariant SplitOf(env, keep, inputs) && roots <= VarsOf(keep) <= Reach(env, roots)
        invariant !more ==> NoneMentioned(keep, inputs, |inputs|)
        decreases |inputs| + if more then 1 else 0
      {
        var cnt := |keep|;
        keep, inputs := KeepMentioned(env, roots, keep, inputs);
        more := |keep| > cnt;
      }
      KeptAll(env, roots, keep, inputs);
      facts := keep;
    }

    method BindParam(v: Variable, pts: seq<Target>)
      requires Valid() && NoDups(pts)
      modifies this
      ensures Valid() && Env() == if v.level > 0 then old(Env())[v := SetOf(pts)] else old(Env())
    {
      if v.level > 0 {
        RenewOne(Env(), v, SetOf(pts));
        var _ := RenewFact(Fact(v, pts));
      }
    }

    /** Give each parameter the pointees of its argument. */
    method BindParams(params: seq<Variable>, argPts: seq<seq<Target>>, ghost args: seq<Expr>,
                      ghost rets: seq<set<Target>>)
      requires Valid() && |params| == |argPts| == |args| == |rets| && Distinct(params)
      requires forall v :: v in params ==> v !in Env()
      requires forall i :: 0 <= i < |argPts| ==>
                 NoDups(argPts[i]) && SetOf(argPts[i]) == RhsPointees(Env(), args[i], rets[i])
      modifies this
      ensures Valid() && Env() == old(Env()) + ParamFacts(old(Env()), params, args, rets)
    {
      ghost var env := Env();
      NoneBound(env, params, args, rets);
      hide EnvOf, NoDups, RhsPointees, Distinct, Bound;
      for i := 0 to |params|
        invariant Valid() && Bound(env, params, args, rets, i, Env())
      {
        BindOne(env, params, args, rets, i, Env());
        BindParam(params[i], argPts[i]);
      }
      AllBound(env, params, args, rets, Env());
    }

    /** From caller to callee: bind the parameters, given what each argument may point to, and keep what the callee can
      * reach. */
    method HandOverFacts(globals: set<Variable>, f: Function, argPts: seq<seq<Target>>, ghost args: seq<Expr>,
                         ghost rets: seq<set<Target>>)
      requires Valid() && |f.params| == |argPts| == |args| == |rets| && Distinct(f.params)
      requires forall v :: v in f.params ==> v !in Env()
      requires forall i :: 0 <= i < |argPts| ==>
                 NoDups(argPts[i]) && SetOf(argPts[i]) == RhsPointees(Env(), args[i], rets[i])
      modifies this
      ensures Valid() && Env() == HandOver(globals, old(Env()), f, args, rets)
    {
      ghost var env := Env();
      BindParams(f.params, argPts, args, rets);
      KeepReachable(globals, f.params);
      SameHandOver(globals, env, f, args, rets);
    }
  }

  /** The first `i` parameters have their facts. */
  ghost predicate Bound(env: Env, params: seq<Variable>, args: seq<Expr>, rets: seq<set<Target>>, i: nat, e: Env)
    requires |params| == |args| == |rets| && i <= |params|
  {
    && (forall v :: v in e <==> v in env || (v.level > 0 && v in params[..i]))
    && (forall v :: v in env ==> v in e && e[v] == env[v])
    && forall j :: 0 <= j < i && params[j].level > 0 ==>
       params[j] in e && e[params[j]] == RhsPointees(env, args[j], rets[j])
  }

  lemma NoneBound(env: Env, params: seq<Variable>, args: seq<Expr>, rets: seq<set<Target>>)
    requires |params| == |args| == |rets|
    ensures Bound(env, params, args, rets, 0, env)
  {
  }

  lemma RenewOne(env: Env, v: Variable, s: set<Target>)
    ensures Renew(env, map[v := s]) == env[v := s]
  {
  }

  lemma BindOne(env: Env, params: seq<Variable>, args: seq<Expr>, rets: seq<set<Target>>, i: nat, e: Env)
    requires |params| == |args| == |rets| && i < |params| && Distinct(params) && forall v :: v in params ==> v !in env
    requires Bound(env, params, args, rets, i, e)
    ensures Bound(env, params, args, rets, i + 1,
                  if params[i].level > 0 then e[params[i] := RhsPointees(env, args[i], rets[i])] else e)
  {
    hide RhsPointees;
    assert params[..i + 1] == params[..i] + [params[i]];
    assert params[i] in params;
  }

  lemma AllBound(env: Env, params: seq<Variable>, args: seq<Expr>, rets: seq<set<Target>>, e: Env)
    requires |params| == |args| == |rets| && Distinct(params) && forall v :: v in params ==> v !in env
    requires Bound(env, params, args, rets, |params|, e)
    ensures e == env + ParamFacts(env, params, args, rets)
  {
    hide RhsPointees, ParamFacts, Distinct;
    assert params[..|params|] == params;
    var m := ParamFacts(env, params, args, rets);
    forall v | v in m
      ensures v in e && e[v] == m[v]
    {
      var j :| 0 <= j < |params| && params[j] == v;
      ParamFactsAt(env, params, args, rets, j);
    }
  }

  lemma {:induction false} ParamFactsAt(env: Env, params: seq<Variable>, args: seq<Expr>, rets: seq<set<Target>>,
                                        i: nat)
    requires |params| == |args| == |rets| && i < |params| && Distinct(params) && params[i].level > 0
    ensures var m := ParamFacts(env, params, args, rets);
            params[i] in m && m[params[i]] == RhsPointees(env, args[i], rets[i])
    decreases i
  {
    if i > 0 {
      ParamFactsAt(env, params[1..], args[1..], rets[1..], i - 1);
      assert params[i] == params[1..][i - 1] && params[0] != params[i];
    }
  }

  lemma SameHandOver(globals: set<Variable>, env: Env, f: Function, args: seq<Expr>, rets: seq<set<Target>>)
    requires |f.params| == |args| == |rets|
    ensures var bound := env + ParamFacts(env, f.params, args, rets);
            var roots := set v | v in bound && (v in globals || v in f.params);
            HandOver(globals, env, f, args, rets) == Restrict(bound, Reach(bound, roots))
  {
  }

  /** Move the facts of globals and parameters to a list of their own. */
  method KeepRoots(facts: seq<Fact>, globals: set<Variable>, params: seq<Variable>, ghost roots: set<Variable>)
    returns (keep: seq<Fact>, inputs: seq<Fact>)
    requires Good(facts) && roots == set v | v in EnvOf(facts) && (v in globals || v in params)
    ensures SplitOf(EnvOf(facts), keep, inputs) && VarsOf(keep) == roots
  {
    ghost var env := EnvOf(facts);
    SplitStart(facts);
    hide EnvOf, SplitOf;
    keep, inputs := [], facts;
    var i := 0;
    while i < |inputs|
      invariant i <= |inputs| && SplitOf(env, keep, inputs)
      invariant VarsOf(keep) <= roots
      invariant forall k :: 0 <= k < i ==> inputs[k].v !in roots
      decreases |inputs| - i
    {
      if inputs[i].v in globals || inputs[i].v in params {
        MoveFact(env, keep, inputs, i);
        keep, inputs := keep + [inputs[i]], inputs[..i] + inputs[i + 1..];
      } else {
        i := i + 1;
      }
    }
    RootsKept(env, roots, keep, inputs);
  }

  /** One round: move every fact about a variable that a kept fact mentions. */
  method KeepMentioned(ghost env: Env, ghost roots: set<Variable>, keep0: seq<Fact>, inputs0: seq<Fact>)
    returns (keep: seq<Fact>, inputs: seq<Fact>)
    requires SplitOf(env, keep0, inputs0) && roots <= env.Keys && roots <= VarsOf(keep0) <= Reach(env, roots)
    ensures SplitOf(env, keep, inputs) && roots <= VarsOf(keep) <= Reach(env, roots)
    ensures |keep| - |keep0| == |inputs0| - |inputs| >= 0
    ensures |keep| == |keep0| ==> NoneMentioned(keep, inputs, |inputs|)
  {
    hide SplitOf, Reach, VarsOf;
    keep, inputs := keep0, inputs0;
    var i := 0;
    while i < |inputs|
      invariant i <= |inputs| && SplitOf(env, keep, inputs) && roots <= VarsOf(keep) <= Reach(env, roots)
      invariant |keep| - |keep0| == |inputs0| - |inputs| >= 0
      invariant |keep| == |keep0| ==> NoneMentioned(keep, inputs, i)
      decreases |inputs| - i
    {
      var mentioned := Mentioned(keep, inputs[i].v);
      if mentioned {
        KeepOneMore(env, roots, keep, inputs, i);
        keep, inputs := keep + [inputs[i]], inputs[..i] + inputs[i + 1..];
      } else {
        i := i + 1;
      }
    }
  }

  method Mentioned(keep: seq<Fact>, v: Variable) returns (r: bool)
    ensures r <==> exists j :: 0 <= j < |keep| && Obj(v) in keep[j].pts
  {
    var j := 0;
    while j < |keep|
      invariant j <= |keep| && forall k :: 0 <= k < j ==> Obj(v) !in keep[k].pts
    {
      var here := InList(keep[j].pts, Obj(v));
      if here { return true; }
      j := j + 1;
    }
    return false;
  }

  // --- what the loops need to know

  /** `keep` and `inputs` share out the facts in `env`. */
  ghost predicate SplitOf(env: Env, keep: seq<Fact>, inputs: seq<Fact>) {
    && Good(keep) && Good(inputs)
    && VarsOf(keep) !! VarsOf(inputs) && VarsOf(keep) + VarsOf(inputs) == env.Keys
    && (forall k :: 0 <= k < |keep| ==> keep[k].v in env && SetOf(keep[k].pts) == env[keep[k].v])
    && (forall k :: 0 <= k < |inputs| ==> inputs[k].v in env && SetOf(inputs[k].pts) == env[inputs[k].v])
  }

  ghost predicate NoneMentioned(keep: seq<Fact>, inputs: seq<Fact>, i: nat)
    requires i <= |inputs|
  {
    forall k, j :: 0 <= k < i && 0 <= j < |keep| ==> Obj(inputs[k].v) !in keep[j].pts
  }

  lemma SplitStart(fs: seq<Fact>)
    requires Good(fs)
    ensures SplitOf(EnvOf(fs), [], fs) && VarsOf([]) == {}
  {
    hide EnvOf;
    Determined(fs, EnvOf(fs));
  }

  lemma MoveFact(env: Env, keep: seq<Fact>, inputs: seq<Fact>, i: nat)
    requires SplitOf(env, keep, inputs) && i < |inputs|
    ensures SplitOf(env, keep + [inputs[i]], inputs[..i] + inputs[i + 1..])
    ensures VarsOf(keep + [inputs[i]]) == VarsOf(keep) + {inputs[i].v} && inputs[i].v in env
  {
    hide EnvOf, NoDups;
    var f, rest := inputs[i], inputs[..i] + inputs[i + 1..];
    assert f.v in VarsOf(inputs);
    KeepVars(keep, f);
    RestVars(inputs, i);
    assert forall k :: 0 <= k < |rest| ==> rest[k] == inputs[if k < i then k else k + 1];
  }

  lemma KeepVars(keep: seq<Fact>, f: Fact)
    requires Good(keep) && NoDups(f.pts) && f.v !in VarsOf(keep)
    ensures Good(keep + [f]) && VarsOf(keep + [f]) == VarsOf(keep) + {f.v}
  {
    hide EnvOf, NoDups;
    Determined(keep, EnvOf(keep));
    AppendFact(keep, f);
    Determined(keep + [f], EnvOf(keep + [f]));
  }

  lemma RestVars(inputs: seq<Fact>, i: nat)
    requires Good(inputs) && i < |inputs|
    ensures var rest := inputs[..i] + inputs[i + 1..]; Good(rest) && VarsOf(rest) == VarsOf(inputs) - {inputs[i].v}
  {
    hide EnvOf, NoDups;
    var rest := inputs[..i] + inputs[i + 1..];
    EraseFact(inputs, i);
    Determined(inputs, EnvOf(inputs));
    Determined(rest, EnvOf(rest));
  }

  lemma RootsKept(env: Env, roots: set<Variable>, keep: seq<Fact>, inputs: seq<Fact>)
    requires SplitOf(env, keep, inputs) && VarsOf(keep) <= roots <= env.Keys
    requires forall k :: 0 <= k < |inputs| ==> inputs[k].v !in roots
    ensures VarsOf(keep) == roots
  {
    forall v | v in roots
      ensures v in VarsOf(keep)
    {
      assert v !in VarsOf(inputs);
    }
  }

  lemma KeepOneMore(env: Env, roots: set<Variable>, keep: seq<Fact>, inputs: seq<Fact>, i: nat)
    requires SplitOf(env, keep, inputs) && i < |inputs| && roots <= env.Keys
    requires roots <= VarsOf(keep) <= Reach(env, roots)
    requires exists j :: 0 <= j < |keep| && Obj(inputs[i].v) in keep[j].pts
    ensures SplitOf(env, keep + [inputs[i]], inputs[..i] + inputs[i + 1..])
    ensures roots <= VarsOf(keep + [inputs[i]]) <= Reach(env, roots)
  {
    hide EnvOf, NoDups;
    MoveFact(env, keep, inputs, i);
    var j :| 0 <= j < |keep| && Obj(inputs[i].v) in keep[j].pts;
    assert keep[j].v in VarsOf(keep);
    assert Obj(inputs[i].v) in SetOf(keep[j].pts);
    assert Obj(inputs[i].v) in env[keep[j].v] && inputs[i].v in env;
    assert ClosedUnder(env, Reach(env, roots));
  }

  lemma KeptAll(env: Env, roots: set<Variable>, keep: seq<Fact>, inputs: seq<Fact>)
    requires SplitOf(env, keep, inputs) && roots <= env.Keys && roots <= VarsOf(keep) <= Reach(env, roots)
    requires NoneMentioned(keep, inputs, |inputs|)
    ensures Good(keep) && EnvOf(keep) == Restrict(env, Reach(env, roots))
  {
    hide EnvOf, NoDups;
    forall u, v | v in VarsOf(keep) && v in env && Obj(u) in env[v] && u in env
      ensures u in VarsOf(keep)
    {
      var j :| 0 <= j < |keep| && keep[j].v == v;
      assert Obj(u) in SetOf(keep[j].pts);
      assert forall k :: 0 <= k < |inputs| ==> inputs[k].v != u;
      assert u !in VarsOf(inputs);
    }
    ReachLeast(env, roots, VarsOf(keep));
    Determined(keep, EnvOf(keep));
  }

  function FadedMap(dead: set<Variable>, env: Env): Env {
    map v | v in env :: Faded(dead, env[v])
  }

  lemma MergeOne(env: Env, v: Variable, s: set<Target>)
    ensures Merge(env, map[v := s]) == env[v := Lookup(env, v) + s]
  {
    var one: Env := map[v := s];
    var m := Merge(env, one);
    forall u | u in m
      ensures m[u] == env[v := Lookup(env, v) + s][u]
    {
      if u != v { assert Lookup(one, u) == {}; }
    }
  }

  lemma RenewMore(was: Env, e: Env, v: Variable, s: set<Target>)
    ensures Renew(Renew(was, e), map[v := s]) == Renew(was, e[v := s])
  {
  }

  lemma FadedRest(dead: set<Variable>, env: Env)
    ensures FadedMap(dead, env - dead) == OutOfScope(dead, env)
  {
  }

  lemma FadedNone(env: Env)
    ensures FadedMap({}, env) == env
  {
    forall v | v in env
      ensures Faded({}, env[v]) == env[v]
    {
    }
  }

  lemma EmptyEnv(env: Env, fs: seq<Fact>)
    requires fs == []
    ensures Good(fs) && Merge(env, EnvOf(fs)) == env && Renew(env, EnvOf(fs)) == env
  {
    assert VarsOf(fs) == {};
    var none: Env := map[];
    Determined(fs, none);
    assert EnvOf(fs) == none;
    forall v | v in env
      ensures Merge(env, none)[v] == env[v]
    {
      assert Lookup(none, v) == {};
    }
  }

  lemma FadedMapMore(dead: set<Variable>, v: Variable, env: Env)
    ensures FadedMap({v}, FadedMap(dead, env)) == FadedMap(dead + {v}, env)
  {
    forall u | u in env
      ensures Faded({v}, Faded(dead, env[u])) == Faded(dead + {v}, env[u])
    {
      FadeStep(dead, v, env[u]);
    }
  }

  /** A weak update of every variable in `lvars`. */
  function Weakened(env: Env, lvars: set<Target>, pts: set<Target>): Env {
    map v | v in env :: if Obj(v) in lvars then env[v] + pts else env[v]
  }

  lemma WeakenedMore(env: Env, lvars: set<Target>, v: Variable, pts: set<Target>)
    requires v in env
    ensures Merge(Weakened(env, lvars, pts), map[v := pts]) == Weakened(env, lvars + {Obj(v)}, pts)
  {
    MergeOne(Weakened(env, lvars, pts), v, pts);
  }

  lemma OneTarget(ts: seq<Target>)
    requires |ts| == 1
    ensures SetOf(ts) == {ts[0]}
  {
  }

  lemma NeverStrong(env: Env, lvars: seq<Target>, pts: set<Target>)
    requires NoDups(lvars) && (|lvars| == 1 ==> lvars[0].Obj? && lvars[0].v.isArray)
    ensures Assigned(env, SetOf(lvars), pts) == Weakened(env, SetOf(lvars), pts)
  {
    ListSize(lvars);
    forall v | v in env
      ensures !IsStrong(SetOf(lvars), v)
    {
      if |lvars| == 1 { OneTarget(lvars); }
    }
  }

  lemma PrefixEnv(fs: seq<Fact>, i: nat)
    requires Good(fs) && i < |fs|
    ensures Good(fs[..i]) && Good(fs[..i + 1]) && fs[i].v !in EnvOf(fs[..i])
    ensures EnvOf(fs[..i + 1]) == EnvOf(fs[..i])[fs[i].v := SetOf(fs[i].pts)]
  {
    hide EnvOf, NoDups;
    Determined(fs[..i], EnvOf(fs[..i]));
    assert forall k :: 0 <= k < i ==> fs[..i][k] == fs[k];
    assert fs[i].v !in VarsOf(fs[..i]);
    assert fs[..i + 1] == fs[..i] + [fs[i]];
    AppendFact(fs[..i], fs[i]);
  }

  lemma MergeAt(e1: Env, e2: Env, u: Variable)
    ensures Lookup(Merge(e1, e2), u) == Lookup(e1, u) + Lookup(e2, u)
    ensures u in Merge(e1, e2) <==> u in e1 || u in e2
  {
  }

  /** Merging one fact after others is merging all of them. */
  lemma MergeMore(was: Env, e: Env, v: Variable, s: set<Target>)
    requires v !in e
    ensures Merge(Merge(was, e), map[v := s]) == Merge(was, e[v := s])
  {
    hide Merge;
    var one: Env, a, b := map[v := s], Merge(Merge(was, e), map[v := s]), Merge(was, e[v := s]);
    forall u
      ensures Lookup(a, u) == Lookup(b, u) && (u in a <==> u in b)
    {
      MergeAt(Merge(was, e), one, u);
      MergeAt(was, e, u);
      MergeAt(was, e[v := s], u);
    }
    assert a.Keys == b.Keys;
    forall u | u in a
      ensures a[u] == b[u]
    {
      assert Lookup(a, u) == Lookup(b, u);
    }
  }

  /** If merging more has changed nothing, neither had merging less. */
  lemma MergeUnchanged(was: Env, e: Env, more: Env)
    requires Merge(Merge(was, e), more) == was
    ensures Merge(was, e) == was
  {
    hide Merge;
    var m := Merge(was, e);
    forall u
      ensures Lookup(m, u) == Lookup(was, u) && (u in m <==> u in was)
    {
      MergeAt(m, more, u);
      MergeAt(was, e, u);
    }
    assert m.Keys == was.Keys;
    forall u | u in m
      ensures m[u] == was[u]
    {
      assert Lookup(m, u) == Lookup(was, u);
    }
  }

  lemma MergeGrows(was: Env, e: Env, v: Variable, s: set<Target>)
    requires v !in e
    ensures Merge(Merge(was, e), map[v := s]) == Merge(was, e[v := s])
    ensures Merge(Merge(was, e), map[v := s]) == was ==> Merge(was, e) == was
  {
    hide Merge;
    MergeMore(was, e, v, s);
    if Merge(Merge(was, e), map[v := s]) == was {
      MergeUnchanged(was, e, map[v := s]);
    }
  }

  lemma FadedFacts(fs: seq<Fact>, gs: seq<Fact>, dead: set<Variable>)
    requires Unique(fs) && |fs| == |gs| && forall k :: 0 <= k < |fs| ==> gs[k].v == fs[k].v
    requires forall k :: 0 <= k < |fs| ==> SetOf(gs[k].pts) == Faded(dead, SetOf(fs[k].pts))
    ensures Unique(gs) && EnvOf(gs) == FadedMap(dead, EnvOf(fs))
  {
    hide EnvOf, Faded;
    SameVars(fs, gs);
    Determined(gs, FadedMap(dead, EnvOf(fs)));
  }

  /** Vectors about the same variables, the second with other lists. */
  lemma SameVars(fs: seq<Fact>, gs: seq<Fact>)
    requires Unique(fs) && |fs| == |gs| && forall k :: 0 <= k < |fs| ==> gs[k].v == fs[k].v
    ensures Unique(gs) && VarsOf(fs) == VarsOf(gs) && EnvOf(fs).Keys == VarsOf(fs)
    ensures forall k :: 0 <= k < |fs| ==> fs[k].v in EnvOf(fs) && EnvOf(fs)[fs[k].v] == SetOf(fs[k].pts)
  {
    hide EnvOf;
    Determined(fs, EnvOf(fs));
    forall v
      ensures v in VarsOf(fs) <==> v in VarsOf(gs)
    {
      if k :| 0 <= k < |fs| && fs[k].v == v { assert gs[k].v == v; }
      if k :| 0 <= k < |gs| && gs[k].v == v { assert fs[k].v == v; }
    }
  }
}
