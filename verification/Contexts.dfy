/** The code-generation context: checks that read and write sets allow an access, and that record it when they do. */
module Contexts {
  import opened Language
  import opened Facts
  import opened Effects
  import opened FactLists
  import opened FactVectors

  // --- effects recorded step by step

  function Add(e: Effect, more: Option<Effect>): Option<Effect> {
    match more
    case None => None
    case Some(f) => Some(Plus(e, f))
  }

  lemma PlusNone(e: Effect)
    ensures Plus(e, NO_EFFECT) == e
  {
  }

  lemma OneMoreObject(ts: seq<Target>, i: nat)
    requires i < |ts| && forall j :: 0 <= j < |ts| ==> ts[j].Obj?
    ensures Objects(SetOf(ts[..i + 1])) == Objects(SetOf(ts[..i])) + {ts[i].v}
    ensures Plus(Reads(Objects(SetOf(ts[..i]))), ReadEffect(ts[i].v)) == Reads(Objects(SetOf(ts[..i + 1])))
    ensures Plus(Writes(Objects(SetOf(ts[..i]))), WriteEffect(ts[i].v)) == Writes(Objects(SetOf(ts[..i + 1])))
  {
    assert SetOf(ts[..i + 1]) == SetOf(ts[..i]) + {ts[i]};
    var vs := Objects(SetOf(ts[..i]));
    forall v
      ensures v in Objects(SetOf(ts[..i + 1])) <==> v in vs + {ts[i].v}
    {
      if v in vs { var t :| t in SetOf(ts[..i]) && t.Obj? && t.v == v; assert t in SetOf(ts[..i + 1]); }
      if v == ts[i].v { assert ts[i] in SetOf(ts[..i + 1]); }
    }
    assert AnyVolatile(vs + {ts[i].v}) <==> AnyVolatile(vs) || ts[i].v.isVolatile by {
      if ts[i].v.isVolatile { assert ts[i].v in vs + {ts[i].v}; }
    }
  }

  class CGContext {
    /** What has happened in unsequenced operands, and what directives and enclosing loops forbid. */
    const effectContext: Effect
    const noReadVars: seq<Variable>
    const noWriteVars: seq<Variable>
    const ivs: seq<Variable>
    var accum: Effect

    ghost function Ctx(): Context {
      Context(effectContext, Elems(noReadVars), Elems(noWriteVars) + Elems(ivs), {})
    }

    constructor (eff: Effect, noReads: seq<Variable>, noWrites: seq<Variable>, loopVars: seq<Variable>)
      ensures Ctx() == Context(eff, Elems(noReads), Elems(noWrites) + Elems(loopVars), {}) && accum == NO_EFFECT
    {
      effectContext, noReadVars, noWriteVars, ivs := eff, noReads, noWrites, loopVars;
      accum := NO_EFFECT;
    }

    method IsNonReadable(v: Variable) returns (r: bool)
      ensures r <==> v in Ctx().noRead
    {
      for i := 0 to |noReadVars|
        invariant v !in noReadVars[..i]
      {
        if noReadVars[i] == v { return true; }
      }
      return false;
    }

    method IsNonWritable(v: Variable) returns (r: bool)
      ensures r <==> v in Ctx().noWrite
    {
      for i := 0 to |noWriteVars|
        invariant v !in noWriteVars[..i]
      {
        if noWriteVars[i] == v { return true; }
      }
      for i := 0 to |ivs|
        invariant v !in ivs[..i]
      {
        if ivs[i] == v { return true; }
      }
      return false;
    }

    method IsDangling(v: Variable, facts: seq<Fact>) returns (r: bool)
      requires Good(facts)
      ensures r <==> Garbage in Lookup(EnvOf(facts), v)
    {
      hide EnvOf;
      var i := Find(facts, v);
      if i == |facts| { return false; }
      Determined(facts, EnvOf(facts));
      r := InList(facts[i].pts, Garbage);
    }

    method CheckReadVar(v: Variable, facts: seq<Fact>) returns (ok: bool)
      requires Good(facts)
      modifies this
      ensures ok <==> CheckRead(EnvOf(facts), Ctx(), v)
      ensures accum == if ok then Plus(old(accum), ReadEffect(v)) else old(accum)
    {
      hide EnvOf;
      var forbidden := IsNonReadable(v);
      if forbidden || v in effectContext.wrs || (v.isVolatile && effectContext.vol) { return false; }
      if v.level > 0 {
        var dangling := IsDangling(v, facts);
        if dangling { return false; }
      }
      accum := Plus(accum, ReadEffect(v));
      return true;
    }

    method CheckWriteVar(v: Variable) returns (ok: bool)
      modifies this
      ensures ok <==> CheckWrite(Ctx(), v)
      ensures accum == if ok then Plus(old(accum), WriteEffect(v)) else old(accum)
    {
      var forbidden := IsNonWritable(v);
      if forbidden || v.isConst { return false; }
      if v in effectContext.wrs || v in effectContext.rds || (v.isVolatile && effectContext.vol) { return false; }
      accum := Plus(accum, WriteEffect(v));
      return true;
    }

    /** Read all variables in a list of pointees; stop at the first that may not be. */
    method CheckReadAll(ts: seq<Target>, facts: seq<Fact>) returns (ok: bool)
      requires Good(facts) && SafePointees(SetOf(ts))
      modifies this
      ensures ok <==> forall v :: v in Objects(SetOf(ts)) ==> CheckRead(EnvOf(facts), Ctx(), v)
      ensures ok ==> accum == Plus(old(accum), Reads(Objects(SetOf(ts))))
    {
      hide EnvOf, CheckRead;
      AllObjects(ts);
      NoObjects(accum, ts[..0]);
      for i := 0 to |ts|
        invariant accum == Plus(old(accum), Reads(Objects(SetOf(ts[..i]))))
        invariant forall v :: v in Objects(SetOf(ts[..i])) ==> CheckRead(EnvOf(facts), Ctx(), v)
      {
        OneMoreObject(ts, i);
        var one := CheckReadVar(ts[i].v, facts);
        if !one {
          assert ts[i].v in Objects(SetOf(ts));
          return false;
        }
        PlusAssoc(old(accum), Reads(Objects(SetOf(ts[..i]))), ReadEffect(ts[i].v));
      }
      assert ts[..|ts|] == ts;
      return true;
    }

    method CheckWriteAll(ts: seq<Target>) returns (ok: bool)
      requires SafePointees(SetOf(ts))
      modifies this
      ensures ok <==> forall v :: v in Objects(SetOf(ts)) ==> CheckWrite(Ctx(), v)
      ensures ok ==> accum == Plus(old(accum), Writes(Objects(SetOf(ts))))
    {
      hide CheckWrite;
      AllObjects(ts);
      NoObjects(accum, ts[..0]);
      for i := 0 to |ts|
        invariant accum == Plus(old(accum), Writes(Objects(SetOf(ts[..i]))))
        invariant forall v :: v in Objects(SetOf(ts[..i])) ==> CheckWrite(Ctx(), v)
      {
        OneMoreObject(ts, i);
        var one := CheckWriteVar(ts[i].v);
        if !one {
          assert ts[i].v in Objects(SetOf(ts));
          return false;
        }
        PlusAssoc(old(accum), Writes(Objects(SetOf(ts[..i]))), WriteEffect(ts[i].v));
      }
      assert ts[..|ts|] == ts;
      return true;
    }

    /** Follow `ind` pointers from `v`, reading everything on the way; roll back on failure. */
    method ReadPointed(v: Variable, ind: nat, facts: seq<Fact>) returns (ok: bool)
      requires Good(facts)
      modifies this
      ensures ok <==> Effects.ReadPointed(EnvOf(facts), Ctx(), {Obj(v)}, ind).Some?
      ensures !ok ==> accum == old(accum)
      ensures ok ==> accum == Plus(old(accum), Effects.ReadPointed(EnvOf(facts), Ctx(), {Obj(v)}, ind).value)
    {
      hide EnvOf;
      var effectCopy := accum;
      ghost var env, ctx := EnvOf(facts), Ctx();
      var tmp := [Obj(v)];
      OneTarget(tmp);
      var k := ind;
      while k > 0
        invariant Add(old(accum), Effects.ReadPointed(env, ctx, {Obj(v)}, ind)) ==
            Add(accum, Effects.ReadPointed(env, ctx, SetOf(tmp), k))
      {
        ghost var before, was := accum, SetOf(tmp);
        tmp := MergePointees(tmp, facts);
        var safe := IsSafe(tmp);
        if !safe { accum := effectCopy; return false; }
        var readable := CheckReadAll(tmp, facts);
        if !readable { accum := effectCopy; return false; }
        k := k - 1;
        ReadStep(env, ctx, was, k, before);
      }
      PlusNone(accum);
      return true;
    }

    /** Follow `ind` pointers from `v`, reading all but the last, which is written; roll back on failure. */
    method WritePointed(v: Variable, ind: nat, facts: seq<Fact>) returns (ok: bool)
      requires Good(facts) && ind > 0
      modifies this
      ensures ok <==> Effects.WritePointed(EnvOf(facts), Ctx(), {Obj(v)}, ind).Some?
      ensures !ok ==> accum == old(accum)
      ensures ok ==> accum == Plus(old(accum), Effects.WritePointed(EnvOf(facts), Ctx(), {Obj(v)}, ind).value)
    {
      hide EnvOf, Effects.WritePointed, CheckRead, CheckWrite, Plus;
      var effectCopy := accum;
      ghost var env, ctx := EnvOf(facts), Ctx();
      var tmp := [Obj(v)];
      OneTarget(tmp);
      var k := ind;
      while k > 1
        invariant k >= 1
        invariant Add(old(accum), Effects.WritePointed(env, ctx, {Obj(v)}, ind)) ==
            Add(accum, Effects.WritePointed(env, ctx, SetOf(tmp), k))
      {
        ghost var before, was := accum, SetOf(tmp);
        tmp := MergePointees(tmp, facts);
        var safe := IsSafe(tmp);
        if !safe { WriteStops(env, ctx, was, k - 1); accum := effectCopy; return false; }
        var readable := CheckReadAll(tmp, facts);
        if !readable { WriteStops(env, ctx, was, k - 1); accum := effectCopy; return false; }
        k := k - 1;
        WriteStep(env, ctx, was, k, before);
      }
      WriteLast(env, ctx, SetOf(tmp));
      tmp := MergePointees(tmp, facts);
      var safe := IsSafe(tmp);
      if !safe { accum := effectCopy; return false; }
      var writable := CheckWriteAll(tmp);
      if !writable { accum := effectCopy; return false; }
      return true;
    }

    /** The variable that a reference starts from, and its index. */
    method CheckReadRef(r: Ref, facts: seq<Fact>) returns (ok: bool)
      requires Good(facts)
      modifies this
      ensures ok <==> ReadIndex(EnvOf(facts), Ctx(), r).Some? && CheckRead(EnvOf(facts), Ctx(), r.v)
      ensures ok ==> accum == Plus(Plus(old(accum), ReadIndex(EnvOf(facts), Ctx(), r).value), ReadEffect(r.v))
    {
      hide EnvOf, CheckRead;
      if r.ix.By? {
        var indexed := CheckReadVar(r.ix.v, facts);
        if !indexed { return false; }
      } else {
        PlusNone(accum);
      }
      ok := CheckReadVar(r.v, facts);
    }

    /** An rvalue. */
    method VisitVariable(r: Ref, facts: seq<Fact>) returns (ok: bool)
      requires Good(facts)
      modifies this
      ensures ok <==> VisitRead(EnvOf(facts), Ctx(), r).Some?
      ensures ok ==> accum == Plus(old(accum), VisitRead(EnvOf(facts), Ctx(), r).value)
    {
      hide EnvOf, CheckRead, ReadIndex, ValidPtr, Effects.ReadPointed, Plus;
      ghost var env, ctx, start := EnvOf(facts), Ctx(), accum;
      if r.ind > 0 {
        var valid := IsValidPtr(r.v, facts);
        if !valid { return false; }
      }
      var readable := CheckReadRef(r, facts);
      if !readable { return false; }
      ghost var ix := ReadIndex(env, ctx, r).value;
      PlusAssoc(start, ix, ReadEffect(r.v));
      if r.ind == 0 {
        NothingPointed(env, ctx, r.v, Plus(ix, ReadEffect(r.v)));
        return true;
      }
      ok := ReadPointed(r.v, r.ind, facts);
      if ok {
        PlusAssoc(start, Plus(ix, ReadEffect(r.v)), Effects.ReadPointed(env, ctx, {Obj(r.v)}, r.ind).value);
      }
    }

    /** A left side, after a right side with the effect `rhs`. */
    method VisitLhs(r: Ref, compound: bool, rhs: Effect, facts: seq<Fact>) returns (ok: bool)
      requires Good(facts)
      modifies this
      ensures ok <==> Effects.VisitLhs(EnvOf(facts), Ctx(), rhs, r, compound).Some?
      ensures ok ==> accum == Plus(old(accum), Effects.VisitLhs(EnvOf(facts), Ctx(), rhs, r, compound).value)
    {
      hide EnvOf, CheckRead, CheckWrite, ReadIndex, ValidPtr, Effects.WritePointed, VisitRead, PtrModified, Plus;
      ghost var env, ctx, start := EnvOf(facts), Ctx(), accum;
      ghost var prior := if compound then VisitRead(env, ctx, r) else Some(NO_EFFECT);
      if compound {
        var readable := VisitVariable(r, facts);
        if !readable { return false; }
      } else {
        PlusNone(accum);
      }
      var indexed := VisitIndices(r, rhs, facts);
      if !indexed { return false; }
      if r.ind > 0 {
        ok := VisitChain(r, rhs, facts);
        if ok {
          ghost var ix, e := ReadIndex(env, ctx, r).value, Effects.WritePointed(env, ctx, {Obj(r.v)}, r.ind).value;
          PlusAssoc(start, prior.value, Plus(ix, ReadEffect(r.v)));
          PlusAssoc(start, Plus(prior.value, Plus(ix, ReadEffect(r.v))), e);
        }
      } else {
        ok := ReadThenWrite(r, facts);
        if ok {
          ghost var ix := ReadIndex(env, ctx, r).value;
          PlusAssoc(start, prior.value, ix);
          PlusAssoc(start, Plus(prior.value, ix), WriteEffect(r.v));
        }
      }
    }

    /** Is the index still readable when the right side has had its effect?  Nothing is recorded. */
    method VisitIndices(r: Ref, rhs: Effect, facts: seq<Fact>) returns (ok: bool)
      requires Good(facts)
      ensures ok <==> ReadIndex(EnvOf(facts), Context(Plus(Ctx().eff, rhs), {}, {}, {}), r).Some?
    {
      hide EnvOf, CheckRead;
      var afterRhs := new CGContext(Plus(effectContext, rhs), [], [], []);
      assert afterRhs.Ctx() == Context(Plus(Ctx().eff, rhs), {}, {}, {}) by {
        assert Elems([]) == {};
      }
      if r.ix.By? {
        ok := afterRhs.CheckReadVar(r.ix.v, facts);
      } else {
        ok := true;
      }
    }

    method VisitChain(r: Ref, rhs: Effect, facts: seq<Fact>) returns (ok: bool)
      requires Good(facts) && r.ind > 0
      modifies this
      ensures ok <==> && ReadIndex(EnvOf(facts), Ctx(), r).Some? && ValidPtr(EnvOf(facts), r.v) && r.v !in rhs.wrs
                      && !PtrModified(EnvOf(facts), rhs.wrs, {Obj(r.v)}, r.ind) && CheckRead(EnvOf(facts), Ctx(), r.v)
                      && Effects.WritePointed(EnvOf(facts), Ctx(), {Obj(r.v)}, r.ind).Some?
      ensures ok ==> accum == Plus(Plus(old(accum), Plus(ReadIndex(EnvOf(facts), Ctx(), r).value, ReadEffect(r.v))),
                                   Effects.WritePointed(EnvOf(facts), Ctx(), {Obj(r.v)}, r.ind).value)
    {
      hide EnvOf, CheckRead, ReadIndex, ValidPtr, Effects.WritePointed, PtrModified, Plus;
      ghost var start := accum;
      var valid := IsValidPtr(r.v, facts);
      if !valid { return false; }
      var modified := PtrModifiedInRhs(r, rhs, facts);
      if modified { return false; }
      var readable := CheckReadRef(r, facts);
      if !readable { return false; }
      PlusAssoc(start, ReadIndex(EnvOf(facts), Ctx(), r).value, ReadEffect(r.v));
      ok := WritePointed(r.v, r.ind, facts);
    }

    method ReadThenWrite(r: Ref, facts: seq<Fact>) returns (ok: bool)
      requires Good(facts)
      modifies this
      ensures ok <==> ReadIndex(EnvOf(facts), Ctx(), r).Some? && CheckWrite(Ctx(), r.v)
      ensures ok ==> accum == Plus(Plus(old(accum), ReadIndex(EnvOf(facts), Ctx(), r).value), WriteEffect(r.v))
    {
      hide EnvOf, CheckRead, CheckWrite;
      if r.ix.By? {
        var indexed := CheckReadVar(r.ix.v, facts);
        if !indexed { return false; }
      } else {
        PlusNone(accum);
      }
      ok := CheckWriteVar(r.v);
    }

    /** Does the right side write the pointer itself, or one that has to be followed? */
    method PtrModifiedInRhs(r: Ref, rhs: Effect, facts: seq<Fact>) returns (modified: bool)
      requires Good(facts)
      ensures modified <==> r.v in rhs.wrs || PtrModified(EnvOf(facts), rhs.wrs, {Obj(r.v)}, r.ind)
    {
      hide EnvOf;
      if r.v in rhs.wrs { return true; }
      var tmp := [Obj(r.v)];
      OneTarget(tmp);
      var k := r.ind;
      while k > 1
        invariant PtrModified(EnvOf(facts), rhs.wrs, SetOf(tmp), k) <==>
            PtrModified(EnvOf(facts), rhs.wrs, {Obj(r.v)}, r.ind)
      {
        tmp := MergePointees(tmp, facts);
        var written := AnyWritten(tmp, rhs);
        if written { return true; }
        k := k - 1;
      }
      return false;
    }
  }

  method AnyWritten(ts: seq<Target>, e: Effect) returns (r: bool)
    ensures r <==> exists v :: v in Objects(SetOf(ts)) && v in e.wrs
  {
    for i := 0 to |ts|
      invariant forall j :: 0 <= j < i ==> !(ts[j].Obj? && ts[j].v in e.wrs)
    {
      if ts[i].Obj? && ts[i].v in e.wrs {
        assert ts[i] in SetOf(ts) && ts[i].v in Objects(SetOf(ts));
        return true;
      }
    }
    return false;
  }

  method IsSafe(ts: seq<Target>) returns (r: bool)
    ensures r <==> SafePointees(SetOf(ts))
  {
    if ts == [] { return false; }
    assert ts[0] in SetOf(ts);
    var isNull := InList(ts, Null);
    var isDead := InList(ts, Garbage);
    return !isNull && !isDead;
  }

  method IsValidPtr(v: Variable, facts: seq<Fact>) returns (r: bool)
    requires Good(facts)
    ensures r <==> ValidPtr(EnvOf(facts), v)
  {
    hide EnvOf;
    if v.isArray { return false; }
    var i := Find(facts, v);
    if i == |facts| { return false; }
    Determined(facts, EnvOf(facts));
    var isNull := InList(facts[i].pts, Null);
    var isDead := InList(facts[i].pts, Garbage);
    return !isNull && !isDead;
  }

  // --- steps of the loops

  lemma AllObjects(ts: seq<Target>)
    requires SafePointees(SetOf(ts))
    ensures forall j :: 0 <= j < |ts| ==> ts[j].Obj? && ts[j].v in Objects(SetOf(ts))
  {
    forall j | 0 <= j < |ts|
      ensures ts[j].Obj? && ts[j].v in Objects(SetOf(ts))
    {
      assert ts[j] in SetOf(ts);
    }
  }

  lemma NoObjects(e: Effect, ts: seq<Target>)
    requires ts == []
    ensures Objects(SetOf(ts)) == {}
    ensures e == Plus(e, Reads(Objects(SetOf(ts)))) && e == Plus(e, Writes(Objects(SetOf(ts))))
  {
  }

  lemma NothingPointed(env: Env, ctx: Context, v: Variable, e: Effect)
    ensures Effects.ReadPointed(env, ctx, {Obj(v)}, 0) == Some(NO_EFFECT) && Plus(e, NO_EFFECT) == e
  {
  }

  lemma ReadStep(env: Env, ctx: Context, ts: set<Target>, k: nat, e: Effect)
    requires var next := Pointees(env, ts);
             SafePointees(next) && forall v :: v in Objects(next) ==> CheckRead(env, ctx, v)
    ensures var next := Pointees(env, ts);
            Add(e, Effects.ReadPointed(env, ctx, ts, k + 1)) ==
            Add(Plus(e, Reads(Objects(next))), Effects.ReadPointed(env, ctx, next, k))
  {
    var next := Pointees(env, ts);
    var rest := Effects.ReadPointed(env, ctx, next, k);
    if rest.Some? { PlusAssoc(e, Reads(Objects(next)), rest.value); }
  }

  lemma WriteStops(env: Env, ctx: Context, ts: set<Target>, k: nat)
    requires k > 0
    requires var next := Pointees(env, ts);
             !(SafePointees(next) && forall v :: v in Objects(next) ==> CheckRead(env, ctx, v))
    ensures Effects.WritePointed(env, ctx, ts, k + 1).None?
  {
  }

  lemma WriteLast(env: Env, ctx: Context, ts: set<Target>)
    ensures var next, e := Pointees(env, ts), Effects.WritePointed(env, ctx, ts, 1);
            && (e.Some? <==> SafePointees(next) && forall v :: v in Objects(next) ==> CheckWrite(ctx, v))
            && (e.Some? ==> e.value == Writes(Objects(next)))
  {
  }

  lemma WriteStep(env: Env, ctx: Context, ts: set<Target>, k: nat, e: Effect)
    requires k > 0
    requires var next := Pointees(env, ts);
             SafePointees(next) && forall v :: v in Objects(next) ==> CheckRead(env, ctx, v)
    ensures var next := Pointees(env, ts);
            Add(e, Effects.WritePointed(env, ctx, ts, k + 1)) ==
            Add(Plus(e, Reads(Objects(next))), Effects.WritePointed(env, ctx, next, k))
  {
    var next := Pointees(env, ts);
    var rest := Effects.WritePointed(env, ctx, next, k);
    if rest.Some? { PlusAssoc(e, Reads(Objects(next)), rest.value); }
  }
}
