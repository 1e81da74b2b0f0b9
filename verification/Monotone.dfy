/** The analysis is monotone: what it accepts with some facts and effects it accepts with fewer, and then it says less.
  * Hence the search for a loop's fixed point fails only if there is none, and finds the least. */
module Monotone {
  import opened Language
  import opened Semantics
  import opened Facts
  import opened Effects
  import opened Analysis
  import opened Changes
  import opened Directives
  import opened Soundness

  // --- facts and contexts

  /** `e2` allows all that `e1` does. */
  ghost predicate Smaller(e1: Env, e2: Env) {
    e1.Keys <= e2.Keys && forall v :: v in e1 ==> e1[v] <= e2[v]
  }

  /** And where it has facts about pointers that `e1` has none for - those that a larger hand-over adds - it allows at
    * least what `base` does. */
  ghost predicate Less(e1: Env, e2: Env, base: Env) {
    && Smaller(e1, e2)
    && (forall v :: v in e2 && v !in e1 ==> v in base && base[v] <= e2[v])
  }

  lemma LessSmaller(e1: Env, e2: Env, base: Env)
    requires Less(e1, e2, base)
    ensures Smaller(e1, e2)
  {
  }

  /** `base` is about the frames of callers. */
  ghost predicate Outside(base: Env, outer: set<Variable>, sc: Scope) {
    base.Keys <= outer && Within(base, outer) && outer <= sc.live && outer !! sc.func
  }

  ghost predicate Pair(p: Program, k: nat, e1: Env, e2: Env, base: Env, outer: set<Variable>, sc: Scope) {
    && Ready(p, k, e1, sc) && Ready(p, k, e2, sc) && Full(e1) && Less(e1, e2, base) && Outside(base, outer, sc)
  }

  ghost predicate EffLess(a: Effect, b: Effect) {
    a.rds <= b.rds && a.wrs <= b.wrs && a.lhs <= b.lhs && (a.vol ==> b.vol)
  }

  ghost predicate CtxLess(c1: Context, c2: Context) {
    EffLess(c1.eff, c2.eff) && c1.noRead <= c2.noRead && c1.noWrite <= c2.noWrite && c1.created == c2.created
  }

  lemma EffPlus(a: Effect, b: Effect, c: Effect, d: Effect)
    requires EffLess(a, b) && EffLess(c, d)
    ensures EffLess(Plus(a, c), Plus(b, d)) && EffLess(Unsequenced(a, c), Unsequenced(b, d))
    ensures EffLess(BothSides(a, c), BothSides(b, d))
  {
  }

  lemma CtxAfter(c1: Context, c2: Context, a: Effect, b: Effect)
    requires CtxLess(c1, c2) && EffLess(a, b)
    ensures CtxLess(c1.(eff := Plus(c1.eff, a)), c2.(eff := Plus(c2.eff, b)))
  {
  }

  // --- pointees

  lemma PointeesLess(e1: Env, e2: Env, ts1: set<Target>, ts2: set<Target>)
    requires Smaller(e1, e2) && ts1 <= ts2
    ensures Pointees(e1, ts1) <= Pointees(e2, ts2) && Objects(Pointees(e1, ts1)) <= Objects(Pointees(e2, ts2))
  {
  }

  lemma {:induction false} DerefLess(e1: Env, e2: Env, ts1: set<Target>, ts2: set<Target>, k: nat)
    requires Smaller(e1, e2) && ts1 <= ts2
    ensures Deref(e1, ts1, k) <= Deref(e2, ts2, k)
    decreases k
  {
    if k > 0 {
      PointeesLess(e1, e2, ts1, ts2);
      DerefLess(e1, e2, Pointees(e1, ts1), Pointees(e2, ts2), k - 1);
    }
  }

  lemma {:induction false} RhsLess(e1: Env, e2: Env, e: Expr, rets1: set<Target>, rets2: set<Target>)
    requires Smaller(e1, e2) && rets1 <= rets2
    ensures RhsPointees(e1, e, rets1) <= RhsPointees(e2, e, rets2)
    decreases e
  {
    match e
    case Load(r) => DerefLess(e1, e2, {Obj(r.v)}, {Obj(r.v)}, r.ind + 1);
    case Assign(_, _, rhs) => RhsLess(e1, e2, rhs, rets1, rets2);
    case Comma(_, b) => RhsLess(e1, e2, b, rets1, rets2);
    case _ =>
  }

  // --- checks

  lemma ChecksLess(e1: Env, e2: Env, c1: Context, c2: Context, v: Variable)
    requires Smaller(e1, e2) && CtxLess(c1, c2)
    ensures CheckRead(e2, c2, v) ==> CheckRead(e1, c1, v)
    ensures CheckWrite(c2, v) ==> CheckWrite(c1, v)
  {
  }

  /** Pointers of one level that may be followed, one at least. */
  ghost predicate Starts(env: Env, ts: set<Target>, level: nat) {
    ts != {} && forall t :: t in ts ==> t.Obj? && t.v.level == level && (level > 0 ==> t.v in env)
  }

  lemma StartsNext(e1: Env, live: set<Variable>, ts: set<Target>, level: nat, next2: set<Target>)
    requires EnvWF(e1, live) && Full(e1) && level > 0 && Starts(e1, ts, level)
    requires Pointees(e1, ts) <= next2 && SafePointees(next2)
    ensures SafePointees(Pointees(e1, ts)) && Starts(e1, Pointees(e1, ts), level - 1)
  {
    var next := Pointees(e1, ts);
    var t :| t in ts;
    var u :| u in e1[t.v];
    assert u in next;
    forall x | x in next
      ensures x.Obj? && x.v.level == level - 1 && (level - 1 > 0 ==> x.v in e1)
    {
      assert x in next2 && x != Null && x != Garbage;
      var y :| y in ts && y.Obj? && y.v in e1 && x in e1[y.v];
      assert GoodTarget(x, y.v.level, live, e1.Keys);
    }
  }

  lemma VolatileLess(vs: set<Variable>, us: set<Variable>)
    requires vs <= us
    ensures AnyVolatile(vs) ==> AnyVolatile(us)
  {
  }

  lemma {:induction false} ReadPointedLess(e1: Env, e2: Env, c1: Context, c2: Context, live: set<Variable>,
                                           ts1: set<Target>, ts2: set<Target>, k: nat, level: nat)
    requires Smaller(e1, e2) && CtxLess(c1, c2) && ts1 <= ts2
    requires EnvWF(e1, live) && Full(e1) && k <= level && Starts(e1, ts1, level)
    ensures var r1, r2 := ReadPointed(e1, c1, ts1, k), ReadPointed(e2, c2, ts2, k);
            r2.Some? ==> r1.Some? && EffLess(r1.value, r2.value)
    decreases k
  {
    hide Pointees, Objects, CheckRead, SafePointees, EnvWF, Full, Starts, CtxLess;
    if k > 0 && ReadPointed(e2, c2, ts2, k).Some? {
      var n1, n2 := Pointees(e1, ts1), Pointees(e2, ts2);
      PointeesLess(e1, e2, ts1, ts2);
      StartsNext(e1, live, ts1, level, n2);
      forall v | v in Objects(n1)
        ensures CheckRead(e1, c1, v)
      {
        ChecksLess(e1, e2, c1, c2, v);
      }
      VolatileLess(Objects(n1), Objects(n2));
      ReadPointedLess(e1, e2, c1, c2, live, n1, n2, k - 1, level - 1);
      EffPlus(Reads(Objects(n1)), Reads(Objects(n2)), ReadPointed(e1, c1, n1, k - 1).value,
              ReadPointed(e2, c2, n2, k - 1).value);
    }
  }

  lemma {:induction false} WritePointedLess(e1: Env, e2: Env, c1: Context, c2: Context, live: set<Variable>,
                                            ts1: set<Target>, ts2: set<Target>, k: nat, level: nat)
    requires Smaller(e1, e2) && CtxLess(c1, c2) && ts1 <= ts2
    requires EnvWF(e1, live) && Full(e1) && 0 < k <= level && Starts(e1, ts1, level)
    ensures var r1, r2 := WritePointed(e1, c1, ts1, k), WritePointed(e2, c2, ts2, k);
            r2.Some? ==> r1.Some? && EffLess(r1.value, r2.value) && Deref(e1, ts1, k) != {}
    decreases k
  {
    hide Pointees, Objects, CheckRead, CheckWrite, SafePointees, EnvWF, Full, Starts, CtxLess;
    if WritePointed(e2, c2, ts2, k).Some? {
      var n1, n2 := Pointees(e1, ts1), Pointees(e2, ts2);
      PointeesLess(e1, e2, ts1, ts2);
      StartsNext(e1, live, ts1, level, n2);
      forall v | v in Objects(n1)
        ensures CheckRead(e2, c2, v) ==> CheckRead(e1, c1, v)
        ensures CheckWrite(c2, v) ==> CheckWrite(c1, v)
      {
        ChecksLess(e1, e2, c1, c2, v);
      }
      VolatileLess(Objects(n1), Objects(n2));
      if k > 1 {
        WritePointedLess(e1, e2, c1, c2, live, n1, n2, k - 1, level - 1);
        EffPlus(Reads(Objects(n1)), Reads(Objects(n2)), WritePointed(e1, c1, n1, k - 1).value,
                WritePointed(e2, c2, n2, k - 1).value);
      } else {
        StartsSome(e1, n1, level - 1);
        assert Deref(e1, ts1, 1) == Deref(e1, n1, 0) == n1;
      }
    }
  }

  lemma StartsSome(env: Env, ts: set<Target>, level: nat)
    requires Starts(env, ts, level)
    ensures ts != {}
  {
  }

  lemma {:induction false} ModifiedLess(e1: Env, e2: Env, wrs1: set<Variable>, wrs2: set<Variable>, ts1: set<Target>,
                                        ts2: set<Target>, k: nat)
    requires Smaller(e1, e2) && wrs1 <= wrs2 && ts1 <= ts2
    ensures PtrModified(e1, wrs1, ts1, k) ==> PtrModified(e2, wrs2, ts2, k)
    decreases k
  {
    hide Pointees, Objects;
    if k > 1 {
      PointeesLess(e1, e2, ts1, ts2);
      ModifiedLess(e1, e2, wrs1, wrs2, Pointees(e1, ts1), Pointees(e2, ts2), k - 1);
    }
  }

  lemma ReadLess(e1: Env, e2: Env, base: Env, c1: Context, c2: Context, r: Ref, live: set<Variable>)
    requires Less(e1, e2, base) && CtxLess(c1, c2) && EnvWF(e1, live) && Full(e1)
    requires WFRef(r, live) && (r.v.level > 0 ==> r.v in e1)
    ensures var r1, r2 := VisitRead(e1, c1, r), VisitRead(e2, c2, r);
            r2.Some? ==> r1.Some? && EffLess(r1.value, r2.value)
  {
    hide ReadPointed, CheckRead, EnvWF, CtxLess;
    ChecksLess(e1, e2, c1, c2, r.v);
    if r.ix.By? { ChecksLess(e1, e2, c1, c2, r.ix.v); }
    ReadPointedLess(e1, e2, c1, c2, live, {Obj(r.v)}, {Obj(r.v)}, r.ind, r.v.level);
  }

  lemma IndexLess(e1: Env, e2: Env, base: Env, c1: Context, c2: Context, r: Ref)
    requires Less(e1, e2, base) && CtxLess(c1, c2)
    ensures ReadIndex(e2, c2, r).Some? ==> ReadIndex(e1, c1, r) == ReadIndex(e2, c2, r)
  {
    hide CheckRead, CtxLess;
    if r.ix.By? { ChecksLess(e1, e2, c1, c2, r.ix.v); }
  }

  lemma EffSelf(a: Effect)
    ensures EffLess(a, a)
  {
  }

  lemma LhsLess(e1: Env, e2: Env, base: Env, c1: Context, c2: Context, a: Effect, b: Effect, r: Ref, compound: bool,
                live: set<Variable>)
    requires Less(e1, e2, base) && CtxLess(c1, c2) && EffLess(a, b) && EnvWF(e1, live) && Full(e1)
    requires WFRef(r, live) && (r.v.level > 0 ==> r.v in e1)
    ensures var r1, r2 := VisitLhs(e1, c1, a, r, compound), VisitLhs(e2, c2, b, r, compound);
            r2.Some? ==> r1.Some? && EffLess(r1.value, r2.value) && Deref(e1, {Obj(r.v)}, r.ind) != {}
  {
    hide VisitRead, WritePointed, PtrModified, CheckRead, CheckWrite, ReadIndex, Plus, EffLess, CtxLess, Less, Deref,
         ValidPtr, EnvWF, Full, ReadEffect, WriteEffect;
    if VisitLhs(e2, c2, b, r, compound).Some? {
      var d1, d2 := Context(Plus(c1.eff, a), {}, {}, {}), Context(Plus(c2.eff, b), {}, {}, {});
      InRhsLess(c1, c2, a, b);
      IndexLess(e1, e2, base, c1, c2, r);
      IndexLess(e1, e2, base, d1, d2, r);
      ReadLess(e1, e2, base, c1, c2, r, live);
      EffSelf(NO_EFFECT);
      var ix := ReadIndex(e2, c2, r).value;
      EffSelf(ix);
      var prior1 := if compound then VisitRead(e1, c1, r).value else NO_EFFECT;
      var prior2 := if compound then VisitRead(e2, c2, r).value else NO_EFFECT;
      if r.ind > 0 {
        FarLess(e1, e2, base, c1, c2, a, b, r, live);
        EffSelf(Plus(ix, ReadEffect(r.v)));
        EffPlus(prior1, prior2, Plus(ix, ReadEffect(r.v)), Plus(ix, ReadEffect(r.v)));
        var w1, w2 := WritePointed(e1, c1, {Obj(r.v)}, r.ind).value, WritePointed(e2, c2, {Obj(r.v)}, r.ind).value;
        EffPlus(Plus(prior1, Plus(ix, ReadEffect(r.v))), Plus(prior2, Plus(ix, ReadEffect(r.v))), w1, w2);
      } else {
        LessSmaller(e1, e2, base);
        ChecksLess(e1, e2, c1, c2, r.v);
        EffSelf(WriteEffect(r.v));
        EffPlus(prior1, prior2, ix, ix);
        EffPlus(Plus(prior1, ix), Plus(prior2, ix), WriteEffect(r.v), WriteEffect(r.v));
        DerefNone(e1, {Obj(r.v)});
      }
    }
  }

  lemma InRhsLess(c1: Context, c2: Context, a: Effect, b: Effect)
    requires CtxLess(c1, c2) && EffLess(a, b)
    ensures CtxLess(Context(Plus(c1.eff, a), {}, {}, {}), Context(Plus(c2.eff, b), {}, {}, {}))
  {
  }

  lemma FarLess(e1: Env, e2: Env, base: Env, c1: Context, c2: Context, a: Effect, b: Effect, r: Ref,
                live: set<Variable>)
    requires Less(e1, e2, base) && CtxLess(c1, c2) && EffLess(a, b) && EnvWF(e1, live) && Full(e1)
    requires WFRef(r, live) && r.ind > 0 && r.v in e1
    requires ValidPtr(e2, r.v) && r.v !in b.wrs && !PtrModified(e2, b.wrs, {Obj(r.v)}, r.ind) && CheckRead(e2, c2, r.v)
    requires WritePointed(e2, c2, {Obj(r.v)}, r.ind).Some?
    ensures ValidPtr(e1, r.v) && r.v !in a.wrs && !PtrModified(e1, a.wrs, {Obj(r.v)}, r.ind) && CheckRead(e1, c1, r.v)
    ensures var w1, w2 := WritePointed(e1, c1, {Obj(r.v)}, r.ind), WritePointed(e2, c2, {Obj(r.v)}, r.ind);
            w1.Some? && EffLess(w1.value, w2.value) && Deref(e1, {Obj(r.v)}, r.ind) != {}
  {
    hide WritePointed, PtrModified, CheckRead, EnvWF, Deref;
    ChecksLess(e1, e2, c1, c2, r.v);
    WritePointedLess(e1, e2, c1, c2, live, {Obj(r.v)}, {Obj(r.v)}, r.ind, r.v.level);
    ModifiedLess(e1, e2, a.wrs, b.wrs, {Obj(r.v)}, {Obj(r.v)}, r.ind);
  }

  lemma DerefNone(env: Env, ts: set<Target>)
    ensures Deref(env, ts, 0) == ts
  {
  }

  lemma LhsContextLess(c1: Context, c2: Context, a: Effect, b: Effect, compound: bool)
    requires CtxLess(c1, c2) && EffLess(a, b)
    ensures CtxLess(LhsContext(c1, a, compound), LhsContext(c2, b, compound))
  {
    VolatileLess(a.lhs, b.lhs);
  }

  // --- expressions

  ghost predicate ExprLess(r1: Verdict, r2: Verdict, base: Env) {
    r2.Accept? ==> r1.Accept? && Less(r1.env, r2.env, base) && EffLess(r1.eff, r2.eff) && r1.rets <= r2.rets
  }

  lemma {:induction false} VisitLess(p: Program, k: nat, e: Expr, e1: Env, e2: Env, base: Env, outer: set<Variable>,
                                     sc: Scope, c1: Context, c2: Context)
    requires Pair(p, k, e1, e2, base, outer, sc) && WFExpr(p, k, e, sc.vis) && CtxLess(c1, c2)
    ensures ExprLess(Visit(p, k, e, e1, sc, c1), Visit(p, k, e, e2, sc, c2), base)
    decreases k, e
  {
    hide *;
    match e
    case Const(_) => LeafLess(p, k, e, e1, e2, base, outer, sc, c1, c2);
    case PtrConst(_, _) => LeafLess(p, k, e, e1, e2, base, outer, sc, c1, c2);
    case AddrOf(_, _) => LeafLess(p, k, e, e1, e2, base, outer, sc, c1, c2);
    case Load(_) => LoadLess(p, k, e, e1, e2, base, outer, sc, c1, c2);
    case Assign(_, _, _) => AssignLess(p, k, e, e1, e2, base, outer, sc, c1, c2);
    case Comma(a, b) => ThenLess(p, k, e, a, b, e1, e2, base, outer, sc, c1, c2);
    case Short(_, a, b) => ThenLess(p, k, e, a, b, e1, e2, base, outer, sc, c1, c2);
    case Op(_, _) => OperatorLess(p, k, e, e1, e2, base, outer, sc, c1, c2);
    case Call(_, _) => CallExprLess(p, k, e, e1, e2, base, outer, sc, c1, c2);
  }

  lemma LeafLess(p: Program, k: nat, e: Expr, e1: Env, e2: Env, base: Env, outer: set<Variable>, sc: Scope,
                 c1: Context, c2: Context)
    requires e.Const? || e.PtrConst? || e.AddrOf?
    requires Pair(p, k, e1, e2, base, outer, sc) && WFExpr(p, k, e, sc.vis)
    ensures ExprLess(Visit(p, k, e, e1, sc, c1), Visit(p, k, e, e2, sc, c2), base)
  {
    hide Less, Outside, Full;
  }

  lemma {:induction false} OperatorLess(p: Program, k: nat, e: Expr, e1: Env, e2: Env, base: Env, outer: set<Variable>,
                                        sc: Scope, c1: Context, c2: Context)
    requires e.Op? && Pair(p, k, e1, e2, base, outer, sc) && WFExpr(p, k, e, sc.vis) && CtxLess(c1, c2)
    ensures ExprLess(Visit(p, k, e, e1, sc, c1), Visit(p, k, e, e2, sc, c2), base)
    decreases k, e, |Args(e)| + 1
  {
    hide Pair, Less, EffLess, CtxLess, VisitArgs;
    PairReady(p, k, e1, e2, base, outer, sc);
    ArgsLess(p, k, e, e.args, e1, e2, base, outer, sc, c1, c2);
  }

  lemma PairReady(p: Program, k: nat, e1: Env, e2: Env, base: Env, outer: set<Variable>, sc: Scope)
    requires Pair(p, k, e1, e2, base, outer, sc)
    ensures Ready(p, k, e1, sc) && Ready(p, k, e2, sc) && Full(e1) && Less(e1, e2, base) && Outside(base, outer, sc)
  {
  }

  /** After visiting, the two are a pair again. */
  lemma PairAfter(p: Program, k: nat, e: Expr, e1: Env, e2: Env, base: Env, outer: set<Variable>, sc: Scope,
                  c1: Context, c2: Context)
    requires Pair(p, k, e1, e2, base, outer, sc) && WFExpr(p, k, e, sc.vis)
    requires ExprLess(Visit(p, k, e, e1, sc, c1), Visit(p, k, e, e2, sc, c2), base)
    requires Visit(p, k, e, e2, sc, c2).Accept?
    ensures Pair(p, k, Visit(p, k, e, e1, sc, c1).env, Visit(p, k, e, e2, sc, c2).env, base, outer, sc)
  {
    hide Visit, Less, Outside, Full, Fills, Kept;
    ExprChanges(p, k, e, e1, sc, c1);
  }

  lemma LoadLess(p: Program, k: nat, e: Expr, e1: Env, e2: Env, base: Env, outer: set<Variable>, sc: Scope,
                 c1: Context, c2: Context)
    requires e.Load? && Pair(p, k, e1, e2, base, outer, sc) && WFExpr(p, k, e, sc.vis) && CtxLess(c1, c2)
    ensures ExprLess(Visit(p, k, e, e1, sc, c1), Visit(p, k, e, e2, sc, c2), base)
  {
    hide VisitRead, Full, EnvWF, CtxLess, EffLess, Less, Outside;
    ReadLess(e1, e2, base, c1, c2, e.r, sc.live);
  }

  lemma {:induction false} AssignLess(p: Program, k: nat, e: Expr, e1: Env, e2: Env, base: Env, outer: set<Variable>,
                                      sc: Scope, c1: Context, c2: Context)
    requires e.Assign? && Pair(p, k, e1, e2, base, outer, sc) && WFExpr(p, k, e, sc.vis) && CtxLess(c1, c2)
    ensures ExprLess(Visit(p, k, e, e1, sc, c1), Visit(p, k, e, e2, sc, c2), base)
    decreases k, e, 0
  {
    hide Pair, Less, EffLess, CtxLess, VisitStore;
    PairReady(p, k, e1, e2, base, outer, sc);
    VisitLess(p, k, e.rhs, e1, e2, base, outer, sc, c1, c2);
    var r1, r2 := Visit(p, k, e.rhs, e1, sc, c1), Visit(p, k, e.rhs, e2, sc, c2);
    if r2.Accept? {
      PairAfter(p, k, e.rhs, e1, e2, base, outer, sc, c1, c2);
      StoreLess(p, k, e, r1.env, r2.env, base, outer, sc, c1, c2, r1.eff, r2.eff, r1.rets, r2.rets);
    }
  }

  lemma StoreLess(p: Program, k: nat, e: Expr, e1: Env, e2: Env, base: Env, outer: set<Variable>, sc: Scope,
                  c1: Context, c2: Context, a: Effect, b: Effect, rets1: set<Target>, rets2: set<Target>)
    requires e.Assign? && Pair(p, k, e1, e2, base, outer, sc) && WFExpr(p, k, e, sc.vis) && CtxLess(c1, c2)
    requires Ready(p, k, e1, sc) && Ready(p, k, e2, sc) && EffLess(a, b) && rets1 <= rets2
    requires Compatible(a, c1) && GoodRets(p, e.rhs, rets1, sc.live, e1.Keys)
    requires Compatible(b, c2) && GoodRets(p, e.rhs, rets2, sc.live, e2.Keys)
    ensures ExprLess(VisitStore(p, k, e, e1, sc, c1, a, rets1), VisitStore(p, k, e, e2, sc, c2, b, rets2), base)
  {
    hide VisitLhs, Less, EffLess, CtxLess, EnvWF, Full, Outside, RhsPointees, AssignFacts, BothSides, Deref;
    var compound := e.compound.Some?;
    var l1, l2 := LhsContext(c1, a, compound), LhsContext(c2, b, compound);
    LhsContextLess(c1, c2, a, b, compound);
    LhsLess(e1, e2, base, l1, l2, a, b, e.r, compound, sc.live);
    if VisitLhs(e2, l2, b, e.r, compound).Some? {
      EffPlus(a, b, VisitLhs(e1, l1, a, e.r, compound).value, VisitLhs(e2, l2, b, e.r, compound).value);
      LessSmaller(e1, e2, base);
      RhsLess(e1, e2, e.rhs, rets1, rets2);
      if RefLevel(e.r) > 0 {
        TransferLess(e1, e2, base, e.r, RhsPointees(e1, e.rhs, rets1), RhsPointees(e2, e.rhs, rets2), sc.live);
      }
    }
  }

  /** More permissive facts before an assignment give more permissive facts after it, even where they turn a strong
    * update into a weak one; and a pointer that only the larger facts know of is never updated strongly. */
  lemma TransferLess(e1: Env, e2: Env, base: Env, r: Ref, pts1: set<Target>, pts2: set<Target>, live: set<Variable>)
    requires Less(e1, e2, base) && EnvWF(e1, live) && WFRef(r, live) && (r.v.level > 0 ==> r.v in e1)
    requires pts1 <= pts2 && Deref(e1, {Obj(r.v)}, r.ind) != {} && RefLevel(r) > 0
    ensures Less(AssignFacts(e1, r, pts1), AssignFacts(e2, r, pts2), base)
  {
    hide Deref, EnvWF;
    LessSmaller(e1, e2, base);
    DerefLess(e1, e2, {Obj(r.v)}, {Obj(r.v)}, r.ind);
    DerefGood(e1, {Obj(r.v)}, r.ind, r.v.level, live);
    var l1, l2 := Deref(e1, {Obj(r.v)}, r.ind), Deref(e2, {Obj(r.v)}, r.ind);
    forall v | v in e2 && IsStrong(l2, v)
      ensures IsStrong(l1, v) && v in e1
    {
      var t :| t in l1;
      assert t in l2 && t == Obj(v);
      assert l1 == {Obj(v)};
      assert GoodTarget(Obj(v), RefLevel(r) + 1, live, e1.Keys);
    }
  }

  /** One expression, then another. */
  lemma ThenVerdict(p: Program, k: nat, e: Expr, a: Expr, b: Expr, env: Env, sc: Scope, ctx: Context)
    requires a < e && b < e && (e == Comma(a, b) || (e.Short? && e.a == a && e.b == b))
    requires Ready(p, k, env, sc) && WFExpr(p, k, e, sc.vis)
    ensures WFExpr(p, k, a, sc.vis) && WFExpr(p, k, b, sc.vis)
    ensures var r, x := Visit(p, k, e, env, sc, ctx), Visit(p, k, a, env, sc, ctx);
            if x.Reject? then r == Reject
            else
              && Ready(p, k, x.env, sc) && x.env.Keys == env.Keys
              && var y := Visit(p, k, b, x.env, sc, ctx);
                 if y.Reject? then r == Reject
                 else
                   && y.env.Keys == env.Keys
                   && r == Accept(if e.Comma? then y.env else Merge(y.env, x.env), Plus(x.eff, y.eff),
                                  if e.Comma? then y.rets else {})
  {
    hide Plus, Merge;
  }

  lemma {:induction false} ThenLess(p: Program, k: nat, e: Expr, a: Expr, b: Expr, e1: Env, e2: Env, base: Env,
                                    outer: set<Variable>, sc: Scope, c1: Context, c2: Context)
    requires a < e && b < e && (e == Comma(a, b) || (e.Short? && e.a == a && e.b == b))
    requires Pair(p, k, e1, e2, base, outer, sc) && WFExpr(p, k, e, sc.vis) && CtxLess(c1, c2)
    ensures ExprLess(Visit(p, k, e, e1, sc, c1), Visit(p, k, e, e2, sc, c2), base)
    decreases k, e, 0
  {
    hide *;
    PairReady(p, k, e1, e2, base, outer, sc);
    ThenVerdict(p, k, e, a, b, e1, sc, c1);
    ThenVerdict(p, k, e, a, b, e2, sc, c2);
    VisitLess(p, k, a, e1, e2, base, outer, sc, c1, c2);
    var a1, a2 := Visit(p, k, a, e1, sc, c1), Visit(p, k, a, e2, sc, c2);
    RejectLess(Visit(p, k, e, e1, sc, c1), base);
    if a2.Accept? {
      AcceptedLess(a1, a2, base);
      PairAfter(p, k, a, e1, e2, base, outer, sc, c1, c2);
      VisitLess(p, k, b, a1.env, a2.env, base, outer, sc, c1, c2);
      var b1, b2 := Visit(p, k, b, a1.env, sc, c1), Visit(p, k, b, a2.env, sc, c2);
      if b2.Accept? { BothLess(e.Comma?, a1, a2, b1, b2, base); }
    }
  }

  lemma RejectLess(r: Verdict, base: Env)
    ensures ExprLess(r, Reject, base)
  {
  }

  lemma AcceptedLess(r1: Verdict, r2: Verdict, base: Env)
    requires ExprLess(r1, r2, base) && r2.Accept?
    ensures r1.Accept?
  {
  }

  lemma BothLess(comma: bool, a1: Verdict, a2: Verdict, b1: Verdict, b2: Verdict, base: Env)
    requires a2.Accept? && b2.Accept? && ExprLess(a1, a2, base) && ExprLess(b1, b2, base)
    requires a1.Accept? && b1.Accept? ==> a1.env.Keys == b1.env.Keys && a2.env.Keys == b2.env.Keys
    ensures a1.Accept? && b1.Accept?
    ensures ExprLess(Accept(if comma then b1.env else Merge(b1.env, a1.env), Plus(a1.eff, b1.eff),
                            if comma then b1.rets else {}),
                     Accept(if comma then b2.env else Merge(b2.env, a2.env), Plus(a2.eff, b2.eff),
                            if comma then b2.rets else {}), base)
  {
    hide Less, EffLess, Plus, Merge;
    EffPlus(a1.eff, a2.eff, b1.eff, b2.eff);
    MergeLess(b1.env, a1.env, b2.env, a2.env, base);
  }

  lemma MergeLess(a1: Env, b1: Env, a2: Env, b2: Env, base: Env)
    requires Less(a1, a2, base) && Less(b1, b2, base) && a1.Keys == b1.Keys && a2.Keys == b2.Keys
    ensures Less(Merge(a1, b1), Merge(a2, b2), base)
  {
  }

  ghost predicate RetsLess(rets1: seq<set<Target>>, rets2: seq<set<Target>>) {
    |rets1| == |rets2| && forall i :: 0 <= i < |rets1| ==> rets1[i] <= rets2[i]
  }

  ghost predicate ArgsVerdictLess(r1: ArgsVerdict, r2: ArgsVerdict, base: Env) {
    r2.ArgsAccept? ==>
      r1.ArgsAccept? && Less(r1.env, r2.env, base) && EffLess(r1.eff, r2.eff) && RetsLess(r1.rets, r2.rets)
  }

  lemma {:induction false} ArgsLess(p: Program, k: nat, e: Expr, args: seq<Expr>, e1: Env, e2: Env, base: Env,
                                    outer: set<Variable>, sc: Scope, c1: Context, c2: Context)
    requires Pair(p, k, e1, e2, base, outer, sc) && CtxLess(c1, c2) && Ready(p, k, e1, sc) && Ready(p, k, e2, sc)
    requires forall i :: 0 <= i < |args| ==> args[i] < e && WFExpr(p, k, args[i], sc.vis)
    ensures ArgsVerdictLess(VisitArgs(p, k, e, args, e1, sc, c1), VisitArgs(p, k, e, args, e2, sc, c2), base)
    decreases k, e, |args|
  {
    hide Visit, Pair, ExprLess, CtxLess, WFExpr, EnvWF, GoodRets, Compatible, WFProgram, NamesBelow, OneMoreArg,
         ArgsVerdictLess;
    PairReady(p, k, e1, e2, base, outer, sc);
    if args == [] {
      NoArgsLess(e1, e2, base);
    } else {
      VisitLess(p, k, args[0], e1, e2, base, outer, sc, c1, c2);
      var a1, a2 := Visit(p, k, args[0], e1, sc, c1), Visit(p, k, args[0], e2, sc, c2);
      RejectedLess(a1, a2, base);
      if a2.Accept? {
        PairAfter(p, k, args[0], e1, e2, base, outer, sc, c1, c2);
        CtxAfter(c1, c2, a1.eff, a2.eff);
        var d1, d2 := c1.(eff := Plus(c1.eff, a1.eff)), c2.(eff := Plus(c2.eff, a2.eff));
        PairReady(p, k, a1.env, a2.env, base, outer, sc);
        ArgsLess(p, k, e, args[1..], a1.env, a2.env, base, outer, sc, d1, d2);
        OneMoreLess(a1, a2, VisitArgs(p, k, e, args[1..], a1.env, sc, d1),
                    VisitArgs(p, k, e, args[1..], a2.env, sc, d2), base);
      }
    }
  }

  lemma RejectedLess(r1: Verdict, r2: Verdict, base: Env)
    requires ExprLess(r1, r2, base)
    ensures r2.Accept? ==> r1.Accept? && EffLess(r1.eff, r2.eff)
    ensures forall r: ArgsVerdict :: ArgsVerdictLess(r, ArgsReject, base)
  {
  }

  lemma NoArgsLess(e1: Env, e2: Env, base: Env)
    requires Less(e1, e2, base)
    ensures ArgsVerdictLess(ArgsAccept(e1, NO_EFFECT, []), ArgsAccept(e2, NO_EFFECT, []), base)
  {
  }

  lemma OneMoreLess(a1: Verdict, a2: Verdict, b1: ArgsVerdict, b2: ArgsVerdict, base: Env)
    requires a1.Accept? && a2.Accept? && ExprLess(a1, a2, base) && ArgsVerdictLess(b1, b2, base)
    ensures ArgsVerdictLess(OneMoreArg(a1.eff, a1.rets, b1), OneMoreArg(a2.eff, a2.rets, b2), base)
  {
    hide Less, EffLess, Unsequenced;
    if b2.ArgsAccept? { EffPlus(a1.eff, a2.eff, b1.eff, b2.eff); }
  }

  // --- calls

  lemma {:induction false} CallExprLess(p: Program, k: nat, e: Expr, e1: Env, e2: Env, base: Env, outer: set<Variable>,
                                        sc: Scope, c1: Context, c2: Context)
    requires e.Call? && Pair(p, k, e1, e2, base, outer, sc) && WFExpr(p, k, e, sc.vis) && CtxLess(c1, c2)
    ensures ExprLess(Visit(p, k, e, e1, sc, c1), Visit(p, k, e, e2, sc, c2), base)
    decreases k, e, |Args(e)| + 1
  {
    hide Pair, Less, EffLess, CtxLess, VisitArgs, VisitCall, Full, Kept, ArgsFill, RetsLess, ExprLess, EnvWF;
    PairReady(p, k, e1, e2, base, outer, sc);
    ArgsLess(p, k, e, e.args, e1, e2, base, outer, sc, c1, c2);
    ArgsChanges(p, k, e, e.args, e1, sc, c1);
    var r1, r2 := VisitArgs(p, k, e, e.args, e1, sc, c1), VisitArgs(p, k, e, e.args, e2, sc, c2);
    if r2.ArgsAccept? {
      PairOf(p, k, r1.env, r2.env, base, outer, sc);
      CallLess(p, k, e, r1.env, r2.env, base, outer, sc, c1, c2, r1.eff, r2.eff, r1.rets, r2.rets);
    } else {
      RejectLess(Visit(p, k, e, e1, sc, c1), base);
    }
  }

  lemma PairOf(p: Program, k: nat, e1: Env, e2: Env, base: Env, outer: set<Variable>, sc: Scope)
    requires Ready(p, k, e1, sc) && Ready(p, k, e2, sc) && Full(e1) && Less(e1, e2, base) && Outside(base, outer, sc)
    ensures Pair(p, k, e1, e2, base, outer, sc)
  {
  }

  lemma {:induction false} ParamsLess(e1: Env, e2: Env, params: seq<Variable>, args: seq<Expr>, rets1: seq<set<Target>>,
                                      rets2: seq<set<Target>>)
    requires Smaller(e1, e2) && |params| == |args| == |rets1| == |rets2| && RetsLess(rets1, rets2)
    ensures ParamFacts(e1, params, args, rets1).Keys == ParamFacts(e2, params, args, rets2).Keys
    ensures Smaller(ParamFacts(e1, params, args, rets1), ParamFacts(e2, params, args, rets2))
    decreases |params|
  {
    if params != [] {
      ParamsLess(e1, e2, params[1..], args[1..], rets1[1..], rets2[1..]);
      RhsLess(e1, e2, args[0], rets1[0], rets2[0]);
    }
  }

  lemma ReachLess(b1: Env, b2: Env, roots1: set<Variable>, roots2: set<Variable>)
    requires Smaller(b1, b2) && roots1 <= roots2 && roots1 <= b1.Keys && roots2 <= b2.Keys
    ensures Reach(b1, roots1) <= Reach(b2, roots2)
  {
    var r2 := Reach(b2, roots2);
    forall u, v | v in r2 && v in b1 && Obj(u) in b1[v] && u in b1
      ensures u in r2
    {
      assert Obj(u) in b2[v];
    }
    ReachLeast(b1, roots1, r2);
  }

  /** More is handed over of more: for the rest, the facts from before the call are what to compare with. */
  lemma HandOverLess(globals: set<Variable>, e1: Env, e2: Env, base: Env, f: Function, args: seq<Expr>,
                     rets1: seq<set<Target>>, rets2: seq<set<Target>>)
    requires Less(e1, e2, base) && |f.params| == |args| == |rets1| == |rets2| && RetsLess(rets1, rets2)
    ensures Less(HandOver(globals, e1, f, args, rets1), HandOver(globals, e2, f, args, rets2), base + e1)
  {
    hide ParamFacts, RhsPointees, RetsLess, Reach, ClosedUnder;
    LessSmaller(e1, e2, base);
    ParamsLess(e1, e2, f.params, args, rets1, rets2);
    var m1, m2 := ParamFacts(e1, f.params, args, rets1), ParamFacts(e2, f.params, args, rets2);
    var b1, b2 := e1 + m1, e2 + m2;
    var roots1 := set v | v in b1 && (v in globals || v in f.params);
    var roots2 := set v | v in b2 && (v in globals || v in f.params);
    ReachLess(b1, b2, roots1, roots2);
    RestrictLess(e1, e2, base, m1, m2, Reach(b1, roots1), Reach(b2, roots2));
  }

  lemma RestrictLess(e1: Env, e2: Env, base: Env, m1: Env, m2: Env, r1: set<Variable>, r2: set<Variable>)
    requires Less(e1, e2, base) && Smaller(m1, m2) && m1.Keys == m2.Keys && m1.Keys <= r1 <= r2
    ensures Less(Restrict(e1 + m1, r1), Restrict(e2 + m2, r2), base + e1)
  {
  }

  lemma CalleeOutside(p: Program, f: Function, e1: Env, base: Env, outer: set<Variable>, sc: Scope)
    requires EnvWF(e1, sc.live) && Outside(base, outer, sc) && sc.live !! Elems(f.params)
    ensures Outside(base + e1, sc.live, CalleeScope(p, f, sc))
  {
    AllWithinLive(e1, sc.live);
    forall v | v in base + e1
      ensures TargetsWithin((base + e1)[v], sc.live)
    {
      if v !in e1 { assert TargetsWithin(base[v], outer); }
    }
  }

  lemma CalleeContextLess(c1: Context, c2: Context, f: nat, globals: set<Variable>, kept1: Env, kept2: Env,
                          live: set<Variable>)
    requires CtxLess(c1, c2) && Smaller(kept1, kept2)
    ensures CtxLess(CalleeContext(c1, f, globals, kept1, live), CalleeContext(c2, f, globals, kept2, live))
  {
    assert FrameVars(kept1, live) <= FrameVars(kept2, live);
  }

  lemma FadedLess(dead: set<Variable>, ts1: set<Target>, ts2: set<Target>)
    requires ts1 <= ts2
    ensures Faded(dead, ts1) <= Faded(dead, ts2)
  {
  }

  /** Forgetting what is out of scope concerns nothing that callers compare with. */
  lemma OutOfScopeLess(dead: set<Variable>, e1: Env, e2: Env, base: Env, outer: set<Variable>)
    requires Less(e1, e2, base) && Within(base, outer) && base.Keys <= outer && outer !! dead
    ensures Less(OutOfScope(dead, e1), OutOfScope(dead, e2), base)
  {
    hide Faded;
    var o1, o2 := OutOfScope(dead, e1), OutOfScope(dead, e2);
    forall v | v in o1
      ensures v in o2 && o1[v] <= o2[v]
    {
      FadedLess(dead, e1[v], e2[v]);
    }
    forall v | v in o2 && v !in o1
      ensures v in base && base[v] <= o2[v]
    {
      FadedLess(dead, base[v], e2[v]);
      Unfaded(dead, base[v], outer);
    }
  }

  lemma Unfaded(dead: set<Variable>, ts: set<Target>, outer: set<Variable>)
    requires TargetsWithin(ts, outer) && outer !! dead
    ensures Faded(dead, ts) == ts
  {
  }

  ghost predicate EnvsLess(s1: seq<Env>, s2: seq<Env>, base: Env) {
    |s1| == |s2| && forall i :: 0 <= i < |s1| ==> Less(s1[i], s2[i], base)
  }

  lemma {:induction false} MergeAllLess(e1: Env, e2: Env, s1: seq<Env>, s2: seq<Env>, base: Env)
    requires Less(e1, e2, base) && EnvsLess(s1, s2, base)
    requires forall i :: 0 <= i < |s1| ==> s1[i].Keys == e1.Keys && s2[i].Keys == e2.Keys
    ensures Less(MergeAll(e1, s1), MergeAll(e2, s2), base)
    decreases |s1|
  {
    hide Less;
    if s1 != [] {
      MergeLess(e1, s1[0], e2, s2[0], base);
      MergeAllLess(Merge(e1, s1[0]), Merge(e2, s2[0]), s1[1..], s2[1..], base);
    }
  }

  lemma {:induction false} MergeJumpsLess(e1: Env, e2: Env, s1: seq<Env>, s2: seq<Env>, base: Env)
    requires Less(e1, e2, base) && EnvsLess(s1, s2, base)
    requires forall i :: 0 <= i < |s1| ==> s1[i].Keys == e1.Keys && s2[i].Keys == e2.Keys
    ensures Less(MergeJumps(e1, s1), MergeJumps(e2, s2), base)
    decreases |s1|
  {
    if s1 != [] {
      JumpLess(e1, s1[0], e2, s2[0], base);
      hide Less;
      MergeJumpsLess(MergeJump(e1, s1[0]), MergeJump(e2, s2[0]), s1[1..], s2[1..], base);
    }
  }

  lemma JumpLess(a1: Env, b1: Env, a2: Env, b2: Env, base: Env)
    requires Less(a1, a2, base) && Less(b1, b2, base) && a1.Keys == b1.Keys && a2.Keys == b2.Keys
    ensures Less(MergeJump(a1, b1), MergeJump(a2, b2), base)
  {
  }

  ghost predicate ReturnsLess(s1: seq<RetFact>, s2: seq<RetFact>, base: Env) {
    |s1| == |s2| && forall i :: 0 <= i < |s1| ==> Less(s1[i].env, s2[i].env, base) && s1[i].pts <= s2[i].pts
  }

  lemma {:induction false} RetTargetsLess(s1: seq<RetFact>, s2: seq<RetFact>, base: Env)
    requires ReturnsLess(s1, s2, base)
    ensures RetTargets(s1) <= RetTargets(s2)
    decreases |s1|
  {
    if s1 != [] { RetTargetsLess(s1[1..], s2[1..], base); }
  }

  ghost predicate StmtLess(r1: StmtVerdict, r2: StmtVerdict, base: Env) {
    r2.StmtAccept? ==>
      && r1.StmtAccept? && Less(r1.env, r2.env, base) && EffLess(r1.eff, r2.eff)
      && EnvsLess(r1.brk, r2.brk, base) && EnvsLess(r1.cont, r2.cont, base) && ReturnsLess(r1.ret, r2.ret, base)
  }

  /** Laying what a callee has left over the facts from before the call: where nothing was handed over to it, a pointer
    * has kept what it had, and that is what the larger facts were compared with. */
  lemma RenewLess(e1: Env, e2: Env, base: Env, back1: Env, back2: Env)
    requires Less(e1, e2, base) && Less(back1, back2, base + e1) && back1.Keys <= e1.Keys && back2.Keys <= e2.Keys
    ensures Less(Renew(e1, back1), Renew(e2, back2), base)
  {
  }

  lemma FactsBackLess(p: Program, f: Function, base: Env, sc: Scope, kept1: Env, kept2: Env, c1: Context, c2: Context,
                      body1: StmtVerdict, body2: StmtVerdict)
    requires body1.StmtAccept? && body2.StmtAccept? && StmtLess(body1, body2, base) && sc.live !! Elems(f.params)
    requires Outside(base, sc.live, CalleeScope(p, f, sc))
    requires StmtVisited(f.level, kept1, CalleeScope(p, f, sc), c1, body1)
    requires StmtVisited(f.level, kept2, CalleeScope(p, f, sc), c2, body2)
    ensures Less(FactsBack(f, body1), FactsBack(f, body2), base)
  {
    hide StmtVisited, Less, MergeAll, OutOfScope, EffLess;
    var ps := Elems(f.params);
    FactsBackKeys(p, sc, f, kept1, c1, body1);
    FactsBackKeys(p, sc, f, kept2, c2, body2);
    OutOfScopeLess(ps, body1.env, body2.env, base, sc.live);
    OutOfScopeKeys(ps, body1.env);
    OutOfScopeKeys(ps, body2.env);
    MergeAllLess(OutOfScope(ps, body1.env), OutOfScope(ps, body2.env), RetEnvs(body1.ret), RetEnvs(body2.ret), base);
  }

  lemma OutOfScopeKeys(dead: set<Variable>, env: Env)
    ensures OutOfScope(dead, env).Keys == env.Keys - dead
  {
  }

  lemma {:induction false} CallLess(p: Program, k: nat, e: Expr, e1: Env, e2: Env, base: Env, outer: set<Variable>,
                                    sc: Scope, c1: Context, c2: Context, a: Effect, b: Effect,
                                    rets1: seq<set<Target>>, rets2: seq<set<Target>>)
    requires e.Call? && Pair(p, k, e1, e2, base, outer, sc) && WFExpr(p, k, e, sc.vis) && CtxLess(c1, c2)
    requires Ready(p, k, e1, sc) && Ready(p, k, e2, sc) && EffLess(a, b) && RetsLess(rets1, rets2)
    requires Compatible(a, c1) && GoodArgs(p, e.args, rets1, sc.live, e1.Keys)
    requires Compatible(b, c2) && GoodArgs(p, e.args, rets2, sc.live, e2.Keys)
    requires ArgsFill(p, e.args, e1, rets1, a.rds)
    ensures ExprLess(VisitCall(p, k, e, e1, sc, c1, a, rets1), VisitCall(p, k, e, e2, sc, c2, b, rets2), base)
    decreases k, e, 0
  {
    CallArgsWF(p, k, e, sc.vis);
    HandOverReady(p, k, e1, sc, e.f, e.args, rets1);
    HandOverReady(p, k, e2, sc, e.f, e.args, rets2);
    hide *;
    var f := p.funcs[e.f];
    FunctionWF(p, k, e.f, e1, sc);
    PairReady(p, k, e1, e2, base, outer, sc);
    CallLengths(p, e, rets1, rets2, e1, e2, sc);
    HandedFull(p, k, e, e1, sc.vis, rets1, a.rds);
    var kept1, kept2 := HandOver(p.globals, e1, f, e.args, rets1), HandOver(p.globals, e2, f, e.args, rets2);
    HandOverLess(p.globals, e1, e2, base, f, e.args, rets1, rets2);
    ReadyWF(p, k, e1, sc);
    CalleeOutside(p, f, e1, base, outer, sc);
    LessSmaller(kept1, kept2, base + e1);
    CalleeContextLess(c1, c2, e.f, p.globals, kept1, kept2, sc.live);
    PairOf(p, e.f, kept1, kept2, base + e1, sc.live, CalleeScope(p, f, sc));
    var d1, d2 := CalleeContext(c1, e.f, p.globals, kept1, sc.live), CalleeContext(c2, e.f, p.globals, kept2, sc.live);
    BlockLess(p, e.f, f.level, f.body, kept1, kept2, base + e1, sc.live, CalleeScope(p, f, sc), d1, d2, false);
    BackLess(p, k, e, e1, e2, base, sc, c1, c2, a, b, rets1, rets2, kept1, kept2, d1, d2);
  }

  lemma CallLengths(p: Program, e: Expr, rets1: seq<set<Target>>, rets2: seq<set<Target>>, e1: Env, e2: Env, sc: Scope)
    requires e.Call? && GoodArgs(p, e.args, rets1, sc.live, e1.Keys) && GoodArgs(p, e.args, rets2, sc.live, e2.Keys)
    ensures |rets1| == |rets2| == |e.args|
  {
  }

  lemma ReadyWF(p: Program, k: nat, env: Env, sc: Scope)
    requires Ready(p, k, env, sc)
    ensures EnvWF(env, sc.live)
  {
  }

  lemma BackLess(p: Program, k: nat, e: Expr, e1: Env, e2: Env, base: Env, sc: Scope, c1: Context, c2: Context,
                 a: Effect, b: Effect, rets1: seq<set<Target>>, rets2: seq<set<Target>>, kept1: Env, kept2: Env,
                 d1: Context, d2: Context)
    requires e.Call? && Ready(p, k, e1, sc) && Ready(p, k, e2, sc) && WFExpr(p, k, e, sc.vis)
    requires Less(e1, e2, base) && EffLess(a, b) && |rets1| == |rets2| == |e.args|
    requires Compatible(a, c1) && GoodArgs(p, e.args, rets1, sc.live, e1.Keys)
    requires Compatible(b, c2) && GoodArgs(p, e.args, rets2, sc.live, e2.Keys)
    requires e.f < |p.funcs| && |p.funcs[e.f].params| == |e.args|
    requires kept1 == HandOver(p.globals, e1, p.funcs[e.f], e.args, rets1)
    requires kept2 == HandOver(p.globals, e2, p.funcs[e.f], e.args, rets2)
    requires kept1.Keys <= e1.Keys + Elems(p.funcs[e.f].params) && kept2.Keys <= e2.Keys + Elems(p.funcs[e.f].params)
    requires WFFunction(p, e.f) && sc.live !! Elems(p.funcs[e.f].params)
    requires Outside(base + e1, sc.live, CalleeScope(p, p.funcs[e.f], sc))
    requires WFBlock(p, e.f, p.funcs[e.f].level, p.funcs[e.f].body, CalleeScope(p, p.funcs[e.f], sc).vis, false)
    requires Own(p, e.f, BlockNames(p.funcs[e.f].body), CalleeScope(p, p.funcs[e.f], sc))
    requires Ready(p, e.f, kept1, CalleeScope(p, p.funcs[e.f], sc))
    requires Ready(p, e.f, kept2, CalleeScope(p, p.funcs[e.f], sc))
    requires d1 == CalleeContext(c1, e.f, p.globals, kept1, sc.live)
    requires d2 == CalleeContext(c2, e.f, p.globals, kept2, sc.live)
    requires var f, callee := p.funcs[e.f], CalleeScope(p, p.funcs[e.f], sc);
             StmtLess(VisitBlock(p, e.f, f.level, f.body, kept1, callee, d1, false),
                      VisitBlock(p, e.f, f.level, f.body, kept2, callee, d2, false), base + e1)
    ensures ExprLess(VisitCall(p, k, e, e1, sc, c1, a, rets1), VisitCall(p, k, e, e2, sc, c2, b, rets2), base)
  {
    hide VisitBlock, HandOver, FactsBack, StmtVisited, Less, EffLess, WFBlock, MustReturn, CalleeContext, EnvWF,
         GoodArgs, BlockNames, StmtLess, Visible;
    var f, callee := p.funcs[e.f], CalleeScope(p, p.funcs[e.f], sc);
    var body1 := VisitBlock(p, e.f, f.level, f.body, kept1, callee, d1, false);
    var body2 := VisitBlock(p, e.f, f.level, f.body, kept2, callee, d2, false);
    BodiesLess(body1, body2, base + e1);
    if body2.StmtAccept? {
      FactsBackLess(p, f, base + e1, sc, kept1, kept2, d1, d2, body1, body2);
      FactsBackKeys(p, sc, f, kept1, d1, body1);
      FactsBackKeys(p, sc, f, kept2, d2, body2);
      RenewLess(e1, e2, base, FactsBack(f, body1), FactsBack(f, body2));
      RetTargetsLess(body1.ret, body2.ret, base + e1);
      VisibleLess(a, b, body1.eff, body2.eff, sc.live);
    }
  }

  lemma BodiesLess(r1: StmtVerdict, r2: StmtVerdict, base: Env)
    requires StmtLess(r1, r2, base)
    ensures r2.StmtAccept? ==> r1.StmtAccept? && EffLess(r1.eff, r2.eff) && ReturnsLess(r1.ret, r2.ret, base)
  {
  }

  lemma VisibleLess(a: Effect, b: Effect, c: Effect, d: Effect, live: set<Variable>)
    requires EffLess(a, b) && EffLess(c, d)
    ensures EffLess(Plus(a.(lhs := {}), Visible(c, live)), Plus(b.(lhs := {}), Visible(d, live)))
  {
  }

  // --- statements

  lemma {:induction false} StmtVisitLess(p: Program, k: nat, level: nat, s: Stmt, e1: Env, e2: Env, base: Env,
                                         outer: set<Variable>, sc: Scope, c1: Context, c2: Context, inLoop: bool)
    requires Pair(p, k, e1, e2, base, outer, sc) && CtxLess(c1, c2) && Ready(p, k, e1, sc) && Ready(p, k, e2, sc)
    requires WFStmt(p, k, level, s, sc.vis, inLoop) && Own(p, k, StmtNames(s), sc)
    ensures StmtLess(VisitStmt(p, k, level, s, e1, sc, c1, inLoop), VisitStmt(p, k, level, s, e2, sc, c2, inLoop), base)
    decreases k, s
  {
    hide *;
    match s
    case ExprStmt(_) => SimpleLess(p, k, level, s, e1, e2, base, outer, sc, c1, c2, inLoop);
    case Break(_) => SimpleLess(p, k, level, s, e1, e2, base, outer, sc, c1, c2, inLoop);
    case Continue(_) => SimpleLess(p, k, level, s, e1, e2, base, outer, sc, c1, c2, inLoop);
    case Return(_) => ReturnLess(p, k, level, s, e1, e2, base, outer, sc, c1, c2, inLoop);
    case If(_, _, _) => IfLess(p, k, level, s, e1, e2, base, outer, sc, c1, c2, inLoop);
    case For(_, _, _, _, _, _, _) => ForLess(p, k, level, s, e1, e2, base, outer, sc, c1, c2, inLoop);
  }

  lemma ScopeSets(p: Program, k: nat, e1: Env, e2: Env, base: Env, outer: set<Variable>, sc: Scope)
    requires Pair(p, k, e1, e2, base, outer, sc)
    ensures Within(base, outer) && base.Keys <= outer && outer !! sc.func && outer !! sc.loop
  {
  }

  lemma {:induction false} SimpleLess(p: Program, k: nat, level: nat, s: Stmt, e1: Env, e2: Env, base: Env,
                                      outer: set<Variable>, sc: Scope, c1: Context, c2: Context, inLoop: bool)
    requires s.ExprStmt? || s.Break? || s.Continue?
    requires Pair(p, k, e1, e2, base, outer, sc) && CtxLess(c1, c2) && Ready(p, k, e1, sc) && Ready(p, k, e2, sc)
    requires WFStmt(p, k, level, s, sc.vis, inLoop) && Own(p, k, StmtNames(s), sc)
    ensures StmtLess(VisitStmt(p, k, level, s, e1, sc, c1, inLoop), VisitStmt(p, k, level, s, e2, sc, c2, inLoop), base)
    decreases k, s, 0
  {
    hide Visit, Pair, CtxLess, Less, EffLess, OutOfScope, EnvWF, Compatible, GoodRets, WFExpr, WFProgram, NamesBelow;
    var e := if s.ExprStmt? then s.e else s.test;
    ScopeSets(p, k, e1, e2, base, outer, sc);
    VisitLess(p, k, e, e1, e2, base, outer, sc, c1, c2);
    var r1, r2 := Visit(p, k, e, e1, sc, c1), Visit(p, k, e, e2, sc, c2);
    if r2.Accept? {
      OutOfScopeLess(sc.loop, r1.env, r2.env, base, outer);
    }
  }

  lemma {:induction false} ReturnLess(p: Program, k: nat, level: nat, s: Stmt, e1: Env, e2: Env, base: Env,
                                      outer: set<Variable>, sc: Scope, c1: Context, c2: Context, inLoop: bool)
    requires s.Return?
    requires Pair(p, k, e1, e2, base, outer, sc) && CtxLess(c1, c2) && Ready(p, k, e1, sc) && Ready(p, k, e2, sc)
    requires WFStmt(p, k, level, s, sc.vis, inLoop) && Own(p, k, StmtNames(s), sc)
    ensures StmtLess(VisitStmt(p, k, level, s, e1, sc, c1, inLoop), VisitStmt(p, k, level, s, e2, sc, c2, inLoop), base)
    decreases k, s, 0
  {
    hide Visit, Pair, CtxLess, Less, EffLess, OutOfScope, EnvWF, Faded, RhsPointees;
    ScopeSets(p, k, e1, e2, base, outer, sc);
    VisitLess(p, k, s.e, e1, e2, base, outer, sc, c1, c2);
    var r1, r2 := Visit(p, k, s.e, e1, sc, c1), Visit(p, k, s.e, e2, sc, c2);
    if r2.Accept? {
      OutOfScopeLess(sc.func, r1.env, r2.env, base, outer);
      LessSmaller(r1.env, r2.env, base);
      RhsLess(r1.env, r2.env, s.e, r1.rets, r2.rets);
      FadedLess(sc.func, RhsPointees(r1.env, s.e, r1.rets), RhsPointees(r2.env, s.e, r2.rets));
    }
  }

  lemma {:induction false} IfLess(p: Program, k: nat, level: nat, s: Stmt, e1: Env, e2: Env, base: Env,
                                  outer: set<Variable>, sc: Scope, c1: Context, c2: Context, inLoop: bool)
    requires s.If?
    requires Pair(p, k, e1, e2, base, outer, sc) && CtxLess(c1, c2) && Ready(p, k, e1, sc) && Ready(p, k, e2, sc)
    requires WFStmt(p, k, level, s, sc.vis, inLoop) && Own(p, k, StmtNames(s), sc)
    ensures StmtLess(VisitStmt(p, k, level, s, e1, sc, c1, inLoop), VisitStmt(p, k, level, s, e2, sc, c2, inLoop), base)
    decreases k, s, 0
  {
    hide Visit, VisitBlock, WFBlock, MustReturn, Pair, CtxLess, Less, EffLess, StmtLess, EnvWF, AllWF, RetsGood,
         JoinBranches;
    VisitLess(p, k, s.test, e1, e2, base, outer, sc, c1, c2);
    var t1, t2 := Visit(p, k, s.test, e1, sc, c1), Visit(p, k, s.test, e2, sc, c2);
    RejectedStmt(VisitStmt(p, k, level, s, e1, sc, c1, inLoop), base);
    if t2.Accept? {
      PairAfter(p, k, s.test, e1, e2, base, outer, sc, c1, c2);
      BlockLess(p, k, level, s.thn, t1.env, t2.env, base, outer, sc, c1, c2, inLoop);
      BlockLess(p, k, level, s.els, t1.env, t2.env, base, outer, sc, c1, c2, inLoop);
      PairReady(p, k, e1, e2, base, outer, sc);
      BranchesLess(level, s, e1, e2, base, sc, c1, c2, t1.eff, t2.eff,
                   VisitBlock(p, k, level, s.thn, t1.env, sc, c1, inLoop),
                   VisitBlock(p, k, level, s.thn, t2.env, sc, c2, inLoop),
                   VisitBlock(p, k, level, s.els, t1.env, sc, c1, inLoop),
                   VisitBlock(p, k, level, s.els, t2.env, sc, c2, inLoop));
    }
  }

  lemma RejectedStmt(r: StmtVerdict, base: Env)
    ensures StmtLess(r, StmtReject, base)
  {
  }

  lemma BranchesLess(level: nat, s: Stmt, e1: Env, e2: Env, base: Env, sc: Scope, c1: Context, c2: Context, a: Effect,
                     b: Effect, x1: StmtVerdict, x2: StmtVerdict, y1: StmtVerdict, y2: StmtVerdict)
    requires s.If? && EnvWF(e1, sc.live) && EnvWF(e2, sc.live) && Compatible(a, c1) && Compatible(b, c2)
    requires StmtVisited(level, e1, sc, c1, x1) && StmtVisited(level, e1, sc, c1, y1)
    requires StmtVisited(level, e2, sc, c2, x2) && StmtVisited(level, e2, sc, c2, y2)
    requires Less(e1, e2, base) && EffLess(a, b) && StmtLess(x1, x2, base) && StmtLess(y1, y2, base)
    ensures StmtLess(JoinBranches(s, e1, a, x1, y1, level, sc, c1), JoinBranches(s, e2, b, x2, y2, level, sc, c2), base)
  {
    hide MustReturn, Less, EffLess, Merge, AllWF, RetsGood, EnvWF, Plus;
    if x2.StmtAccept? && y2.StmtAccept? {
      MergeLess(x1.env, y1.env, x2.env, y2.env, base);
      EffPlus(x1.eff, x2.eff, y1.eff, y2.eff);
      EffPlus(a, b, Plus(x1.eff, y1.eff), Plus(x2.eff, y2.eff));
    }
  }

  lemma {:induction false} StmtsLess(p: Program, k: nat, level: nat, b: Block, i: nat, e1: Env, e2: Env, base: Env,
                                     outer: set<Variable>, sc: Scope, c1: Context, c2: Context, inLoop: bool)
    requires i <= |b.stms|
    requires Pair(p, k, e1, e2, base, outer, sc) && CtxLess(c1, c2) && Ready(p, k, e1, sc) && Ready(p, k, e2, sc)
    requires WFStmts(p, k, level, b, i, sc.vis, inLoop) && Own(p, k, StmtsNames(b, i), sc)
    ensures StmtLess(VisitStmts(p, k, level, b, i, e1, sc, c1, inLoop),
                     VisitStmts(p, k, level, b, i, e2, sc, c2, inLoop), base)
    decreases k, b, |b.stms| - i
  {
    hide VisitStmt, Pair, CtxLess, Less, EffLess, StmtLess, EnvWF, StmtVisited, Then, Full;
    PairReady(p, k, e1, e2, base, outer, sc);
    if i == |b.stms| {
      NothingLess(e1, e2, base);
    } else {
      StmtVisitLess(p, k, level, b.stms[i], e1, e2, base, outer, sc, c1, c2, inLoop);
      StmtChanges(p, k, level, b.stms[i], e1, sc, c1, inLoop);
      var x1, x2 := VisitStmt(p, k, level, b.stms[i], e1, sc, c1, inLoop),
                    VisitStmt(p, k, level, b.stms[i], e2, sc, c2, inLoop);
      StmtLessOpen(x1, x2, base);
      RejectedStmt(VisitStmts(p, k, level, b, i, e1, sc, c1, inLoop), base);
      if x2.StmtAccept? {
        StillFull(level, e1, sc, x1);
        ReadyAfter(p, k, level, e1, sc, c1, x1);
        ReadyAfter(p, k, level, e2, sc, c2, x2);
        PairOf(p, k, x1.env, x2.env, base, outer, sc);
        StmtsLess(p, k, level, b, i + 1, x1.env, x2.env, base, outer, sc, c1, c2, inLoop);
        ThenStmtLess(level, e1, e2, base, sc, c1, c2, x1, x2,
                     VisitStmts(p, k, level, b, i + 1, x1.env, sc, c1, inLoop),
                     VisitStmts(p, k, level, b, i + 1, x2.env, sc, c2, inLoop));
      }
    }
  }

  lemma ReadyAfter(p: Program, k: nat, level: nat, env: Env, sc: Scope, ctx: Context, r: StmtVerdict)
    requires Ready(p, k, env, sc) && r.StmtAccept? && StmtVisited(level, env, sc, ctx, r)
    ensures Ready(p, k, r.env, sc)
  {
  }

  lemma NothingLess(e1: Env, e2: Env, base: Env)
    requires Less(e1, e2, base)
    ensures StmtLess(StmtAccept(e1, [], [], [], NO_EFFECT), StmtAccept(e2, [], [], [], NO_EFFECT), base)
  {
  }

  lemma StmtLessOpen(r1: StmtVerdict, r2: StmtVerdict, base: Env)
    requires StmtLess(r1, r2, base)
    ensures r2.StmtAccept? ==> r1.StmtAccept? && Less(r1.env, r2.env, base)
  {
  }

  lemma ThenStmtLess(level: nat, e1: Env, e2: Env, base: Env, sc: Scope, c1: Context, c2: Context, x1: StmtVerdict,
                     x2: StmtVerdict, y1: StmtVerdict, y2: StmtVerdict)
    requires x1.StmtAccept? && StmtVisited(level, e1, sc, c1, x1) && StmtVisited(level, x1.env, sc, c1, y1)
    requires x2.StmtAccept? && StmtVisited(level, e2, sc, c2, x2) && StmtVisited(level, x2.env, sc, c2, y2)
    requires StmtLess(x1, x2, base) && StmtLess(y1, y2, base)
    ensures StmtLess(Then(x1, y1, level, e1, sc, c1), Then(x2, y2, level, e2, sc, c2), base)
  {
    hide Less, EffLess, StmtVisited, Plus;
    if y2.StmtAccept? { EffPlus(x1.eff, x2.eff, y1.eff, y2.eff); }
  }

  lemma {:induction false} BlockLess(p: Program, k: nat, level: nat, b: Block, e1: Env, e2: Env, base: Env,
                                     outer: set<Variable>, sc: Scope, c1: Context, c2: Context, inLoop: bool)
    requires Pair(p, k, e1, e2, base, outer, sc) && CtxLess(c1, c2) && Ready(p, k, e1, sc) && Ready(p, k, e2, sc)
    requires WFBlock(p, k, level, b, sc.vis, inLoop) && Own(p, k, BlockNames(b), sc)
    ensures StmtLess(VisitBlock(p, k, level, b, e1, sc, c1, inLoop), VisitBlock(p, k, level, b, e2, sc, c2, inLoop),
                     base)
    decreases k, b
  {
    hide VisitStmts, WFStmts, Pair, CtxLess, Less, EffLess, StmtLess, EnvWF, StmtVisited, Full, StmtsNames, InitFacts;
    var names, inits := b.locals.Keys, InitFacts(b.locals);
    PairReady(p, k, e1, e2, base, outer, sc);
    EnterWF(p, k, level, b, e1, sc, inLoop);
    EnterWF(p, k, level, b, e2, sc, inLoop);
    InitFull(p, k, level, b, e1, sc.vis, inLoop);
    InitLess(e1, e2, base, inits);
    ScopeSets(p, k, e1, e2, base, outer, sc);
    InnerOutside(base, outer, sc, names);
    PairOf(p, k, e1 + inits, e2 + inits, base, outer, Inner(sc, names));
    StmtsLess(p, k, level, b, 0, e1 + inits, e2 + inits, base, outer, Inner(sc, names), c1, c2, inLoop);
    RejectedStmt(VisitBlock(p, k, level, b, e1, sc, c1, inLoop), base);
    CloseLess(VisitStmts(p, k, level, b, 0, e1 + inits, Inner(sc, names), c1, inLoop),
              VisitStmts(p, k, level, b, 0, e2 + inits, Inner(sc, names), c2, inLoop), names, base, outer);
  }

  lemma InitLess(e1: Env, e2: Env, base: Env, inits: Env)
    requires Less(e1, e2, base)
    ensures Less(e1 + inits, e2 + inits, base)
  {
  }

  lemma InnerOutside(base: Env, outer: set<Variable>, sc: Scope, names: set<Variable>)
    requires Outside(base, outer, sc) && names !! sc.live
    ensures Outside(base, outer, Inner(sc, names)) && outer !! names
  {
  }

  lemma CloseLess(r1: StmtVerdict, r2: StmtVerdict, names: set<Variable>, base: Env, outer: set<Variable>)
    requires StmtLess(r1, r2, base) && Within(base, outer) && base.Keys <= outer && outer !! names
    ensures r2.StmtAccept? ==>
              && r1.StmtAccept?
              && StmtLess(r1.(env := OutOfScope(names, r1.env)), r2.(env := OutOfScope(names, r2.env)), base)
  {
    hide Less, EffLess, OutOfScope;
    if r2.StmtAccept? { OutOfScopeLess(names, r1.env, r2.env, base, outer); }
  }

  // --- loops

  lemma BodyPair(p: Program, k: nat, e1: Env, e2: Env, base: Env, outer: set<Variable>, sc: Scope, c1: Context,
                 c2: Context, iv: Variable)
    requires Pair(p, k, e1, e2, base, outer, sc) && CtxLess(c1, c2)
    ensures Pair(p, k, e1, e2, base, outer, BodyScope(sc)) && CtxLess(BodyContext(c1, iv), BodyContext(c2, iv))
  {
  }

  lemma {:induction false} MergeAllFixed(env: Env, edges: seq<Env>)
    requires forall i :: 0 <= i < |edges| ==> Below(edges[i], env)
    ensures MergeAll(env, edges) == env
    decreases |edges|
  {
    if edges != [] {
      assert Below(edges[0], env);
      MergeBelow(env, edges[0]);
      MergeAllFixed(env, edges[1..]);
    }
  }

  lemma MergeBelow(e1: Env, e2: Env)
    requires Below(e2, e1)
    ensures Merge(e1, e2) == e1
  {
    assert Merge(e1, e2).Keys == e1.Keys;
    assert forall v :: v in e1 ==> Merge(e1, e2)[v] == e1[v];
  }

  lemma EdgesLess(b: Block, r1: StmtVerdict, r2: StmtVerdict, base: Env)
    requires r2.StmtAccept? && StmtLess(r1, r2, base)
    ensures r1.StmtAccept? && EnvsLess(BackEdges(b, r1), BackEdges(b, r2), base)
  {
    hide Less, EffLess, FromTailToHead;
  }

  lemma EdgeKeys(level: nat, b: Block, env: Env, sc: Scope, ctx: Context, r: StmtVerdict)
    requires r.StmtAccept? && StmtVisited(level, env, BodyScope(sc), ctx, r)
    ensures forall i :: 0 <= i < |BackEdges(b, r)| ==> BackEdges(b, r)[i].Keys == env.Keys
  {
    EmptySets(sc.live, env.Keys);
  }

  /** What flows back from a pass that started below a fixed point stays below it. */
  lemma NextLess(level: nat, b: Block, env: Env, top: Env, base: Env, sc: Scope, c1: Context, c2: Context,
                 r1: StmtVerdict, r2: StmtVerdict)
    requires Less(env, top, base) && r2.StmtAccept? && StmtLess(r1, r2, base) && IsFixed(b, top, r2)
    requires StmtVisited(level, env, BodyScope(sc), c1, r1) && StmtVisited(level, top, BodyScope(sc), c2, r2)
    ensures r1.StmtAccept? && Less(MergeAll(env, BackEdges(b, r1)), top, base)
  {
    hide Less, StmtLess, StmtVisited, BackEdges, Below, MergeAll;
    EdgesLess(b, r1, r2, base);
    EdgeKeys(level, b, env, sc, c1, r1);
    EdgeKeys(level, b, top, sc, c2, r2);
    MergeAllFixed(top, BackEdges(b, r2));
    MergeAllLess(env, top, BackEdges(b, r1), BackEdges(b, r2), base);
  }

  /** Started below a fixed point, the search is accepted and stays below it. */
  lemma {:induction false} SearchLess(p: Program, k: nat, level: nat, s: Stmt, env: Env, top: Env, base: Env,
                                      outer: set<Variable>, sc: Scope, c1: Context, c2: Context, body: StmtVerdict)
    requires s.For? && Pair(p, k, env, top, base, outer, sc) && CtxLess(c1, c2)
    requires Ready(p, k, env, sc) && Ready(p, k, top, sc)
    requires WFBlock(p, k, level, s.body, sc.vis, true) && Own(p, k, BlockNames(s.body), sc)
    requires body == VisitBlock(p, k, level, s.body, top, BodyScope(sc), BodyContext(c2, s.iv), true)
    requires body.StmtAccept? && IsFixed(s.body, top, body)
    ensures var loop := VisitLoop(p, k, level, s, env, sc, c1);
            loop.LoopAccept? && loop.r.StmtAccept? && Less(loop.entry, top, base) && StmtLess(loop.r, body, base)
    decreases k, s, 0, |Missing(env, sc.live)|
  {
    hide VisitBlock, WFBlock, BlockNames, MergeAll, Missing, BackEdges, StmtLess, Less, Pair, CtxLess, IsFixed, EnvWF,
         StmtVisited, StmtChange, Plus, Full, WFProgram, NamesBelow, Below;
    var sc1, d1, d2 := BodyScope(sc), BodyContext(c1, s.iv), BodyContext(c2, s.iv);
    PairReady(p, k, env, top, base, outer, sc);
    BodyPair(p, k, env, top, base, outer, sc, c1, c2, s.iv);
    BlockLess(p, k, level, s.body, env, top, base, outer, sc1, d1, d2, true);
    var r := VisitBlock(p, k, level, s.body, env, sc1, d1, true);
    NextLess(level, s.body, env, top, base, sc, d1, d2, r, body);
    BackEdgesWF(level, s.body, env, sc, d1, r);
    var next := MergeAll(env, BackEdges(s.body, r));
    if next != env {
      GrowingShrinksMissing(env, next, sc.live);
      BlockChanges(p, k, level, s.body, env, sc1, d1, true);
      EdgesChange(level, s.body, env, sc, d1, r);
      BelowReady(p, k, env, next, sc);
      PairOf(p, k, next, top, base, outer, sc);
      SearchLess(p, k, level, s, next, top, base, outer, sc, c1, c2, body);
      var loop := VisitLoop(p, k, level, s, next, sc, c1);
      PassesLess(r, loop.r, body, base);
    }
  }

  lemma BelowReady(p: Program, k: nat, env: Env, next: Env, sc: Scope)
    requires Ready(p, k, env, sc) && EnvWF(next, sc.live) && next.Keys == env.Keys
    ensures Ready(p, k, next, sc)
  {
  }

  lemma PassesLess(r: StmtVerdict, rest: StmtVerdict, body: StmtVerdict, base: Env)
    requires body.StmtAccept? && StmtLess(r, body, base) && StmtLess(rest, body, base)
    ensures r.StmtAccept? && rest.StmtAccept? && StmtLess(rest.(eff := Plus(r.eff, rest.eff)), body, base)
  {
  }

  lemma {:induction false} ForLess(p: Program, k: nat, level: nat, s: Stmt, e1: Env, e2: Env, base: Env,
                                   outer: set<Variable>, sc: Scope, c1: Context, c2: Context, inLoop: bool)
    requires s.For?
    requires Pair(p, k, e1, e2, base, outer, sc) && CtxLess(c1, c2) && Ready(p, k, e1, sc) && Ready(p, k, e2, sc)
    requires WFStmt(p, k, level, s, sc.vis, inLoop) && Own(p, k, StmtNames(s), sc)
    ensures StmtLess(VisitStmt(p, k, level, s, e1, sc, c1, inLoop), VisitStmt(p, k, level, s, e2, sc, c2, inLoop), base)
    decreases k, s, 1
  {
    hide VisitLoop, WFBlock, StmtLess, LeaveLoop, LoopVisited, Less, Pair, CtxLess, CheckWrite, IsFixed, EnvWF, Full,
         WFProgram, NamesBelow, Plus;
    PairReady(p, k, e1, e2, base, outer, sc);
    LessSmaller(e1, e2, base);
    ChecksLess(e1, e2, c1, c2, s.iv);
    RejectedStmt(VisitStmt(p, k, level, s, e1, sc, c1, inLoop), base);
    if CheckWrite(c2, s.iv) {
      var loop1, loop2 := VisitLoop(p, k, level, s, e1, sc, c1), VisitLoop(p, k, level, s, e2, sc, c2);
      if loop2.LoopAccept? {
        var body := FixedPoint(p, k, level, s, e2, sc, c2, loop2);
        BelowLess(e1, e2, loop2.entry, base);
        PairOf(p, k, e1, loop2.entry, base, outer, sc);
        SearchLess(p, k, level, s, e1, loop2.entry, base, outer, sc, c1, c2, body);
        MoreEffect(loop1.r, body, loop2.r, base);
        LeaveLess(level, s, e1, e2, base, sc, c1, c2, loop1, loop2);
      } else {
        LoopRejected(level, s, e2, loop2, sc, c2);
      }
    }
  }

  lemma LoopRejected(level: nat, s: Stmt, env: Env, loop: LoopVerdict, sc: Scope, ctx: Context)
    requires s.For? && EnvWF(env, sc.live) && CheckWrite(ctx, s.iv) && LoopVisited(level, s, env, sc, ctx, loop)
    requires loop.LoopReject?
    ensures LeaveLoop(s, env, loop, level, sc, ctx) == StmtReject
  {
  }

  lemma BelowLess(e1: Env, e2: Env, e3: Env, base: Env)
    requires Less(e1, e2, base) && Below(e2, e3)
    ensures Less(e1, e3, base)
  {
  }

  lemma MoreEffect(r: StmtVerdict, body: StmtVerdict, all: StmtVerdict, base: Env)
    requires body.StmtAccept? && all.StmtAccept? && StmtLess(r, body, base)
    requires all == body.(eff := all.eff) && Plus(all.eff, body.eff) == all.eff
    ensures StmtLess(r, all, base)
  {
    hide Less;
    PartOf(all.eff, body.eff);
    assert body.eff.lhs <= all.eff.lhs;
  }

  lemma LeaveLess(level: nat, s: Stmt, e1: Env, e2: Env, base: Env, sc: Scope, c1: Context, c2: Context,
                  loop1: LoopVerdict, loop2: LoopVerdict)
    requires s.For? && EnvWF(e1, sc.live) && EnvWF(e2, sc.live) && CheckWrite(c1, s.iv) && CheckWrite(c2, s.iv)
    requires LoopVisited(level, s, e1, sc, c1, loop1) && LoopVisited(level, s, e2, sc, c2, loop2)
    requires loop1.LoopAccept? && loop2.LoopAccept? && loop2.r.StmtAccept? && loop1.r.StmtAccept?
    requires Less(e1, e2, base) && Less(loop1.entry, loop2.entry, base) && StmtLess(loop1.r, loop2.r, base)
    ensures StmtLess(LeaveLoop(s, e1, loop1, level, sc, c1), LeaveLoop(s, e2, loop2, level, sc, c2), base)
  {
    hide MustReturn, MergeJumps, Less, StmtVisited, EnvWF, CheckWrite;
    var o1 := if MustReturn(s.body, true) then e1 else loop1.entry;
    var o2 := if MustReturn(s.body, true) then e2 else loop2.entry;
    BreakKeys(level, s, e1, loop1, sc, c1);
    BreakKeys(level, s, e2, loop2, sc, c2);
    MergeJumpsLess(o1, o2, loop1.r.brk, loop2.r.brk, base);
  }

  // --- the main results

  const NO_ENV: Env := map[]

  lemma BelowPair(p: Program, k: nat, e1: Env, e2: Env, sc: Scope)
    requires Ready(p, k, e1, sc) && Ready(p, k, e2, sc) && Full(e1) && Below(e1, e2)
    ensures Pair(p, k, e1, e2, NO_ENV, {}, sc)
  {
  }

  /** What is accepted with some facts, in some context, is accepted with fewer, in one where less has happened and less
    * is forbidden; and then it leaves fewer facts, has a smaller effect and fewer targets to return. */
  lemma ExprMonotone(p: Program, k: nat, e: Expr, e1: Env, e2: Env, sc: Scope, c1: Context, c2: Context)
    requires Ready(p, k, e1, sc) && Ready(p, k, e2, sc) && Full(e1) && Below(e1, e2) && CtxLess(c1, c2)
    requires WFExpr(p, k, e, sc.vis) && Visit(p, k, e, e2, sc, c2).Accept?
    ensures var r1, r2 := Visit(p, k, e, e1, sc, c1), Visit(p, k, e, e2, sc, c2);
            r1.Accept? && Below(r1.env, r2.env) && EffLess(r1.eff, r2.eff) && r1.rets <= r2.rets
  {
    hide Visit, Pair, EffLess;
    BelowPair(p, k, e1, e2, sc);
    VisitLess(p, k, e, e1, e2, NO_ENV, {}, sc, c1, c2);
  }

  lemma BlockMonotone(p: Program, k: nat, level: nat, b: Block, e1: Env, e2: Env, sc: Scope, c1: Context, c2: Context,
                      inLoop: bool)
    requires Ready(p, k, e1, sc) && Ready(p, k, e2, sc) && Full(e1) && Below(e1, e2) && CtxLess(c1, c2)
    requires WFBlock(p, k, level, b, sc.vis, inLoop) && Own(p, k, BlockNames(b), sc)
    requires VisitBlock(p, k, level, b, e2, sc, c2, inLoop).StmtAccept?
    ensures var r1 := VisitBlock(p, k, level, b, e1, sc, c1, inLoop);
            var r2 := VisitBlock(p, k, level, b, e2, sc, c2, inLoop);
            r1.StmtAccept? && Below(r1.env, r2.env) && EffLess(r1.eff, r2.eff)
  {
    hide VisitBlock, Pair, EffLess, WFBlock, BlockNames;
    BelowPair(p, k, e1, e2, sc);
    BlockLess(p, k, level, b, e1, e2, NO_ENV, {}, sc, c1, c2, inLoop);
  }

  lemma LessBelow(e1: Env, e2: Env)
    requires Less(e1, e2, NO_ENV)
    ensures Below(e1, e2)
  {
    assert e1.Keys == e2.Keys;
  }

  /** Facts, no fewer than those before the loop, with which its body is accepted and sends nothing new back to its
    * head. */
  ghost predicate Invariant(p: Program, k: nat, level: nat, s: Stmt, env: Env, sc: Scope, ctx: Context, top: Env)
    requires s.For? && Ready(p, k, env, sc) && WFBlock(p, k, level, s.body, sc.vis, true)
    requires Own(p, k, BlockNames(s.body), sc)
  {
    && Below(env, top) && Ready(p, k, top, sc)
    && var body := VisitBlock(p, k, level, s.body, top, BodyScope(sc), BodyContext(ctx, s.iv), true);
       body.StmtAccept? && IsFixed(s.body, top, body)
  }

  /** The search for a loop's facts fails only if there are none that hold at its head, and else finds the least. */
  lemma LeastFixedPoint(p: Program, k: nat, level: nat, s: Stmt, env: Env, sc: Scope, ctx: Context)
    requires s.For? && Ready(p, k, env, sc) && Full(env) && WFBlock(p, k, level, s.body, sc.vis, true)
    requires Own(p, k, BlockNames(s.body), sc)
    ensures VisitLoop(p, k, level, s, env, sc, ctx).LoopAccept? <==>
              exists top :: Invariant(p, k, level, s, env, sc, ctx, top)
    ensures var loop := VisitLoop(p, k, level, s, env, sc, ctx);
            loop.LoopAccept? ==>
              && Invariant(p, k, level, s, env, sc, ctx, loop.entry)
              && forall top :: Invariant(p, k, level, s, env, sc, ctx, top) ==> Below(loop.entry, top)
  {
    hide VisitLoop, VisitBlock, WFBlock, BlockNames, IsFixed, Pair, Full;
    var loop := VisitLoop(p, k, level, s, env, sc, ctx);
    forall top | Invariant(p, k, level, s, env, sc, ctx, top)
      ensures loop.LoopAccept? && Below(loop.entry, top)
    {
      var body := VisitBlock(p, k, level, s.body, top, BodyScope(sc), BodyContext(ctx, s.iv), true);
      BelowPair(p, k, env, top, sc);
      SearchLess(p, k, level, s, env, top, NO_ENV, {}, sc, ctx, ctx, body);
      LessBelow(loop.entry, top);
    }
    if loop.LoopAccept? {
      var body := FixedPoint(p, k, level, s, env, sc, ctx, loop);
      assert Invariant(p, k, level, s, env, sc, ctx, loop.entry);
    }
  }
}
