/** Read and write sets, and the checks that keep unsequenced operands out of each other's way. */
module Effects {
  import opened Language
  import opened Facts

  /** `lhs` are the variables written as left sides of assignments; `vol` says that a volatile has been accessed;
    * `mixed` that some assignment has volatile accesses on its right side as well as on the way to the cell on its
    * left.  `unseen` are the indices of addresses, at which the checks never look; `clash` says that some operand may
    * write such an index in an unsequenced one, and `bare` that some such index may be written at all where it is used.
    * Nothing is rejected for being `mixed`, `clash` or `bare`: they tell where the evaluation order can matter. */
  datatype Effect = Effect(rds: set<Variable>, wrs: set<Variable>, lhs: set<Variable>, vol: bool, mixed: bool,
                           unseen: set<Variable>, clash: bool, bare: bool)

  const NO_EFFECT := Effect({}, {}, {}, false, false, {}, false, false)

  function Plus(e: Effect, f: Effect): Effect {
    Effect(e.rds + f.rds, e.wrs + f.wrs, e.lhs + f.lhs, e.vol || f.vol, e.mixed || f.mixed, e.unseen + f.unseen,
           e.clash || f.clash, e.bare || f.bare)
  }

  lemma PlusAssoc(a: Effect, b: Effect, c: Effect)
    ensures Plus(Plus(a, b), c) == Plus(a, Plus(b, c))
  {
    assert (a.rds + b.rds) + c.rds == a.rds + (b.rds + c.rds);
    assert (a.wrs + b.wrs) + c.wrs == a.wrs + (b.wrs + c.wrs);
    assert (a.lhs + b.lhs) + c.lhs == a.lhs + (b.lhs + c.lhs);
    assert (a.unseen + b.unseen) + c.unseen == a.unseen + (b.unseen + c.unseen);
  }

  /** Two operands of which either may be evaluated first. */
  function Unsequenced(e: Effect, f: Effect): Effect {
    var both := Plus(e, f);
    both.(clash := both.clash || !(e.unseen !! f.wrs) || !(e.wrs !! f.unseen))
  }

  /** `e` is part of `more`. */
  ghost predicate Part(e: Effect, more: Effect) {
    && e.rds <= more.rds && e.wrs <= more.wrs && e.unseen <= more.unseen
    && (e.vol ==> more.vol) && (e.mixed ==> more.mixed) && (e.clash ==> more.clash)
  }

  /** What already happened in unsequenced operands, what directives forbid, and which functions are created where they
    * are called, rather than visited again: those are handed only the directives that concern them. */
  datatype Context = Context(eff: Effect, noRead: set<Variable>, noWrite: set<Variable>, created: set<nat>)

  function Reads(vs: set<Variable>): Effect { NO_EFFECT.(rds := vs, vol := AnyVolatile(vs)) }

  function Writes(vs: set<Variable>): Effect { NO_EFFECT.(wrs := vs, vol := AnyVolatile(vs)) }

  function ReadEffect(v: Variable): Effect { NO_EFFECT.(rds := {v}, vol := v.isVolatile) }

  function WriteEffect(v: Variable): Effect { NO_EFFECT.(wrs := {v}, vol := v.isVolatile) }

  /** The index of an address is read when the program runs, but not visited. */
  function AddressEffect(ctx: Context, ix: Index): Effect {
    match ix
    case At(_) => NO_EFFECT
    case By(u, _) => NO_EFFECT.(unseen := {u}, bare := u !in ctx.noWrite)
  }

  function Objects(ts: set<Target>): set<Variable> {
    set t | t in ts && t.Obj? :: t.v
  }

  predicate AnyVolatile(vs: set<Variable>) {
    exists v :: v in vs && v.isVolatile
  }

  // --- single variables

  predicate CheckRead(env: Env, ctx: Context, v: Variable) {
    && v !in ctx.noRead
    && v !in ctx.eff.wrs
    && !(v.isVolatile && ctx.eff.vol)
    && !(v.level > 0 && Garbage in Lookup(env, v))
  }

  predicate CheckWrite(ctx: Context, v: Variable) {
    && v !in ctx.noWrite && !v.isConst
    && v !in ctx.eff.wrs && v !in ctx.eff.rds
    && !(v.isVolatile && ctx.eff.vol)
  }

  /** May the variable be dereferenced?  The facts are about whole arrays, so a single member never may. */
  predicate ValidPtr(env: Env, v: Variable) {
    !v.isArray && v in env && Null !in env[v] && Garbage !in env[v]
  }

  // --- chains of pointers

  predicate SafePointees(ts: set<Target>) {
    ts != {} && Null !in ts && Garbage !in ts
  }

  function ReadPointed(env: Env, ctx: Context, ts: set<Target>, k: nat): Option<Effect>
    decreases k
  {
    if k == 0 then Some(NO_EFFECT)
    else
      var next := Pointees(env, ts);
      if SafePointees(next) && forall v :: v in Objects(next) ==> CheckRead(env, ctx, v) then
        match ReadPointed(env, ctx, next, k - 1)
        case Some(e) => Some(Plus(Reads(Objects(next)), e))
        case None => None
      else None
  }

  function WritePointed(env: Env, ctx: Context, ts: set<Target>, k: nat): Option<Effect>
    requires k > 0
    decreases k
  {
    var next := Pointees(env, ts);
    if !SafePointees(next) then None
    else if k == 1 then
      if forall v :: v in Objects(next) ==> CheckWrite(ctx, v)
      then Some(Writes(Objects(next)))
      else None
    else if forall v :: v in Objects(next) ==> CheckRead(env, ctx, v) then
      match WritePointed(env, ctx, next, k - 1)
      case Some(e) => Some(Plus(Reads(Objects(next)), e))
      case None => None
    else None
  }

  /** Is a pointer that the left side goes through changed by the right side? */
  predicate PtrModified(env: Env, wrs: set<Variable>, ts: set<Target>, k: nat)
    decreases k
  {
    k > 1 &&
      var next := Pointees(env, ts);
      (exists v :: v in Objects(next) && v in wrs) || PtrModified(env, wrs, next, k - 1)
  }

  // --- references

  function ReadIndex(env: Env, ctx: Context, r: Ref): Option<Effect> {
    match r.ix
    case At(_) => Some(NO_EFFECT)
    case By(u, _) => if CheckRead(env, ctx, u) then Some(ReadEffect(u)) else None
  }

  /** An rvalue, through any number of stars. */
  function VisitRead(env: Env, ctx: Context, r: Ref): Option<Effect> {
    if r.ind > 0 && !ValidPtr(env, r.v) then None
    else
      match ReadIndex(env, ctx, r)
      case None => None
      case Some(ix) =>
        if !CheckRead(env, ctx, r.v) then None
        else
          match ReadPointed(env, ctx, {Obj(r.v)}, r.ind)
          case None => None
          case Some(e) => Some(Plus(Plus(ix, ReadEffect(r.v)), e))
  }

  /** A left side whose right side had the effect `rhs`. */
  function VisitLhs(env: Env, ctx: Context, rhs: Effect, r: Ref, compound: bool): Option<Effect> {
    var prior := if compound then VisitRead(env, ctx, r) else Some(NO_EFFECT);
    var inRhs := Context(Plus(ctx.eff, rhs), {}, {}, {});
    if prior.None? || ReadIndex(env, inRhs, r).None? then None
    else
      match ReadIndex(env, ctx, r)
      case None => None
      case Some(ix) =>
        if r.ind == 0 then
          if CheckWrite(ctx, r.v) then Some(Plus(Plus(prior.value, ix), WriteEffect(r.v))) else None
        else if !ValidPtr(env, r.v) || r.v in rhs.wrs || PtrModified(env, rhs.wrs, {Obj(r.v)}, r.ind)
             || !CheckRead(env, ctx, r.v) then None
        else
          match WritePointed(env, ctx, {Obj(r.v)}, r.ind)
          case None => None
          case Some(e) => Some(Plus(Plus(prior.value, Plus(ix, ReadEffect(r.v))), e))
  }

  /** Context in which the left side of an assignment is checked. */
  function LhsContext(ctx: Context, rhs: Effect, compound: bool): Context {
    var run := if compound then Plus(ctx.eff, rhs) else ctx.eff;
    ctx.(eff := Plus(run, Writes(rhs.lhs)))
  }

  /** An accepted effect does not collide with what has happened in the context. */
  ghost predicate Compatible(e: Effect, ctx: Context) {
    && e.rds !! ctx.eff.wrs
    && e.wrs !! ctx.eff.wrs + ctx.eff.rds
    && !(e.vol && ctx.eff.vol)
  }

  /** The checks themselves leave nothing unseen. */
  ghost predicate AllSeen(e: Effect) {
    e.unseen == {} && !e.mixed && !e.clash && !e.bare
  }

  lemma {:induction false} ReadPointedOk(env: Env, ctx: Context, ts: set<Target>, k: nat)
    ensures var e := ReadPointed(env, ctx, ts, k);
            e.Some? ==> Compatible(e.value, ctx) && e.value.wrs == {} && AllSeen(e.value)
    decreases k
  {
    if k > 0 { ReadPointedOk(env, ctx, Pointees(env, ts), k - 1); }
  }

  lemma {:induction false} WritePointedOk(env: Env, ctx: Context, ts: set<Target>, k: nat)
    requires k > 0
    ensures var e := WritePointed(env, ctx, ts, k);
            e.Some? ==> Compatible(e.value, ctx) && e.value.wrs == Objects(Deref(env, ts, k)) && AllSeen(e.value)
    decreases k
  {
    if k > 1 { WritePointedOk(env, ctx, Pointees(env, ts), k - 1); }
  }

  lemma VisitReadOk(env: Env, ctx: Context, r: Ref)
    ensures var e := VisitRead(env, ctx, r); e.Some? ==> Compatible(e.value, ctx) && e.value.wrs == {}
  {
    hide AllSeen, ReadPointed;
    ReadPointedOk(env, ctx, {Obj(r.v)}, r.ind);
  }

  lemma VisitLhsOk(env: Env, ctx: Context, rhs: Effect, r: Ref, compound: bool)
    ensures var e := VisitLhs(env, ctx, rhs, r, compound); e.Some? ==> Compatible(e.value, ctx)
  {
    hide VisitRead, WritePointed, PtrModified, AllSeen;
    VisitReadOk(env, ctx, r);
    if r.ind > 0 { WritePointedOk(env, ctx, {Obj(r.v)}, r.ind); }
  }

  lemma VisitReadSeen(env: Env, ctx: Context, r: Ref)
    ensures var e := VisitRead(env, ctx, r); e.Some? ==> AllSeen(e.value) && e.value.wrs == {}
  {
    hide Compatible, ReadPointed;
    ReadPointedOk(env, ctx, {Obj(r.v)}, r.ind);
  }

  /** The left side of an assignment writes just what it may denote. */
  lemma VisitLhsSeen(env: Env, ctx: Context, rhs: Effect, r: Ref, compound: bool)
    ensures var e := VisitLhs(env, ctx, rhs, r, compound);
            e.Some? ==> AllSeen(e.value) && e.value.wrs == Objects(Deref(env, {Obj(r.v)}, r.ind))
  {
    hide VisitRead, WritePointed, PtrModified, Compatible;
    VisitReadSeen(env, ctx, r);
    if r.ind > 0 { WritePointedOk(env, ctx, {Obj(r.v)}, r.ind); }
  }
}
