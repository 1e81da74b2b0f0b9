/** What a program does when it runs: a store of cells, lvalues, and a big-step evaluator.  The operands of operators,
  * the arguments of calls and the two sides of assignments, which ISO C99 leaves unsequenced, are evaluated one after
  * the other in the order an `Order` picks; accesses are recorded as they happen. */
module Semantics {
  import opened Language

  type Store = map<Loc, Value>

  datatype Access = Access(l: Loc, isWrite: bool)

  /** Cells read, cells written, and volatile accesses in the order they happened. */
  datatype Foot = Foot(rd: set<Loc>, wr: set<Loc>, trace: seq<Access>)

  const NO_FOOT := Foot({}, {}, [])

  datatype Outcome = Val(v: Value) | Fall | Broke | Continued | Returned(v: Value)

  /** `Timeout` is running out of fuel, after the accesses in its footprint; `Stuck` is undefined behaviour. */
  datatype Result = Timeout(fp: Foot) | Stuck | Done(out: Outcome, st: Store, fp: Foot)

  /** An evaluation order for every operand list met during one run; `Any` is left to right, and the right side of an
    * assignment before its left side. */
  datatype Order = Any | Order(perm: seq<nat>, subs: seq<Order>)

  /** The right side of an assignment is its operand 0, the left side its operand 1. */
  predicate LeftFirst(o: Order) {
    o.Order? && o.perm == [1, 0]
  }

  function Sub(o: Order, i: nat): Order {
    if o.Order? && i < |o.subs| then o.subs[i] else Any
  }

  predicate IsPerm(s: seq<nat>, n: nat) {
    && |s| == n
    && (forall i, j :: 0 <= i < j < |s| ==> s[i] != s[j])
    && (forall j :: 0 <= j < n ==> j in s)
    && (forall i :: 0 <= i < |s| ==> s[i] < n)
  }

  function Identity(n: nat): (s: seq<nat>)
    ensures |s| == n && forall i :: 0 <= i < n ==> s[i] == i
  {
    seq(n, i => i)
  }

  function Perm(o: Order, n: nat): (s: seq<nat>)
    ensures IsPerm(s, n)
  {
    IdentityIsPerm(n);
    if o.Order? && IsPerm(o.perm, n) then o.perm else Identity(n)
  }

  lemma IdentityIsPerm(n: nat)
    ensures IsPerm(Identity(n), n)
  {
    var s := Identity(n);
    forall j | 0 <= j < n
      ensures j in s
    {
      assert s[j] == j;
    }
  }

  function Indices(ord: seq<nat>): set<nat> {
    set i | i in ord
  }

  ghost predicate Distinctly(ord: seq<nat>, n: nat) {
    && (forall i :: 0 <= i < |ord| ==> ord[i] < n)
    && (forall i, j :: 0 <= i < j < |ord| ==> ord[i] != ord[j])
  }

  lemma PermIndices(ord: seq<nat>, n: nat)
    requires IsPerm(ord, n)
    ensures |ord| == n && Distinctly(ord, n) && forall i :: 0 <= i < n ==> i in Indices(ord)
    ensures Indices(ord) == Indices(Identity(n))
  {
    IdentityIsPerm(n);
    forall i
      ensures i in ord <==> i in Identity(n)
    {
    }
  }

  // --- footprints

  function Join(f: Foot, g: Foot): Foot {
    Foot(f.rd + g.rd, f.wr + g.wr, f.trace + g.trace)
  }

  function After(f: Foot, r: Result): Result {
    match r
    case Timeout(fp) => Timeout(Join(f, fp))
    case Stuck => Stuck
    case Done(out, st, fp) => Done(out, st, Join(f, fp))
  }

  function Touch(l: Loc, isWrite: bool): seq<Access> {
    if l.v.isVolatile then [Access(l, isWrite)] else []
  }

  function ReadFoot(l: Loc): Foot { Foot({l}, {}, Touch(l, false)) }

  function WriteFoot(l: Loc): Foot { Foot({}, {l}, Touch(l, true)) }

  function Outside(dead: set<Variable>, ls: set<Loc>): set<Loc> {
    set l | l in ls && l.v !in dead
  }

  /** Accesses to objects whose lifetime is over are nobody's business any more. */
  function Hide(dead: set<Variable>, f: Foot): Foot {
    Foot(Outside(dead, f.rd), Outside(dead, f.wr), FilterTrace(dead, f.trace))
  }

  function FilterTrace(dead: set<Variable>, t: seq<Access>): seq<Access> {
    if t == [] then []
    else if t[0].l.v in dead then FilterTrace(dead, t[1..])
    else [t[0]] + FilterTrace(dead, t[1..])
  }

  // --- scopes

  function CellsOf(vs: set<Variable>): set<Loc> {
    set v, i | v in vs && 0 <= i < Cells(v) :: Loc(v, i)
  }

  /** The value of a pointer becomes indeterminate when what it points to dies. */
  function Fade(dead: set<Variable>, x: Value): Value {
    if x.Addr? && x.l.v in dead then Indet else x
  }

  function Kill(dead: set<Variable>, st: Store): Store {
    map l | l in st && l.v !in dead :: Fade(dead, st[l])
  }

  function InitValue(ini: Init): Value {
    match ini
    case IntInit(n) => Int(n)
    case PtrInit(z) => if z then NullPtr else Indet
    case AddrInit(v, n) => Addr(Loc(v, n % Cells(v)))
  }

  predicate InitOk(ini: Init, st: Store, locals: set<Variable>) {
    ini.AddrInit? ==> ini.v in locals || Loc(ini.v, ini.at % Cells(ini.v)) in st
  }

  /** Declarations of a block can be executed: fresh names, initialisers that refer to live objects. */
  predicate CanEnter(locals: map<Variable, seq<Init>>, st: Store) {
    && (forall l :: l in st ==> l.v !in locals)
    && (forall v :: v in locals ==>
         |locals[v]| > 0 && forall j :: 0 <= j < |locals[v]| ==> InitOk(locals[v][j], st, locals.Keys))
  }

  function Enter(locals: map<Variable, seq<Init>>, st: Store): Store
    requires forall v :: v in locals ==> |locals[v]| > 0
  {
    st + map l | l in CellsOf(locals.Keys) :: InitValue(locals[l.v][l.i % |locals[l.v]|])
  }

  function FadeOut(dead: set<Variable>, out: Outcome): Outcome {
    match out
    case Returned(v) => Returned(Fade(dead, v))
    case Val(v) => Val(Fade(dead, v))
    case o => o
  }

  /** Leaving a scope, normally or by a jump. */
  function Leave(dead: set<Variable>, r: Result): Result {
    match r
    case Timeout(fp) => Timeout(Hide(dead, fp))
    case Stuck => Stuck
    case Done(out, st, fp) => Done(FadeOut(dead, out), Kill(dead, st), Hide(dead, fp))
  }

  // --- lvalues

  datatype LvalResult = NoLval | Lval(l: Loc, fp: Foot)

  /** Follow `k` pointers starting from the cell `l`. */
  function Chase(l: Loc, k: nat, st: Store): LvalResult
    decreases k
  {
    if l !in st then NoLval
    else if k == 0 then Lval(l, NO_FOOT)
    else match st[l]
      case Addr(m) =>
        (match Chase(m, k - 1, st)
         case Lval(t, fp) => Lval(t, Join(ReadFoot(l), fp))
         case NoLval => NoLval)
      case _ => NoLval
  }

  /** An index is taken modulo the size of the array: that it is in bounds is not modelled. */
  function Lvalue(r: Ref, st: Store): LvalResult {
    match r.ix
    case At(n) => Chase(Loc(r.v, n % Cells(r.v)), r.ind, st)
    case By(u, k) =>
      if Loc(u, 0) in st && st[Loc(u, 0)].Int? then
        match Chase(Loc(r.v, (st[Loc(u, 0)].n + k) % Cells(r.v)), r.ind, st)
        case Lval(t, fp) => Lval(t, Join(ReadFoot(Loc(u, 0)), fp))
        case NoLval => NoLval
      else NoLval
  }

  // --- expressions

  function EvalLoad(r: Ref, st: Store): Result {
    match Lvalue(r, st)
    case NoLval => Stuck
    case Lval(l, fp) =>
      if l !in st || st[l] == Indet then Stuck
      else Done(Val(st[l]), st, Join(fp, ReadFoot(l)))
  }

  /** The left side of an assignment: the cell to write, which a compound assignment also reads.  Writing a constant is
    * undefined behaviour (section 6.7.3 of ISO C99). */
  function LeftSide(r: Ref, c: Option<nat>, st: Store): LvalResult {
    match Lvalue(r, st)
    case NoLval => NoLval
    case Lval(l, fp) =>
      if l !in st || l.v.isConst || (c.Some? && st[l] == Indet) then NoLval
      else Lval(l, if c.Some? then Join(fp, ReadFoot(l)) else fp)
  }

  /** What is written when the right side is worth `x` and the left side was `was`. */
  function NewValue(p: Program, c: Option<nat>, was: Value, x: Value): Value {
    if c.None? then x else Int(p.interp(c.value, [was, x]))
  }

  /** An assignment whose right side has run before its left side. */
  function Store1(p: Program, r: Ref, c: Option<nat>, x: Value, st: Store): Result {
    match LeftSide(r, c, st)
    case NoLval => Stuck
    case Lval(l, fp) =>
      if l !in st then Stuck
      else var y := NewValue(p, c, st[l], x); Done(Val(y), st[l := y], Join(fp, WriteFoot(l)))
  }

  /** An assignment whose left side was found to be the cell `l`, worth `was`, before its right side ran with the result
    * `x`. */
  function StoreTo(p: Program, l: Loc, fp: Foot, c: Option<nat>, was: Value, x: Result): Result {
    if x.Done? && x.out.Val? && l in x.st then
      var y := NewValue(p, c, was, x.out.v);
      Done(Val(y), x.st[l := y], Join(fp, Join(x.fp, WriteFoot(l))))
    else if x.Timeout? then Timeout(Join(fp, x.fp)) else Stuck
  }

  predicate Truthy(x: Value) {
    x != NullPtr && x != Int(0)
  }

  function Vals(vals: map<nat, Value>, n: nat): seq<Value>
  {
    seq(n, i requires 0 <= i < n => if i in vals then vals[i] else Indet)
  }

  datatype OpsResult = OpsTimeout(fp: Foot) | OpsStuck | OpsDone(vals: map<nat, Value>, st: Store, fp: Foot)

  function Args(e: Expr): seq<Expr> {
    match e
    case Op(_, args) => args
    case Call(_, args) => args
    case _ => []
  }

  /** Operands of `e`, one after the other in the order `ord`. */
  function EvalOps(p: Program, e: Expr, ord: seq<nat>, st: Store, n: nat, o: Order): OpsResult
    requires forall i :: 0 <= i < |ord| ==> ord[i] < |Args(e)|
    decreases n, e, |ord|
  {
    if ord == [] then OpsDone(map[], st, NO_FOOT)
    else
      var r := Eval(p, Args(e)[ord[0]], st, n, Sub(o, ord[0]));
      match r
      case Timeout(fp) => OpsTimeout(fp)
      case Stuck => OpsStuck
      case Done(out, st1, fp1) =>
        if !out.Val? then OpsStuck
        else OneMore(ord[0], out.v, fp1, EvalOps(p, e, ord[1..], st1, n, o))
  }

  function OneMore(i: nat, x: Value, fp: Foot, rest: OpsResult): OpsResult {
    match rest
    case OpsTimeout(fp2) => OpsTimeout(Join(fp, fp2))
    case OpsStuck => OpsStuck
    case OpsDone(vals, st, fp2) => OpsDone(vals[i := x], st, Join(fp, fp2))
  }

  function Eval(p: Program, e: Expr, st: Store, n: nat, o: Order): Result
    decreases n, e
  {
    match e
    case Const(i) => Done(Val(Int(i)), st, NO_FOOT)
    case PtrConst(_, z) => Done(Val(if z then NullPtr else Indet), st, NO_FOOT)
    case Load(r) => EvalLoad(r, st)
    case AddrOf(v, ix) =>
      (match Lvalue(Ref(v, ix, 0), st)
       case NoLval => Stuck
       case Lval(l, fp) => Done(Val(Addr(l)), st, fp))
    case Assign(r, c, rhs) =>
      if LeftFirst(o) then
        match LeftSide(r, c, st)
        case NoLval => Stuck
        case Lval(l, fp) =>
          if l in st then StoreTo(p, l, fp, c, st[l], Eval(p, rhs, st, n, Sub(o, 0))) else Stuck
      else
        var x := Eval(p, rhs, st, n, Sub(o, 0));
        if x.Done? && x.out.Val? then After(x.fp, Store1(p, r, c, x.out.v, x.st))
        else if x.Timeout? then x else Stuck
    case Comma(a, b) =>
      var x := Eval(p, a, st, n, Sub(o, 0));
      if x.Done? && x.out.Val? then After(x.fp, Eval(p, b, x.st, n, Sub(o, 1)))
      else if x.Timeout? then x else Stuck
    case Short(isAnd, a, b) =>
      var x := Eval(p, a, st, n, Sub(o, 0));
      if x.Done? && x.out.Val? then
        if Truthy(x.out.v) != isAnd then x.(out := Val(Int(if isAnd then 0 else 1)))
        else
          var y := Eval(p, b, x.st, n, Sub(o, 1));
          if y.Done? && y.out.Val? then
            Done(Val(Int(if Truthy(y.out.v) then 1 else 0)), y.st, Join(x.fp, y.fp))
          else if y.Timeout? then Timeout(Join(x.fp, y.fp)) else Stuck
      else if x.Timeout? then x else Stuck
    case Op(op, args) =>
      (match EvalOps(p, e, Perm(o, |args|), st, n, o)
       case OpsDone(vals, st1, fp) => Done(Val(Int(p.interp(op, Vals(vals, |args|)))), st1, fp)
       case OpsTimeout(fp) => Timeout(fp)
       case OpsStuck => Stuck)
    case Call(f, args) =>
      (match EvalOps(p, e, Perm(o, |args|), st, n, o)
       case OpsDone(vals, st1, fp) => After(fp, CallWith(p, e, Vals(vals, |args|), st1, n, Sub(o, |args|)))
       case OpsTimeout(fp) => Timeout(fp)
       case OpsStuck => Stuck)
  }

  /** A call whose arguments have been evaluated. */
  function CallWith(p: Program, e: Expr, vals: seq<Value>, st: Store, n: nat, o: Order): Result
    requires e.Call?
    decreases n, e, 0
  {
    if n == 0 then Timeout(NO_FOOT)
    else if e.f >= |p.funcs| || |p.funcs[e.f].params| != |vals| then Stuck
    else Invoke(p, p.funcs[e.f], vals, st, n - 1, o)
  }

  function ParamCells(params: seq<Variable>, vals: seq<Value>): (m: Store)
    requires |params| == |vals|
    ensures m.Keys == set v | v in params :: Loc(v, 0)
  {
    if params == [] then map[]
    else
      assert params == [params[0]] + params[1..];
      ParamCells(params[1..], vals[1..])[Loc(params[0], 0) := vals[0]]
  }

  predicate Fresh(params: seq<Variable>, st: Store) {
    forall l :: l in st ==> l.v !in params
  }

  function Invoke(p: Program, f: Function, vals: seq<Value>, st: Store, n: nat, o: Order): Result
    requires |vals| == |f.params|
    decreases n, f
  {
    if !Fresh(f.params, st) then Stuck
    else
      var r := Leave(Elems(f.params), ExecBlock(p, f.body, st + ParamCells(f.params, vals), n, o));
      if r.Done? then
        if r.out.Returned? then r.(out := Val(r.out.v)) else Stuck
      else r
  }

  // --- statements

  function ExecBlock(p: Program, b: Block, st: Store, n: nat, o: Order): Result
    decreases n, b
  {
    if !CanEnter(b.locals, st) then Stuck
    else Leave(b.locals.Keys, ExecStmts(p, b, 0, Enter(b.locals, st), n, o))
  }

  function ExecStmts(p: Program, b: Block, i: nat, st: Store, n: nat, o: Order): Result
    requires i <= |b.stms|
    decreases n, b, |b.stms| - i
  {
    if i == |b.stms| then Done(Fall, st, NO_FOOT)
    else
      var r := ExecStmt(p, b.stms[i], st, n, Sub(o, 0));
      if r.Done? && r.out.Fall? then After(r.fp, ExecStmts(p, b, i + 1, r.st, n, Sub(o, 1)))
      else r
  }

  /** A condition, and what happens on each side of it. */
  function ExecStmt(p: Program, s: Stmt, st: Store, n: nat, o: Order): Result
    decreases n, s
  {
    match s
    case ExprStmt(e) =>
      var x := Eval(p, e, st, n, Sub(o, 0));
      if x.Done? then x.(out := Fall) else x
    case If(t, a, b) =>
      var x := Eval(p, t, st, n, Sub(o, 0));
      if x.Done? && x.out.Val? then
        After(x.fp, ExecBlock(p, if Truthy(x.out.v) then a else b, x.st, n, Sub(o, 1)))
      else if x.Timeout? then x else Stuck
    case For(iv, first, _, _, _, _, _) =>
      var l := Loc(iv, 0);
      if l in st && !iv.isConst then After(WriteFoot(l), ExecLoop(p, s, st[l := Int(first)], n, o)) else Stuck
    case Break(t) =>
      var x := Eval(p, t, st, n, Sub(o, 0));
      if x.Done? && x.out.Val? then x.(out := if Truthy(x.out.v) then Broke else Fall)
      else if x.Timeout? then x else Stuck
    case Continue(t) =>
      var x := Eval(p, t, st, n, Sub(o, 0));
      if x.Done? && x.out.Val? then x.(out := if Truthy(x.out.v) then Continued else Fall)
      else if x.Timeout? then x else Stuck
    case Return(e) =>
      var x := Eval(p, e, st, n, Sub(o, 0));
      if x.Done? && x.out.Val? then x.(out := Returned(x.out.v))
      else if x.Timeout? then x else Stuck
  }

  /** Is the loop condition `iv testOp limit` true? */
  predicate LoopTest(p: Program, s: Stmt, x: Value)
    requires s.For?
  {
    p.interp(s.testOp, [x, Int(s.limit)]) != 0
  }

  function LoopStep(p: Program, s: Stmt, x: Value): Value
    requires s.For?
  {
    Int(p.interp(s.stepOp, [x, Int(s.step)]))
  }

  function ExecLoop(p: Program, s: Stmt, st: Store, n: nat, o: Order): Result
    requires s.For?
    decreases n, s, 0
  {
    var l := Loc(s.iv, 0);
    if l !in st then Stuck
    else if !LoopTest(p, s, st[l]) then Done(Fall, st, ReadFoot(l))
    else if n == 0 then Timeout(ReadFoot(l))
    else
      var r := ExecBlock(p, s.body, st, n, Sub(o, 0));
      if !r.Done? then After(ReadFoot(l), r)
      else
        var fp := Join(ReadFoot(l), r.fp);
        match r.out
        case Fall => LoopBack(p, s, fp, r.st, n, o)
        case Continued => LoopBack(p, s, fp, r.st, n, o)
        case Broke => Done(Fall, r.st, fp)
        case Returned(v) => Done(Returned(v), r.st, fp)
        case Val(v) => Stuck
  }

  function LoopBack(p: Program, s: Stmt, fp: Foot, st: Store, n: nat, o: Order): Result
    requires s.For? && n > 0
    decreases n - 1, s, 1
  {
    var l := Loc(s.iv, 0);
    if l !in st then Stuck
    else
      After(Join(fp, Join(ReadFoot(l), WriteFoot(l))),
            ExecLoop(p, s, st[l := LoopStep(p, s, st[l])], n - 1, Sub(o, 1)))
  }
}
