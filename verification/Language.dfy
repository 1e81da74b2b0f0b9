/** The pointer language that the generator emits and its analysis walks over: variables with a pointer
  * depth, expressions with side effects, and scoped blocks. */
module Language {

  /** A declared variable.  `level` is the number of `*` in its (element) type; an array stands for all its members. */
  datatype Variable = Variable(id: nat, level: nat, isArray: bool, size: nat, isConst: bool, isVolatile: bool)

  function Cells(v: Variable): (n: nat)
    ensures n > 0
    ensures !v.isArray ==> n == 1
  {
    if v.isArray && v.size > 0 then v.size else 1
  }

  /** A member of a points-to set: the two dummy variables of the analysis, or a real one. */
  datatype Target = Null | Garbage | Obj(v: Variable)

  /** A constant index, or a variable with a constant added to it. */
  datatype Index = At(n: nat) | By(v: Variable, plus: nat)

  /** `*...*v` with `ind` stars, or `*...*v[ix]` when v is an array. */
  datatype Ref = Ref(v: Variable, ix: Index, ind: nat)

  datatype Option<T> = None | Some(value: T)

  datatype Expr =
    | Const(n: int)
    | PtrConst(depth: nat, isZero: bool)
    | Load(r: Ref)
    | AddrOf(v: Variable, ix: Index)
    | Assign(r: Ref, compound: Option<nat>, rhs: Expr)
    | Comma(a: Expr, b: Expr)
    | Op(op: nat, args: seq<Expr>)
    | Short(isAnd: bool, a: Expr, b: Expr)
    | Call(f: nat, args: seq<Expr>)

  datatype Init = IntInit(n: int) | PtrInit(isZero: bool) | AddrInit(v: Variable, at: nat)

  /** Initialisers of one local: an array may list several, used cyclically. */
  datatype Block = Block(locals: map<Variable, seq<Init>>, stms: seq<Stmt>)

  datatype Stmt =
    | ExprStmt(e: Expr)
    | If(test: Expr, thn: Block, els: Block)
    | For(iv: Variable, first: int, testOp: nat, limit: int, stepOp: nat, step: int, body: Block)
    | Break(test: Expr)
    | Continue(test: Expr)
    | Return(e: Expr)

  datatype Function = Function(params: seq<Variable>, level: nat, body: Block)

  datatype Loc = Loc(v: Variable, i: nat)

  datatype Value = Int(n: int) | NullPtr | Addr(l: Loc) | Indet

  /** `interp` gives the arithmetic and comparison operators their meaning. */
  datatype Program = Program(globals: set<Variable>, funcs: seq<Function>, interp: (nat, seq<Value>) -> int)

  /** Pointer depth of an expression's type. */
  function Level(p: Program, e: Expr): nat {
    match e
    case Const(_) => 0
    case PtrConst(d, _) => d
    case Load(r) => RefLevel(r)
    case AddrOf(v, _) => v.level + 1
    case Assign(r, _, _) => RefLevel(r)
    case Comma(_, b) => Level(p, b)
    case Op(_, _) => 0
    case Short(_, _, _) => 0
    case Call(f, _) => if f < |p.funcs| then p.funcs[f].level else 0
  }

  function RefLevel(r: Ref): nat {
    if r.ind <= r.v.level then r.v.level - r.ind else 0
  }

  // ---------------------------------------------------------------------------------------------
  // Static well-formedness: what the generator guarantees by construction (scoping, typing,
  // unique names, calls only to functions created earlier).

  predicate WFIndex(v: Variable, ix: Index, vis: set<Variable>) {
    && v in vis
    && (!v.isArray ==> ix == At(0))
    && (ix.By? ==> ix.v in vis && ix.v.level == 0 && !ix.v.isArray)
  }

  predicate WFRef(r: Ref, vis: set<Variable>) {
    WFIndex(r.v, r.ix, vis) && r.ind <= r.v.level
  }

  predicate WFExpr(p: Program, k: nat, e: Expr, vis: set<Variable>)
    decreases e
  {
    match e
    case Const(_) => true
    case PtrConst(d, _) => d > 0
    case Load(r) => WFRef(r, vis)
    case AddrOf(v, ix) => WFIndex(v, ix, vis) && (ix.By? ==> !ix.v.isVolatile)
    case Assign(r, c, rhs) =>
      && WFRef(r, vis) && WFExpr(p, k, rhs, vis)
      && Level(p, rhs) == RefLevel(r)
      && (c.Some? ==> RefLevel(r) == 0)
    case Comma(a, b) => WFExpr(p, k, a, vis) && WFExpr(p, k, b, vis)
    case Op(_, args) => forall i :: 0 <= i < |args| ==> WFExpr(p, k, args[i], vis)
    case Short(_, a, b) =>
      WFExpr(p, k, a, vis) && WFExpr(p, k, b, vis) && Level(p, a) == 0 && Level(p, b) == 0
    case Call(f, args) =>
      && f < k && f < |p.funcs|
      && |args| == |p.funcs[f].params|
      && (forall i :: 0 <= i < |args| ==> WFExpr(p, k, args[i], vis))
      && (forall i :: 0 <= i < |args| ==> Level(p, args[i]) == p.funcs[f].params[i].level)
  }

  predicate WFInit(v: Variable, ini: Init, vis: set<Variable>) {
    match ini
    case IntInit(_) => v.level == 0
    case PtrInit(_) => v.level > 0
    case AddrInit(u, _) => u in vis && v.level == u.level + 1
  }

  function BlockNames(b: Block): set<Variable>
    decreases b
  {
    b.locals.Keys + StmtsNames(b, 0)
  }

  function StmtsNames(b: Block, i: nat): set<Variable>
    requires i <= |b.stms|
    decreases b, |b.stms| - i
  {
    if i == |b.stms| then {} else StmtNames(b.stms[i]) + StmtsNames(b, i + 1)
  }

  /** Variables declared somewhere inside a statement. */
  function StmtNames(s: Stmt): set<Variable>
    decreases s
  {
    match s
    case If(_, a, b) => BlockNames(a) + BlockNames(b)
    case For(_, _, _, _, _, _, b) => BlockNames(b)
    case _ => {}
  }

  predicate WFBlock(p: Program, k: nat, level: nat, b: Block, vis: set<Variable>, inLoop: bool)
    decreases b
  {
    && b.locals.Keys !! StmtsNames(b, 0)
    && (forall v :: v in b.locals ==>
         |b.locals[v]| > 0 &&
         forall j :: 0 <= j < |b.locals[v]| ==> WFInit(v, b.locals[v][j], vis + b.locals.Keys))
    && WFStmts(p, k, level, b, 0, vis + b.locals.Keys, inLoop)
  }

  predicate WFStmts(p: Program, k: nat, level: nat, b: Block, i: nat, vis: set<Variable>, inLoop: bool)
    requires i <= |b.stms|
    decreases b, |b.stms| - i
  {
    i < |b.stms| ==>
      && WFStmt(p, k, level, b.stms[i], vis, inLoop)
      && WFStmts(p, k, level, b, i + 1, vis, inLoop)
  }

  predicate WFStmt(p: Program, k: nat, level: nat, s: Stmt, vis: set<Variable>, inLoop: bool)
    decreases s
  {
    match s
    case ExprStmt(e) => WFExpr(p, k, e, vis)
    case If(t, a, b) =>
      && WFExpr(p, k, t, vis) && Level(p, t) == 0
      && WFBlock(p, k, level, a, vis, inLoop) && WFBlock(p, k, level, b, vis, inLoop)
    case For(iv, _, _, _, _, _, b) =>
      iv in vis && iv.level == 0 && !iv.isArray && WFBlock(p, k, level, b, vis, true)
    case Break(t) => inLoop && WFExpr(p, k, t, vis) && Level(p, t) == 0
    case Continue(t) => inLoop && WFExpr(p, k, t, vis) && Level(p, t) == 0
    case Return(e) => (e.Load? || e.AddrOf?) && WFExpr(p, k, e, vis) && Level(p, e) == level
  }

  function Elems(vs: seq<Variable>): set<Variable> {
    set v | v in vs
  }

  function FuncNames(f: Function): set<Variable> {
    Elems(f.params) + BlockNames(f.body)
  }

  /** Names declared by the functions created before the k-th. */
  function NamesBelow(p: Program, k: nat): set<Variable>
    requires k <= |p.funcs|
  {
    if k == 0 then {} else NamesBelow(p, k - 1) + FuncNames(p.funcs[k - 1])
  }

  predicate Distinct(vs: seq<Variable>) {
    forall i, j :: 0 <= i < j < |vs| ==> vs[i] != vs[j]
  }

  predicate WFFunction(p: Program, k: nat)
    requires k < |p.funcs|
  {
    var f := p.funcs[k];
    && Distinct(f.params)
    && (forall v :: v in f.params ==> !v.isArray)
    && Elems(f.params) !! BlockNames(f.body)
    && FuncNames(f) !! NamesBelow(p, k)
    && FuncNames(f) !! p.globals
    && WFBlock(p, k, f.level, f.body, p.globals + Elems(f.params), false)
    && MustReturn(f.body, false)
  }

  predicate WFProgram(p: Program) {
    forall k :: 0 <= k < |p.funcs| ==> WFFunction(p, k)
  }

  // ---------------------------------------------------------------------------------------------
  // Syntactic control flow, as the block queries compute it.

  /** The first `return`, or else the last statement: what ends the block. */
  function LastIndex(b: Block, i: nat): (r: nat)
    requires i < |b.stms|
    ensures i <= r < |b.stms|
    ensures b.stms[r].Return? || r == |b.stms| - 1
    ensures forall j :: i <= j < r ==> !b.stms[j].Return?
    decreases |b.stms| - i
  {
    if b.stms[i].Return? || i == |b.stms| - 1 then i else LastIndex(b, i + 1)
  }

  /** Does a statement hold a `break` (or `continue`) that belongs to the loop around it? */
  predicate StmtJumps(s: Stmt, isBreak: bool)
    decreases s
  {
    match s
    case If(_, a, b) => StmtsJump(a, 0, isBreak) || StmtsJump(b, 0, isBreak)
    case Break(_) => isBreak
    case Continue(_) => !isBreak
    case _ => false
  }

  predicate StmtsJump(b: Block, i: nat, isBreak: bool)
    requires i <= |b.stms|
    decreases b, |b.stms| - i
  {
    i < |b.stms| && (StmtJumps(b.stms[i], isBreak) || StmtsJump(b, i + 1, isBreak))
  }

  /** `looping` says that the block is the body of a loop, which alone owns breaks and back edges. */
  predicate MustReturn(b: Block, looping: bool)
    decreases b, 1
  {
    && |b.stms| > 0
    && StmtMustReturn(b.stms[LastIndex(b, 0)])
    && (looping ==> !StmtsJump(b, 0, true) && !StmtsJump(b, 0, false))
  }

  predicate StmtMustReturn(s: Stmt)
    decreases s
  {
    match s
    case Return(_) => true
    case If(_, a, b) => MustReturn(a, false) && MustReturn(b, false)
    case _ => false
  }

  predicate StmtMustJump(s: Stmt)
    decreases s
  {
    match s
    case Return(_) => true
    case If(_, a, b) => MustJump(a) && MustJump(b)
    case Break(t) => NotZero(t)
    case Continue(t) => NotZero(t)
    case _ => false
  }

  predicate MustJump(b: Block)
    decreases b, 1
  {
    |b.stms| > 0 && StmtMustJump(b.stms[LastIndex(b, 0)])
  }

  /** The only expressions known to be non-zero are non-zero constants. */
  predicate NotZero(e: Expr) {
    e.Const? && e.n != 0
  }

  /** Can control run off the end of a loop body back to its head? */
  predicate FromTailToHead(b: Block) {
    |b.stms| > 0 && !StmtMustJump(b.stms[LastIndex(b, 0)])
  }
}
