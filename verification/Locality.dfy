/** A run depends only on the cells it reads: in a store that agrees on those, it does exactly the same, and runs out of
  * fuel at the same place if it does. */
module Locality {
  import opened Language
  import opened Semantics
  import opened Footprint

  ghost predicate Agree(a: Store, b: Store, ls: set<Loc>) {
    a.Keys == b.Keys && forall l :: l in ls && l in a ==> a[l] == b[l]
  }

  /** Same outcome, same accesses in the same order, same values written. */
  ghost predicate Same(r1: Result, r2: Result) {
    match r1
    case Timeout(_) => r2 == r1
    case Stuck => true
    case Done(out, st, fp) => r2.Done? && r2.out == out && r2.fp == fp && Agree(st, r2.st, fp.wr)
  }

  lemma AgreeNext(s1: Store, m1: Store, s2: Store, m2: Store, fp: Foot, ls: set<Loc>)
    requires FramedStore(s1, m1, fp) && FramedStore(s2, m2, fp)
    requires Agree(m1, m2, fp.wr) && Agree(s1, s2, ls)
    ensures Agree(m1, m2, ls)
  {
  }

  lemma AgreeBoth(a: Store, b: Store, ls: set<Loc>, ms: set<Loc>)
    requires Agree(a, b, ls) && Agree(a, b, ms)
    ensures Agree(a, b, ls + ms)
  {
  }

  lemma SameAfter(m1: Store, m2: Store, fp: Foot, r1: Result, r2: Result)
    requires Agree(m1, m2, fp.wr) && Same(r1, r2)
    requires r1.Done? ==> FramedStore(m1, r1.st, r1.fp) && FramedStore(m2, r2.st, r2.fp)
    ensures Same(After(fp, r1), After(fp, r2))
  {
  }

  lemma {:induction false} ChaseLocal(l: Loc, k: nat, a: Store, b: Store)
    requires Chase(l, k, a).Lval? && Agree(a, b, Chase(l, k, a).fp.rd)
    ensures Chase(l, k, b) == Chase(l, k, a)
    decreases k
  {
    if k > 0 {
      assert l in Chase(l, k, a).fp.rd;
      ChaseLocal(a[l].l, k - 1, a, b);
    }
  }

  lemma LvalueLocal(r: Ref, a: Store, b: Store)
    requires Lvalue(r, a).Lval? && Agree(a, b, Lvalue(r, a).fp.rd)
    ensures Lvalue(r, b) == Lvalue(r, a)
  {
    match r.ix
    case At(n) => ChaseLocal(Loc(r.v, n % Cells(r.v)), r.ind, a, b);
    case By(u, k) =>
      assert Loc(u, 0) in Lvalue(r, a).fp.rd;
      ChaseLocal(Loc(r.v, (a[Loc(u, 0)].n + k) % Cells(r.v)), r.ind, a, b);
  }

  lemma LoadLocal(r: Ref, a: Store, b: Store)
    requires EvalLoad(r, a).Done? && Agree(a, b, EvalLoad(r, a).fp.rd)
    ensures Same(EvalLoad(r, a), EvalLoad(r, b))
  {
    LvalueLocal(r, a, b);
    LvalueFacts(r, a);
    assert Lvalue(r, a).l in EvalLoad(r, a).fp.rd;
  }

  lemma SideLocal(r: Ref, c: Option<nat>, a: Store, b: Store)
    requires LeftSide(r, c, a).Lval? && Agree(a, b, LeftSide(r, c, a).fp.rd)
    ensures LeftSide(r, c, b) == LeftSide(r, c, a) && LeftSide(r, c, a).fp.wr == {}
    ensures var l := LeftSide(r, c, a).l; l in a && l in b && (c.Some? ==> b[l] == a[l])
  {
    LvalueLocal(r, a, b);
    LvalueFacts(r, a);
    if c.Some? { assert Lvalue(r, a).l in LeftSide(r, c, a).fp.rd; }
  }

  lemma StoreLocal(p: Program, r: Ref, c: Option<nat>, x: Value, a: Store, b: Store)
    requires Store1(p, r, c, x, a).Done? && Agree(a, b, Store1(p, r, c, x, a).fp.rd)
    ensures Same(Store1(p, r, c, x, a), Store1(p, r, c, x, b))
  {
    SideLocal(r, c, a, b);
  }

  lemma SameLeave(dead: set<Variable>, r1: Result, r2: Result)
    requires Same(r1, r2)
    ensures Same(Leave(dead, r1), Leave(dead, r2))
  {
  }

  /** A block's declarations are initialised alike whatever else the store holds. */
  lemma AgreeEnter(locals: map<Variable, seq<Init>>, a: Store, b: Store, ls: set<Loc>)
    requires CanEnter(locals, a) && CanEnter(locals, b)
    requires Agree(a, b, Outside(locals.Keys, ls))
    ensures Agree(Enter(locals, a), Enter(locals, b), ls)
  {
  }

  lemma AgreeParams(params: seq<Variable>, vals: seq<Value>, a: Store, b: Store, ls: set<Loc>)
    requires |params| == |vals| && Fresh(params, a)
    requires Agree(a, b, Outside(Elems(params), ls))
    ensures Agree(a + ParamCells(params, vals), b + ParamCells(params, vals), ls)
  {
  }

  ghost predicate SameOps(r1: OpsResult, r2: OpsResult) {
    match r1
    case OpsTimeout(_) => r2 == r1
    case OpsStuck => true
    case OpsDone(vals, st, fp) => r2.OpsDone? && r2.vals == vals && r2.fp == fp && Agree(st, r2.st, fp.wr)
  }

  /** Evaluate the same expression in both stores, and keep track of the cells still to be read. */
  lemma {:induction false} StepLocal(p: Program, e: Expr, a: Store, b: Store, n: nat, o: Order, ls: set<Loc>)
    requires Tidy(a) && Tidy(b) && Agree(a, b, ls)
    requires !Eval(p, e, a, n, o).Stuck? && Agree(a, b, Eval(p, e, a, n, o).fp.rd)
    ensures var x, y := Eval(p, e, a, n, o), Eval(p, e, b, n, o);
            && Same(x, y)
            && (x.Done? ==>
                  && Tidy(x.st) && Tidy(y.st) && Agree(x.st, y.st, ls)
                  && x.out.Val? && FramedStore(a, x.st, x.fp) && FramedStore(b, y.st, y.fp))
    decreases n, e, 2
  {
    EvalLocal(p, e, a, b, n, o);
    EvalFrame(p, e, a, n, o);
    EvalFrame(p, e, b, n, o);
    if Eval(p, e, a, n, o).Done? {
      AgreeNext(a, Eval(p, e, a, n, o).st, b, Eval(p, e, b, n, o).st, Eval(p, e, a, n, o).fp, ls);
    }
  }

  lemma {:induction false} EvalOpsLocal(p: Program, e: Expr, ord: seq<nat>, a: Store, b: Store, n: nat, o: Order)
    requires Tidy(a) && Tidy(b)
    requires forall i :: 0 <= i < |ord| ==> ord[i] < |Args(e)|
    requires !EvalOps(p, e, ord, a, n, o).OpsStuck? && Agree(a, b, EvalOps(p, e, ord, a, n, o).fp.rd)
    ensures SameOps(EvalOps(p, e, ord, a, n, o), EvalOps(p, e, ord, b, n, o))
    decreases n, e, 0, |ord|
  {
    if ord != [] {
      var e0, o0 := Args(e)[ord[0]], Sub(o, ord[0]);
      var x, y := Eval(p, e0, a, n, o0), Eval(p, e0, b, n, o0);
      StepLocal(p, e0, a, b, n, o0, if x.Done? then EvalOps(p, e, ord[1..], x.st, n, o).fp.rd else {});
      if x.Done? {
        EvalOpsLocal(p, e, ord[1..], x.st, y.st, n, o);
        EvalOpsFrame(p, e, ord[1..], x.st, n, o);
        EvalOpsFrame(p, e, ord[1..], y.st, n, o);
      }
    }
  }

  lemma {:induction false} EvalLocal(p: Program, e: Expr, a: Store, b: Store, n: nat, o: Order)
    requires Tidy(a) && Tidy(b)
    requires !Eval(p, e, a, n, o).Stuck? && Agree(a, b, Eval(p, e, a, n, o).fp.rd)
    ensures Same(Eval(p, e, a, n, o), Eval(p, e, b, n, o))
    decreases n, e, 1
  {
    var ra, rb := Eval(p, e, a, n, o), Eval(p, e, b, n, o);
    match e
    case Const(_) =>
    case PtrConst(_, _) =>
    case AddrOf(v, ix) => LvalueLocal(Ref(v, ix, 0), a, b);
    case Load(r) => LoadLocal(r, a, b);
    case Assign(_, _, _) => AssignLocal(p, e, a, b, n, o, ra, rb);
    case Comma(_, _) => CommaLocal(p, e, a, b, n, o, ra, rb);
    case Short(_, _, _) => ShortLocal(p, e, a, b, n, o, ra, rb);
    case Op(_, args) => EvalOpsLocal(p, e, Perm(o, |args|), a, b, n, o);
    case Call(_, _) => CallExprLocal(p, e, a, b, n, o, ra, rb);
  }

  lemma {:induction false} AssignLocal(p: Program, e: Expr, a: Store, b: Store, n: nat, o: Order, ra: Result,
                                       rb: Result)
    requires e.Assign? && Tidy(a) && Tidy(b)
    requires ra == Eval(p, e, a, n, o) && rb == Eval(p, e, b, n, o)
    requires !ra.Stuck? && Agree(a, b, ra.fp.rd)
    ensures Same(ra, rb)
    decreases n, e, 0, 1
  {
    if LeftFirst(o) {
      LeftLocal(p, e, a, b, n, o, ra, rb);
    } else {
      RightLocal(p, e, a, b, n, o, ra, rb);
    }
  }

  lemma {:induction false} LeftLocal(p: Program, e: Expr, a: Store, b: Store, n: nat, o: Order, ra: Result, rb: Result)
    requires e.Assign? && Tidy(a) && Tidy(b) && LeftFirst(o)
    requires ra == Eval(p, e, a, n, o) && rb == Eval(p, e, b, n, o)
    requires !ra.Stuck? && Agree(a, b, ra.fp.rd)
    ensures Same(ra, rb)
    decreases n, e, 0, 0
  {
    SideLocal(e.r, e.compound, a, b);
    var o0 := Sub(o, 0);
    StepLocal(p, e.rhs, a, b, n, o0, {});
  }

  lemma {:induction false} RightLocal(p: Program, e: Expr, a: Store, b: Store, n: nat, o: Order, ra: Result, rb: Result)
    requires e.Assign? && Tidy(a) && Tidy(b) && !LeftFirst(o)
    requires ra == Eval(p, e, a, n, o) && rb == Eval(p, e, b, n, o)
    requires !ra.Stuck? && Agree(a, b, ra.fp.rd)
    ensures Same(ra, rb)
    decreases n, e, 0, 0
  {
    var o0 := Sub(o, 0);
    var x, y := Eval(p, e.rhs, a, n, o0), Eval(p, e.rhs, b, n, o0);
    EvalFrame(p, e.rhs, a, n, o0);
    if x.Timeout? { StepLocal(p, e.rhs, a, b, n, o0, {}); return; }
    var v := x.out.v;
    var x2 := Store1(p, e.r, e.compound, v, x.st);
    StepLocal(p, e.rhs, a, b, n, o0, x2.fp.rd);
    var y2 := Store1(p, e.r, e.compound, v, y.st);
    StoreLocal(p, e.r, e.compound, v, x.st, y.st);
    StoreFrame(p, e.r, e.compound, v, x.st);
    StoreFrame(p, e.r, e.compound, v, y.st);
    SameAfter(x.st, y.st, x.fp, x2, y2);
  }

  lemma {:induction false} CommaLocal(p: Program, e: Expr, a: Store, b: Store, n: nat, o: Order, ra: Result, rb: Result)
    requires e.Comma? && Tidy(a) && Tidy(b)
    requires ra == Eval(p, e, a, n, o) && rb == Eval(p, e, b, n, o)
    requires !ra.Stuck? && Agree(a, b, ra.fp.rd)
    ensures Same(ra, rb)
    decreases n, e, 0
  {
    var o0, o1 := Sub(o, 0), Sub(o, 1);
    var x, y := Eval(p, e.a, a, n, o0), Eval(p, e.a, b, n, o0);
    if x.Timeout? { StepLocal(p, e.a, a, b, n, o0, {}); return; }
    var x2 := Eval(p, e.b, x.st, n, o1);
    StepLocal(p, e.a, a, b, n, o0, x2.fp.rd);
    var y2 := Eval(p, e.b, y.st, n, o1);
    StepLocal(p, e.b, x.st, y.st, n, o1, {});
    SameAfter(x.st, y.st, x.fp, x2, y2);
  }

  lemma {:induction false} CallExprLocal(p: Program, e: Expr, a: Store, b: Store, n: nat, o: Order, ra: Result,
                                         rb: Result)
    requires e.Call? && Tidy(a) && Tidy(b)
    requires ra == Eval(p, e, a, n, o) && rb == Eval(p, e, b, n, o)
    requires !ra.Stuck? && Agree(a, b, ra.fp.rd)
    ensures Same(ra, rb)
    decreases n, e, 0, |e.args| + 1
  {
    var ord := Perm(o, |e.args|);
    var x, y := EvalOps(p, e, ord, a, n, o), EvalOps(p, e, ord, b, n, o);
    EvalOpsFrame(p, e, ord, a, n, o);
    EvalOpsFrame(p, e, ord, b, n, o);
    EvalOpsLocal(p, e, ord, a, b, n, o);
    if x.OpsTimeout? { return; }
    var vals, o1 := Vals(x.vals, |e.args|), Sub(o, |e.args|);
    ValsAnchored(x.vals, |e.args|, x.st);
    var x2, y2 := CallWith(p, e, vals, x.st, n, o1), CallWith(p, e, vals, y.st, n, o1);
    AgreeNext(a, x.st, b, y.st, x.fp, x2.fp.rd);
    CallLocal(p, e, vals, x.st, y.st, n, o1);
    CallFrame(p, e, vals, x.st, n, o1);
    CallFrame(p, e, vals, y.st, n, o1);
    SameAfter(x.st, y.st, x.fp, x2, y2);
  }

  lemma {:induction false} ShortLocal(p: Program, e: Expr, a: Store, b: Store, n: nat, o: Order, ra: Result, rb: Result)
    requires e.Short? && Tidy(a) && Tidy(b)
    requires ra == Eval(p, e, a, n, o) && rb == Eval(p, e, b, n, o)
    requires !ra.Stuck? && Agree(a, b, ra.fp.rd)
    ensures Same(ra, rb)
    decreases n, e, 0
  {
    var o0, o1 := Sub(o, 0), Sub(o, 1);
    var x, y := Eval(p, e.a, a, n, o0), Eval(p, e.a, b, n, o0);
    StepLocal(p, e.a, a, b, n, o0, {});
    if x.Done? && Truthy(x.out.v) == e.isAnd {
      var x2, y2 := Eval(p, e.b, x.st, n, o1), Eval(p, e.b, y.st, n, o1);
      AgreeNext(a, x.st, b, y.st, x.fp, x2.fp.rd);
      StepLocal(p, e.b, x.st, y.st, n, o1, {});
      SameAfter(x.st, y.st, x.fp, x2, y2);
    }
  }

  lemma {:induction false} CallLocal(p: Program, e: Expr, vals: seq<Value>, a: Store, b: Store, n: nat, o: Order)
    requires e.Call? && Tidy(a) && Tidy(b)
    requires forall i :: 0 <= i < |vals| ==> Anchored(vals[i], a) && Anchored(vals[i], b)
    requires !CallWith(p, e, vals, a, n, o).Stuck? && Agree(a, b, CallWith(p, e, vals, a, n, o).fp.rd)
    ensures Same(CallWith(p, e, vals, a, n, o), CallWith(p, e, vals, b, n, o))
    decreases n, e, 0, 0
  {
    hide Invoke, Agree;
    if n > 0 { InvokeLocal(p, p.funcs[e.f], vals, a, b, n - 1, o); }
  }

  lemma {:induction false} InvokeLocal(p: Program, f: Function, vals: seq<Value>, a: Store, b: Store, n: nat, o: Order)
    requires |vals| == |f.params| && Tidy(a) && Tidy(b)
    requires forall i :: 0 <= i < |vals| ==> Anchored(vals[i], a) && Anchored(vals[i], b)
    requires !Invoke(p, f, vals, a, n, o).Stuck? && Agree(a, b, Invoke(p, f, vals, a, n, o).fp.rd)
    ensures Same(Invoke(p, f, vals, a, n, o), Invoke(p, f, vals, b, n, o))
    decreases n, f
  {
    var a1, b1 := a + ParamCells(f.params, vals), b + ParamCells(f.params, vals);
    ParamsAnchored(f.params, vals, a);
    ParamsAnchored(f.params, vals, b);
    var x, y := ExecBlock(p, f.body, a1, n, o), ExecBlock(p, f.body, b1, n, o);
    AgreeParams(f.params, vals, a, b, x.fp.rd);
    ExecBlockLocal(p, f.body, a1, b1, n, o);
    SameLeave(Elems(f.params), x, y);
  }

  lemma {:induction false} ExecBlockLocal(p: Program, b: Block, s1: Store, s2: Store, n: nat, o: Order)
    requires Tidy(s1) && Tidy(s2)
    requires !ExecBlock(p, b, s1, n, o).Stuck? && Agree(s1, s2, ExecBlock(p, b, s1, n, o).fp.rd)
    ensures Same(ExecBlock(p, b, s1, n, o), ExecBlock(p, b, s2, n, o))
    decreases n, b
  {
    assert CanEnter(b.locals, s2);
    var a1, b1 := Enter(b.locals, s1), Enter(b.locals, s2);
    EnterFacts(b.locals, s1);
    EnterFacts(b.locals, s2);
    var x, y := ExecStmts(p, b, 0, a1, n, o), ExecStmts(p, b, 0, b1, n, o);
    AgreeEnter(b.locals, s1, s2, x.fp.rd);
    ExecStmtsLocal(p, b, 0, a1, b1, n, o);
    SameLeave(b.locals.Keys, x, y);
  }

  lemma {:induction false} ExecStmtsLocal(p: Program, b: Block, i: nat, s1: Store, s2: Store, n: nat, o: Order)
    requires i <= |b.stms| && Tidy(s1) && Tidy(s2)
    requires !ExecStmts(p, b, i, s1, n, o).Stuck? && Agree(s1, s2, ExecStmts(p, b, i, s1, n, o).fp.rd)
    ensures Same(ExecStmts(p, b, i, s1, n, o), ExecStmts(p, b, i, s2, n, o))
    decreases n, b, |b.stms| - i
  {
    if i < |b.stms| {
      var o0, o1 := Sub(o, 0), Sub(o, 1);
      var x, y := ExecStmt(p, b.stms[i], s1, n, o0), ExecStmt(p, b.stms[i], s2, n, o0);
      ExecStmtLocal(p, b.stms[i], s1, s2, n, o0);
      if x.Done? && x.out.Fall? {
        var x2, y2 := ExecStmts(p, b, i + 1, x.st, n, o1), ExecStmts(p, b, i + 1, y.st, n, o1);
        ExecStmtFrame(p, b.stms[i], s1, n, o0);
        ExecStmtFrame(p, b.stms[i], s2, n, o0);
        AgreeNext(s1, x.st, s2, y.st, x.fp, x2.fp.rd);
        ExecStmtsLocal(p, b, i + 1, x.st, y.st, n, o1);
        ExecStmtsFrame(p, b, i + 1, x.st, n, o1);
        ExecStmtsFrame(p, b, i + 1, y.st, n, o1);
        SameAfter(x.st, y.st, x.fp, x2, y2);
      }
    }
  }

  lemma {:induction false} ExecStmtLocal(p: Program, s: Stmt, s1: Store, s2: Store, n: nat, o: Order)
    requires Tidy(s1) && Tidy(s2)
    requires !ExecStmt(p, s, s1, n, o).Stuck? && Agree(s1, s2, ExecStmt(p, s, s1, n, o).fp.rd)
    ensures Same(ExecStmt(p, s, s1, n, o), ExecStmt(p, s, s2, n, o))
    decreases n, s
  {
    var ra, rb := ExecStmt(p, s, s1, n, o), ExecStmt(p, s, s2, n, o);
    match s
    case ExprStmt(e) => EvalLocal(p, e, s1, s2, n, Sub(o, 0));
    case Break(t) => EvalLocal(p, t, s1, s2, n, Sub(o, 0));
    case Continue(t) => EvalLocal(p, t, s1, s2, n, Sub(o, 0));
    case Return(e) => EvalLocal(p, e, s1, s2, n, Sub(o, 0));
    case If(_, _, _) => IfLocal(p, s, s1, s2, n, o, ra, rb);
    case For(_, _, _, _, _, _, _) => ForLocal(p, s, s1, s2, n, o, ra, rb);
  }

  lemma {:induction false} IfLocal(p: Program, s: Stmt, s1: Store, s2: Store, n: nat, o: Order, ra: Result, rb: Result)
    requires s.If? && Tidy(s1) && Tidy(s2)
    requires ra == ExecStmt(p, s, s1, n, o) && rb == ExecStmt(p, s, s2, n, o)
    requires !ra.Stuck? && Agree(s1, s2, ra.fp.rd)
    ensures Same(ra, rb)
    decreases n, s, 0
  {
    var o0, o1 := Sub(o, 0), Sub(o, 1);
    var x, y := Eval(p, s.test, s1, n, o0), Eval(p, s.test, s2, n, o0);
    EvalFrame(p, s.test, s1, n, o0);
    if x.Timeout? { StepLocal(p, s.test, s1, s2, n, o0, {}); return; }
    var c := if Truthy(x.out.v) then s.thn else s.els;
    var x2 := ExecBlock(p, c, x.st, n, o1);
    StepLocal(p, s.test, s1, s2, n, o0, x2.fp.rd);
    var y2 := ExecBlock(p, c, y.st, n, o1);
    ExecBlockLocal(p, c, x.st, y.st, n, o1);
    ExecBlockFrame(p, c, x.st, n, o1);
    ExecBlockFrame(p, c, y.st, n, o1);
    SameAfter(x.st, y.st, x.fp, x2, y2);
  }

  lemma {:induction false} ForLocal(p: Program, s: Stmt, s1: Store, s2: Store, n: nat, o: Order, ra: Result, rb: Result)
    requires s.For? && Tidy(s1) && Tidy(s2)
    requires ra == ExecStmt(p, s, s1, n, o) && rb == ExecStmt(p, s, s2, n, o)
    requires !ra.Stuck? && Agree(s1, s2, ra.fp.rd)
    ensures Same(ra, rb)
    decreases n, s, 2
  {
    var l := Loc(s.iv, 0);
    var a1, b1 := s1[l := Int(s.first)], s2[l := Int(s.first)];
    var x, y := ExecLoop(p, s, a1, n, o), ExecLoop(p, s, b1, n, o);
    AgreeNext(s1, a1, s2, b1, WriteFoot(l), x.fp.rd);
    ExecLoopLocal(p, s, a1, b1, n, o);
    ExecLoopFrame(p, s, a1, n, o);
    ExecLoopFrame(p, s, b1, n, o);
    SameAfter(a1, b1, WriteFoot(l), x, y);
  }

  lemma {:induction false} ExecLoopLocal(p: Program, s: Stmt, s1: Store, s2: Store, n: nat, o: Order)
    requires s.For? && Tidy(s1) && Tidy(s2)
    requires !ExecLoop(p, s, s1, n, o).Stuck? && Agree(s1, s2, ExecLoop(p, s, s1, n, o).fp.rd)
    ensures Same(ExecLoop(p, s, s1, n, o), ExecLoop(p, s, s2, n, o))
    decreases n, s, 0
  {
    hide ExecBlock, LoopBack, LoopTest, Tidy;
    var l := Loc(s.iv, 0);
    IterationReads(p, s, s1, n, o);
    assert s2[l] == s1[l];
    if LoopTest(p, s, s1[l]) && n > 0 {
      var x, y := ExecBlock(p, s.body, s1, n, Sub(o, 0)), ExecBlock(p, s.body, s2, n, Sub(o, 0));
      ExecBlockLocal(p, s.body, s1, s2, n, Sub(o, 0));
      if x.Done? && (x.out.Fall? || x.out.Continued?) {
        var fp := Join(ReadFoot(l), x.fp);
        BodyFrames(p, s, s1, s2, n, o, x, y, LoopBack(p, s, fp, x.st, n, o).fp.rd);
        LoopBackLocal(p, s, fp, x.st, y.st, n, o, LoopBack(p, s, fp, x.st, n, o), LoopBack(p, s, fp, y.st, n, o));
      }
    }
  }

  lemma {:induction false} BodyFrames(p: Program, s: Stmt, s1: Store, s2: Store, n: nat, o: Order, x: Result, y: Result,
                                      ls: set<Loc>)
    requires s.For? && Tidy(s1) && Tidy(s2) && Agree(s1, s2, ls)
    requires x == ExecBlock(p, s.body, s1, n, Sub(o, 0)) && y == ExecBlock(p, s.body, s2, n, Sub(o, 0))
    requires x.Done? && Same(x, y)
    ensures Tidy(x.st) && Tidy(y.st) && Agree(x.st, y.st, ls)
  {
    ExecBlockFrame(p, s.body, s1, n, Sub(o, 0));
    ExecBlockFrame(p, s.body, s2, n, Sub(o, 0));
    AgreeNext(s1, x.st, s2, y.st, x.fp, ls);
  }

  /** A loop has read its variable, and all that its first iteration read. */
  lemma {:induction false} IterationReads(p: Program, s: Stmt, st: Store, n: nat, o: Order)
    requires s.For? && !ExecLoop(p, s, st, n, o).Stuck?
    ensures var l, r := Loc(s.iv, 0), ExecLoop(p, s, st, n, o);
            && l in st && l in r.fp.rd
            && (LoopTest(p, s, st[l]) && n > 0 ==>
                  var x := ExecBlock(p, s.body, st, n, Sub(o, 0));
                  && !x.Stuck? && x.fp.rd <= r.fp.rd
                  && (x.Done? && (x.out.Fall? || x.out.Continued?) ==>
                        r == LoopBack(p, s, Join(ReadFoot(l), x.fp), x.st, n, o)))
  {
  }

  lemma {:induction false} LoopBackLocal(p: Program, s: Stmt, fp: Foot, s1: Store, s2: Store, n: nat, o: Order,
                                         ra: Result, rb: Result)
    requires s.For? && n > 0 && Tidy(s1) && Tidy(s2) && Agree(s1, s2, fp.wr)
    requires ra == LoopBack(p, s, fp, s1, n, o) && rb == LoopBack(p, s, fp, s2, n, o)
    requires !ra.Stuck? && Agree(s1, s2, ra.fp.rd)
    ensures Same(ra, rb)
    decreases n - 1, s, 2
  {
    hide ExecLoop, Same, Tidy;
    var l := Loc(s.iv, 0);
    assert l in s1 && l in s2 && l in ra.fp.rd;
    LoopNextLocal(p, s, LoopStep(p, s, s1[l]), fp, s1, s2, n - 1, Sub(o, 1));
  }

  lemma {:induction false} LoopNextLocal(p: Program, s: Stmt, v: Value, fp: Foot, s1: Store, s2: Store, n: nat,
                                         o: Order)
    requires s.For? && Tidy(s1) && Tidy(s2) && v.Int?
    requires Loc(s.iv, 0) in s1 && Loc(s.iv, 0) in s2 && Agree(s1, s2, fp.wr)
    requires !ExecLoop(p, s, s1[Loc(s.iv, 0) := v], n, o).Stuck?
    requires Agree(s1, s2, ExecLoop(p, s, s1[Loc(s.iv, 0) := v], n, o).fp.rd)
    ensures var step := Join(ReadFoot(Loc(s.iv, 0)), WriteFoot(Loc(s.iv, 0)));
            Same(After(Join(fp, step), ExecLoop(p, s, s1[Loc(s.iv, 0) := v], n, o)),
                 After(Join(fp, step), ExecLoop(p, s, s2[Loc(s.iv, 0) := v], n, o)))
    decreases n, s, 1
  {
    var l := Loc(s.iv, 0);
    var a1, b1 := s1[l := v], s2[l := v];
    var step := Join(ReadFoot(l), WriteFoot(l));
    AgreeNext(s1, a1, s2, b1, step, ExecLoop(p, s, a1, n, o).fp.rd);
    ExecLoopLocal(p, s, a1, b1, n, o);
    ExecLoopFrame(p, s, a1, n, o);
    ExecLoopFrame(p, s, b1, n, o);
    SameTail(s1, a1, s2, b1, fp, step, ExecLoop(p, s, a1, n, o), ExecLoop(p, s, b1, n, o));
  }

  lemma SameTail(s1: Store, a1: Store, s2: Store, b1: Store, fp: Foot, step: Foot, x: Result, y: Result)
    requires FramedStore(s1, a1, step) && FramedStore(s2, b1, step)
    requires Agree(s1, s2, fp.wr) && Agree(a1, b1, step.wr)
    requires Framed(a1, x) && Framed(b1, y) && Same(x, y)
    ensures Same(After(Join(fp, step), x), After(Join(fp, step), y))
  {
    AgreeNext(s1, a1, s2, b1, step, fp.wr);
    AgreeBoth(a1, b1, fp.wr, step.wr);
    SameAfter(a1, b1, Join(fp, step), x, y);
  }
}
