/** Two facts about every run, in any evaluation order: it changes nothing outside the cells it reports as written, and
  * what it does depends on nothing but the cells it reports as read. */
module Footprint {
  import opened Language
  import opened Semantics

  /** No pointer in the store refers to an object that is not there. */
  ghost predicate Tidy(st: Store) {
    forall l {:trigger st[l]} :: l in st && st[l].Addr? ==> st[l].l in st
  }

  ghost predicate Anchored(x: Value, st: Store) {
    x.Addr? ==> x.l in st
  }

  ghost predicate OutAnchored(out: Outcome, st: Store) {
    match out
    case Val(v) => Anchored(v, st)
    case Returned(v) => Anchored(v, st)
    case _ => true
  }

  ghost predicate FramedStore(st: Store, st': Store, fp: Foot) {
    && st'.Keys == st.Keys
    && fp.rd <= st.Keys && fp.wr <= st.Keys
    && (forall l :: l in st && l !in fp.wr ==> st'[l] == st[l])
    && Tidy(st')
  }

  ghost predicate Framed(st: Store, r: Result) {
    match r
    case Timeout(fp) => fp.rd <= st.Keys && fp.wr <= st.Keys
    case Stuck => true
    case Done(out, st', fp) => FramedStore(st, st', fp) && OutAnchored(out, st')
  }

  ghost predicate FramedVal(st: Store, r: Result) {
    Framed(st, r) && (r.Done? ==> r.out.Val?)
  }

  // --- frame

  lemma FramedAfter(st: Store, mid: Store, fp: Foot, r: Result)
    requires FramedStore(st, mid, fp) && Framed(mid, r)
    ensures Framed(st, After(fp, r))
  {
  }

  lemma {:induction false} ChaseFacts(l: Loc, k: nat, st: Store)
    ensures var c := Chase(l, k, st); c.Lval? ==> c.l in st && c.fp.rd <= st.Keys && c.fp.wr == {}
    decreases k
  {
    if l in st && k > 0 && st[l].Addr? {
      ChaseFacts(st[l].l, k - 1, st);
    }
  }

  lemma LvalueFacts(r: Ref, st: Store)
    ensures var c := Lvalue(r, st); c.Lval? ==> c.l in st && c.fp.rd <= st.Keys && c.fp.wr == {}
  {
    match r.ix
    case At(n) => ChaseFacts(Loc(r.v, n % Cells(r.v)), r.ind, st);
    case By(u, k) =>
      if Loc(u, 0) in st && st[Loc(u, 0)].Int? {
        ChaseFacts(Loc(r.v, (st[Loc(u, 0)].n + k) % Cells(r.v)), r.ind, st);
      }
  }

  lemma StoreFrame(p: Program, r: Ref, c: Option<nat>, x: Value, st: Store)
    requires Tidy(st) && Anchored(x, st)
    ensures Framed(st, Store1(p, r, c, x, st))
  {
    LvalueFacts(r, st);
  }

  /** Both ways of evaluating an assignment. */
  lemma AssignFrame(p: Program, e: Expr, st: Store, n: nat, o: Order, x: Result)
    requires e.Assign? && Tidy(st) && x == Eval(p, e.rhs, st, n, Sub(o, 0)) && FramedVal(st, x)
    ensures FramedVal(st, Eval(p, e, st, n, o))
  {
    LvalueFacts(e.r, st);
    if x.Done? {
      StoreFrame(p, e.r, e.compound, x.out.v, x.st);
      FramedAfter(st, x.st, x.fp, Store1(p, e.r, e.compound, x.out.v, x.st));
    }
  }

  lemma LeaveFrame(dead: set<Variable>, st: Store, inner: Store, r: Result)
    requires Tidy(st)
    requires forall l :: l in st ==> l.v !in dead
    requires forall l :: l in inner <==> l in st || (l in inner && l.v in dead)
    requires forall l :: l in st ==> l in inner && inner[l] == st[l]
    requires Framed(inner, r)
    ensures Framed(st, Leave(dead, r))
  {
    if r.Done? {
      var k := Kill(dead, r.st);
      forall l
        ensures l in k <==> l in st
      {
        if l in k { assert l in inner; }
      }
      assert k.Keys == st.Keys;
    }
  }

  lemma InCells(vs: set<Variable>, l: Loc)
    ensures l in CellsOf(vs) <==> l.v in vs && l.i < Cells(l.v)
  {
  }

  lemma EnterFacts(locals: map<Variable, seq<Init>>, st: Store)
    requires CanEnter(locals, st) && Tidy(st)
    ensures var inner := Enter(locals, st);
            && Tidy(inner)
            && inner.Keys == st.Keys + CellsOf(locals.Keys)
            && (forall l :: l in st ==> l in inner && inner[l] == st[l])
  {
    hide CellsOf;
    var inner := Enter(locals, st);
    forall l
      ensures l in inner <==> l in st || l in CellsOf(locals.Keys)
      ensures l in inner && l !in st ==> l.v in locals && inner[l] == InitValue(locals[l.v][l.i % |locals[l.v]|])
      ensures l in st ==> inner[l] == st[l]
    {
      InCells(locals.Keys, l);
    }
    forall l | l in inner && inner[l].Addr? && l !in st
      ensures inner[l].l in inner
    {
      assert InitOk(locals[l.v][l.i % |locals[l.v]|], st, locals.Keys);
      InCells(locals.Keys, inner[l].l);
    }
  }

  lemma ParamsAnchored(params: seq<Variable>, vals: seq<Value>, st: Store)
    requires |params| == |vals| && Tidy(st)
    requires forall i :: 0 <= i < |vals| ==> Anchored(vals[i], st)
    requires forall l :: l in st ==> l.v !in params
    ensures var inner := st + ParamCells(params, vals);
            && Tidy(inner)
            && (forall l :: l in inner <==> l in st || (l.i == 0 && l.v in params))
            && (forall l :: l in st ==> inner[l] == st[l])
  {
    ParamValues(params, vals);
  }

  lemma {:induction false} ParamValues(params: seq<Variable>, vals: seq<Value>)
    requires |params| == |vals|
    ensures forall l :: l in ParamCells(params, vals) ==> ParamCells(params, vals)[l] in vals
  {
    if params != [] {
      ParamValues(params[1..], vals[1..]);
    }
  }

  ghost predicate FramedOps(st: Store, r: OpsResult) {
    match r
    case OpsTimeout(fp) => fp.rd <= st.Keys && fp.wr <= st.Keys
    case OpsStuck => true
    case OpsDone(vals, st', fp) => FramedStore(st, st', fp) && forall i :: i in vals ==> Anchored(vals[i], st')
  }

  lemma {:induction false} EvalOpsFrame(p: Program, e: Expr, ord: seq<nat>, st: Store, n: nat, o: Order)
    requires Tidy(st)
    requires forall i :: 0 <= i < |ord| ==> ord[i] < |Args(e)|
    ensures FramedOps(st, EvalOps(p, e, ord, st, n, o))
    decreases n, e, |ord|
  {
    if ord != [] {
      EvalFrame(p, Args(e)[ord[0]], st, n, Sub(o, ord[0]));
      var r := Eval(p, Args(e)[ord[0]], st, n, Sub(o, ord[0]));
      if r.Done? && r.out.Val? {
        EvalOpsFrame(p, e, ord[1..], r.st, n, o);
      }
    }
  }

  lemma ValsAnchored(vals: map<nat, Value>, n: nat, st: Store)
    requires forall i :: i in vals ==> Anchored(vals[i], st)
    ensures forall i :: 0 <= i < n ==> Anchored(Vals(vals, n)[i], st)
  {
  }

  lemma {:induction false} EvalFrame(p: Program, e: Expr, st: Store, n: nat, o: Order)
    requires Tidy(st)
    ensures FramedVal(st, Eval(p, e, st, n, o))
    decreases n, e
  {
    match e
    case Const(_) =>
    case PtrConst(_, _) =>
    case Load(r) => LvalueFacts(r, st);
    case AddrOf(v, ix) => LvalueFacts(Ref(v, ix, 0), st);
    case Assign(_, _, rhs) =>
      EvalFrame(p, rhs, st, n, Sub(o, 0));
      AssignFrame(p, e, st, n, o, Eval(p, rhs, st, n, Sub(o, 0)));
    case Comma(a, b) => ThenFrame(p, e, a, b, st, n, o);
    case Short(_, a, b) => ThenFrame(p, e, a, b, st, n, o);
    case Op(_, args) =>
      EvalOpsFrame(p, e, Perm(o, |args|), st, n, o);
    case Call(_, args) =>
      EvalOpsFrame(p, e, Perm(o, |args|), st, n, o);
      var ops := EvalOps(p, e, Perm(o, |args|), st, n, o);
      if ops.OpsDone? {
        ValsAnchored(ops.vals, |args|, ops.st);
        CallFrame(p, e, Vals(ops.vals, |args|), ops.st, n, Sub(o, |args|));
      }
  }

  lemma {:induction false} ThenFrame(p: Program, e: Expr, a: Expr, b: Expr, st: Store, n: nat, o: Order)
    requires a < e && b < e && (e == Comma(a, b) || (e.Short? && e.a == a && e.b == b)) && Tidy(st)
    ensures FramedVal(st, Eval(p, e, st, n, o))
    decreases n, e, 0
  {
    EvalFrame(p, a, st, n, Sub(o, 0));
    var x := Eval(p, a, st, n, Sub(o, 0));
    if x.Done? {
      EvalFrame(p, b, x.st, n, Sub(o, 1));
      FramedAfter(st, x.st, x.fp, Eval(p, b, x.st, n, Sub(o, 1)));
    }
  }

  lemma {:induction false} CallFrame(p: Program, e: Expr, vals: seq<Value>, st: Store, n: nat, o: Order)
    requires e.Call? && Tidy(st)
    requires forall i :: 0 <= i < |vals| ==> Anchored(vals[i], st)
    ensures FramedVal(st, CallWith(p, e, vals, st, n, o))
    decreases n, e, 0
  {
    hide Invoke;
    var r := CallWith(p, e, vals, st, n, o);
    if n > 0 && e.f < |p.funcs| && |p.funcs[e.f].params| == |vals| {
      InvokeFrame(p, p.funcs[e.f], vals, st, n - 1, o);
      assert r == Invoke(p, p.funcs[e.f], vals, st, n - 1, o);
    } else {
      assert !r.Done?;
    }
  }

  lemma {:induction false} InvokeFrame(p: Program, f: Function, vals: seq<Value>, st: Store, n: nat, o: Order)
    requires |vals| == |f.params| && Tidy(st)
    requires forall i :: 0 <= i < |vals| ==> Anchored(vals[i], st)
    ensures FramedVal(st, Invoke(p, f, vals, st, n, o))
    decreases n, f
  {
    hide ExecBlock, ParamCells, Tidy;
    if Fresh(f.params, st) {
      ParamsAnchored(f.params, vals, st);
      var inner := st + ParamCells(f.params, vals);
      ExecBlockFrame(p, f.body, inner, n, o);
      LeaveFrame(Elems(f.params), st, inner, ExecBlock(p, f.body, inner, n, o));
    }
  }

  lemma {:induction false} ExecBlockFrame(p: Program, b: Block, st: Store, n: nat, o: Order)
    requires Tidy(st)
    ensures Framed(st, ExecBlock(p, b, st, n, o))
    ensures ExecBlock(p, b, st, n, o).Done? ==> !ExecBlock(p, b, st, n, o).out.Val?
    decreases n, b
  {
    hide Tidy, FramedStore, Enter, ExecStmts;
    if CanEnter(b.locals, st) {
      var inner := Enter(b.locals, st);
      EnterFacts(b.locals, st);
      ExecStmtsFrame(p, b, 0, inner, n, o);
      ScopeFrame(b.locals, st, ExecStmts(p, b, 0, inner, n, o));
    }
  }

  lemma ScopeFrame(locals: map<Variable, seq<Init>>, st: Store, r: Result)
    requires CanEnter(locals, st) && Tidy(st) && Framed(Enter(locals, st), r)
    ensures Framed(st, Leave(locals.Keys, r))
  {
    hide Tidy, Enter, Framed;
    EnterFacts(locals, st);
    LeaveFrame(locals.Keys, st, Enter(locals, st), r);
  }

  lemma {:induction false} ExecStmtsFrame(p: Program, b: Block, i: nat, st: Store, n: nat, o: Order)
    requires i <= |b.stms| && Tidy(st)
    ensures Framed(st, ExecStmts(p, b, i, st, n, o))
    ensures ExecStmts(p, b, i, st, n, o).Done? ==> !ExecStmts(p, b, i, st, n, o).out.Val?
    decreases n, b, |b.stms| - i
  {
    if i < |b.stms| {
      ExecStmtFrame(p, b.stms[i], st, n, Sub(o, 0));
      var r := ExecStmt(p, b.stms[i], st, n, Sub(o, 0));
      if r.Done? && r.out.Fall? {
        ExecStmtsFrame(p, b, i + 1, r.st, n, Sub(o, 1));
        FramedAfter(st, r.st, r.fp, ExecStmts(p, b, i + 1, r.st, n, Sub(o, 1)));
      }
    }
  }

  lemma {:induction false} ExecStmtFrame(p: Program, s: Stmt, st: Store, n: nat, o: Order)
    requires Tidy(st)
    ensures Framed(st, ExecStmt(p, s, st, n, o))
    ensures ExecStmt(p, s, st, n, o).Done? ==> !ExecStmt(p, s, st, n, o).out.Val?
    decreases n, s
  {
    match s
    case ExprStmt(e) => EvalFrame(p, e, st, n, Sub(o, 0));
    case If(t, a, b) =>
      EvalFrame(p, t, st, n, Sub(o, 0));
      var x := Eval(p, t, st, n, Sub(o, 0));
      if x.Done? {
        var c := if Truthy(x.out.v) then a else b;
        ExecBlockFrame(p, c, x.st, n, Sub(o, 1));
        FramedAfter(st, x.st, x.fp, ExecBlock(p, c, x.st, n, Sub(o, 1)));
      }
    case For(iv, first, _, _, _, _, _) =>
      var l := Loc(iv, 0);
      if l in st {
        ExecLoopFrame(p, s, st[l := Int(first)], n, o);
        FramedAfter(st, st[l := Int(first)], WriteFoot(l), ExecLoop(p, s, st[l := Int(first)], n, o));
      }
    case Break(t) => EvalFrame(p, t, st, n, Sub(o, 0));
    case Continue(t) => EvalFrame(p, t, st, n, Sub(o, 0));
    case Return(e) => EvalFrame(p, e, st, n, Sub(o, 0));
  }

  lemma {:induction false} ExecLoopFrame(p: Program, s: Stmt, st: Store, n: nat, o: Order)
    requires s.For? && Tidy(st)
    ensures Framed(st, ExecLoop(p, s, st, n, o))
    ensures ExecLoop(p, s, st, n, o).Done? ==> !ExecLoop(p, s, st, n, o).out.Val?
    decreases n, s, 0
  {
    hide ExecBlock, LoopBack, LoopTest;
    var l := Loc(s.iv, 0);
    if l in st && LoopTest(p, s, st[l]) && n > 0 {
      ExecBlockFrame(p, s.body, st, n, Sub(o, 0));
      var r := ExecBlock(p, s.body, st, n, Sub(o, 0));
      if r.Done? && (r.out.Fall? || r.out.Continued?) {
        LoopBackFrame(p, s, st, Join(ReadFoot(l), r.fp), r.st, n, o);
      }
    }
  }

  lemma {:induction false} LoopBackFrame(p: Program, s: Stmt, st0: Store, fp: Foot, st: Store, n: nat, o: Order)
    requires s.For? && n > 0 && Tidy(st) && FramedStore(st0, st, fp)
    ensures Framed(st0, LoopBack(p, s, fp, st, n, o))
    ensures LoopBack(p, s, fp, st, n, o).Done? ==> !LoopBack(p, s, fp, st, n, o).out.Val?
    decreases n - 1, s, 1
  {
    var l := Loc(s.iv, 0);
    if l in st {
      var st1 := st[l := LoopStep(p, s, st[l])];
      ExecLoopFrame(p, s, st1, n - 1, Sub(o, 1));
      FramedAfter(st0, st1, Join(fp, Join(ReadFoot(l), WriteFoot(l))), ExecLoop(p, s, st1, n - 1, Sub(o, 1)));
    }
  }
}
