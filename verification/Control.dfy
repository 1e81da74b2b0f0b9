/** The syntactic queries about control flow tell the truth about every run. */
module Control {
  import opened Language
  import opened Semantics

  /** A statement that must jump or return is never run to its end. */
  lemma {:induction false} MustJumpNoFall(p: Program, s: Stmt, st: Store, n: nat, o: Order)
    requires StmtMustJump(s)
    ensures var r := ExecStmt(p, s, st, n, o); r.Done? ==> !r.out.Fall?
    decreases s
  {
    match s
    case If(t, a, b) =>
      var x := Eval(p, t, st, n, Sub(o, 0));
      if x.Done? && x.out.Val? {
        var c := if Truthy(x.out.v) then a else b;
        BlockNoFall(p, c, x.st, n, Sub(o, 1));
      }
    case _ =>
  }

  lemma {:induction false} BlockNoFall(p: Program, b: Block, st: Store, n: nat, o: Order)
    requires MustJump(b)
    ensures var r := ExecBlock(p, b, st, n, o); r.Done? ==> !r.out.Fall?
    decreases b, 2
  {
    if CanEnter(b.locals, st) {
      StmtsNoFall(p, b, 0, LastIndex(b, 0), Enter(b.locals, st), n, o);
    }
  }

  lemma {:induction false} StmtsNoFall(p: Program, b: Block, i: nat, j: nat, st: Store, n: nat, o: Order)
    requires i <= j < |b.stms| && StmtMustJump(b.stms[j])
    ensures var r := ExecStmts(p, b, i, st, n, o); r.Done? ==> !r.out.Fall?
    decreases b, 1, j - i
  {
    var r := ExecStmt(p, b.stms[i], st, n, Sub(o, 0));
    if i == j {
      MustJumpNoFall(p, b.stms[i], st, n, Sub(o, 0));
    } else if r.Done? && r.out.Fall? {
      StmtsNoFall(p, b, i + 1, j, r.st, n, Sub(o, 1));
    }
  }

  lemma {:induction false} MustReturnJumps(s: Stmt)
    requires StmtMustReturn(s)
    ensures StmtMustJump(s)
    decreases s
  {
    match s
    case If(_, a, b) =>
      MustReturnJumps(a.stms[LastIndex(a, 0)]);
      MustReturnJumps(b.stms[LastIndex(b, 0)]);
    case _ =>
  }

  /** Control cannot run off the end of a block that must return; of a loop body, it cannot come back at all. */
  lemma MustReturnLeaves(p: Program, b: Block, looping: bool, st: Store, n: nat, o: Order)
    requires MustReturn(b, looping)
    ensures var r := ExecBlock(p, b, st, n, o);
            r.Done? ==> !r.out.Fall? && (looping ==> !r.out.Broke? && !r.out.Continued?)
  {
    MustReturnJumps(b.stms[LastIndex(b, 0)]);
    BlockNoFall(p, b, st, n, o);
    if looping {
      BlockNoJump(p, b, st, n, o, true);
      BlockNoJump(p, b, st, n, o, false);
    }
  }

  lemma {:induction false} BlockNoJump(p: Program, b: Block, st: Store, n: nat, o: Order, isBreak: bool)
    requires !StmtsJump(b, 0, isBreak)
    ensures var r := ExecBlock(p, b, st, n, o); r.Done? ==> !(if isBreak then r.out.Broke? else r.out.Continued?)
    decreases n, b
  {
    if CanEnter(b.locals, st) {
      var inner := Enter(b.locals, st);
      StmtsNoJump(p, b, 0, inner, n, o, isBreak);
      SameJump(b.locals.Keys, ExecStmts(p, b, 0, inner, n, o));
    }
  }

  lemma SameJump(dead: set<Variable>, r: Result)
    ensures var l := Leave(dead, r);
            && l.Done? == r.Done?
            && (r.Done? ==> l.out.Broke? == r.out.Broke? && l.out.Continued? == r.out.Continued?
                            && l.out.Fall? == r.out.Fall?)
  {
  }

  /** A body whose end is not a back edge does not reach it, unless it is empty. */
  lemma NoBackEdge(p: Program, b: Block, st: Store, n: nat, o: Order)
    requires !FromTailToHead(b) && |b.stms| > 0
    ensures var r := ExecBlock(p, b, st, n, o); r.Done? ==> !r.out.Fall?
  {
    BlockNoFall(p, b, st, n, o);
  }

  lemma {:induction false} StmtNoJump(p: Program, s: Stmt, st: Store, n: nat, o: Order, isBreak: bool)
    requires !StmtJumps(s, isBreak)
    ensures var r := ExecStmt(p, s, st, n, o); r.Done? ==> !(if isBreak then r.out.Broke? else r.out.Continued?)
    decreases n, s
  {
    hide Eval, ExecLoop, ExecBlock;
    match s
    case If(t, a, b) =>
      var x := Eval(p, t, st, n, Sub(o, 0));
      if x.Done? && x.out.Val? {
        var c := if Truthy(x.out.v) then a else b;
        BlockNoJump(p, c, x.st, n, Sub(o, 1), isBreak);
      }
    case For(iv, first, _, _, _, _, _) =>
      if Loc(iv, 0) in st {
        LoopNoJump(p, s, st[Loc(iv, 0) := Int(first)], n, o);
      }
    case _ =>
  }

  lemma {:induction false} LoopNoJump(p: Program, s: Stmt, st: Store, n: nat, o: Order)
    requires s.For?
    ensures var r := ExecLoop(p, s, st, n, o); r.Done? ==> !r.out.Broke? && !r.out.Continued?
    decreases n
  {
    hide ExecBlock, LoopTest, LoopStep;
    var l := Loc(s.iv, 0);
    if l in st && LoopTest(p, s, st[l]) && n > 0 {
      var r := ExecBlock(p, s.body, st, n, Sub(o, 0));
      if r.Done? && l in r.st {
        LoopNoJump(p, s, r.st[l := LoopStep(p, s, r.st[l])], n - 1, Sub(o, 1));
      }
    }
  }

  lemma {:induction false} StmtsNoJump(p: Program, b: Block, i: nat, st: Store, n: nat, o: Order, isBreak: bool)
    requires i <= |b.stms| && !StmtsJump(b, i, isBreak)
    ensures var r := ExecStmts(p, b, i, st, n, o); r.Done? ==> !(if isBreak then r.out.Broke? else r.out.Continued?)
    decreases n, b, |b.stms| - i
  {
    if i < |b.stms| {
      StmtNoJump(p, b.stms[i], st, n, Sub(o, 0), isBreak);
      var r := ExecStmt(p, b.stms[i], st, n, Sub(o, 0));
      if r.Done? && r.out.Fall? {
        StmtsNoJump(p, b, i + 1, r.st, n, Sub(o, 1), isBreak);
      }
    }
  }

  // --- what the text of a program shows

  /** Can control run off the end, as far as the text shows?  `jumping` says that a break or continue with a non-zero
    * constant for its test is taken; if not, none is. */
  predicate StmtFalls(s: Stmt, jumping: bool)
    decreases s
  {
    match s
    case Return(_) => false
    case If(_, a, b) => Falls(a, 0, jumping) || Falls(b, 0, jumping)
    case Break(t) => !jumping || !NotZero(t)
    case Continue(t) => !jumping || !NotZero(t)
    case _ => true
  }

  predicate Falls(b: Block, i: nat, jumping: bool)
    requires i <= |b.stms|
    decreases b, |b.stms| - i
  {
    i == |b.stms| || (StmtFalls(b.stms[i], jumping) && Falls(b, i + 1, jumping))
  }

  /** Nothing stands behind a statement that control cannot run off. */
  predicate NothingDead(b: Block, jumping: bool)
    decreases b
  {
    forall i :: 0 <= i < |b.stms| ==>
      && (b.stms[i].If? ==> NothingDead(b.stms[i].thn, jumping) && NothingDead(b.stms[i].els, jumping))
      && (i < |b.stms| - 1 ==> StmtFalls(b.stms[i], jumping))
  }

  /** A run that gets to the end of a block could be told from its text. */
  lemma {:induction false} FallsTrue(p: Program, b: Block, st: Store, n: nat, o: Order)
    requires ExecBlock(p, b, st, n, o).Done? && ExecBlock(p, b, st, n, o).out.Fall?
    ensures Falls(b, 0, true)
    decreases b, |b.stms| + 1
  {
    SameJump(b.locals.Keys, ExecStmts(p, b, 0, Enter(b.locals, st), n, o));
    StmtsFall(p, b, 0, Enter(b.locals, st), n, o);
  }

  lemma {:induction false} StmtsFall(p: Program, b: Block, i: nat, st: Store, n: nat, o: Order)
    requires i <= |b.stms| && ExecStmts(p, b, i, st, n, o).Done? && ExecStmts(p, b, i, st, n, o).out.Fall?
    ensures Falls(b, i, true)
    decreases b, |b.stms| - i
  {
    if i < |b.stms| {
      var r := ExecStmt(p, b.stms[i], st, n, Sub(o, 0));
      StmtsFall(p, b, i + 1, r.st, n, Sub(o, 1));
      match b.stms[i] {
        case If(t, x, y) =>
          var c := Eval(p, t, st, n, Sub(Sub(o, 0), 0));
          FallsTrue(p, if Truthy(c.out.v) then x else y, c.st, n, Sub(Sub(o, 0), 1));
        case Break(t) => TestIsTaken(p, t, st, n, Sub(Sub(o, 0), 0));
        case Continue(t) => TestIsTaken(p, t, st, n, Sub(Sub(o, 0), 0));
        case _ =>
      }
    }
  }

  lemma TestIsTaken(p: Program, t: Expr, st: Store, n: nat, o: Order)
    ensures NotZero(t) ==> var x := Eval(p, t, st, n, o); x.Done? && x.out.Val? && Truthy(x.out.v)
  {
  }

  lemma {:induction false} LastFalls(b: Block, i: nat, jumping: bool)
    requires i < |b.stms| && NothingDead(b, jumping)
    ensures LastIndex(b, i) == |b.stms| - 1 && (Falls(b, i, jumping) <==> StmtFalls(b.stms[|b.stms| - 1], jumping))
    decreases |b.stms| - i
  {
    if i < |b.stms| - 1 {
      assert StmtFalls(b.stms[i], jumping);
      LastFalls(b, i + 1, jumping);
    } else {
      assert Falls(b, i + 1, jumping);
    }
  }

  /** Without dead code, the queries are exact: a block must return if and only if no path through it that takes no
    * break or continue gets to its end; it must jump if and only if no path does; and its tail leads back to its head
    * if and only if it has one and some path does. */
  lemma {:induction false} QueriesExact(b: Block)
    ensures NothingDead(b, false) ==> (MustReturn(b, false) <==> !Falls(b, 0, false))
    ensures NothingDead(b, true) ==> (MustJump(b) <==> !Falls(b, 0, true))
    ensures NothingDead(b, true) ==> (FromTailToHead(b) <==> |b.stms| > 0 && Falls(b, 0, true))
    decreases b
  {
    if |b.stms| > 0 {
      var last := b.stms[|b.stms| - 1];
      if NothingDead(b, false) { LastFalls(b, 0, false); }
      if NothingDead(b, true) { LastFalls(b, 0, true); }
      match last {
        case If(_, x, y) =>
          QueriesExact(x);
          QueriesExact(y);
        case _ =>
      }
    }
  }
}
