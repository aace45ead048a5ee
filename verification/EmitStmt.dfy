/** Emitting an assembled statement appends exactly the code of its tree, and leaves its breaks
    and returns pending where the enclosing loop and the end of the function will patch them. */
module EmitStmt {
  import opened Basics
  import opened Words
  import opened Syntax
  import opened Machine
  import opened StackIr
  import opened Emitter
  import opened Fragments
  import opened EmitExpr

  // ----- the code of a statement -----

  function StoreCode(fr: Frame, x: string, e: Expr): seq<Instr> {
    [Mov(M(Local(fr, x)), Op(fr.size, ItemOf(fr, e, 0)))]
  }

  function StoreArithCode(fr: Frame, op: BinOp, x: string, e: Expr): seq<Instr> {
    var place, item := LValue(Local(fr, x)), ItemOf(fr, e, 0);
    if Wide(op) then WideCode(fr.size, op, place, place, item)
    else [Alu(op, M(Local(fr, x)), Op(fr.size, item))]
  }

  function LoopHead(fr: Frame, c: Option<Expr>): seq<Instr> {
    if c.Some? then BranchHead(fr, c.value, 0) else TestCode(fr, Literal(1))
  }

  function ReturnCode(fr: Frame, v: Option<Expr>): seq<Instr> {
    if v.Some? then Code(fr, v.value, 0) + [Mov(R(RAX), Op(fr.size, ItemOf(fr, v.value, 0)))]
    else [Mov(R(RAX), Imm(0))]
  }

  function BranchCells(head: seq<Instr>, x: Fragment, y: Fragment): Fragment {
    Lift(head) + [I(Go(IfZero, |x| + 1))] + x + [I(Go(Always, |y|))] + y
  }

  function LoopCells(head: seq<Instr>, x: Fragment): Fragment {
    Lift(head) + [I(Go(IfZero, |x| + 2))] + x + [I(Go(Always, -(|head| + |x| + 2)))] + [I(Go(Always, 0))]
  }

  function StmtCode(fr: Frame, s: Stmt): Fragment {
    match s
    case Eval(e) => Lift(Code(fr, e, 0))
    case Assign(x, e) => Lift(Code(fr, e, 0) + StoreCode(fr, x, e))
    case OpAssign(op, x, e) => Lift(Code(fr, e, 0) + StoreArithCode(fr, op, x, e))
    case Declare(_) => []
    case List(ss) => AllCode(fr, ss)
    case Scope(ss) => AllCode(fr, ss)
    case Branch(c, t, f) =>
      BranchCells(BranchHead(fr, c, 0), StmtCode(fr, t), if f.Some? then StmtCode(fr, f.value) else [])
    case Loop(c, b) =>
      var cells := LoopCells(LoopHead(fr, c), StmtCode(fr, b));
      Bind(cells, Brk, |cells|)
    case Break => [J(Always, Brk)]
    case Return(v) => Lift(ReturnCode(fr, v)) + [J(Always, Exit)]
  }

  function AllCode(fr: Frame, ss: seq<Stmt>): Fragment {
    if ss == [] then [] else StmtCode(fr, ss[0]) + AllCode(fr, ss[1..])
  }

  /** The statement forms whose assembly is balanced: a break outside every loop, a comparison
      as an assigning operator, and a loop over a bare expression or assignment are not. */
  predicate Balanced(s: Stmt, inLoop: bool) {
    match s
    case OpAssign(op, _, _) => Simple(op) || Wide(op)
    case List(ss) => AllBalanced(ss, inLoop)
    case Scope(ss) => AllBalanced(ss, inLoop)
    case Branch(_, t, f) => Balanced(t, inLoop) && (f.Some? ==> Balanced(f.value, inLoop))
    case Loop(_, b) => !LeavesItem(b) && Balanced(b, true)
    case Break => inLoop
    case _ => true
  }

  predicate AllBalanced(ss: seq<Stmt>, inLoop: bool) {
    ss == [] || (Balanced(ss[0], inLoop) && AllBalanced(ss[1..], inLoop))
  }

  // ----- the emitter's state around a statement -----

  /** The innermost branch has gained the breaks of f, in some order. */
  ghost predicate GainsBreaks(st: Em, f: Fragment, st': Em) {
    && |st'.branches| == |st.branches|
    && (if st.branches == [] then Pending(f, Brk, |st.code|) == []
        else
          && st'.branches[..|st.branches| - 1] == st.branches[..|st.branches| - 1]
          && Branching(st') == Branching(st).(ends := Branching(st').ends)
          && SamePositions(Branching(st').ends, Branching(st).ends + Pending(f, Brk, |st.code|)))
  }

  ghost predicate AfterStmt(st: Em, f: Fragment, st': Em) {
    && st' == st.(code := st.code + Raw(f), branches := st'.branches,
                  exits := st.exits + Pending(f, Exit, |st.code|))
    && GainsBreaks(st, f, st')
  }

  lemma SameJoin(a: seq<int>, b: seq<int>, c: seq<int>, x: seq<int>, y: seq<int>)
    requires SamePositions(b, a + x) && SamePositions(c, b + y)
    ensures SamePositions(c, a + (x + y))
  {
    forall p
      ensures p in c <==> p in a + (x + y)
    {
      assert p in b + y <==> p in b || p in y;
      assert p in a + x <==> p in a || p in x;
      assert p in a + (x + y) <==> p in a || p in x + y;
      assert p in x + y <==> p in x || p in y;
    }
  }

  lemma AfterJoin(st: Em, f: Fragment, st1: Em, g: Fragment, st2: Em)
    requires AfterStmt(st, f, st1) && AfterStmt(st1, g, st2)
    ensures AfterStmt(st, f + g, st2)
  {
    RawAppend(f, g);
    Assoc(st.code, Raw(f), Raw(g));
    var base := |st.code|;
    PendingAppend(f, g, Exit, base);
    PendingAppend(f, g, Brk, base);
    Assoc(st.exits, Pending(f, Exit, base), Pending(g, Exit, base + |f|));
    if st.branches != [] {
      SameJoin(Branching(st).ends, Branching(st1).ends, Branching(st2).ends, Pending(f, Brk, base),
               Pending(g, Brk, base + |f|));
    }
  }

  lemma AfterPlain(st: Em, c: seq<Instr>)
    ensures AfterStmt(st, Lift(c), Emit(st, c))
  {
    RawLift(c);
    PendingLift(c, Exit, |st.code|);
    PendingLift(c, Brk, |st.code|);
    NoMore(st.exits);
    if st.branches != [] {
      NoMore(Branching(st).ends);
      SameSelf(Branching(st).ends);
    }
  }

  lemma PendingOne(j: Jump, lab: Label, other: Label, base: int)
    ensures Pending([J(j, lab)], other, base) == if lab == other then [base + 1] else []
  {
    var f := [J(j, lab)];
    assert f[..0] == [];
  }

  lemma AfterBreak(st: Em)
    requires st.branches != []
    ensures AfterStmt(st, [J(Always, Brk)], Next(st, GotoEnd))
  {
    PendingOne(Always, Brk, Brk, |st.code|);
    PendingOne(Always, Brk, Exit, |st.code|);
    NoMore(st.exits);
    assert Raw([J(Always, Brk)]) == [Go(Always, 0)];
    SameSelf(Branching(st).ends + [|st.code| + 1]);
  }

  // ----- labels inside a statement's code -----

  lemma {:induction false} BindPending(f: Fragment, lab: Label, t: int, other: Label, base: int)
    ensures Pending(Bind(f, lab, t), other, base) == if lab == other then [] else Pending(f, other, base)
    decreases |f|
  {
    if f == [] {
    } else {
      var n := |f| - 1;
      assert Bind(f, lab, t)[..n] == Bind(f[..n], lab, t);
      BindPending(f[..n], lab, t, other, base);
    }
  }

  lemma PendingBranch(head: seq<Instr>, x: Fragment, y: Fragment, lab: Label, base: int, bx: int, bz: int)
    requires bx == base + |head| + 1 && bz == bx + |x| + 1
    ensures Pending(BranchCells(head, x, y), lab, base) == Pending(x, lab, bx) + Pending(y, lab, bz)
  {
    var i, j := [I(Go(IfZero, |x| + 1))], [I(Go(Always, |y|))];
    PendingLift(head, lab, base);
    PendingPlain(I(Go(IfZero, |x| + 1)), lab, base + |head|);
    PendingPlain(I(Go(Always, |y|)), lab, base + |head| + 1 + |x|);
    PendingAppend(Lift(head), i, lab, base);
    PendingAppend(Lift(head) + i, x, lab, base);
    PendingAppend(Lift(head) + i + x, j, lab, base);
    PendingAppend(Lift(head) + i + x + j, y, lab, base);
    NoMore(Pending(x, lab, bx));
  }

  lemma PendingLoop(head: seq<Instr>, x: Fragment, lab: Label, base: int, bx: int)
    requires bx == base + |head| + 1
    ensures Pending(LoopCells(head, x), lab, base) == Pending(x, lab, bx)
  {
    var i, j, k := I(Go(IfZero, |x| + 2)), I(Go(Always, -(|head| + |x| + 2))), I(Go(Always, 0));
    PendingLift(head, lab, base);
    PendingPlain(i, lab, base + |head|);
    PendingPlain(j, lab, base + |head| + 1 + |x|);
    PendingPlain(k, lab, base + |head| + 2 + |x|);
    PendingAppend(Lift(head), [i], lab, base);
    PendingAppend(Lift(head) + [i], x, lab, base);
    PendingAppend(Lift(head) + [i] + x, [j], lab, base);
    PendingAppend(Lift(head) + [i] + x + [j], [k], lab, base);
    NoMore(Pending(x, lab, bx));
  }

  lemma PendingNone(lab: Label, base: int)
    ensures Pending([], lab, base) == []
  {
  }

  lemma PendingPlain(c: Cell, lab: Label, base: int)
    requires c.I?
    ensures Pending([c], lab, base) == []
  {
    assert [c][..0] == [];
  }

  /** Outside loops a balanced statement leaves no break pending. */
  lemma {:induction false} NoBreaks(fr: Frame, s: Stmt, base: int)
    requires Balanced(s, false)
    ensures Pending(StmtCode(fr, s), Brk, base) == []
    decreases s
  {
    hide Pending, Code, BranchHead, LoopHead, ReturnCode, StoreCode, StoreArithCode, BranchCells, LoopCells, Bind,
      Lift, AllCode, AllBalanced;
    match s
    case Eval(e) => PendingLift(Code(fr, e, 0), Brk, base);
    case Assign(x, e) => PendingLift(Code(fr, e, 0) + StoreCode(fr, x, e), Brk, base);
    case OpAssign(op, x, e) => PendingLift(Code(fr, e, 0) + StoreArithCode(fr, op, x, e), Brk, base);
    case Declare(_) => PendingNone(Brk, base);
    case List(ss) => NoBreaksAll(fr, ss, base);
    case Scope(ss) => NoBreaksAll(fr, ss, base);
    case Branch(c, t, f) =>
      var head, x := BranchHead(fr, c, 0), StmtCode(fr, t);
      var y: Fragment := if f.Some? then StmtCode(fr, f.value) else [];
      PendingBranch(head, x, y, Brk, base, base + |head| + 1, base + |head| + |x| + 2);
      NoBreaks(fr, t, base + |head| + 1);
      if f.Some? {
        NoBreaks(fr, f.value, base + |head| + |x| + 2);
      } else {
        PendingNone(Brk, base + |head| + |x| + 2);
      }
    case Loop(c, b) =>
      var cells := LoopCells(LoopHead(fr, c), StmtCode(fr, b));
      BindPending(cells, Brk, |cells|, Brk, base);
    case Return(v) =>
      var c := ReturnCode(fr, v);
      PendingLift(c, Brk, base);
      PendingOne(Always, Exit, Brk, base + |c|);
      PendingAppend(Lift(c), [J(Always, Exit)], Brk, base);
  }

  lemma {:induction false} NoBreaksAll(fr: Frame, ss: seq<Stmt>, base: int)
    requires AllBalanced(ss, false)
    ensures Pending(AllCode(fr, ss), Brk, base) == []
    decreases ss
  {
    if ss == [] {
    } else {
      hide StmtCode, Balanced;
      NoBreaks(fr, ss[0], base);
      NoBreaksAll(fr, ss[1..], base + |StmtCode(fr, ss[0])|);
      PendingAppend(StmtCode(fr, ss[0]), AllCode(fr, ss[1..]), Brk, base);
    }
  }

  // ----- emission -----

  /** Assembling a statement, popping its item if it leaves one, ends in the state st'. */
  ghost predicate EmitsStmt(fr: Frame, s: Stmt, st: Em, st': Em) {
    Emits(st, AssembleStmt(s, fr.vars) + Popped(s), st') && AfterStmt(st, StmtCode(fr, s), st')
  }

  lemma StayCanon(st: Em, f: Fragment, st': Em, fr: Frame)
    requires AfterStmt(st, f, st') && Canon(st, fr, 0)
    ensures Canon(st', fr, 0) && (st.branches != [] ==> st'.branches != [])
  {
  }

  lemma EmitEval(fr: Frame, e: Expr, st: Em) returns (st': Em)
    requires Canon(st, fr, 0)
    ensures EmitsStmt(fr, Eval(e), st, st')
  {
    hide Code, ItemOf, Assemble, EmitAll, Enabled, Next;
    var c, item := Code(fr, e, 0), ItemOf(fr, e, 0);
    EmitClosed(fr, e, 0, st, None);
    ItemRegister(fr, e, 0);
    PopStep(fr, 0, st, c, item);
    Then1(st, Assemble(e, fr.vars, None), After(st, c, item), Pop);
    AfterPlain(st, c);
    st' := Emit(st, c);
  }

  /** A variable and then an expression on the stack. */
  lemma EmitPlace(fr: Frame, x: string, e: Expr, st: Em) returns (st2: Em)
    requires Canon(st, fr, 0)
    ensures Emits(st, [LStack(OffsetOf(fr.vars, x))] + Assemble(e, fr.vars, None), st2)
    ensures |st2.stack| > 1 && st2.frame == fr.size
    ensures Top(st2) == ItemOf(fr, e, 0) && Second(st2) == LValue(Local(fr, x))
    ensures PopItem(st2) == Emit(Push(st, LValue(Local(fr, x))), Code(fr, e, 0))
  {
    hide Code, ItemOf, Assemble, EmitAll;
    var place, c, item := LValue(Local(fr, x)), Code(fr, e, 0), ItemOf(fr, e, 0);
    var st1 := Push(st, place);
    EmitLeaf(st, LStack(OffsetOf(fr.vars, x)), place);
    NoMore(st.code);
    EmitClosed(fr, e, 0, st1, None);
    ItemRegister(fr, e, 0);
    st2 := After(st1, c, item);
    PopAfter(st1, fr, 0, c, item);
    ThenAll(st, [LStack(OffsetOf(fr.vars, x))], st1, Assemble(e, fr.vars, None), st2);
    assert st2.stack == st.stack + [place] + [item];
  }

  /** A store leaves the variable on the stack, which is then popped. */
  lemma StorePopped(fr: Frame, st: Em, place: Item, c: seq<Instr>, d: seq<Instr>)
    requires place.LValue?
    ensures var st' := Emit(Emit(Push(st, place), c), d);
      Enabled(st', Pop) && Next(st', Pop) == Emit(st, c + d)
  {
    Assoc(st.code, c, d);
    assert (st.stack + [place])[..|st.stack|] == st.stack;
  }

  lemma EmitAssign(fr: Frame, x: string, e: Expr, st: Em) returns (st': Em)
    requires Canon(st, fr, 0)
    ensures EmitsStmt(fr, Assign(x, e), st, st')
  {
    hide Code, ItemOf, Assemble, EmitAll;
    var place, c, d := LValue(Local(fr, x)), Code(fr, e, 0), StoreCode(fr, x, e);
    var irs := [LStack(OffsetOf(fr.vars, x))] + Assemble(e, fr.vars, None);
    var st2 := EmitPlace(fr, x, e, st);
    Then1(st, irs, st2, StoreTop);
    StorePopped(fr, st, place, c, d);
    Then1(st, irs + [StoreTop], Next(st2, StoreTop), Pop);
    AfterPlain(st, c + d);
    st' := Emit(st, c + d);
  }

  lemma EmitOpAssign(fr: Frame, op: BinOp, x: string, e: Expr, st: Em) returns (st': Em)
    requires Canon(st, fr, 0) && (Simple(op) || Wide(op))
    ensures EmitsStmt(fr, OpAssign(op, x, e), st, st')
  {
    hide Code, ItemOf, Assemble, EmitAll;
    var place, c, d := LValue(Local(fr, x)), Code(fr, e, 0), StoreArithCode(fr, op, x, e);
    var irs := [LStack(OffsetOf(fr.vars, x))] + Assemble(e, fr.vars, None);
    var st2 := EmitPlace(fr, x, e, st);
    Then1(st, irs, st2, StoreArith(op));
    assert Next(st2, StoreArith(op)) == Emit(PopItem(st2), d);
    StorePopped(fr, st, place, c, d);
    Then1(st, irs + [StoreArith(op)], Next(st2, StoreArith(op)), Pop);
    AfterPlain(st, c + d);
    st' := Emit(st, c + d);
  }

  lemma AfterReturn(st: Em, c: seq<Instr>, st': Em)
    requires st' == st.(code := st.code + c + [Go(Always, 0)], exits := st.exits + [|st.code| + |c| + 1])
    ensures AfterStmt(st, Lift(c) + [J(Always, Exit)], st')
  {
    var st1 := Emit(st, c);
    AfterPlain(st, c);
    PendingOne(Always, Exit, Exit, |st1.code|);
    PendingOne(Always, Exit, Brk, |st1.code|);
    assert Raw([J(Always, Exit)]) == [Go(Always, 0)];
    if st.branches != [] {
      NoMore(Branching(st).ends);
      SameSelf(Branching(st).ends);
    }
    assert AfterStmt(st1, [J(Always, Exit)], st');
    AfterJoin(st, Lift(c), st1, [J(Always, Exit)], st');
  }

  lemma RetStep(fr: Frame, st: Em, c: seq<Instr>, item: Item)
    requires Canon(st, fr, 0) && (item.RValue? ==> item == RV(0))
    ensures Enabled(After(st, c, item), Ret)
    ensures var d := c + [Mov(R(RAX), Op(fr.size, item))];
      Next(After(st, c, item), Ret)
      == st.(code := st.code + d + [Go(Always, 0)], exits := st.exits + [|st.code| + |d| + 1])
  {
    PopAfter(st, fr, 0, c, item);
    var i := Mov(R(RAX), Op(fr.size, item));
    assert st.code + c + [i, Go(Always, 0)] == st.code + (c + [i]) + [Go(Always, 0)];
  }

  lemma EmitReturn(fr: Frame, v: Option<Expr>, st: Em) returns (st': Em)
    requires Canon(st, fr, 0)
    ensures EmitsStmt(fr, Return(v), st, st')
  {
    hide Code, ItemOf, Assemble, EmitAll;
    var irs := if v.Some? then Assemble(v.value, fr.vars, None) else [PushI(0)];
    var c := if v.Some? then Code(fr, v.value, 0) else [];
    var item := if v.Some? then ItemOf(fr, v.value, 0) else Literal(0);
    if v.Some? {
      EmitClosed(fr, v.value, 0, st, None);
      ItemRegister(fr, v.value, 0);
    } else {
      EmitLeaf(st, PushI(0), Literal(0));
    }
    RetStep(fr, st, c, item);
    Then1(st, irs, After(st, c, item), Ret);
    st' := Next(After(st, c, item), Ret);
    assert ReturnCode(fr, v) == c + [Mov(R(RAX), Op(fr.size, item))];
    AfterReturn(st, ReturnCode(fr, v), st');
    NoMore(irs + [Ret]);
  }

  // ----- branches and loops -----

  lemma {:induction false} ReverseSame(s: seq<int>)
    ensures SamePositions(Reverse(s), s)
    decreases |s|
  {
    if s == [] {
    } else {
      var n := |s| - 1;
      ReverseSame(s[..n]);
      assert s == s[..n] + [s[n]];
    }
  }

  lemma EmptySame(ps: seq<int>, qs: seq<int>)
    requires SamePositions(ps, qs)
    ensures ps == [] <==> qs == []
  {
    if ps != [] {
      var p := ps[0];
      assert p in ps;
      assert p in qs;
    }
    if qs != [] {
      var q := qs[0];
      assert q in qs;
      assert q in ps;
    }
  }

  lemma SameAppend(a: seq<int>, b: seq<int>, c: seq<int>)
    requires SamePositions(b, c)
    ensures SamePositions(a + b, a + c)
  {
    forall p
      ensures p in a + b <==> p in a + c
    {
      assert p in a + b <==> p in a || p in b;
      assert p in a + c <==> p in a || p in c;
    }
  }

  lemma SameTwice(a: seq<int>, b: seq<int>, c: seq<int>)
    requires SamePositions(a, b) && SamePositions(b, c)
    ensures SamePositions(a, c)
  {
  }

  /** When an if ends, its pending breaks move to the enclosing branch. */
  lemma HandOver(st: Em, st5: Em, f: Fragment, code: seq<Instr>)
    requires |st5.branches| == |st.branches| + 1 && st5.branches[..|st.branches|] == st.branches
    requires !Branching(st5).loop && SamePositions(Branching(st5).ends, Pending(f, Brk, |st.code|))
    requires st.branches == [] ==> Pending(f, Brk, |st.code|) == []
    ensures var st6 := st5.(code := code);
      && (Branching(st6).ends == [] || |st6.branches| > 1)
      && PopBranch(st6) == st5.(code := code, branches := PopBranch(st6).branches)
      && GainsBreaks(st, f, PopBranch(st6))
  {
    var ends, qs := Branching(st5).ends, Pending(f, Brk, |st.code|);
    EmptySame(ends, qs);
    if ends == [] {
      if st.branches != [] {
        NoMore(Branching(st).ends);
        SameSelf(Branching(st).ends);
      }
    } else {
      ReverseSame(ends);
      SameTwice(Reverse(ends), ends, qs);
      SameAppend(Branching(st).ends, Reverse(ends), qs);
    }
  }

  lemma RawBranch(head: seq<Instr>, x: Fragment, y: Fragment)
    ensures Raw(BranchCells(head, x, y)) == head + [Go(IfZero, |x| + 1)] + Raw(x) + [Go(Always, |y|)] + Raw(y)
  {
  }

  lemma RawLoop(head: seq<Instr>, x: Fragment)
    ensures Raw(LoopCells(head, x))
      == head + [Go(IfZero, |x| + 2)] + Raw(x) + [Go(Always, -(|head| + |x| + 2))] + [Go(Always, 0)]
  {
  }

  /** st2 is the state behind a conditional jump that follows the code head. */
  predicate HeadDone(st: Em, head: seq<Instr>, loop: bool, st2: Em) {
    && |st2.branches| == |st.branches| + 1 && st2.branches[..|st.branches|] == st.branches
    && Branching(st2) == Mark(if loop then Some(|st.code|) else None, |st.code| + |head| + 1, [], loop)
    && |st2.code| == |st.code| + |head| + 1
    && st2 == st.(code := st.code + head + [Go(IfZero, 0)], branches := st2.branches)
  }

  lemma HeadState(st: Em, head: seq<Instr>, loop: bool)
    ensures HeadDone(st, head, loop, Marked(Next(st, If(loop)), head + [Go(IfZero, 0)]))
  {
    Assoc(st.code, head, [Go(IfZero, 0)]);
  }

  /** st4 is the state behind the jump over the else-part, with the conditional jump patched. */
  predicate ElseDone(st: Em, head: seq<Instr>, x: Fragment, st3: Em, st4: Em) {
    && |st3.branches| > 0
    && st4 == SetJump(st3.(code := st.code + head + [Go(IfZero, |x| + 1)] + Raw(x) + [Go(Always, 0)]))
  }

  lemma ElseState(st: Em, head: seq<Instr>, st2: Em, x: Fragment, st3: Em)
    requires HeadDone(st, head, false, st2) && AfterStmt(st2, x, st3)
    ensures Enabled(st3, Else) && ElseDone(st, head, x, st3, Next(st3, Else))
  {
    ElseStep(st3, st.code + head, Raw(x));
  }

  /** The whole of an if, given its parts. */
  lemma IfClosed(st: Em, head: seq<Instr>, st2: Em, x: Fragment, st3: Em, st4: Em, y: Fragment, st5: Em)
    requires HeadDone(st, head, false, st2) && AfterStmt(st2, x, st3)
    requires ElseDone(st, head, x, st3, st4) && AfterStmt(st4, y, st5)
    requires st.branches == [] ==> Pending(x, Brk, |st2.code|) == [] && Pending(y, Brk, |st4.code|) == []
    ensures Enabled(st5, End) && AfterStmt(st, BranchCells(head, x, y), Next(st5, End))
  {
    IfState(st, head, st2, x, st3, st4, y, st5);
    IfEnds(st, head, x, |st2.code|, y, |st4.code|, st3, st5);
    var f := BranchCells(head, x, y);
    var pre := st.code + head + [Go(IfZero, |x| + 1)] + Raw(x);
    var code := st.code + Raw(f);
    assert code == pre + [Go(Always, |y|)] + Raw(y) by {
      RawBranch(head, x, y);
    }
    hide Pending, Raw, BranchCells, SamePositions, PopBranch, Patch, Reverse, PatchAll, WriteJump, AfterStmt, ElseDone,
      HeadDone;
    WriteStep(st5, pre, Raw(y));
    HandOver(st, st5, f, code);
    AfterEnd(st, f, st5, code);
  }

  /** Behind the else-part: the innermost branch is that of the if, its jump over the else-part is
      still open. */
  lemma IfState(st: Em, head: seq<Instr>, st2: Em, x: Fragment, st3: Em, st4: Em, y: Fragment, st5: Em)
    requires HeadDone(st, head, false, st2) && AfterStmt(st2, x, st3)
    requires ElseDone(st, head, x, st3, st4) && AfterStmt(st4, y, st5)
    ensures |st3.branches| == |st5.branches| == |st.branches| + 1 && st5.branches[..|st.branches|] == st.branches
    ensures var pre := st.code + head + [Go(IfZero, |x| + 1)] + Raw(x);
      && st5.code == pre + [Go(Always, 0)] + Raw(y)
      && Branching(st5).curr == |pre| + 1 && !Branching(st5).loop
    ensures st5 == st.(code := st5.code, branches := st5.branches,
                       exits := st.exits + Pending(x, Exit, |st2.code|) + Pending(y, Exit, |st4.code|))
    ensures |st2.code| == |st.code| + |head| + 1 && |st4.code| == |st.code| + |head| + |x| + 2
    ensures SamePositions(Branching(st3).ends, [] + Pending(x, Brk, |st2.code|))
    ensures SamePositions(Branching(st5).ends, Branching(st3).ends + Pending(y, Brk, |st4.code|))
  {
    hide Pending, SamePositions;
  }

  /** The pending jumps of the parts are those of the whole. */
  lemma IfEnds(st: Em, head: seq<Instr>, x: Fragment, bx: int, y: Fragment, bz: int, st3: Em, st5: Em)
    requires bx == |st.code| + |head| + 1 && bz == |st.code| + |head| + |x| + 2
    requires |st3.branches| > 0 && |st5.branches| > 0
    requires SamePositions(Branching(st3).ends, [] + Pending(x, Brk, bx))
    requires SamePositions(Branching(st5).ends, Branching(st3).ends + Pending(y, Brk, bz))
    ensures var f, base := BranchCells(head, x, y), |st.code|;
      && Pending(f, Brk, base) == Pending(x, Brk, bx) + Pending(y, Brk, bz)
      && SamePositions(Branching(st5).ends, Pending(f, Brk, base))
      && st.exits + Pending(x, Exit, bx) + Pending(y, Exit, bz) == st.exits + Pending(f, Exit, base)
  {
    PendingBranch(head, x, y, Brk, |st.code|, bx, bz);
    PendingBranch(head, x, y, Exit, |st.code|, bx, bz);
    hide Pending, BranchCells, SamePositions;
    SameJoin([], Branching(st3).ends, Branching(st5).ends, Pending(x, Brk, bx), Pending(y, Brk, bz));
    assert [] + (Pending(x, Brk, bx) + Pending(y, Brk, bz)) == Pending(x, Brk, bx) + Pending(y, Brk, bz);
    Assoc(st.exits, Pending(x, Exit, bx), Pending(y, Exit, bz));
  }

  /** The branch of an if is closed. */
  lemma AfterEnd(st: Em, f: Fragment, st5: Em, code: seq<Instr>)
    requires |st5.branches| > 0 && !Branching(st5).loop && code == st.code + Raw(f)
    requires WriteJump(st5) == st5.(code := code)
    requires st5 == st.(code := st5.code, branches := st5.branches, exits := st.exits + Pending(f, Exit, |st.code|))
    requires Branching(st5).ends == [] || |st5.branches| > 1
    requires var st6 := st5.(code := code);
      PopBranch(st6) == st5.(code := code, branches := PopBranch(st6).branches) && GainsBreaks(st, f, PopBranch(st6))
    ensures Enabled(st5, End) && AfterStmt(st, f, Next(st5, End))
  {
    hide Pending, Raw, PopBranch, WriteJump, GainsBreaks;
    assert Next(st5, End) == PopBranch(st5.(code := code));
  }

  /** The whole of a loop, given its parts: the breaks of its body are bound to its end. */
  lemma LoopClosed(st: Em, head: seq<Instr>, st2: Em, x: Fragment, st3: Em)
    requires HeadDone(st, head, true, st2) && AfterStmt(st2, x, st3)
    ensures Enabled(st3, GotoStart) && Enabled(Next(st3, GotoStart), Else)
    ensures Enabled(Next(Next(st3, GotoStart), Else), End)
    ensures var cells := LoopCells(head, x);
      AfterStmt(st, Bind(cells, Brk, |cells|), Next(Next(Next(st3, GotoStart), Else), End))
  {
    var back := -(|head| + |x| + 2);
    var st4 := Next(st3, GotoStart);
    var pre := st.code + head;
    assert st4.code == pre + [Go(IfZero, 0)] + (Raw(x) + [Go(Always, back)]);
    ElseStep(st4, pre, Raw(x) + [Go(Always, back)]);
    var st5 := Next(st4, Else);
    var pre5 := pre + [Go(IfZero, |x| + 2)] + (Raw(x) + [Go(Always, back)]);
    WriteStep(st5, pre5, []);
    LoopEnd(st, head, st2, x, st3, st5);
  }

  lemma LoopEnd(st: Em, head: seq<Instr>, st2: Em, x: Fragment, st3: Em, st5: Em)
    requires HeadDone(st, head, true, st2) && AfterStmt(st2, x, st3)
    requires var pre5 := st.code + head + [Go(IfZero, |x| + 2)] + (Raw(x) + [Go(Always, -(|head| + |x| + 2))]);
      st5 == SetJump(st3.(code := pre5 + [Go(Always, 0)])) && WriteJump(st5) == st5
    ensures Enabled(st5, End)
    ensures var cells := LoopCells(head, x);
      AfterStmt(st, Bind(cells, Brk, |cells|), Next(st5, End))
  {
    var cells, base, bx := LoopCells(head, x), |st.code|, |st2.code|;
    var f := Bind(cells, Brk, |cells|);
    var ends := Branching(st3).ends;
    LoopState(st, head, st2, x, st3, st5);
    LoopEnds(head, x, base, bx, ends);
    RawLoop(head, x);
    hide Pending, Raw, LoopCells, Bind, PatchAll, SamePositions, HeadDone, AfterStmt, WriteJump, SetJump;
    LoopCode(st.code, head, x);
    PatchEnds(st.code, cells, ends, Here(st5));
    LoopPop(st5, st.code + Raw(f));
    AfterQuiet(st, f, Next(st5, End));
  }

  /** Behind the back edge: the innermost branch is that of the loop, with the breaks of its body. */
  lemma LoopState(st: Em, head: seq<Instr>, st2: Em, x: Fragment, st3: Em, st5: Em)
    requires HeadDone(st, head, true, st2) && AfterStmt(st2, x, st3)
    requires var pre5 := st.code + head + [Go(IfZero, |x| + 2)] + (Raw(x) + [Go(Always, -(|head| + |x| + 2))]);
      st5 == SetJump(st3.(code := pre5 + [Go(Always, 0)]))
    ensures |st2.code| == |st.code| + |head| + 1 && |st3.branches| > 0
    ensures |st5.branches| == |st.branches| + 1 && st5.branches[..|st.branches|] == st.branches
    ensures Branching(st5).loop && Branching(st5).ends == Branching(st3).ends
    ensures SamePositions(Branching(st3).ends, [] + Pending(x, Brk, |st2.code|))
    ensures st5 == st.(code := st5.code, branches := st5.branches, exits := st.exits + Pending(x, Exit, |st2.code|))
    ensures st5.code == st.code + head + [Go(IfZero, |x| + 2)] + (Raw(x) + [Go(Always, -(|head| + |x| + 2))])
      + [Go(Always, 0)]
  {
    hide Pending, SamePositions;
  }

  /** The breaks of the body are those of the whole, none of which is left once they are bound. */
  lemma LoopEnds(head: seq<Instr>, x: Fragment, base: int, bx: int, ends: seq<int>)
    requires bx == base + |head| + 1 && SamePositions(ends, [] + Pending(x, Brk, bx))
    ensures var cells := LoopCells(head, x);
      var f := Bind(cells, Brk, |cells|);
      && SamePositions(ends, Pending(cells, Brk, base)) && Pending(f, Brk, base) == []
      && Pending(f, Exit, base) == Pending(x, Exit, bx)
  {
    var cells := LoopCells(head, x);
    PendingLoop(head, x, Brk, base, bx);
    PendingLoop(head, x, Exit, base, bx);
    BindPending(cells, Brk, |cells|, Brk, base);
    BindPending(cells, Brk, |cells|, Exit, base);
    assert [] + Pending(x, Brk, bx) == Pending(x, Brk, bx);
    hide Pending, LoopCells, Bind, SamePositions;
  }

  lemma LoopCode(pre: seq<Instr>, head: seq<Instr>, x: Fragment)
    ensures pre + head + [Go(IfZero, |x| + 2)] + (Raw(x) + [Go(Always, -(|head| + |x| + 2))]) + [Go(Always, 0)]
         == pre + Raw(LoopCells(head, x))
  {
    RawLoop(head, x);
    hide Raw, LoopCells;
  }

  lemma LoopPop(st5: Em, code: seq<Instr>)
    requires |st5.branches| > 0 && Branching(st5).loop && WriteJump(st5) == st5
    requires PatchAll(st5.code, Branching(st5).ends, Here(st5)) == code
    ensures Enabled(st5, End)
    ensures Next(st5, End) == st5.(code := code, branches := st5.branches[..|st5.branches| - 1])
  {
  }

  lemma AfterQuiet(st: Em, f: Fragment, st': Em)
    requires Pending(f, Brk, |st.code|) == []
    requires st' == st.(code := st.code + Raw(f), exits := st.exits + Pending(f, Exit, |st.code|))
    ensures AfterStmt(st, f, st')
  {
    if st.branches != [] {
      NoMore(Branching(st).ends);
      SameSelf(Branching(st).ends);
    }
  }

  lemma PatchEnds(pre: seq<Instr>, cells: Fragment, ends: seq<int>, here: int)
    requires SamePositions(ends, Pending(cells, Brk, |pre|)) && here == |pre| + |cells|
    ensures PatchAll(pre + Raw(cells), ends, here) == pre + Raw(Bind(cells, Brk, |cells|))
  {
    PatchOpen(pre, cells, ends, Brk, |cells|);
  }

  // ----- the main induction -----

  lemma NoElse(st: Em)
    ensures AfterStmt(st, [], st)
  {
    AfterPlain(st, []);
    NoMore(st.code);
  }

  lemma {:induction false} EmitStatement(fr: Frame, s: Stmt, inLoop: bool, st: Em) returns (st': Em)
    requires Canon(st, fr, 0) && Balanced(s, inLoop) && (inLoop ==> st.branches != [])
    ensures EmitsStmt(fr, s, st, st')
    decreases s, 2
  {
    hide EmitsStmt;
    match s
    case Eval(e) => st' := EmitEval(fr, e, st);
    case Assign(x, e) => st' := EmitAssign(fr, x, e, st);
    case OpAssign(op, x, e) => st' := EmitOpAssign(fr, op, x, e, st);
    case Declare(x) => st' := EmitDeclare(fr, x, st);
    case List(ss) => st' := EmitAllStmts(fr, ss, inLoop, st); EmitBlock(fr, ss, st, st');
    case Scope(ss) => st' := EmitAllStmts(fr, ss, inLoop, st); EmitBlock(fr, ss, st, st');
    case Branch(c, t, f) => st' := EmitIf(fr, c, t, f, inLoop, st);
    case Loop(c, b) => st' := EmitLoop(fr, c, b, inLoop, st);
    case Break => st' := EmitBreak(fr, st);
    case Return(v) => st' := EmitReturn(fr, v, st);
  }

  lemma EmitDeclare(fr: Frame, x: string, st: Em) returns (st': Em)
    ensures EmitsStmt(fr, Declare(x), st, st')
  {
    NoElse(st);
    st' := st;
  }

  lemma EmitBreak(fr: Frame, st: Em) returns (st': Em)
    requires st.branches != []
    ensures EmitsStmt(fr, Break, st, st')
  {
    Then1(st, [], st, GotoEnd);
    assert [] + [GotoEnd] == [GotoEnd] == [GotoEnd] + [];
    AfterBreak(st);
    st' := Next(st, GotoEnd);
  }

  lemma EmitBlock(fr: Frame, ss: seq<Stmt>, st: Em, st': Em)
    requires Emits(st, AssembleAll(ss, fr.vars), st') && AfterStmt(st, AllCode(fr, ss), st')
    ensures EmitsStmt(fr, List(ss), st, st') && EmitsStmt(fr, Scope(ss), st, st')
  {
    NoMore(AssembleAll(ss, fr.vars));
  }

  lemma {:induction false} EmitAllStmts(fr: Frame, ss: seq<Stmt>, inLoop: bool, st: Em) returns (st': Em)
    requires Canon(st, fr, 0) && AllBalanced(ss, inLoop) && (inLoop ==> st.branches != [])
    ensures Emits(st, AssembleAll(ss, fr.vars), st') && AfterStmt(st, AllCode(fr, ss), st')
    decreases ss, 3
  {
    if ss == [] {
      NoElse(st);
      st' := st;
    } else {
      hide StmtCode, AssembleStmt, EmitAll, Balanced;
      var st1 := EmitStatement(fr, ss[0], inLoop, st);
      StayCanon(st, StmtCode(fr, ss[0]), st1, fr);
      st' := EmitAllStmts(fr, ss[1..], inLoop, st1);
      ThenAll(st, AssembleStmt(ss[0], fr.vars) + Popped(ss[0]), st1, AssembleAll(ss[1..], fr.vars), st');
      AfterJoin(st, StmtCode(fr, ss[0]), st1, AllCode(fr, ss[1..]), st');
    }
  }

  lemma {:induction false} EmitIf(fr: Frame, c: Expr, t: Stmt, f: Option<Stmt>, inLoop: bool, st: Em)
    returns (st': Em)
    requires Canon(st, fr, 0) && Balanced(Branch(c, t, f), inLoop) && (inLoop ==> st.branches != [])
    ensures EmitsStmt(fr, Branch(c, t, f), st, st')
    decreases Branch(c, t, f), 1
  {
    hide Code, ItemOf, Assemble, EmitAll, StmtCode, BranchHead, Pending, Raw;
    var head, x := BranchHead(fr, c, 0), StmtCode(fr, t);
    var y: Fragment := if f.Some? then StmtCode(fr, f.value) else [];
    var it := AssembleStmt(t, fr.vars) + Popped(t);
    var ie := if f.Some? then AssembleStmt(f.value, fr.vars) + Popped(f.value) else [];
    var i2 := [If(false)] + Assemble(c, fr.vars, None) + [Then];
    var st2 := Marked(Next(st, If(false)), head + [Go(IfZero, 0)]);
    EmitHead(fr, c, 0, st, false);
    HeadState(st, head, false);
    hide Next, Enabled, Marked, AssembleStmt;
    assert Canon(st2, fr, 0);
    var st3 := EmitStatement(fr, t, inLoop, st2);
    StayCanon(st2, x, st3, fr);
    ThenAll(st, i2, st2, it, st3);
    ElseState(st, head, st2, x, st3);
    var st4 := Next(st3, Else);
    Then1(st, i2 + it, st3, Else);
    assert Canon(st4, fr, 0) && st4.branches != [];
    var st5 := st4;
    if f.Some? {
      st5 := EmitStatement(fr, f.value, inLoop, st4);
    } else {
      NoElse(st4);
      NoMore(i2 + it + [Else]);
    }
    if f.Some? {
      ThenAll(st, i2 + it + [Else], st4, ie, st5);
    }
    if !inLoop {
      NoBreaks(fr, t, |st2.code|);
      if f.Some? {
        NoBreaks(fr, f.value, |st4.code|);
      } else {
        PendingNone(Brk, |st4.code|);
      }
    }
    IfClosed(st, head, st2, x, st3, st4, y, st5);
    Then1(st, i2 + it + [Else] + ie, st5, End);
    st' := Next(st5, End);
    BranchShape(fr, c, t, f);
  }

  lemma BranchShape(fr: Frame, c: Expr, t: Stmt, f: Option<Stmt>)
    ensures var i2 := [If(false)] + Assemble(c, fr.vars, None) + [Then];
      var it := AssembleStmt(t, fr.vars) + Popped(t);
      var ie := if f.Some? then AssembleStmt(f.value, fr.vars) + Popped(f.value) else [];
      AssembleStmt(Branch(c, t, f), fr.vars) + Popped(Branch(c, t, f)) == i2 + it + [Else] + ie + [End]
    ensures StmtCode(fr, Branch(c, t, f))
      == BranchCells(BranchHead(fr, c, 0), StmtCode(fr, t), if f.Some? then StmtCode(fr, f.value) else [])
  {
    var i2 := [If(false)] + Assemble(c, fr.vars, None) + [Then];
    Assoc(i2, AssembleStmt(t, fr.vars), Popped(t));
    NoMore(AssembleStmt(Branch(c, t, f), fr.vars));
  }

  /** A loop without a condition tests the literal one. */
  lemma EmitLoopHead(fr: Frame, c: Option<Expr>, st: Em)
    requires Canon(st, fr, 0)
    ensures Emits(st, [If(true)] + (if c.Some? then Assemble(c.value, fr.vars, None) else [PushI(1)]) + [Then],
                  Marked(Next(st, If(true)), LoopHead(fr, c) + [Go(IfZero, 0)]))
  {
    hide Code, ItemOf, Assemble;
    if c.Some? {
      EmitHead(fr, c.value, 0, st, true);
    } else {
      var st0 := Next(st, If(true));
      Then1(st, [], st, If(true));
      assert [] + [If(true)] == [If(true)];
      EmitLeaf(st0, PushI(1), Literal(1));
      ThenAll(st, [If(true)], st0, [PushI(1)], After(st0, [], Literal(1)));
      ThenStep(fr, 0, st0, [], Literal(1));
      assert [] + TestCode(fr, Literal(1)) == TestCode(fr, Literal(1));
      Then1(st, [If(true)] + [PushI(1)], After(st0, [], Literal(1)), Then);
    }
  }

  lemma {:induction false} EmitLoop(fr: Frame, c: Option<Expr>, b: Stmt, inLoop: bool, st: Em) returns (st': Em)
    requires Canon(st, fr, 0) && Balanced(Loop(c, b), inLoop)
    ensures EmitsStmt(fr, Loop(c, b), st, st')
    decreases Loop(c, b), 1
  {
    hide Code, ItemOf, Assemble, EmitAll, StmtCode, LoopHead, Pending, Raw;
    var head, x := LoopHead(fr, c), StmtCode(fr, b);
    var i2 := [If(true)] + (if c.Some? then Assemble(c.value, fr.vars, None) else [PushI(1)]) + [Then];
    var st2 := Marked(Next(st, If(true)), head + [Go(IfZero, 0)]);
    EmitLoopHead(fr, c, st);
    HeadState(st, head, true);
    hide Next, Enabled, Marked, AssembleStmt;
    var st3 := EmitStatement(fr, b, true, st2);
    var it := AssembleStmt(b, fr.vars);
    assert Popped(b) == [];
    assert it + Popped(b) == it;
    ThenAll(st, i2, st2, it, st3);
    LoopClosed(st, head, st2, x, st3);
    Then1(st, i2 + it, st3, GotoStart);
    Then1(st, i2 + it + [GotoStart], Next(st3, GotoStart), Else);
    Then1(st, i2 + it + [GotoStart] + [Else], Next(Next(st3, GotoStart), Else), End);
    st' := Next(Next(Next(st3, GotoStart), Else), End);
    LoopShape(fr, c, b);
  }

  lemma LoopShape(fr: Frame, c: Option<Expr>, b: Stmt)
    ensures var i2 := [If(true)] + (if c.Some? then Assemble(c.value, fr.vars, None) else [PushI(1)]) + [Then];
      AssembleStmt(Loop(c, b), fr.vars) + Popped(Loop(c, b))
      == i2 + AssembleStmt(b, fr.vars) + [GotoStart] + [Else] + [End]
    ensures var cells := LoopCells(LoopHead(fr, c), StmtCode(fr, b));
      StmtCode(fr, Loop(c, b)) == Bind(cells, Brk, |cells|)
  {
    var i2 := [If(true)] + (if c.Some? then Assemble(c.value, fr.vars, None) else [PushI(1)]) + [Then];
    var i3 := i2 + AssembleStmt(b, fr.vars);
    assert i3 + [GotoStart] + [Else] + [End] == i3 + [GotoStart, Else, End];
    NoMore(AssembleStmt(Loop(c, b), fr.vars));
  }
}
