/** The back end as the source has it: an object whose fields every IR instruction updates. */
module Backend {
  import opened Basics
  import opened Words
  import opened Syntax
  import opened Machine
  import opened StackIr
  import opened Emitter

  class Writer {
    var code: seq<Instr>
    var stack: seq<Item>
    var ints: int
    var spills: int
    var sc: seq<seq<int>>
    var branches: seq<Mark>
    var exits: seq<int>
    const frame: nat

    /** The fields as one value. */
    function Now(): Em
      reads this
    {
      Em(code, stack, ints, spills, sc, branches, exits, frame)
    }

    constructor (frame: nat)
      ensures Now() == Initial(frame)
    {
      code, stack, ints, spills, sc, branches, exits := [], [], 0, 0, [], [], [];
      this.frame := frame;
    }

    method Write(i: Instr)
      modifies this`code
      ensures Now() == Emit(old(Now()), [i])
    {
      code := code + [i];
    }

    method PushItem(item: Item)
      modifies this`stack
      ensures Now() == Push(old(Now()), item)
    {
      stack := stack + [item];
    }

    /** Pushes an rvalue into the next free register, or into a new spill slot. */
    method PushRvalue() returns (item: Item)
      modifies this`stack, this`ints, this`spills
      ensures Now() == PushR(old(Now())) && item == Top(Now())
    {
      if ints < STACK_REGISTERS {
        item := RValue(InReg(ints));
      } else {
        spills := spills + 1;
        item := RValue(Spill(spills));
      }
      stack := stack + [item];
      ints := ints + 1;
    }

    method PopTop() returns (item: Item)
      requires |stack| > 0
      modifies this`stack, this`ints, this`spills
      ensures Now() == PopItem(old(Now())) && item == Top(old(Now()))
    {
      item := stack[|stack| - 1];
      stack := stack[..|stack| - 1];
      if item.RValue? {
        ints := ints - 1;
        if item.slot.Spill? {
          spills := spills - 1;
        }
      }
    }

    // ----- operators -----

    method MakeRvalue()
      requires |stack| > 0
      modifies this
      ensures Now() == ToRval(old(Now()))
    {
      if !stack[|stack| - 1].RValue? {
        var item := PopTop();
        var res := PushRvalue();
        Write(Mov(Dst(frame, res), Op(frame, item)));
      }
    }

    method UnaryOperator(i: Ir)
      requires |stack| > 0
      modifies this
      ensures Now() == Unary1(old(Now()), i)
    {
      var item := PopTop();
      var res := PushRvalue();
      match i {
        case NegI =>
          Write(Neg(Dst(frame, item)));
          Write(Mov(Dst(frame, res), Op(frame, item)));
        case NotI =>
          Write(Not(Op(frame, item)));
          Write(Mov(Dst(frame, res), Op(frame, item)));
        case Zero =>
          Write(Cmp(Op(frame, item), Imm(0)));
          Write(Set(Eq, Dst(frame, res)));
        case ScEnd =>
          Write(Cmp(Op(frame, item), Imm(0)));
          Write(Set(Ne, Dst(frame, res)));
        case _ =>
          Write(Mov(Dst(frame, res), Op(frame, item)));
      }
      ghost var base := PushR(PopItem(old(Now())));
      EmitTwice(base, i, frame, item, res);
    }

    /** Combines the operands two registers up, and moves the result down. */
    method ThroughScratch(op: BinOp, op1: Item, op2: Item, res: Item)
      modifies this
      ensures var deep := PushR(PushR(old(Now())));
        var tmp := Top(deep);
        Now() == PopItem(PopItem(Emit(deep, [Mov(Dst(frame, tmp), Op(frame, op1)),
                                             Alu(op, Dst(frame, tmp), Op(frame, op2)),
                                             Mov(Dst(frame, res), Op(frame, tmp))])))
    {
      var _ := PushRvalue();
      var tmp := PushRvalue();
      ghost var deep := Now();
      var i, j, k := Mov(Dst(frame, tmp), Op(frame, op1)), Alu(op, Dst(frame, tmp), Op(frame, op2)),
                     Mov(Dst(frame, res), Op(frame, tmp));
      Write(i);
      Write(j);
      Write(k);
      EmitThree(deep, i, j, k);
      var _ := PopTop();
      var _ := PopTop();
    }

    method BinaryOperator(op: BinOp)
      requires |stack| > 1
      modifies this
      ensures Now() == BinaryOp(old(Now()), op)
    {
      var op2 := PopTop();
      var op1 := PopTop();
      var res := PushRvalue();
      ghost var base := Now();
      if !op1.RValue? || IsSwp(op1, op2) {
        if op2.RValue? {
          ThroughScratch(op, op1, op2, res);
        } else {
          Write(Mov(Dst(frame, res), Op(frame, op1)));
          Write(Alu(op, Dst(frame, res), Op(frame, op2)));
          EmitTwo(base, Mov(Dst(frame, res), Op(frame, op1)), Alu(op, Dst(frame, res), Op(frame, op2)));
        }
      } else {
        Write(Alu(op, Dst(frame, res), Op(frame, op2)));
      }
    }

    /** Multiplication and division; with store, the variable below stays on the stack. */
    method WideOperator(op: BinOp, store: bool)
      requires |stack| > 1 && Wide(op)
      modifies this
      ensures Now() == if store then StoreArithmetic(old(Now()), op) else Arithmetic(old(Now()), op)
    {
      var op2 := PopTop();
      var op1 := stack[|stack| - 1];
      var res := op1;
      if !store {
        op1 := PopTop();
        res := PushRvalue();
      }
      ghost var base := Now();
      ghost var c := WideCode(frame, op, res, op1, op2);
      Write(Mov(R(RAX), Op(frame, op1)));
      Write(SignExtend);
      if op.Mul? {
        Write(MulWide(Op(frame, op2)));
      } else {
        Write(DivWide(Op(frame, op2)));
      }
      Write(Mov(Dst(frame, res), At(R(if op.Mod? then RDX else RAX))));
      EmitFour(base, c);
    }

    method Compare(op: BinOp)
      requires |stack| > 1 && !Simple(op) && !Wide(op)
      modifies this
      ensures Now() == Arithmetic(old(Now()), op)
    {
      var op2 := PopTop();
      var op1 := PopTop();
      var res := PushRvalue();
      ghost var base := Now();
      Write(Cmp(Op(frame, op1), Op(frame, op2)));
      Write(Set(op, Dst(frame, res)));
      EmitTwo(base, Cmp(Op(frame, op1), Op(frame, op2)), Set(op, Dst(frame, res)));
    }

    // ----- jumps -----

    /** Fills in the offset of the jump that ends at pos. */
    method PatchJump(pos: int)
      modifies this`code
      ensures Now() == old(Now()).(code := Patch(old(code), pos, |old(code)|))
    {
      if 0 < pos <= |code| && code[pos - 1].Go? {
        code := code[pos - 1 := code[pos - 1].(rel := |code| - pos)];
      }
    }

    /** Pops and fills in pending jumps until none is left. */
    method PatchPending(pending: seq<int>)
      modifies this`code
      ensures Now() == old(Now()).(code := PatchAll(old(code), pending, |old(code)|))
    {
      var rest := pending;
      while rest != []
        invariant |code| == |old(code)|
        invariant PatchAll(code, rest, |code|) == PatchAll(old(code), pending, |old(code)|)
        invariant Now() == old(Now()).(code := code)
        decreases |rest|
      {
        PatchJump(rest[|rest| - 1]);
        rest := rest[..|rest| - 1];
      }
    }

    method SetTopMark(m: Mark)
      requires |branches| > 0
      modifies this`branches
      ensures Now() == SetTop(old(Now()), m)
    {
      branches := branches[..|branches| - 1] + [m];
    }

    method MarkJump()
      requires |branches| > 0
      modifies this`branches
      ensures Now() == SetJump(old(Now()))
    {
      SetTopMark(branches[|branches| - 1].(curr := |code|));
    }

    /** Ends a branch: a loop patches its breaks, an if moves them to the enclosing branch. */
    method EndBranch()
      requires |branches| > 0
      requires var m := branches[|branches| - 1]; m.loop || m.ends == [] || |branches| > 1
      modifies this
      ensures Now() == PopBranch(old(Now()))
    {
      var m := branches[|branches| - 1];
      branches := branches[..|branches| - 1];
      if m.loop {
        PatchPending(m.ends);
      } else {
        MoveEnds(m.ends);
      }
    }

    /** Hands pending breaks to the branch that is now on top, the latest first. */
    method MoveEnds(ends: seq<int>)
      requires ends != [] ==> |branches| > 0
      modifies this`branches
      ensures Now() == if ends == [] then old(Now()) else Handed(old(Now()), Reverse(ends))
    {
      if ends == [] {
        return;
      }
      ghost var popped := Now();
      ghost var moved: seq<int> := [];
      var rest := ends;
      HandNone(popped);
      while rest != []
        invariant moved + Reverse(rest) == Reverse(ends)
        invariant Now() == Handed(popped, moved)
        decreases |rest|
      {
        var pos := rest[|rest| - 1];
        var parent := branches[|branches| - 1];
        SetTopMark(parent.(ends := parent.ends + [pos]));
        HandOne(popped, moved, pos);
        rest := rest[..|rest| - 1];
        Assoc(moved, [pos], Reverse(rest));
        moved := moved + [pos];
      }
      assert moved + [] == moved;
    }

    // ----- the emission loop -----

    /** Emits the code of one IR instruction. */
    method EmitOne(i: Ir)
      requires Enabled(Now(), i)
      modifies this
      ensures Now() == Next(old(Now()), i)
    {
      match i {
        case PushI(v) => PushItem(Literal(v));
        case LStack(off) => PushItem(LValue(0 - off));
        case Pop => var _ := PopTop();
        case Rval => MakeRvalue();
        case Arith(op) =>
          if Simple(op) {
            BinaryOperator(op);
          } else if Wide(op) {
            WideOperator(op, false);
          } else {
            Compare(op);
          }
        case StoreTop =>
          Write(Mov(Dst(frame, stack[|stack| - 2]), Op(frame, stack[|stack| - 1])));
          var _ := PopTop();
        case StoreArith(op) =>
          if Wide(op) {
            WideOperator(op, true);
          } else {
            Write(Alu(op, Dst(frame, stack[|stack| - 2]), Op(frame, stack[|stack| - 1])));
            var _ := PopTop();
          }
        case NegI =>
          MakeRvalue();
          UnaryOperator(NegI);
        case NotI => UnaryOperator(NotI);
        case Zero => UnaryOperator(Zero);
        case Cvt => UnaryOperator(Cvt);
        case Swp =>
          var n := |stack|;
          stack := stack[..n - 2] + [stack[n - 1], stack[n - 2]];
        case ScBegin =>
          sc := sc + [[]];
        case ScTest(op) => TestOperand(op);
        case ScEnd => EndChain();
        case If(loop) =>
          branches := branches + [Mark(if loop then Some(|code|) else None, 0, [], loop)];
        case Then => TestCondition();
        case Else =>
          Write(Go(Always, 0));
          PatchJump(branches[|branches| - 1].curr);
          MarkJump();
        case End =>
          PatchJump(branches[|branches| - 1].curr);
          EndBranch();
        case GotoStart =>
          Write(Go(Always, branches[|branches| - 1].start.value - (|code| + 1)));
        case GotoEnd =>
          Write(Go(Always, 0));
          var m := branches[|branches| - 1];
          SetTopMark(m.(ends := m.ends + [|code|]));
        case Ret => ReturnTop();
        case FuncEnd =>
          PatchPending(exits);
          exits := [];
          Write(Epilogue);
      }
    }

    method TestOperand(op: LogicOp)
      requires |stack| > 0 && |sc| > 0
      modifies this
      ensures Now() == TestSc(ToRval(old(Now())), op)
    {
      MakeRvalue();
      ghost var before := Now();
      var item := PopTop();
      ghost var base := Now();
      Write(Cmp(Op(frame, item), Imm(0)));
      Write(Go(TestJump(op), 0));
      EmitTwo(base, Cmp(Op(frame, item), Imm(0)), Go(TestJump(op), 0));
      var n := |sc| - 1;
      sc := sc[..n] + [sc[n] + [|code|]];
      assert Now() == TestSc(before, op);
    }

    method EndChain()
      requires |stack| > 0 && |sc| > 0
      modifies this
      ensures Now() == CloseSc(ToRval(old(Now())))
    {
      MakeRvalue();
      ghost var before := Now();
      PatchPending(sc[|sc| - 1]);
      sc := sc[..|sc| - 1];
      UnaryOperator(ScEnd);
      assert Now() == CloseSc(before);
    }

    method TestCondition()
      requires |stack| > 0 && |branches| > 0
      modifies this
      ensures Now() == Next(old(Now()), Then)
    {
      var item := PopTop();
      ghost var base := Now();
      Write(Cmp(Op(frame, item), Imm(0)));
      Write(Go(IfZero, 0));
      EmitTwo(base, Cmp(Op(frame, item), Imm(0)), Go(IfZero, 0));
      MarkJump();
    }

    method ReturnTop()
      requires |stack| > 0
      modifies this
      ensures Now() == Next(old(Now()), Ret)
    {
      ghost var top := stack[|stack| - 1];
      Write(Mov(R(RAX), Op(frame, stack[|stack| - 1])));
      var _ := PopTop();
      Write(Go(Always, 0));
      exits := exits + [|code|];
      EmitTwo(PopItem(old(Now())), Mov(R(RAX), Op(frame, top)), Go(Always, 0));
    }

    /** Emits a whole IR list in order. */
    method EmitProgram(irs: seq<Ir>)
      requires EmitAll(Now(), irs).Some?
      modifies this
      ensures EmitAll(old(Now()), irs) == Some(Now())
    {
      var i := 0;
      while i < |irs|
        invariant 0 <= i <= |irs|
        invariant EmitAll(Now(), irs[i..]) == EmitAll(old(Now()), irs)
      {
        assert irs[i..][0] == irs[i] && irs[i..][1..] == irs[i + 1..];
        EmitOne(irs[i]);
        i := i + 1;
      }
    }
  }

  // ----- emitting several instructions -----

  lemma EmitTwo(st: Em, i: Instr, j: Instr)
    ensures Emit(Emit(st, [i]), [j]) == Emit(st, [i, j])
  {
    assert st.code + [i] + [j] == st.code + [i, j];
  }

  lemma EmitThree(st: Em, i: Instr, j: Instr, k: Instr)
    ensures Emit(Emit(Emit(st, [i]), [j]), [k]) == Emit(st, [i, j, k])
  {
    assert st.code + [i] + [j] + [k] == st.code + [i, j, k];
  }

  lemma EmitFour(st: Em, c: seq<Instr>)
    requires |c| == 4
    ensures Emit(Emit(Emit(Emit(st, [c[0]]), [c[1]]), [c[2]]), [c[3]]) == Emit(st, c)
  {
    assert st.code + [c[0]] + [c[1]] + [c[2]] + [c[3]] == st.code + c;
  }

  lemma EmitTwice(st: Em, i: Ir, frame: nat, item: Item, res: Item)
    ensures var c := UnaryCode(i, frame, item, res);
      Emit(st, c) == if |c| == 2 then Emit(Emit(st, [c[0]]), [c[1]]) else Emit(st, [c[0]])
  {
    var c := UnaryCode(i, frame, item, res);
    if |c| == 2 {
      EmitTwo(st, c[0], c[1]);
      assert c == [c[0], c[1]];
    }
  }

  /** The enclosing branch with some positions added. */
  function Handed(st: Em, moved: seq<int>): Em
    requires |st.branches| > 0
  {
    SetTop(st, Branching(st).(ends := Branching(st).ends + moved))
  }

  lemma HandNone(st: Em)
    requires |st.branches| > 0
    ensures Handed(st, []) == st
  {
    assert Branching(st).ends + [] == Branching(st).ends;
  }

  lemma HandOne(st: Em, moved: seq<int>, pos: int)
    requires |st.branches| > 0
    ensures var now := Handed(st, moved);
      SetTop(now, Branching(now).(ends := Branching(now).ends + [pos])) == Handed(st, moved + [pos])
  {
    Assoc(Branching(st).ends, moved, [pos]);
  }
}
