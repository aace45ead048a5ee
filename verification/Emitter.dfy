/** The back end: it simulates the IR's operand stack at compile time, with literals,
    lazily read stack variables and numbered registers, and back-patches forward jumps. */
module Emitter {
  import opened Words
  import opened Syntax
  import opened Machine
  import opened StackIr

  /** Where an rvalue lives: one of the seven stack registers, or a spill slot. */
  datatype Slot = InReg(index: int) | Spill(number: int)

  datatype Item = Literal(v: Word) | LValue(disp: int) | RValue(slot: Slot)

  /** start is None for an if: the source never sets that field then. */
  datatype Mark = Mark(start: Option<int>, curr: int, ends: seq<int>, loop: bool)

  const STACK_REGISTERS := 7

  datatype Em = Em(
    code: seq<Instr>,
    stack: seq<Item>,
    ints: int,
    spills: int,
    sc: seq<seq<int>>,
    branches: seq<Mark>,
    exits: seq<int>,
    frame: nat)

  // ----- operands -----

  function StackRegister(i: int): Register {
    if i <= 0 then RBX
    else if i == 1 then R12
    else if i == 2 then R13
    else if i == 3 then R14
    else if i == 4 then R15
    else if i == 5 then R10
    else R11
  }

  function SlotLoc(frame: nat, s: Slot): Loc {
    match s
    case InReg(i) => R(StackRegister(i))
    case Spill(k) => M(-(frame + 8 * k))
  }

  function Op(frame: nat, item: Item): Operand {
    match item
    case Literal(v) => Imm(v)
    case LValue(d) => At(M(d))
    case RValue(s) => At(SlotLoc(frame, s))
  }

  /** A destination operand; a literal destination is loaded into rax first. */
  function Dst(frame: nat, item: Item): Loc {
    var o := Op(frame, item);
    if o.At? then o.loc else R(RAX)
  }

  function Key(s: Slot): int {
    match s
    case InReg(i) => i
    case Spill(k) => k
  }

  /** The test for operands whose registers are in swapped order. */
  predicate IsSwp(op1: Item, op2: Item) {
    op1.RValue? && op2.RValue? && Key(op2.slot) < Key(op1.slot)
  }

  // ----- the operand stack -----

  function Top(st: Em): Item
    requires |st.stack| > 0
  {
    st.stack[|st.stack| - 1]
  }

  function Second(st: Em): Item
    requires |st.stack| > 1
  {
    st.stack[|st.stack| - 2]
  }

  function NextSlot(st: Em): Slot {
    if st.ints < STACK_REGISTERS then InReg(st.ints) else Spill(st.spills + 1)
  }

  function Push(st: Em, item: Item): Em {
    st.(stack := st.stack + [item])
  }

  function PushR(st: Em): Em {
    st.(stack := st.stack + [RValue(NextSlot(st))],
        ints := st.ints + 1,
        spills := if st.ints < STACK_REGISTERS then st.spills else st.spills + 1)
  }

  function PopItem(st: Em): Em
    requires |st.stack| > 0
  {
    var item := Top(st);
    st.(stack := st.stack[..|st.stack| - 1],
        ints := if item.RValue? then st.ints - 1 else st.ints,
        spills := if item.RValue? && item.slot.Spill? then st.spills - 1 else st.spills)
  }

  function Emit(st: Em, c: seq<Instr>): Em {
    st.(code := st.code + c)
  }

  // ----- jumps -----

  /** Fills in the jump that ends at position pos so that it lands at target. */
  function Patch(code: seq<Instr>, pos: int, target: int): seq<Instr> {
    if 0 < pos <= |code| && code[pos - 1].Go? then code[pos - 1 := code[pos - 1].(rel := target - pos)] else code
  }

  /** Fills in all pending jumps, the last one first. */
  function PatchAll(code: seq<Instr>, pending: seq<int>, target: int): seq<Instr>
    decreases |pending|
  {
    if pending == [] then code
    else
      var n := |pending| - 1;
      PatchAll(Patch(code, pending[n], target), pending[..n], target)
  }

  function Reverse(s: seq<int>): seq<int> {
    if s == [] then [] else [s[|s| - 1]] + Reverse(s[..|s| - 1])
  }

  function Here(st: Em): nat {
    |st.code|
  }

  function SetTop(st: Em, m: Mark): Em
    requires |st.branches| > 0
  {
    st.(branches := st.branches[..|st.branches| - 1] + [m])
  }

  function Branching(st: Em): Mark
    requires |st.branches| > 0
  {
    st.branches[|st.branches| - 1]
  }

  function SetJump(st: Em): Em
    requires |st.branches| > 0
  {
    SetTop(st, Branching(st).(curr := Here(st)))
  }

  function WriteJump(st: Em): Em
    requires |st.branches| > 0
  {
    st.(code := Patch(st.code, Branching(st).curr, Here(st)))
  }

  /** A loop's pending breaks land here; an if hands its own to the enclosing branch. */
  function PopBranch(st: Em): Em
    requires |st.branches| > 0
    requires Branching(st).loop || Branching(st).ends == [] || |st.branches| > 1
  {
    var m := Branching(st);
    var st' := st.(branches := st.branches[..|st.branches| - 1]);
    if m.loop then st'.(code := PatchAll(st.code, m.ends, Here(st)))
    else if m.ends == [] then st'
    else SetTop(st', Branching(st').(ends := Branching(st').ends + Reverse(m.ends)))
  }

  // ----- one IR instruction -----

  function ToRval(st: Em): Em
    requires |st.stack| > 0
  {
    if Top(st).RValue? then st
    else
      var item := Top(st);
      var st' := PushR(PopItem(st));
      Emit(st', [Mov(Dst(st.frame, Top(st')), Op(st.frame, item))])
  }

  function UnaryCode(i: Ir, frame: nat, item: Item, res: Item): seq<Instr> {
    match i
    case NegI => [Neg(Dst(frame, item)), Mov(Dst(frame, res), Op(frame, item))]
    case NotI => [Not(Op(frame, item)), Mov(Dst(frame, res), Op(frame, item))]
    case Zero => [Cmp(Op(frame, item), Imm(0)), Set(Eq, Dst(frame, res))]
    case ScEnd => [Cmp(Op(frame, item), Imm(0)), Set(Ne, Dst(frame, res))]
    case _ => [Mov(Dst(frame, res), Op(frame, item))]
  }

  /** Pops an operand, pushes its result register, and emits code for the two of them. */
  function Unary1(st: Em, i: Ir): Em
    requires |st.stack| > 0
  {
    var item := Top(st);
    var st' := PushR(PopItem(st));
    Emit(st', UnaryCode(i, st.frame, item, Top(st')))
  }

  function BinaryOp(st: Em, op: BinOp): Em
    requires |st.stack| > 1
  {
    var op2, op1 := Top(st), Second(st);
    var base := PushR(PopItem(PopItem(st)));
    var res := Top(base);
    if !op1.RValue? || IsSwp(op1, op2) then
      if op2.RValue? then
        var deep := PushR(PushR(base));
        var tmp := Top(deep);
        var done := Emit(deep, [Mov(Dst(st.frame, tmp), Op(st.frame, op1)),
                                Alu(op, Dst(st.frame, tmp), Op(st.frame, op2)),
                                Mov(Dst(st.frame, res), Op(st.frame, tmp))]);
        PopItem(PopItem(done))
      else
        Emit(base, [Mov(Dst(st.frame, res), Op(st.frame, op1)), Alu(op, Dst(st.frame, res), Op(st.frame, op2))])
    else
      Emit(base, [Alu(op, Dst(st.frame, res), Op(st.frame, op2))])
  }

  predicate Wide(op: BinOp) {
    op.Mul? || op.Div? || op.Mod?
  }

  predicate Simple(op: BinOp) {
    op.Add? || op.Sub? || op.BAnd? || op.BOr? || op.BXor?
  }

  /** Multiplication and division go through rax and rdx. */
  function WideCode(frame: nat, op: BinOp, res: Item, op1: Item, op2: Item): seq<Instr> {
    [Mov(R(RAX), Op(frame, op1)),
     SignExtend,
     if op.Mul? then MulWide(Op(frame, op2)) else DivWide(Op(frame, op2)),
     Mov(Dst(frame, res), At(R(if op.Mod? then RDX else RAX)))]
  }

  function CompareCode(frame: nat, op: BinOp, res: Item, op1: Item, op2: Item): seq<Instr> {
    [Cmp(Op(frame, op1), Op(frame, op2)), Set(op, Dst(frame, res))]
  }

  function Arithmetic(st: Em, op: BinOp): Em
    requires |st.stack| > 1
  {
    if Simple(op) then BinaryOp(st, op)
    else
      var op2, op1 := Top(st), Second(st);
      var base := PushR(PopItem(PopItem(st)));
      Emit(base, if Wide(op) then WideCode(st.frame, op, Top(base), op1, op2)
                 else CompareCode(st.frame, op, Top(base), op1, op2))
  }

  function StoreArithmetic(st: Em, op: BinOp): Em
    requires |st.stack| > 1
  {
    var op2, op1 := Top(st), Second(st);
    Emit(PopItem(st), if Wide(op) then WideCode(st.frame, op, op1, op1, op2)
                      else [Alu(op, Dst(st.frame, op1), Op(st.frame, op2))])
  }

  function TestJump(op: LogicOp): Jump {
    match op
    case AndAlso => IfZero
    case OrElse => IfNotZero
  }

  function OpenSc(st: Em): Em {
    st.(sc := st.sc + [[]])
  }

  /** Tests the operand of a chain; a deciding one jumps to the chain's end. */
  function TestSc(st: Em, op: LogicOp): Em
    requires |st.stack| > 0 && |st.sc| > 0
  {
    var st' := Emit(PopItem(st), [Cmp(Op(st.frame, Top(st)), Imm(0)), Go(TestJump(op), 0)]);
    st'.(sc := st.sc[..|st.sc| - 1] + [st.sc[|st.sc| - 1] + [Here(st')]])
  }

  /** All the chain's jumps land here, where the merge register is made 0 or 1. */
  function CloseSc(st: Em): Em
    requires |st.stack| > 0 && |st.sc| > 0
  {
    var n := |st.sc| - 1;
    Unary1(st.(code := PatchAll(st.code, st.sc[n], Here(st)), sc := st.sc[..n]), ScEnd)
  }

  /** What the source needs on its stacks to run an instruction without reading garbage. */
  predicate Enabled(st: Em, i: Ir) {
    match i
    case Pop => |st.stack| > 0
    case Rval => |st.stack| > 0
    case Arith(_) => |st.stack| > 1
    case StoreTop => |st.stack| > 1
    case StoreArith(op) => |st.stack| > 1 && (Simple(op) || Wide(op))
    case NegI => |st.stack| > 0
    case NotI => |st.stack| > 0
    case Zero => |st.stack| > 0
    case Cvt => |st.stack| > 0
    case Swp => |st.stack| > 1
    case ScTest(_) => |st.stack| > 0 && |st.sc| > 0
    case ScEnd => |st.stack| > 0 && |st.sc| > 0
    case Then => |st.stack| > 0 && |st.branches| > 0
    case Else => |st.branches| > 0
    case End => |st.branches| > 0 && (Branching(st).loop || Branching(st).ends == [] || |st.branches| > 1)
    case GotoStart => |st.branches| > 0 && Branching(st).start.Some?
    case GotoEnd => |st.branches| > 0
    case Ret => |st.stack| > 0
    case _ => true
  }

  function Next(st: Em, i: Ir): Em
    requires Enabled(st, i)
  {
    var frame := st.frame;
    match i
    case PushI(v) => Push(st, Literal(v))
    case LStack(off) => Push(st, LValue(0 - off))
    case Pop => PopItem(st)
    case Rval => ToRval(st)
    case Arith(op) => Arithmetic(st, op)
    case StoreTop => Emit(PopItem(st), [Mov(Dst(frame, Second(st)), Op(frame, Top(st)))])
    case StoreArith(op) => StoreArithmetic(st, op)
    case NegI => Unary1(ToRval(st), NegI)
    case NotI => Unary1(st, NotI)
    case Zero => Unary1(st, Zero)
    case Cvt => Unary1(st, Cvt)
    case Swp => st.(stack := st.stack[..|st.stack| - 2] + [Top(st), Second(st)])
    case ScBegin => OpenSc(st)
    case ScTest(op) => TestSc(ToRval(st), op)
    case ScEnd => CloseSc(ToRval(st))
    case If(loop) => st.(branches := st.branches + [Mark(if loop then Some(Here(st)) else None, 0, [], loop)])
    case Then => SetJump(Emit(PopItem(st), [Cmp(Op(frame, Top(st)), Imm(0)), Go(IfZero, 0)]))
    case Else => SetJump(WriteJump(Emit(st, [Go(Always, 0)])))
    case End => PopBranch(WriteJump(st))
    case GotoStart => Emit(st, [Go(Always, Branching(st).start.value - (Here(st) + 1))])
    case GotoEnd =>
      var st' := Emit(st, [Go(Always, 0)]);
      SetTop(st', Branching(st').(ends := Branching(st').ends + [Here(st')]))
    case Ret =>
      var st' := Emit(PopItem(st), [Mov(R(RAX), Op(frame, Top(st))), Go(Always, 0)]);
      st'.(exits := st'.exits + [Here(st')])
    case FuncEnd => Emit(st.(code := PatchAll(st.code, st.exits, Here(st)), exits := []), [Epilogue])
  }

  /** Emission of a whole IR list; None when some instruction finds its stack too short. */
  function EmitAll(st: Em, irs: seq<Ir>): Option<Em>
    decreases |irs|
  {
    if irs == [] then Some(st)
    else if !Enabled(st, irs[0]) then None
    else EmitAll(Next(st, irs[0]), irs[1..])
  }

  lemma {:induction false} EmitAppend(st: Em, a: seq<Ir>, b: seq<Ir>)
    ensures EmitAll(st, a + b) ==
      match EmitAll(st, a) { case Some(st') => EmitAll(st', b) case None => None }
    decreases |a|
  {
    if a == [] {
      assert a + b == b;
    } else {
      assert (a + b)[1..] == a[1..] + b;
      if Enabled(st, a[0]) {
        EmitAppend(Next(st, a[0]), a[1..], b);
      }
    }
  }

  function Initial(frame: nat): Em {
    Em([], [], 0, 0, [], [], [], frame)
  }
}
