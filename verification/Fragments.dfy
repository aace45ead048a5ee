/** The code of a tree as a value of its own: compositional, position independent, with
    named labels in place of jumps that are still to be patched. */
module Fragments {
  import opened Words
  import opened Syntax
  import opened Machine
  import opened StackIr
  import opened Emitter

  datatype Label = Sc | Brk | Exit

  datatype Cell = I(i: Instr) | J(jump: Jump, lab: Label)

  type Fragment = seq<Cell>

  function Lift(c: seq<Instr>): (f: Fragment)
    ensures |f| == |c|
  {
    seq(|c|, i requires 0 <= i < |c| => I(c[i]))
  }

  /** A cell as it stands before any patching: open jumps are emitted with a zero offset. */
  function RawCell(c: Cell): Instr {
    match c
    case I(i) => i
    case J(j, _) => Go(j, 0)
  }

  function Raw(f: Fragment): (c: seq<Instr>)
    ensures |c| == |f|
  {
    seq(|f|, i requires 0 <= i < |f| => RawCell(f[i]))
  }

  /** Binds a lab to a position relative to the start of the fragment. */
  function BindCell(c: Cell, pos: int, lab: Label, target: int): Cell {
    if c.J? && c.lab == lab then I(Go(c.jump, target - (pos + 1))) else c
  }

  function Bind(f: Fragment, lab: Label, target: int): (g: Fragment)
    ensures |g| == |f|
  {
    seq(|f|, i requires 0 <= i < |f| => BindCell(f[i], i, lab, target))
  }

  // ----- expressions -----

  datatype Frame = Frame(vars: Offsets, size: nat)

  /** The memory word of a variable. */
  function Local(fr: Frame, x: string): int {
    var offset: int := OffsetOf(fr.vars, x);
    -offset
  }

  function SlotAt(b: nat): Slot {
    if b < STACK_REGISTERS then InReg(b) else Spill(b - 6)
  }

  function RV(b: nat): Item {
    RValue(SlotAt(b))
  }

  function LocAt(fr: Frame, b: nat): Loc {
    SlotLoc(fr.size, SlotAt(b))
  }

  /** The item that an expression compiled with b registers in use leaves on the stack. */
  function ItemOf(fr: Frame, e: Expr, b: nat): Item {
    match e
    case Lit(v) => Literal(v)
    case Var(x) => LValue(Local(fr, x))
    case Unary(Plus, i) => ItemOf(fr, i, b)
    case Comma(_, r) => ItemOf(fr, r, b)
    case _ => RV(b)
  }

  function Used(item: Item): nat {
    if item.RValue? then 1 else 0
  }

  function RvalCode(fr: Frame, item: Item, b: nat): seq<Instr> {
    if item.RValue? then [] else [Mov(LocAt(fr, b), Op(fr.size, item))]
  }

  function TestCode(fr: Frame, item: Item): seq<Instr> {
    [Cmp(Op(fr.size, item), Imm(0))]
  }

  /** The two operands of an operator: registers b and b + 1, in either order, if both are
      rvalues; register b if one is. */
  predicate Operands(b: nat, x: Item, y: Item) {
    if x.RValue? && y.RValue? then (x == RV(b) && y == RV(b + 1)) || (x == RV(b + 1) && y == RV(b))
    else (x.RValue? ==> x == RV(b)) && (y.RValue? ==> y == RV(b))
  }

  function SimpleCode(fr: Frame, op: BinOp, x: Item, y: Item, b: nat): seq<Instr> {
    if !x.RValue? || IsSwp(x, y) then
      if y.RValue? then
        [Mov(LocAt(fr, b + 2), Op(fr.size, x)),
         Alu(op, LocAt(fr, b + 2), Op(fr.size, y)),
         Mov(LocAt(fr, b), At(LocAt(fr, b + 2)))]
      else [Mov(LocAt(fr, b), Op(fr.size, x)), Alu(op, LocAt(fr, b), Op(fr.size, y))]
    else [Alu(op, LocAt(fr, b), Op(fr.size, y))]
  }

  function ArithCode(fr: Frame, op: BinOp, x: Item, y: Item, b: nat): seq<Instr> {
    if Simple(op) then SimpleCode(fr, op, x, y, b)
    else if Wide(op) then WideCode(fr.size, op, RV(b), x, y)
    else CompareCode(fr.size, op, RV(b), x, y)
  }

  function UnaryOpCode(fr: Frame, op: UnOp, item: Item, b: nat): seq<Instr> {
    match op
    case Plus => []
    case Minus => RvalCode(fr, item, b) + UnaryCode(NegI, fr.size, RV(b), RV(b))
    case LogicNot => UnaryCode(Zero, fr.size, item, RV(b))
    case BitNot => UnaryCode(NotI, fr.size, item, RV(b))
  }

  /** An operand of a chain of the same && or || is compiled into the chain. */
  predicate InChain(op: LogicOp, e: Expr) {
    e.Logic? && e.lop == op
  }

  function ChainItem(fr: Frame, op: LogicOp, e: Expr, b: nat): Item {
    if InChain(op, e) then ChainItem(fr, op, e.right, b) else ItemOf(fr, e, b)
  }

  function Code(fr: Frame, e: Expr, b: nat): seq<Instr>
    decreases e, 1
  {
    match e
    case Lit(_) => []
    case Var(_) => []
    case Unary(op, i) => Code(fr, i, b) + UnaryOpCode(fr, op, ItemOf(fr, i, b), b)
    case Cast(i) => Code(fr, i, b) + UnaryCode(Cvt, fr.size, ItemOf(fr, i, b), RV(b))
    case Binary(op, l, r) =>
      if RightFirst(l, r) then
        var y := ItemOf(fr, r, b);
        var x := ItemOf(fr, l, b + Used(y));
        Code(fr, r, b) + Code(fr, l, b + Used(y)) + ArithCode(fr, op, x, y, b)
      else
        var x := ItemOf(fr, l, b);
        var y := ItemOf(fr, r, b + Used(x));
        Code(fr, l, b) + Code(fr, r, b + Used(x)) + ArithCode(fr, op, x, y, b)
    case Logic(op, _, _) =>
      var open := ClosedChain(fr, op, e, b);
      Raw(Bind(open, Sc, |open|)) + UnaryCode(ScEnd, fr.size, RV(b), RV(b))
    case Cond(c, t, f) =>
      var x := Code(fr, t, b) + RvalCode(fr, ItemOf(fr, t, b), b);
      var y := Code(fr, f, b) + RvalCode(fr, ItemOf(fr, f, b), b);
      Code(fr, c, b) + TestCode(fr, ItemOf(fr, c, b)) + [Go(IfZero, |x| + 1)] + x + [Go(Always, |y|)] + y
    case Comma(l, r) => Code(fr, l, b) + Code(fr, r, b)
  }

  /** A chain with its last operand moved into the merge register. */
  function ClosedChain(fr: Frame, op: LogicOp, e: Expr, b: nat): Fragment
    decreases e, 0, 1
  {
    if InChain(op, e) then Chain(fr, op, e, b) + Lift(RvalCode(fr, ChainItem(fr, op, e, b), b)) else []
  }

  function Chain(fr: Frame, op: LogicOp, e: Expr, b: nat): Fragment
    decreases e, if InChain(op, e) then 0 else 2, 0
  {
    if InChain(op, e) then
      Chain(fr, op, e.left, b)
      + Lift(RvalCode(fr, ChainItem(fr, op, e.left, b), b) + TestCode(fr, RV(b)))
      + [J(TestJump(op), Sc)]
      + Chain(fr, op, e.right, b)
    else Lift(Code(fr, e, b))
  }
}
