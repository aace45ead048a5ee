/** What the code of a single operator does to the machine's store. */
module ExprEffects {
  import opened Words
  import opened Syntax
  import opened Machine
  import opened StackIr
  import opened Emitter
  import opened Fragments

  // ----- which locations an expression may change -----

  predicate Scratch(l: Loc) {
    l == R(RAX) || l == R(RCX) || l == R(RDX)
  }

  /** The number of the stack register or spill slot at a location; -1 for any other. */
  function SlotIndex(size: nat, l: Loc): int {
    match l
    case R(RBX) => 0
    case R(R12) => 1
    case R(R13) => 2
    case R(R14) => 3
    case R(R15) => 4
    case R(R10) => 5
    case R(R11) => 6
    case R(_) => -1
    case M(d) => if -d >= size + 8 && (-d - size) % 8 == 0 then 6 + (-d - size) / 8 else -1
  }

  /** A location that code compiled with b registers in use leaves alone. */
  predicate Kept(fr: Frame, b: nat, l: Loc) {
    !Scratch(l) && SlotIndex(fr.size, l) < b
  }

  ghost predicate Same(fr: Frame, b: nat, s: Store, s': Store) {
    forall l | Kept(fr, b, l) :: Get(s', l) == Get(s, l)
  }

  lemma SlotRoundTrip(fr: Frame, i: nat)
    ensures SlotIndex(fr.size, LocAt(fr, i)) == i && !Scratch(LocAt(fr, i))
  {
  }

  lemma SameTrans(fr: Frame, b: nat, s: Store, s1: Store, s2: Store)
    requires Same(fr, b, s, s1) && Same(fr, b, s1, s2)
    ensures Same(fr, b, s, s2)
  {
  }

  lemma SameFewer(fr: Frame, b: nat, c: nat, s: Store, s': Store)
    requires Same(fr, c, s, s') && b <= c
    ensures Same(fr, b, s, s')
  {
  }

  /** An operand that keeps its value while code above register b runs. */
  predicate Stable(fr: Frame, b: nat, o: Operand) {
    o.At? ==> Kept(fr, b, o.loc)
  }

  lemma StableRead(fr: Frame, b: nat, s: Store, s': Store, o: Operand)
    requires Same(fr, b, s, s') && Stable(fr, b, o)
    ensures Read(s', o) == Read(s, o)
  {
  }

  lemma RegisterStable(fr: Frame, b: nat, k: nat)
    requires k < b
    ensures Stable(fr, b, Op(fr.size, RV(k)))
  {
    SlotRoundTrip(fr, k);
  }

  // ----- straight-line effects -----

  /** Code that ends with w in register b, having changed nothing it should keep. */
  ghost predicate Yields(fr: Frame, b: nat, c: seq<Instr>, s: Store, w: Word) {
    Straight(c) && var r := Effects(c, s);
    r.Some? && Same(fr, b, s, r.value) && Get(r.value, LocAt(fr, b)) == w
  }

  lemma Two(i: Instr, j: Instr, s: Store)
    ensures Effects([i, j], s) ==
      match Effect(i, s) { case Some(s1) => Effect(j, s1) case None => None }
  {
    assert [i, j][1..] == [j];
    if Effect(i, s).Some? {
      One(j, Effect(i, s).value);
    }
  }

  lemma One(i: Instr, s: Store)
    ensures Effects([i], s) == Effect(i, s)
  {
    assert [i][1..] == [];
  }

  lemma LoadYields(fr: Frame, b: nat, o: Operand, s: Store)
    ensures Yields(fr, b, [Mov(LocAt(fr, b), o)], s, Read(s, o))
  {
    One(Mov(LocAt(fr, b), o), s);
    SlotRoundTrip(fr, b);
  }

  lemma NegYields(fr: Frame, b: nat, s: Store)
    ensures Yields(fr, b, UnaryCode(NegI, fr.size, RV(b), RV(b)), s, Negate(Get(s, LocAt(fr, b))))
  {
    var l := LocAt(fr, b);
    Two(Neg(l), Mov(l, At(l)), s);
    SlotRoundTrip(fr, b);
  }

  lemma NotYields(fr: Frame, b: nat, s: Store)
    ensures Yields(fr, b, UnaryCode(NotI, fr.size, RV(b), RV(b)), s, Complement(Get(s, LocAt(fr, b))))
  {
    var l := LocAt(fr, b);
    Two(Not(At(l)), Mov(l, At(l)), s);
    SlotRoundTrip(fr, b);
  }

  lemma TestYields(fr: Frame, b: nat, item: Item, s: Store)
    ensures Yields(fr, b, UnaryCode(Zero, fr.size, item, RV(b)), s, Truth(Read(s, Op(fr.size, item)) == 0))
    ensures Yields(fr, b, UnaryCode(ScEnd, fr.size, item, RV(b)), s, Truth(Read(s, Op(fr.size, item)) != 0))
  {
    SetYields(fr, b, Eq, Op(fr.size, item), s);
    SetYields(fr, b, Ne, Op(fr.size, item), s);
  }

  /** A comparison with zero, turned into 0 or 1. */
  lemma SetYields(fr: Frame, b: nat, op: BinOp, o: Operand, s: Store)
    requires op.Eq? || op.Ne?
    ensures Yields(fr, b, [Cmp(o, Imm(0)), Set(op, LocAt(fr, b))], s, Truth(Holds(op, Read(s, o), 0)))
  {
    Two(Cmp(o, Imm(0)), Set(op, LocAt(fr, b)), s);
    SlotRoundTrip(fr, b);
  }

  predicate Comparison(op: BinOp) {
    op.Eq? || op.Ne? || op.Lt? || op.Le? || op.Gt? || op.Ge?
  }

  lemma CompareYields(fr: Frame, b: nat, op: BinOp, x: Item, y: Item, s: Store)
    requires Comparison(op)
    ensures var v, w := Read(s, Op(fr.size, x)), Read(s, Op(fr.size, y));
      Yields(fr, b, CompareCode(fr.size, op, RV(b), x, y), s, Compute(op, v, w))
  {
    Two(Cmp(Op(fr.size, x), Op(fr.size, y)), Set(op, LocAt(fr, b)), s);
    SlotRoundTrip(fr, b);
  }

  /** The sign extension of rax into rdx is the dividend rax itself. */
  lemma SignExtended(v: Word)
    ensures Dividend(if v < 0 then -1 else 0, v) == v
  {
  }

  lemma WideEffects(fr: Frame, op: BinOp, dst: Loc, x: Item, y: Item, s: Store, b: nat)
    requires Wide(op) && Stable(fr, b, Op(fr.size, y))
    ensures var v, w := Read(s, Op(fr.size, x)), Read(s, Op(fr.size, y));
      var c := [Mov(R(RAX), Op(fr.size, x)), SignExtend,
                if op.Mul? then MulWide(Op(fr.size, y)) else DivWide(Op(fr.size, y)),
                Mov(dst, At(R(if op.Mod? then RDX else RAX)))];
      if Faults(op, v, w) then Effects(c, s) == None
      else
        var r := Effects(c, s);
        && r.Some? && Get(r.value, dst) == Compute(op, v, w)
        && forall l | !Scratch(l) && l != dst :: Get(r.value, l) == Get(s, l)
  {
    hide Compute, Faults, TruncDiv, Wrap, Dividend, Unsigned, InWord, Op;
    var ox, oy := Op(fr.size, x), Op(fr.size, y);
    var v, w := Read(s, ox), Read(s, oy);
    var i0, i1 := Mov(R(RAX), ox), SignExtend;
    var i2 := if op.Mul? then MulWide(oy) else DivWide(oy);
    var i3 := Mov(dst, At(R(if op.Mod? then RDX else RAX)));
    assert [i0, i1, i2, i3][1..] == [i1, i2, i3];
    assert [i1, i2, i3][1..] == [i2, i3];
    var s1 := Effect(i0, s).value;
    var s2 := Effect(i1, s1).value;
    assert Get(s2, R(RAX)) == v && Read(s2, oy) == w;
    Two(i2, i3, s2);
    WideStep(op, oy, s2, v, w);
  }

  lemma WideStep(op: BinOp, oy: Operand, s: Store, v: Word, w: Word)
    requires Wide(op) && Get(s, R(RAX)) == v && Get(s, R(RDX)) == (if v < 0 then -1 else 0) && Read(s, oy) == w
    ensures var e := Effect(if op.Mul? then MulWide(oy) else DivWide(oy), s);
      if Faults(op, v, w) then e == None
      else
        && e.Some? && Get(e.value, R(if op.Mod? then RDX else RAX)) == Compute(op, v, w)
        && forall l | !Scratch(l) :: Get(e.value, l) == Get(s, l)
  {
    SignExtended(v);
  }

  // ----- binary operators -----

  /** Code that yields w, or faults when the operator does. */
  ghost predicate YieldsOrFaults(fr: Frame, b: nat, c: seq<Instr>, s: Store, op: BinOp, v: Word, w: Word) {
    if Faults(op, v, w) then Straight(c) && Effects(c, s) == None
    else Yields(fr, b, c, s, Compute(op, v, w))
  }

  lemma Three(i: Instr, j: Instr, k: Instr, s: Store)
    ensures Effects([i, j, k], s) ==
      match Effect(i, s) { case Some(s1) => Effects([j, k], s1) case None => None }
  {
    assert [i, j, k][1..] == [j, k];
  }

  /** The operands sit in the wrong order and the test for that does not notice: the left one
      is in the first spill slot, the right one in the last register. */
  predicate BadSwap(b: nat, x: Item, y: Item) {
    x.RValue? && y.RValue? && x == RV(b + 1) && y == RV(b) && b == STACK_REGISTERS - 1
  }

  /** Neither operand is a scratch register, nor a register above b + 1. */
  predicate Readable(fr: Frame, b: nat, x: Item, y: Item) {
    Operands(b, x, y) && Stable(fr, b + 2, Op(fr.size, x)) && Stable(fr, b + 2, Op(fr.size, y))
  }

  lemma ScratchYields(fr: Frame, b: nat, op: BinOp, ox: Operand, oy: Operand, s: Store)
    requires Simple(op) && Stable(fr, b + 2, oy)
    ensures var l, t := LocAt(fr, b), LocAt(fr, b + 2);
      Yields(fr, b, [Mov(t, ox), Alu(op, t, oy), Mov(l, At(t))], s, Compute(op, Read(s, ox), Read(s, oy)))
  {
    var l, t := LocAt(fr, b), LocAt(fr, b + 2);
    SlotRoundTrip(fr, b);
    SlotRoundTrip(fr, b + 2);
    var s1 := Effect(Mov(t, ox), s).value;
    assert Read(s1, oy) == Read(s, oy) && Get(s1, t) == Read(s, ox);
    Three(Mov(t, ox), Alu(op, t, oy), Mov(l, At(t)), s);
    Two(Alu(op, t, oy), Mov(l, At(t)), s1);
  }

  lemma LoadAluYields(fr: Frame, b: nat, op: BinOp, ox: Operand, oy: Operand, s: Store)
    requires Simple(op) && Stable(fr, b, oy)
    ensures var l := LocAt(fr, b);
      Yields(fr, b, [Mov(l, ox), Alu(op, l, oy)], s, Compute(op, Read(s, ox), Read(s, oy)))
  {
    var l := LocAt(fr, b);
    SlotRoundTrip(fr, b);
    var s1 := Effect(Mov(l, ox), s).value;
    assert Read(s1, oy) == Read(s, oy) && Get(s1, l) == Read(s, ox);
    Two(Mov(l, ox), Alu(op, l, oy), s);
  }

  lemma SimpleYields(fr: Frame, b: nat, op: BinOp, x: Item, y: Item, s: Store)
    requires Simple(op) && Readable(fr, b, x, y) && !BadSwap(b, x, y)
    requires !y.RValue? ==> Stable(fr, b, Op(fr.size, y))
    ensures var v, w := Read(s, Op(fr.size, x)), Read(s, Op(fr.size, y));
      Yields(fr, b, SimpleCode(fr, op, x, y, b), s, Compute(op, v, w))
  {
    if !x.RValue? || IsSwp(x, y) {
      if y.RValue? {
        ScratchYields(fr, b, op, Op(fr.size, x), Op(fr.size, y), s);
      } else {
        LoadAluYields(fr, b, op, Op(fr.size, x), Op(fr.size, y), s);
      }
    } else {
      assert x == RV(b);
      One(Alu(op, LocAt(fr, b), Op(fr.size, y)), s);
      SlotRoundTrip(fr, b);
    }
  }

  lemma ArithYields(fr: Frame, b: nat, op: BinOp, x: Item, y: Item, s: Store)
    requires Readable(fr, b, x, y) && (Simple(op) ==> !BadSwap(b, x, y))
    requires !y.RValue? ==> Stable(fr, b, Op(fr.size, y))
    ensures var v, w := Read(s, Op(fr.size, x)), Read(s, Op(fr.size, y));
      YieldsOrFaults(fr, b, ArithCode(fr, op, x, y, b), s, op, v, w)
  {
    NeverFaults(op, Read(s, Op(fr.size, x)), Read(s, Op(fr.size, y)));
    hide Compute, Faults, Op, SimpleCode, CompareCode, Effects, Same;
    if Simple(op) {
      SimpleYields(fr, b, op, x, y, s);
    } else if Wide(op) {
      WideYields(fr, b, op, x, y, s);
    } else {
      CompareYields(fr, b, op, x, y, s);
    }
  }

  lemma NeverFaults(op: BinOp, v: Word, w: Word)
    ensures !Wide(op) ==> !Faults(op, v, w)
  {
  }

  lemma WideYields(fr: Frame, b: nat, op: BinOp, x: Item, y: Item, s: Store)
    requires Wide(op) && Stable(fr, b + 2, Op(fr.size, y))
    ensures var v, w := Read(s, Op(fr.size, x)), Read(s, Op(fr.size, y));
      YieldsOrFaults(fr, b, WideCode(fr.size, op, RV(b), x, y), s, op, v, w)
  {
    hide Compute, Faults, Effects;
    SlotRoundTrip(fr, b);
    WideEffects(fr, op, LocAt(fr, b), x, y, s, b + 2);
  }

  /** What the unnoticed swap computes: the right operand combined with itself. */
  lemma BadSwapYields(fr: Frame, op: BinOp, x: Item, y: Item, s: Store)
    requires Simple(op) && BadSwap(STACK_REGISTERS - 1, x, y)
    ensures var w := Read(s, Op(fr.size, y));
      Yields(fr, STACK_REGISTERS - 1, SimpleCode(fr, op, x, y, STACK_REGISTERS - 1), s, Compute(op, w, w))
  {
    var b: nat := STACK_REGISTERS - 1;
    SlotRoundTrip(fr, b);
    One(Alu(op, LocAt(fr, b), Op(fr.size, y)), s);
  }
}
