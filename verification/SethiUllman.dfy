/** The Sethi-Ullman number bounds the registers that compiled code touches, and light enough
    trees are compiled correctly. */
module SethiUllman {
  import opened Basics
  import opened Words
  import opened Syntax
  import opened Machine
  import opened StackIr
  import opened Emitter
  import opened Fragments
  import opened EmitExpr
  import opened ExprEffects
  import opened ExprCorrect

  /** The leaves of a tree; a cast has its type node as one more. */
  function Leaves(e: Expr): nat {
    match e
    case Lit(_) => 1
    case Var(_) => 1
    case Unary(_, i) => Leaves(i)
    case Cast(i) => Leaves(i) + 1
    case Binary(_, l, r) => Leaves(l) + Leaves(r)
    case Logic(_, l, r) => Leaves(l) + Leaves(r)
    case Cond(c, t, f) => Leaves(c) + Leaves(t) + Leaves(f)
    case Comma(l, r) => Leaves(l) + Leaves(r)
  }

  lemma {:induction false} Pow2Grows(j: nat, k: nat)
    requires j <= k
    ensures Pow2(j) <= Pow2(k)
    decreases k
  {
    if j < k {
      Pow2Grows(j, k - 1);
    }
  }

  lemma MeetLeaves(l: nat, r: nat, x: nat, y: nat)
    requires l >= 1 && r >= 1 && x >= Pow2(l - 1) && y >= Pow2(r - 1)
    ensures Meet(l, r) >= 1 && x + y >= Pow2(Meet(l, r) - 1)
  {
  }

  lemma MaxLeaves(l: nat, r: nat, x: nat, y: nat)
    requires l >= 1 && r >= 1 && x >= Pow2(l - 1) && y >= Pow2(r - 1)
    ensures Max(l, r) >= 1 && x + y >= Pow2(Max(l, r) - 1)
  {
  }

  predicate EnoughLeaves(e: Expr) {
    Su(e) >= 1 && Leaves(e) >= Pow2(Su(e) - 1)
  }

  lemma PairLeaves(l: Expr, r: Expr)
    requires EnoughLeaves(l) && EnoughLeaves(r)
    ensures Meet(Su(l), Su(r)) >= 1 && Leaves(l) + Leaves(r) >= Pow2(Meet(Su(l), Su(r)) - 1)
  {
    hide Su, Leaves, Pow2, Meet;
    MeetLeaves(Su(l), Su(r), Leaves(l), Leaves(r));
  }

  lemma CondNumber(c: Expr, t: Expr, f: Expr)
    ensures Su(Cond(c, t, f)) == Meet(Su(c), Max(Su(t), Su(f)))
    ensures Leaves(Cond(c, t, f)) == Leaves(c) + Leaves(t) + Leaves(f)
  {
  }

  lemma CondLeaves(c: Expr, t: Expr, f: Expr)
    requires EnoughLeaves(c) && EnoughLeaves(t) && EnoughLeaves(f)
    ensures EnoughLeaves(Cond(c, t, f))
  {
    CondNumber(c, t, f);
    hide Su, Pow2, Meet, Max, Leaves;
    MaxLeaves(Su(t), Su(f), Leaves(t), Leaves(f));
    MeetLeaves(Su(c), Max(Su(t), Su(f)), Leaves(c), Leaves(t) + Leaves(f));
  }

  lemma CastLeaves(i: Expr)
    requires EnoughLeaves(i)
    ensures EnoughLeaves(Cast(i))
  {
    PairLeaves(i, Lit(0));
  }

  /** A tree with number k has at least 2^(k-1) leaves. */
  lemma {:induction false} SuLeaves(e: Expr)
    ensures EnoughLeaves(e)
  {
    match e
    case Lit(_) =>
    case Var(_) =>
    case Unary(_, i) => SuLeaves(i);
    case Cast(i) => SuLeaves(i); CastLeaves(i);
    case Binary(_, l, r) => SuLeaves(l); SuLeaves(r); PairLeaves(l, r);
    case Logic(_, l, r) => SuLeaves(l); SuLeaves(r); PairLeaves(l, r);
    case Cond(c, t, f) => SuLeaves(c); SuLeaves(t); SuLeaves(f); CondLeaves(c, t, f);
    case Comma(l, r) => SuLeaves(l); SuLeaves(r); PairLeaves(l, r);
  }

  lemma FewLeaves(e: Expr, k: nat)
    requires Leaves(e) < Pow2(k)
    ensures Su(e) <= k
  {
    hide Pow2, Su, Leaves;
    SuLeaves(e);
    if Su(e) > k {
      Pow2Grows(k, Su(e) - 1);
    }
  }

  // ----- locations mentioned -----

  function OperandLocs(o: Operand): set<Loc> {
    if o.At? then {o.loc} else {}
  }

  function Locs(i: Instr): set<Loc> {
    match i
    case Mov(d, o) => {d} + OperandLocs(o)
    case Alu(_, d, o) => {d} + OperandLocs(o)
    case Cmp(a, b) => OperandLocs(a) + OperandLocs(b)
    case Set(_, d) => {d}
    case Neg(d) => {d}
    case Not(o) => OperandLocs(o)
    case SignExtend => {R(RAX), R(RDX)}
    case MulWide(o) => {R(RAX), R(RDX)} + OperandLocs(o)
    case DivWide(o) => {R(RAX), R(RDX)} + OperandLocs(o)
    case Go(_, _) => {}
    case Epilogue => {R(RAX)}
  }

  /** No stack register or spill slot numbered n or above occurs in the code. */
  predicate Below(fr: Frame, c: seq<Instr>, n: nat) {
    forall i, l | 0 <= i < |c| && l in Locs(c[i]) :: SlotIndex(fr.size, l) < n
  }

  lemma BelowAppend(fr: Frame, c: seq<Instr>, d: seq<Instr>, n: nat)
    requires Below(fr, c, n) && Below(fr, d, n)
    ensures Below(fr, c + d, n)
  {
  }

  lemma BelowMore(fr: Frame, c: seq<Instr>, n: nat, k: nat)
    requires Below(fr, c, n) && n <= k
    ensures Below(fr, c, k)
  {
  }

  lemma BelowOne(fr: Frame, i: Instr, n: nat)
    requires forall l | l in Locs(i) :: SlotIndex(fr.size, l) < n
    ensures Below(fr, [i], n)
  {
  }

  /** An item below register n. */
  predicate ItemLow(fr: Frame, item: Item, n: nat) {
    match Op(fr.size, item)
    case Imm(_) => true
    case At(l) => SlotIndex(fr.size, l) < n
  }

  /** Every variable that occurs has its place inside the frame. */
  predicate InFrame(fr: Frame, e: Expr) {
    match e
    case Lit(_) => true
    case Var(x) => OffsetOf(fr.vars, x) <= fr.size
    case Unary(_, i) => InFrame(fr, i)
    case Cast(i) => InFrame(fr, i)
    case Binary(_, l, r) => InFrame(fr, l) && InFrame(fr, r)
    case Logic(_, l, r) => InFrame(fr, l) && InFrame(fr, r)
    case Cond(c, t, f) => InFrame(fr, c) && InFrame(fr, t) && InFrame(fr, f)
    case Comma(l, r) => InFrame(fr, l) && InFrame(fr, r)
  }

  lemma {:induction false} ItemIsLow(fr: Frame, e: Expr, b: nat)
    requires InFrame(fr, e)
    ensures ItemLow(fr, ItemOf(fr, e, b), b + 1)
  {
    SlotRoundTrip(fr, b);
    match e
    case Unary(Plus, i) => ItemIsLow(fr, i, b);
    case Comma(_, r) => ItemIsLow(fr, r, b);
    case _ =>
  }

  lemma ArithBelow(fr: Frame, op: BinOp, x: Item, y: Item, b: nat)
    requires ItemLow(fr, x, b + 3) && ItemLow(fr, y, b + 3)
    ensures Below(fr, ArithCode(fr, op, x, y, b), b + 3)
  {
    SlotRoundTrip(fr, b);
    SlotRoundTrip(fr, b + 2);
    hide SlotIndex, SlotAt;
  }

  lemma UnaryBelow(fr: Frame, i: Ir, x: Item, b: nat)
    requires ItemLow(fr, x, b + 1)
    ensures Below(fr, UnaryCode(i, fr.size, x, RV(b)), b + 1)
  {
    SlotRoundTrip(fr, b);
  }

  lemma RvalBelow(fr: Frame, x: Item, b: nat)
    requires ItemLow(fr, x, b + 1)
    ensures Below(fr, RvalCode(fr, x, b), b + 1)
  {
    SlotRoundTrip(fr, b);
  }

  /** Binding labels changes no locations. */
  lemma BindBelow(fr: Frame, f: Fragment, lab: Label, t: int, n: nat)
    requires Below(fr, Raw(f), n)
    ensures Below(fr, Raw(Bind(f, lab, t)), n)
  {
    forall i, l | 0 <= i < |f| && l in Locs(Raw(Bind(f, lab, t))[i])
      ensures SlotIndex(fr.size, l) < n
    {
      assert l in Locs(Raw(f)[i]);
    }
  }

  lemma TestBelow(fr: Frame, x: Item, b: nat, rel: int, j: Jump)
    requires ItemLow(fr, x, b + 1)
    ensures Below(fr, TestCode(fr, x) + [Go(j, rel)], b + 1)
  {
  }

  // ----- the register bound -----

  /** Code compiled with b registers in use touches none from b + Su(e) + 1 on. */
  predicate Bounded(fr: Frame, e: Expr, b: nat) {
    Below(fr, Code(fr, e, b), b + Su(e) + 1)
  }

  lemma {:induction false} CodeBelow(fr: Frame, e: Expr, b: nat)
    requires InFrame(fr, e)
    ensures Bounded(fr, e, b)
    decreases Size(e), 6
  {
    hide Bounded;
    match e
    case Lit(v) => LeafBelow(fr, e, b);
    case Var(x) => LeafBelow(fr, e, b);
    case Unary(op, i) => UnaryOpBelow(fr, op, i, b);
    case Cast(i) => CastBelow(fr, i, b);
    case Binary(op, l, r) => BinaryBelow(fr, op, l, r, b);
    case Logic(op, l, r) => LogicBelow(fr, op, l, r, b);
    case Cond(c, t, f) => CondBelow(fr, c, t, f, b);
    case Comma(l, r) => CommaBelow(fr, l, r, b);
  }

  lemma LeafBelow(fr: Frame, e: Expr, b: nat)
    requires e.Lit? || e.Var?
    ensures Bounded(fr, e, b)
  {
  }

  lemma {:induction false} UnaryOpBelow(fr: Frame, op: UnOp, i: Expr, b: nat)
    requires InFrame(fr, i)
    ensures Bounded(fr, Unary(op, i), b)
    decreases Size(i), 7
  {
    UnaryShape(fr, op, i, b, None);
    CodeBelow(fr, i, b);
    ItemIsLow(fr, i, b);
    SlotRoundTrip(fr, b);
    SuPositive(i);
    assert Su(Unary(op, i)) == Su(i);
    hide Code, ItemOf, Su, Below;
    var item, n := ItemOf(fr, i, b), b + Su(i) + 1;
    RvalBelow(fr, item, b);
    UnaryBelow(fr, NegI, RV(b), b);
    BelowAppend(fr, RvalCode(fr, item, b), UnaryCode(NegI, fr.size, RV(b), RV(b)), b + 1);
    UnaryBelow(fr, NotI, item, b);
    UnaryBelow(fr, Zero, item, b);
    NothingBelow(fr, b + 1);
    BelowMore(fr, UnaryOpCode(fr, op, item, b), b + 1, n);
    BelowAppend(fr, Code(fr, i, b), UnaryOpCode(fr, op, item, b), n);
  }

  lemma NothingBelow(fr: Frame, n: nat)
    ensures Below(fr, [], n)
  {
  }

  lemma {:induction false} CastBelow(fr: Frame, i: Expr, b: nat)
    requires InFrame(fr, i)
    ensures Bounded(fr, Cast(i), b)
    decreases Size(i), 7
  {
    CastShape(fr, i, b, map[]);
    CodeBelow(fr, i, b);
    ItemIsLow(fr, i, b);
    assert Su(Cast(i)) >= Su(i);
    hide Code, ItemOf, Su, Below;
    var d := UnaryCode(Cvt, fr.size, ItemOf(fr, i, b), RV(b));
    UnaryBelow(fr, Cvt, ItemOf(fr, i, b), b);
    BelowMore(fr, d, b + 1, b + Su(Cast(i)) + 1);
    BelowMore(fr, Code(fr, i, b), b + Su(i) + 1, b + Su(Cast(i)) + 1);
    BelowAppend(fr, Code(fr, i, b), d, b + Su(Cast(i)) + 1);
  }

  lemma {:induction false} CommaBelow(fr: Frame, l: Expr, r: Expr, b: nat)
    requires InFrame(fr, l) && InFrame(fr, r)
    ensures Bounded(fr, Comma(l, r), b)
    decreases Size(l) + Size(r), 7
  {
    CommaShape(fr, l, r, b, None);
    CodeBelow(fr, l, b);
    CodeBelow(fr, r, b);
    var n := b + Su(Comma(l, r)) + 1;
    assert Su(Comma(l, r)) >= Su(l) && Su(Comma(l, r)) >= Su(r);
    hide Code, Su, Below;
    BelowMore(fr, Code(fr, l, b), b + Su(l) + 1, n);
    BelowMore(fr, Code(fr, r, b), b + Su(r) + 1, n);
    BelowAppend(fr, Code(fr, l, b), Code(fr, r, b), n);
  }

  /** The operand evaluated second needs one register fewer than the whole. */
  lemma SecondFits(l: Expr, r: Expr)
    ensures var first, second := if RightFirst(l, r) then r else l, if RightFirst(l, r) then l else r;
      Meet(Su(l), Su(r)) >= Su(first) && Meet(Su(l), Su(r)) >= Su(second) + 1 && Meet(Su(l), Su(r)) >= 2
  {
    SuPositive(l);
    SuPositive(r);
  }

  lemma {:induction false} BinaryBelow(fr: Frame, op: BinOp, l: Expr, r: Expr, b: nat)
    requires InFrame(fr, l) && InFrame(fr, r)
    ensures Bounded(fr, Binary(op, l, r), b)
    decreases Size(l) + Size(r), 8
  {
    hide *;
    BinaryCode(fr, op, l, r, b);
    SecondFits(l, r);
    BinaryNumber(fr, op, l, r, b);
    if RightFirst(l, r) {
      OrderedBelow(fr, op, r, l, b, true, Meet(Su(l), Su(r)));
    } else {
      OrderedBelow(fr, op, l, r, b, false, Meet(Su(l), Su(r)));
    }
  }

  lemma BinaryNumber(fr: Frame, op: BinOp, l: Expr, r: Expr, b: nat)
    ensures var e := Binary(op, l, r);
      Bounded(fr, e, b) <==> Below(fr, Code(fr, e, b), b + Meet(Su(l), Su(r)) + 1)
  {
    hide Code, Below;
  }

  lemma {:induction false} OrderedBelow(fr: Frame, op: BinOp, first: Expr, second: Expr, b: nat, swap: bool, su: nat)
    requires InFrame(fr, first) && InFrame(fr, second)
    requires su >= Su(first) && su >= Su(second) + 1 && su >= 2
    ensures var x := ItemOf(fr, first, b);
      var y := ItemOf(fr, second, b + Used(x));
      Below(fr, Code(fr, first, b) + Code(fr, second, b + Used(x)) + OperatorCode(fr, op, x, y, b, swap), b + su + 1)
    decreases Size(first) + Size(second), 7
  {
    hide Code, ItemOf, Su, Below, ArithCode;
    var x := ItemOf(fr, first, b);
    var b1 := b + Used(x);
    var y := ItemOf(fr, second, b1);
    var c, d, e, n := Code(fr, first, b), Code(fr, second, b1), OperatorCode(fr, op, x, y, b, swap), b + su + 1;
    CodeBelow(fr, first, b);
    CodeBelow(fr, second, b1);
    ItemIsLow(fr, first, b);
    ItemIsLow(fr, second, b1);
    if swap {
      ArithBelow(fr, op, y, x, b);
    } else {
      ArithBelow(fr, op, x, y, b);
    }
    BelowMore(fr, c, b + Su(first) + 1, n);
    BelowMore(fr, d, b1 + Su(second) + 1, n);
    BelowMore(fr, e, b + 3, n);
    BelowAppend(fr, c, d, n);
    BelowAppend(fr, c + d, e, n);
  }

  lemma {:induction false} ArmBelow(fr: Frame, e: Expr, b: nat)
    requires InFrame(fr, e)
    ensures Below(fr, ArmCode(fr, e, b), b + Su(e) + 1)
    decreases Size(e), 7
  {
    CodeBelow(fr, e, b);
    ItemIsLow(fr, e, b);
    hide Code, ItemOf, Su, Below;
    RvalBelow(fr, ItemOf(fr, e, b), b);
    BelowMore(fr, RvalCode(fr, ItemOf(fr, e, b), b), b + 1, b + Su(e) + 1);
    BelowAppend(fr, Code(fr, e, b), RvalCode(fr, ItemOf(fr, e, b), b), b + Su(e) + 1);
  }

  lemma SuCond(c: Expr, t: Expr, f: Expr)
    ensures Su(Cond(c, t, f)) >= Su(c) && Su(Cond(c, t, f)) >= Su(t) && Su(Cond(c, t, f)) >= Su(f)
  {
  }

  lemma {:induction false} CondBelow(fr: Frame, c: Expr, t: Expr, f: Expr, b: nat)
    requires InFrame(fr, c) && InFrame(fr, t) && InFrame(fr, f)
    ensures Bounded(fr, Cond(c, t, f), b)
    decreases Size(c) + Size(t) + Size(f), 8
  {
    hide Code, ItemOf, Su, Below, ArmCode;
    CondShape(fr, c, t, f, b, None);
    CodeBelow(fr, c, b);
    ArmBelow(fr, t, b);
    ArmBelow(fr, f, b);
    ItemIsLow(fr, c, b);
    SuCond(c, t, f);
    var n := b + Su(Cond(c, t, f)) + 1;
    var cc, ic, x, y := Code(fr, c, b), ItemOf(fr, c, b), ArmCode(fr, t, b), ArmCode(fr, f, b);
    var test := TestCode(fr, ic) + [Go(IfZero, |x| + 1)];
    Assoc(cc, TestCode(fr, ic), [Go(IfZero, |x| + 1)]);
    TestBelow(fr, ic, b, |x| + 1, IfZero);
    BelowMore(fr, test, b + 1, n);
    BelowMore(fr, cc, b + Su(c) + 1, n);
    BelowMore(fr, x, b + Su(t) + 1, n);
    BelowMore(fr, y, b + Su(f) + 1, n);
    BelowOne(fr, Go(Always, |y|), n);
    BelowAppend(fr, cc, test, n);
    BelowAppend(fr, cc + test, x, n);
    BelowAppend(fr, cc + test + x, [Go(Always, |y|)], n);
    BelowAppend(fr, cc + test + x + [Go(Always, |y|)], y, n);
  }

  lemma {:induction false} ChainBelow(fr: Frame, op: LogicOp, e: Expr, b: nat)
    requires InFrame(fr, e)
    ensures Below(fr, Raw(Chain(fr, op, e, b)), b + Su(e) + 1) && ItemLow(fr, ChainItem(fr, op, e, b), b + 1)
    decreases Size(e), if InChain(op, e) then 0 else 7
  {
    if InChain(op, e) {
      LinkBelow(fr, op, e.left, e.right, b);
    } else {
      RawLift(Code(fr, e, b));
      CodeBelow(fr, e, b);
      ItemIsLow(fr, e, b);
    }
  }

  lemma {:induction false} LinkBelow(fr: Frame, op: LogicOp, l: Expr, r: Expr, b: nat)
    requires InFrame(fr, l) && InFrame(fr, r)
    ensures var e := Logic(op, l, r);
      Below(fr, Raw(Chain(fr, op, e, b)), b + Su(e) + 1) && ItemLow(fr, ChainItem(fr, op, e, b), b + 1)
    decreases Size(l) + Size(r), 8
  {
    var e := Logic(op, l, r);
    var n := b + Su(e) + 1;
    LinkShape(fr, op, l, r, b, map[]);
    ChainBelow(fr, op, l, b);
    ChainBelow(fr, op, r, b);
    assert Su(e) >= Su(l) && Su(e) >= Su(r);
    hide Chain, ChainItem, Su, Below;
    var f, item, g := Chain(fr, op, l, b), ChainItem(fr, op, l, b), Chain(fr, op, r, b);
    var test := TestCells(fr, op, item, b);
    CellsBelow(fr, op, item, b);
    RawAppend(f, test);
    RawAppend(f + test, g);
    BelowMore(fr, Raw(f), b + Su(l) + 1, n);
    BelowMore(fr, Raw(test), b + 1, n);
    BelowMore(fr, Raw(g), b + Su(r) + 1, n);
    BelowAppend(fr, Raw(f), Raw(test), n);
    BelowAppend(fr, Raw(f) + Raw(test), Raw(g), n);
  }

  lemma CellsBelow(fr: Frame, op: LogicOp, item: Item, b: nat)
    requires ItemLow(fr, item, b + 1)
    ensures Below(fr, Raw(TestCells(fr, op, item, b)), b + 1)
  {
    var rv := RvalCode(fr, item, b);
    var j := [J(TestJump(op), Sc)];
    RawAppend(Lift(rv + TestCode(fr, RV(b))), j);
    RawLift(rv + TestCode(fr, RV(b)));
    assert Raw(j) == [Go(TestJump(op), 0)];
    SlotRoundTrip(fr, b);
    hide SlotIndex;
    RvalBelow(fr, item, b);
    TestBelow(fr, RV(b), b, 0, TestJump(op));
    Assoc(rv, TestCode(fr, RV(b)), [Go(TestJump(op), 0)]);
    BelowAppend(fr, rv, TestCode(fr, RV(b)) + [Go(TestJump(op), 0)], b + 1);
  }

  lemma {:induction false} LogicBelow(fr: Frame, op: LogicOp, l: Expr, r: Expr, b: nat)
    requires InFrame(fr, l) && InFrame(fr, r)
    ensures Bounded(fr, Logic(op, l, r), b)
    decreases Size(l) + Size(r), 9
  {
    hide *;
    var e := Logic(op, l, r);
    var n := b + Su(e) + 1;
    LogicShape(fr, e, b, None);
    LinkBelow(fr, op, l, r, b);
    var f, item := Chain(fr, op, e, b), ChainItem(fr, op, e, b);
    var rv, tail := RvalCode(fr, item, b), UnaryCode(ScEnd, fr.size, RV(b), RV(b));
    var open := f + Lift(rv);
    RvalBelow(fr, item, b);
    ScEndBelow(fr, b);
    RawAppend(f, Lift(rv));
    RawLift(rv);
    BelowMore(fr, rv, b + 1, n);
    BelowMore(fr, tail, b + 1, n);
    BelowAppend(fr, Raw(f), rv, n);
    BindBelow(fr, open, Sc, |open|, n);
    BelowAppend(fr, Raw(Bind(open, Sc, |open|)), tail, n);
    LogicBounded(fr, e, b);
  }

  lemma ScEndBelow(fr: Frame, b: nat)
    ensures Below(fr, UnaryCode(ScEnd, fr.size, RV(b), RV(b)), b + 1)
  {
    SlotRoundTrip(fr, b);
    hide SlotIndex;
    UnaryBelow(fr, ScEnd, RV(b), b);
  }

  lemma LogicBounded(fr: Frame, e: Expr, b: nat)
    requires Below(fr, Code(fr, e, b), b + Su(e) + 1)
    ensures Bounded(fr, e, b)
  {
    hide Code, Below;
  }

  /** An expression with fewer than 64 leaves, on an empty stack, stays in the seven registers. */
  lemma NeverSpills(fr: Frame, e: Expr)
    requires InFrame(fr, e) && Leaves(e) < 64
    ensures Below(fr, Code(fr, e, 0), STACK_REGISTERS)
    ensures forall i, k: nat | 0 <= i < |Code(fr, e, 0)| && k >= STACK_REGISTERS ::
              LocAt(fr, k) !in Locs(Code(fr, e, 0)[i])
  {
    assert Pow2(6) == 64;
    FewLeaves(e, 6);
    CodeBelow(fr, e, 0);
    hide Code, Su, Pow2;
    BelowMore(fr, Code(fr, e, 0), Su(e) + 1, STACK_REGISTERS);
    forall i, k: nat | 0 <= i < |Code(fr, e, 0)| && k >= STACK_REGISTERS
      ensures LocAt(fr, k) !in Locs(Code(fr, e, 0)[i])
    {
      SlotRoundTrip(fr, k);
    }
  }

  // ----- the swap test on light trees -----

  /** The operand of every bitwise not ends in a register. */
  predicate NotsRegisters(e: Expr) {
    match e
    case Lit(_) => true
    case Var(_) => true
    case Unary(op, i) => NotsRegisters(i) && (op.BitNot? ==> InRegister(i))
    case Cast(i) => NotsRegisters(i)
    case Binary(_, l, r) => NotsRegisters(l) && NotsRegisters(r)
    case Logic(_, l, r) => NotsRegisters(l) && NotsRegisters(r)
    case Cond(c, t, f) => NotsRegisters(c) && NotsRegisters(t) && NotsRegisters(f)
    case Comma(l, r) => NotsRegisters(l) && NotsRegisters(r)
  }

  predicate InRegister(e: Expr) {
    match e
    case Lit(_) => false
    case Var(_) => false
    case Unary(Plus, i) => InRegister(i)
    case Comma(_, r) => InRegister(r)
    case _ => true
  }

  lemma {:induction false} RegisterItem(fr: Frame, e: Expr, b: nat)
    ensures ItemOf(fr, e, b).RValue? <==> InRegister(e)
  {
    match e
    case Unary(Plus, i) => RegisterItem(fr, i, b);
    case Comma(_, r) => RegisterItem(fr, r, b);
    case _ =>
  }

  /** A tree that fits the seven registers has no unnoticed swap. */
  lemma {:induction false} LightIsSafe(fr: Frame, e: Expr, b: nat)
    requires NotsRegisters(e) && b + Su(e) <= STACK_REGISTERS
    ensures Safe(fr, e, b)
  {
    match e
    case Lit(_) =>
    case Var(_) =>
    case Unary(_, i) => LightIsSafe(fr, i, b); RegisterItem(fr, i, b);
    case Cast(i) => LightIsSafe(fr, i, b);
    case Binary(op, l, r) =>
      SecondFits(l, r);
      if RightFirst(l, r) {
        LightIsSafe(fr, r, b);
        LightIsSafe(fr, l, b + Used(ItemOf(fr, r, b)));
      } else {
        LightIsSafe(fr, l, b);
        LightIsSafe(fr, r, b + Used(ItemOf(fr, l, b)));
      }
    case Logic(_, l, r) => LightIsSafe(fr, l, b); LightIsSafe(fr, r, b);
    case Cond(c, t, f) => LightIsSafe(fr, c, b); LightIsSafe(fr, t, b); LightIsSafe(fr, f, b);
    case Comma(l, r) => LightIsSafe(fr, l, b); LightIsSafe(fr, r, b);
  }

  /** An operator's swap goes unnoticed in exactly one situation: both operands end in registers, the
      right one is heavier, and six registers are in use. */
  lemma UnnoticedExactly(fr: Frame, op: BinOp, l: Expr, r: Expr, b: nat)
    ensures Unnoticed(fr, op, l, r, b) <==>
      Simple(op) && RightFirst(l, r) && InRegister(l) && InRegister(r) && b == STACK_REGISTERS - 1
  {
    RegisterItem(fr, r, b);
    ItemRegister(fr, r, b);
    RegisterItem(fr, l, b + Used(ItemOf(fr, r, b)));
    ItemRegister(fr, l, b + Used(ItemOf(fr, r, b)));
  }

  /** Without safety there are more than 2^k leaves, where k is the number of the registers that were
      still free at the start. */
  predicate Heavy(e: Expr, b: nat) {
    b < STACK_REGISTERS && Leaves(e) > Pow2(STACK_REGISTERS - b)
  }

  lemma {:induction false} UnsafeIsHeavy(fr: Frame, e: Expr, b: nat)
    requires NotsRegisters(e) && !Safe(fr, e, b)
    ensures Heavy(e, b)
    decreases Size(e)
  {
    match e
    case Unary(_, i) => RegisterItem(fr, i, b); UnsafeIsHeavy(fr, i, b);
    case Cast(i) => UnsafeIsHeavy(fr, i, b);
    case Binary(op, l, r) => UnsafeBinary(fr, op, l, r, b);
    case Logic(_, l, r) => UnsafeIsHeavy(fr, if Safe(fr, l, b) then r else l, b);
    case Cond(c, t, f) => UnsafeIsHeavy(fr, if !Safe(fr, c, b) then c else if !Safe(fr, t, b) then t else f, b);
    case Comma(l, r) => UnsafeIsHeavy(fr, if Safe(fr, l, b) then r else l, b);
  }

  lemma {:induction false} UnsafeBinary(fr: Frame, op: BinOp, l: Expr, r: Expr, b: nat)
    requires NotsRegisters(Binary(op, l, r)) && !Safe(fr, Binary(op, l, r), b)
    ensures Heavy(Binary(op, l, r), b)
    decreases Size(l) + Size(r)
  {
    var first, second := if RightFirst(l, r) then r else l, if RightFirst(l, r) then l else r;
    var b1 := b + Used(ItemOf(fr, first, b));
    assert Leaves(Binary(op, l, r)) == Leaves(first) + Leaves(second) && Su(first) >= Su(second);
    SuLeaves(first);
    SuLeaves(second);
    if !Safe(fr, first, b) {
      UnsafeIsHeavy(fr, first, b);
    } else if !Safe(fr, second, b1) {
      UnsafeIsHeavy(fr, second, b1);
      if b1 > b {
        if Su(second) <= STACK_REGISTERS - b1 {
          LightIsSafe(fr, second, b1);
        }
        SecondHeavy(first, second, b);
      }
    } else {
      UnnoticedExactly(fr, op, l, r, b);
      assert Pow2(1) == 2;
      Pow2Grows(1, Su(first) - 1);
    }
  }

  lemma SecondHeavy(first: Expr, second: Expr, b: nat)
    requires b + 1 < STACK_REGISTERS && Leaves(second) > Pow2(STACK_REGISTERS - b - 1)
    requires Su(first) > STACK_REGISTERS - b - 1 && Leaves(first) >= Pow2(Su(first) - 1)
    ensures Leaves(first) + Leaves(second) > Pow2(STACK_REGISTERS - b)
  {
    Pow2Grows(STACK_REGISTERS - b - 1, Su(first) - 1);
    hide Su, Leaves;
  }

  /** Up to 128 leaves are light enough on an empty stack. */
  lemma SmallIsSafe(fr: Frame, e: Expr)
    requires NotsRegisters(e) && Leaves(e) <= 128
    ensures Safe(fr, e, 0)
  {
    assert Pow2(7) == 128;
    if !Safe(fr, e, 0) {
      UnsafeIsHeavy(fr, e, 0);
    }
  }

  /** Bitwise nots of registers are all that is left to ask of a run. */
  lemma {:induction false} NotsRun(fr: Frame, e: Expr, b: nat)
    requires NotsRegisters(e)
    ensures Runs(fr, e, b)
  {
    match e
    case Lit(_) =>
    case Var(_) =>
    case Unary(_, i) => NotsRun(fr, i, b); RegisterItem(fr, i, b);
    case Cast(i) => NotsRun(fr, i, b);
    case Binary(_, l, r) =>
      if RightFirst(l, r) {
        NotsRun(fr, r, b);
        NotsRun(fr, l, b + Used(ItemOf(fr, r, b)));
      } else {
        NotsRun(fr, l, b);
        NotsRun(fr, r, b + Used(ItemOf(fr, l, b)));
      }
    case Logic(_, l, r) => NotsRun(fr, l, b); NotsRun(fr, r, b);
    case Cond(c, t, f) => NotsRun(fr, c, b); NotsRun(fr, t, b); NotsRun(fr, f, b);
    case Comma(l, r) => NotsRun(fr, l, b); NotsRun(fr, r, b);
  }
}
