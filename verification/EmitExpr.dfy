/** Emitting an assembled expression appends exactly the code of its tree. */
module EmitExpr {
  import opened Basics
  import opened Words
  import opened Syntax
  import opened Machine
  import opened StackIr
  import opened Emitter
  import opened Fragments

  // ----- pending jumps -----

  predicate IsOpen(c: Cell, lab: Label) {
    c.J? && c.lab == lab
  }

  /** The end positions of the jumps to a label, for a fragment placed at base. */
  function Pending(f: Fragment, lab: Label, base: int): seq<int> {
    if f == [] then []
    else
      var n := |f| - 1;
      Pending(f[..n], lab, base) + (if IsOpen(f[n], lab) then [base + |f|] else [])
  }

  lemma {:induction false} PendingAppend(f: Fragment, g: Fragment, lab: Label, base: int)
    ensures Pending(f + g, lab, base) == Pending(f, lab, base) + Pending(g, lab, base + |f|)
    decreases |g|
  {
    if g == [] {
      assert f + g == f;
    } else {
      var n := |g| - 1;
      assert (f + g)[..|f + g| - 1] == f + g[..n];
      PendingAppend(f, g[..n], lab, base);
    }
  }

  lemma {:induction false} PendingLift(c: seq<Instr>, lab: Label, base: int)
    ensures Pending(Lift(c), lab, base) == []
    decreases |c|
  {
    if c == [] {
    } else {
      var n := |c| - 1;
      assert Lift(c)[..n] == Lift(c[..n]);
      PendingLift(c[..n], lab, base);
    }
  }

  lemma {:induction false} PendingIn(f: Fragment, lab: Label, base: int, p: int)
    ensures p in Pending(f, lab, base) <==> base < p <= base + |f| && IsOpen(f[p - 1 - base], lab)
    decreases |f|
  {
    if f == [] {
    } else {
      PendingIn(f[..|f| - 1], lab, base, p);
    }
  }

  lemma RawAppend(f: Fragment, g: Fragment)
    ensures Raw(f + g) == Raw(f) + Raw(g)
  {
  }

  lemma RawLift(c: seq<Instr>)
    ensures Raw(Lift(c)) == c
  {
  }

  /** Patching touches the listed jumps and nothing else, whatever their order. */
  lemma {:induction false} PatchAllAt(code: seq<Instr>, ps: seq<int>, target: int, i: nat)
    requires i < |code|
    ensures |PatchAll(code, ps, target)| == |code|
    ensures PatchAll(code, ps, target)[i] ==
      if i + 1 in ps && code[i].Go? then code[i].(rel := target - (i + 1)) else code[i]
    decreases |ps|
  {
    if ps == [] {
    } else {
      var n := |ps| - 1;
      PatchAllAt(Patch(code, ps[n], target), ps[..n], target, i);
      assert i + 1 in ps <==> i + 1 in ps[..n] || i + 1 == ps[n] by {
        assert ps == ps[..n] + [ps[n]];
      }
    }
  }

  lemma {:induction false} PatchAllLength(code: seq<Instr>, ps: seq<int>, target: int)
    ensures |PatchAll(code, ps, target)| == |code|
    decreases |ps|
  {
    if ps == [] {
    } else {
      PatchAllLength(Patch(code, ps[|ps| - 1], target), ps[..|ps| - 1], target);
    }
  }

  /** Two lists of positions, in whatever order. */
  ghost predicate SamePositions(ps: seq<int>, qs: seq<int>) {
    forall p :: p in ps <==> p in qs
  }

  lemma SameSelf(ps: seq<int>)
    ensures SamePositions(ps, ps)
  {
  }

  /** Patching the pending jumps of a fragment binds its label. */
  lemma PatchOpen(pre: seq<Instr>, f: Fragment, ps: seq<int>, lab: Label, t: int)
    requires SamePositions(ps, Pending(f, lab, |pre|))
    ensures PatchAll(pre + Raw(f), ps, |pre| + t) == pre + Raw(Bind(f, lab, t))
  {
    var code := pre + Raw(f);
    var left, right := PatchAll(code, ps, |pre| + t), pre + Raw(Bind(f, lab, t));
    PatchAllLength(code, ps, |pre| + t);
    forall i: nat | i < |code|
      ensures left[i] == right[i]
    {
      PatchAllAt(code, ps, |pre| + t, i);
      PendingIn(f, lab, |pre|, i + 1);
      PatchOpenAt(pre, f, lab, t, i);
    }
  }

  lemma PatchOpenAt(pre: seq<Instr>, f: Fragment, lab: Label, t: int, i: nat)
    requires i < |pre| + |f|
    ensures (pre + Raw(f))[i] == if i < |pre| then pre[i] else RawCell(f[i - |pre|])
    ensures (pre + Raw(Bind(f, lab, t)))[i] ==
      if i < |pre| then pre[i] else RawCell(BindCell(f[i - |pre|], i - |pre|, lab, t))
  {
  }

  // ----- the emitter's state around an expression -----

  predicate Canon(st: Em, fr: Frame, b: nat) {
    && st.ints == b
    && st.spills == (if b <= STACK_REGISTERS then 0 else b - STACK_REGISTERS)
    && st.frame == fr.size
  }

  /** The state with code appended and one more item on the operand stack. */
  function After(st: Em, c: seq<Instr>, item: Item): Em {
    Emit(if item.RValue? then PushR(st) else Push(st, item), c)
  }

  function AddPending(sc: seq<seq<int>>, ps: seq<int>): seq<seq<int>>
    requires |sc| > 0
  {
    sc[..|sc| - 1] + [sc[|sc| - 1] + ps]
  }

  lemma {:induction false} ItemRegister(fr: Frame, e: Expr, b: nat)
    ensures ItemOf(fr, e, b).RValue? ==> ItemOf(fr, e, b) == RV(b)
  {
    match e
    case Unary(Plus, i) => ItemRegister(fr, i, b);
    case Comma(_, r) => ItemRegister(fr, r, b);
    case _ =>
  }

  lemma {:induction false} ChainRegister(fr: Frame, op: LogicOp, e: Expr, b: nat)
    ensures ChainItem(fr, op, e, b).RValue? ==> ChainItem(fr, op, e, b) == RV(b)
  {
    if InChain(op, e) {
      ChainRegister(fr, op, e.right, b);
    } else {
      ItemRegister(fr, e, b);
    }
  }

  lemma PopAfter(st: Em, fr: Frame, b: nat, c: seq<Instr>, item: Item)
    requires Canon(st, fr, b) && (item.RValue? ==> item == RV(b))
    ensures |After(st, c, item).stack| > 0
    ensures Top(After(st, c, item)) == item
    ensures PopItem(After(st, c, item)) == Emit(st, c)
    ensures Canon(After(st, c, item), fr, b + Used(item))
  {
    assert After(st, c, item).stack[..|st.stack|] == st.stack;
  }

  lemma RvalAfter(st: Em, fr: Frame, b: nat, c: seq<Instr>, item: Item)
    requires Canon(st, fr, b) && (item.RValue? ==> item == RV(b))
    ensures ToRval(After(st, c, item)) == After(st, c + RvalCode(fr, item, b), RV(b))
  {
    PopAfter(st, fr, b, c, item);
    assert st.code + c + RvalCode(fr, item, b) == st.code + (c + RvalCode(fr, item, b));
  }

  lemma Unary1After(st: Em, fr: Frame, b: nat, c: seq<Instr>, item: Item, i: Ir)
    requires Canon(st, fr, b) && (item.RValue? ==> item == RV(b))
    ensures |After(st, c, item).stack| > 0
    ensures Unary1(After(st, c, item), i) == After(st, c + UnaryCode(i, fr.size, item, RV(b)), RV(b))
  {
    PopAfter(st, fr, b, c, item);
    Assoc(st.code, c, UnaryCode(i, fr.size, item, RV(b)));
  }

  /** The state with code appended and two more items on the operand stack. */
  predicate HasOperands(st: Em, fr: Frame, b: nat, c: seq<Instr>, x: Item, y: Item, st2: Em) {
    && Canon(st, fr, b)
    && Canon(st2, fr, b + Used(x) + Used(y))
    && Operands(b, x, y)
    && st2 == st.(stack := st.stack + [x, y], ints := st2.ints, spills := st2.spills, code := st.code + c)
  }

  lemma PopOperands(st: Em, fr: Frame, b: nat, c: seq<Instr>, x: Item, y: Item, st2: Em)
    requires HasOperands(st, fr, b, c, x, y, st2)
    ensures |st2.stack| > 1 && Top(st2) == y && Second(st2) == x
    ensures PopItem(PopItem(st2)) == Emit(st, c)
  {
    assert st2.stack[..|st2.stack| - 1] == st.stack + [x];
    assert (st.stack + [x])[..|st.stack|] == st.stack;
  }

  /** Scratch registers two above the result are taken and given back. */
  lemma PopScratch(base: Em, fr: Frame, b: nat, c: seq<Instr>)
    requires Canon(base, fr, b + 1)
    ensures Top(PushR(PushR(base))) == RV(b + 2)
    ensures PopItem(PopItem(Emit(PushR(PushR(base)), c))) == Emit(base, c)
  {
    var one := PushR(base);
    var two := PushR(one);
    assert two.stack[..|two.stack| - 1] == one.stack;
    assert one.stack[..|one.stack| - 1] == base.stack;
  }

  lemma SimpleEmitted(fr: Frame, b: nat, x: Item, y: Item, st2: Em, op: BinOp, base: Em)
    requires |st2.stack| > 1 && Top(st2) == y && Second(st2) == x && st2.frame == fr.size
    requires base == PushR(PopItem(PopItem(st2))) && Top(base) == RV(b) && Canon(base, fr, b + 1)
    ensures BinaryOp(st2, op) == Emit(base, SimpleCode(fr, op, x, y, b))
  {
    PopScratch(base, fr, b, SimpleCode(fr, op, x, y, b));
    hide PushR, PopItem, Canon, IsSwp, Op, RV, Top, Second;
  }

  lemma SimpleAfter(st: Em, fr: Frame, b: nat, c: seq<Instr>, x: Item, y: Item, st2: Em, op: BinOp)
    requires HasOperands(st, fr, b, c, x, y, st2)
    ensures |st2.stack| > 1
    ensures BinaryOp(st2, op) == After(Emit(st, c), SimpleCode(fr, op, x, y, b), RV(b))
  {
    hide BinaryOp, SimpleCode, Operands;
    PopOperands(st, fr, b, c, x, y, st2);
    var base := PushR(Emit(st, c));
    assert base == After(Emit(st, c), [], RV(b));
    assert Top(base) == RV(b) && Canon(base, fr, b + 1);
    SimpleEmitted(fr, b, x, y, st2, op, base);
  }

  /** Two operands on the stack, in either register order, become one result. */
  lemma ArithmeticAfter(st: Em, fr: Frame, b: nat, c: seq<Instr>, x: Item, y: Item, st2: Em, op: BinOp)
    requires HasOperands(st, fr, b, c, x, y, st2)
    ensures |st2.stack| > 1
    ensures Arithmetic(st2, op) == After(st, c + ArithCode(fr, op, x, y, b), RV(b))
  {
    hide BinaryOp, SimpleCode, Operands;
    var d := ArithCode(fr, op, x, y, b);
    PopOperands(st, fr, b, c, x, y, st2);
    assert Arithmetic(st2, op) == After(Emit(st, c), d, RV(b)) by {
      if Simple(op) {
        SimpleAfter(st, fr, b, c, x, y, st2, op);
      }
    }
    Assoc(st.code, c, d);
  }

  // ----- expressions -----

  function Size(e: Expr): nat {
    match e
    case Lit(_) => 1
    case Var(_) => 1
    case Unary(_, i) => 1 + Size(i)
    case Cast(i) => 1 + Size(i)
    case Binary(_, l, r) => 1 + Size(l) + Size(r)
    case Logic(_, l, r) => 1 + Size(l) + Size(r)
    case Cond(c, t, f) => 1 + Size(c) + Size(t) + Size(f)
    case Comma(l, r) => 1 + Size(l) + Size(r)
  }

  /** Emission of a list from a state is known to end in another state. */
  predicate Emits(st: Em, irs: seq<Ir>, st': Em) {
    EmitAll(st, irs) == Some(st')
  }

  lemma Then1(st: Em, irs: seq<Ir>, st1: Em, i: Ir)
    requires Emits(st, irs, st1) && Enabled(st1, i)
    ensures Emits(st, irs + [i], Next(st1, i))
  {
    EmitAppend(st, irs, [i]);
    assert [i][1..] == [];
    assert EmitAll(Next(st1, i), []) == Some(Next(st1, i));
  }

  lemma ThenAll(st: Em, irs: seq<Ir>, st1: Em, more: seq<Ir>, st2: Em)
    requires Emits(st, irs, st1) && Emits(st1, more, st2)
    ensures Emits(st, irs + more, st2)
  {
    EmitAppend(st, irs, more);
  }

  /** Emitting a closed expression appends its code and pushes its item, and nothing else. */
  predicate EmitsExpr(fr: Frame, e: Expr, b: nat, st: Em, parent: Option<LogicOp>) {
    Emits(st, Assemble(e, fr.vars, parent), After(st, Code(fr, e, b), ItemOf(fr, e, b)))
  }

  lemma {:induction false} EmitClosed(fr: Frame, e: Expr, b: nat, st: Em, parent: Option<LogicOp>)
    requires Canon(st, fr, b) && (parent.Some? ==> !InChain(parent.value, e))
    ensures EmitsExpr(fr, e, b, st, parent)
    decreases Size(e), 6
  {
    hide EmitsExpr;
    match e
    case Lit(v) => EmitLit(fr, v, b, st, parent);
    case Var(x) => EmitVar(fr, x, b, st, parent);
    case Unary(op, i) => EmitUnary(fr, op, i, b, st, parent);
    case Cast(i) => EmitCast(fr, i, b, st, parent);
    case Binary(op, l, r) => EmitReordered(fr, op, l, r, b, st, parent);
    case Logic(op, l, r) => EmitLogic(fr, op, l, r, b, st, parent);
    case Cond(c, t, f) => EmitCond(fr, c, t, f, b, st, parent);
    case Comma(l, r) => EmitComma(fr, l, r, b, st, parent);
  }

  lemma EmitLit(fr: Frame, v: Word, b: nat, st: Em, parent: Option<LogicOp>)
    ensures EmitsExpr(fr, Lit(v), b, st, parent)
  {
    EmitLeaf(st, PushI(v), Literal(v));
  }

  lemma EmitVar(fr: Frame, x: string, b: nat, st: Em, parent: Option<LogicOp>)
    ensures EmitsExpr(fr, Var(x), b, st, parent)
  {
    EmitLeaf(st, LStack(OffsetOf(fr.vars, x)), ItemOf(fr, Var(x), b));
  }

  lemma {:induction false} EmitReordered(fr: Frame, op: BinOp, l: Expr, r: Expr, b: nat, st: Em,
                                         parent: Option<LogicOp>)
    requires Canon(st, fr, b)
    ensures EmitsExpr(fr, Binary(op, l, r), b, st, parent)
    decreases Size(l) + Size(r), 8
  {
    hide Code, Assemble, ItemOf, EmitAll, ArithCode, After, Canon;
    BinaryShape(fr, op, l, r, b, parent);
    if RightFirst(l, r) {
      EmitBinary(fr, op, r, l, b, st, true);
    } else {
      EmitBinary(fr, op, l, r, b, st, false);
    }
  }

  lemma CommaShape(fr: Frame, l: Expr, r: Expr, b: nat, parent: Option<LogicOp>)
    ensures Code(fr, Comma(l, r), b) == Code(fr, l, b) + Code(fr, r, b)
    ensures ItemOf(fr, Comma(l, r), b) == ItemOf(fr, r, b)
    ensures Assemble(Comma(l, r), fr.vars, parent)
         == Assemble(l, fr.vars, None) + [Pop] + Assemble(r, fr.vars, None)
  {
  }

  lemma EmitLeaf(st: Em, i: Ir, item: Item)
    requires Enabled(st, i) && Next(st, i) == Push(st, item) && !item.RValue?
    ensures Emits(st, [i], After(st, [], item))
  {
    Then1(st, [], st, i);
    assert [] + [i] == [i];
    NoMore(st.code);
  }

  lemma {:induction false} EmitCast(fr: Frame, i: Expr, b: nat, st: Em, parent: Option<LogicOp>)
    requires Canon(st, fr, b)
    ensures EmitsExpr(fr, Cast(i), b, st, parent)
    decreases Size(i), 7
  {
    EmitClosed(fr, i, b, st, None);
    ItemRegister(fr, i, b);
    Unary1After(st, fr, b, Code(fr, i, b), ItemOf(fr, i, b), Cvt);
    Then1(st, Assemble(i, fr.vars, None), After(st, Code(fr, i, b), ItemOf(fr, i, b)), Cvt);
  }

  lemma {:induction false} EmitComma(fr: Frame, l: Expr, r: Expr, b: nat, st: Em, parent: Option<LogicOp>)
    requires Canon(st, fr, b)
    ensures EmitsExpr(fr, Comma(l, r), b, st, parent)
    decreases Size(l) + Size(r), 7
  {
    hide Code, ItemOf, EmitAll, Next, Enabled;
    CommaShape(fr, l, r, b, parent);
    var x, y := Code(fr, l, b), Code(fr, r, b);
    EmitClosed(fr, l, b, st, None);
    ItemRegister(fr, l, b);
    PopStep(fr, b, st, x, ItemOf(fr, l, b));
    Then1(st, Assemble(l, fr.vars, None), After(st, x, ItemOf(fr, l, b)), Pop);
    EmitClosed(fr, r, b, Emit(st, x), None);
    ThenAll(st, Assemble(l, fr.vars, None) + [Pop], Emit(st, x), Assemble(r, fr.vars, None),
            After(Emit(st, x), y, ItemOf(fr, r, b)));
    Assoc(st.code, x, y);
  }

  lemma {:induction false} EmitUnary(fr: Frame, op: UnOp, i: Expr, b: nat, st: Em, parent: Option<LogicOp>)
    requires Canon(st, fr, b)
    ensures EmitsExpr(fr, Unary(op, i), b, st, parent)
    decreases Size(i), 7
  {
    EmitClosed(fr, i, b, st, None);
    ItemRegister(fr, i, b);
    UnaryShape(fr, op, i, b, parent);
    hide Code, Assemble, ItemOf;
    EmitTail(fr, op, b, st, Assemble(i, fr.vars, None), Code(fr, i, b), ItemOf(fr, i, b));
  }

  lemma UnaryShape(fr: Frame, op: UnOp, i: Expr, b: nat, parent: Option<LogicOp>)
    ensures Assemble(Unary(op, i), fr.vars, parent) == Assemble(i, fr.vars, None) + UnaryTail(op)
    ensures Code(fr, Unary(op, i), b) == Code(fr, i, b) + UnaryOpCode(fr, op, ItemOf(fr, i, b), b)
    ensures ItemOf(fr, Unary(op, i), b) == if op.Plus? then ItemOf(fr, i, b) else RV(b)
  {
  }

  lemma EmitTail(fr: Frame, op: UnOp, b: nat, st: Em, irs: seq<Ir>, c: seq<Instr>, item: Item)
    requires Canon(st, fr, b) && (item.RValue? ==> item == RV(b)) && Emits(st, irs, After(st, c, item))
    ensures Emits(st, irs + UnaryTail(op),
                  After(st, c + UnaryOpCode(fr, op, item, b), if op.Plus? then item else RV(b)))
  {
    PopAfter(st, fr, b, c, item);
    match op
    case Plus =>
      NoMore(irs);
      NoMore(c);
    case Minus =>
      var c' := c + RvalCode(fr, item, b);
      RvalAfter(st, fr, b, c, item);
      Unary1After(st, fr, b, c', RV(b), NegI);
      Assoc(c, RvalCode(fr, item, b), UnaryCode(NegI, fr.size, RV(b), RV(b)));
      Then1(st, irs, After(st, c, item), NegI);
    case LogicNot =>
      Unary1After(st, fr, b, c, item, Zero);
      Then1(st, irs, After(st, c, item), Zero);
    case BitNot =>
      Unary1After(st, fr, b, c, item, NotI);
      Then1(st, irs, After(st, c, item), NotI);
  }

  /** Two items pushed in a row are operands. */
  lemma PairAfter(st: Em, fr: Frame, b: nat, c: seq<Instr>, x: Item, d: seq<Instr>, y: Item)
    requires Canon(st, fr, b)
    requires (x.RValue? ==> x == RV(b)) && (y.RValue? ==> y == RV(b + Used(x)))
    ensures Canon(After(st, c, x), fr, b + Used(x))
    ensures HasOperands(st, fr, b, c + d, x, y, After(After(st, c, x), d, y))
  {
    PopAfter(st, fr, b, c, x);
    PopAfter(After(st, c, x), fr, b + Used(x), d, y);
    Assoc(st.code, c, d);
    assert st.stack + [x] + [y] == st.stack + [x, y];
  }

  lemma SwapOperands(st: Em, fr: Frame, b: nat, c: seq<Instr>, x: Item, y: Item, st2: Em)
    requires HasOperands(st, fr, b, c, x, y, st2)
    ensures Enabled(st2, Swp) && HasOperands(st, fr, b, c, y, x, Next(st2, Swp))
  {
    assert Next(st2, Swp).stack == st.stack + [y, x];
  }

  lemma {:induction false} EmitBinary(fr: Frame, op: BinOp, first: Expr, second: Expr, b: nat, st: Em, swap: bool)
    requires Canon(st, fr, b)
    ensures var x := ItemOf(fr, first, b);
      var y := ItemOf(fr, second, b + Used(x));
      Emits(st, Assemble(first, fr.vars, None) + Assemble(second, fr.vars, None)
                + (if swap then [Swp, Arith(op)] else [Arith(op)]),
            After(st, Code(fr, first, b) + Code(fr, second, b + Used(x))
                      + (if swap then ArithCode(fr, op, y, x, b) else ArithCode(fr, op, x, y, b)), RV(b)))
    decreases Size(first) + Size(second), 7
  {
    hide Code, Assemble, ItemOf, EmitAll, Next, Enabled, ArithCode, Canon, Emits;
    var x := ItemOf(fr, first, b);
    var b1 := b + Used(x);
    var y := ItemOf(fr, second, b1);
    var c, d := Code(fr, first, b), Code(fr, second, b1);
    var i1, i2 := Assemble(first, fr.vars, None), Assemble(second, fr.vars, None);
    EmitClosed(fr, first, b, st, None);
    ItemRegister(fr, first, b);
    ItemRegister(fr, second, b1);
    PairAfter(st, fr, b, c, x, d, y);
    EmitClosed(fr, second, b1, After(st, c, x), None);
    ThenAll(st, i1, After(st, c, x), i2, After(After(st, c, x), d, y));
    EmitOperator(fr, op, b, st, i1 + i2, c + d, x, y, After(After(st, c, x), d, y), swap);
  }

  lemma BinaryShape(fr: Frame, op: BinOp, l: Expr, r: Expr, b: nat, parent: Option<LogicOp>)
    ensures ItemOf(fr, Binary(op, l, r), b) == RV(b)
    ensures var swap := RightFirst(l, r);
      var first, second := if swap then r else l, if swap then l else r;
      var x := ItemOf(fr, first, b);
      var y := ItemOf(fr, second, b + Used(x));
      && Assemble(Binary(op, l, r), fr.vars, parent)
         == Assemble(first, fr.vars, None) + Assemble(second, fr.vars, None)
            + (if swap then [Swp, Arith(op)] else [Arith(op)])
      && Code(fr, Binary(op, l, r), b)
         == Code(fr, first, b) + Code(fr, second, b + Used(x))
            + (if swap then ArithCode(fr, op, y, x, b) else ArithCode(fr, op, x, y, b))
  {
    hide RightFirst, Chain, ChainItem, ArithCode, UnaryOpCode, ArmCode, BranchHead, RvalCode, UnaryCode, Used;
  }

  lemma EmitOperator(fr: Frame, op: BinOp, b: nat, st: Em, irs: seq<Ir>, c: seq<Instr>, x: Item, y: Item,
                     st2: Em, swap: bool)
    requires HasOperands(st, fr, b, c, x, y, st2) && Emits(st, irs, st2)
    ensures Emits(st, irs + (if swap then [Swp, Arith(op)] else [Arith(op)]),
                  After(st, c + (if swap then ArithCode(fr, op, y, x, b) else ArithCode(fr, op, x, y, b)), RV(b)))
  {
    if swap {
      SwapOperands(st, fr, b, c, x, y, st2);
      Then1(st, irs, st2, Swp);
      var st3 := Next(st2, Swp);
      ArithmeticAfter(st, fr, b, c, y, x, st3, op);
      Then1(st, irs + [Swp], st3, Arith(op));
      Assoc(irs, [Swp], [Arith(op)]);
      assert [Swp] + [Arith(op)] == [Swp, Arith(op)];
    } else {
      ArithmeticAfter(st, fr, b, c, x, y, st2, op);
      Then1(st, irs, st2, Arith(op));
    }
  }

  // ----- short-circuit chains -----

  /** The state after part of a chain: its jumps are pending on the innermost list. */
  function AfterChain(st: Em, f: Fragment, item: Item): Em
    requires |st.sc| > 0
  {
    After(st, Raw(f), item).(sc := AddPending(st.sc, Pending(f, Sc, |st.code|)))
  }

  /** The same without the item. */
  function InsideChain(st: Em, f: Fragment): Em
    requires |st.sc| > 0
  {
    Emit(st, Raw(f)).(sc := AddPending(st.sc, Pending(f, Sc, |st.code|)))
  }

  lemma NoMore<T>(s: seq<T>)
    ensures s + [] == s
  {
  }

  lemma RvalChain(fr: Frame, b: nat, st: Em, f: Fragment, item: Item)
    requires Canon(st, fr, b) && |st.sc| > 0 && (item.RValue? ==> item == RV(b))
    ensures ToRval(AfterChain(st, f, item)) == AfterChain(st, f + Lift(RvalCode(fr, item, b)), RV(b))
  {
    var c := RvalCode(fr, item, b);
    RvalAfter(st, fr, b, Raw(f), item);
    RawAppend(f, Lift(c));
    RawLift(c);
    PendingAppend(f, Lift(c), Sc, |st.code|);
    PendingLift(c, Sc, |st.code| + |f|);
    NoMore(Pending(f, Sc, |st.code|));
    PopAfter(st, fr, b, Raw(f), item);
    var plain, chained := After(st, Raw(f), item), AfterChain(st, f, item);
    assert ToRval(chained) == ToRval(plain).(sc := chained.sc);
  }

  lemma TestChain(fr: Frame, b: nat, st: Em, f: Fragment, item: Item, op: LogicOp)
    requires Canon(st, fr, b) && |st.sc| > 0 && (item.RValue? ==> item == RV(b))
    ensures Enabled(AfterChain(st, f, item), ScTest(op))
    ensures Next(AfterChain(st, f, item), ScTest(op)) == InsideChain(st, f + TestCells(fr, op, item, b))
  {
    var g := f + Lift(RvalCode(fr, item, b));
    PopAfter(st, fr, b, Raw(f), item);
    RvalChain(fr, b, st, f, item);
    TestOpen(fr, b, st, g, op, |st.code| + |g| + 2);
    TestSplit(fr, op, f, item, b, |st.code|);
    hide TestSc, ToRval, Raw, Pending, Lift;
    assert Next(AfterChain(st, f, item), ScTest(op)) == TestSc(AfterChain(st, g, RV(b)), op);
  }

  lemma TestOpen(fr: Frame, b: nat, st: Em, g: Fragment, op: LogicOp, here: int)
    requires Canon(st, fr, b) && |st.sc| > 0 && here == |st.code| + |g| + 2
    ensures var test := [Cmp(Op(fr.size, RV(b)), Imm(0)), Go(TestJump(op), 0)];
      TestSc(AfterChain(st, g, RV(b)), op)
      == st.(code := st.code + (Raw(g) + test), sc := AddPending(st.sc, Pending(g, Sc, |st.code|) + [here]))
  {
    var test := [Cmp(Op(fr.size, RV(b)), Imm(0)), Go(TestJump(op), 0)];
    PopInside(fr, b, st, g, RV(b));
    TestPopped(AfterChain(st, g, RV(b)), InsideChain(st, g), op, here);
    Assoc(st.code, Raw(g), test);
    AddTwice(st.sc, Pending(g, Sc, |st.code|), [here]);
  }

  lemma PopInside(fr: Frame, b: nat, st: Em, f: Fragment, item: Item)
    requires Canon(st, fr, b) && |st.sc| > 0 && (item.RValue? ==> item == RV(b))
    ensures |AfterChain(st, f, item).stack| > 0 && Top(AfterChain(st, f, item)) == item
    ensures PopItem(AfterChain(st, f, item)) == InsideChain(st, f)
  {
    PopAfter(st, fr, b, Raw(f), item);
  }

  lemma TestPopped(st: Em, popped: Em, op: LogicOp, here: int)
    requires |st.stack| > 0 && PopItem(st) == popped && |popped.sc| > 0
    requires here == |popped.code| + 2
    ensures TestSc(st, op) ==
      popped.(code := popped.code + [Cmp(Op(st.frame, Top(st)), Imm(0)), Go(TestJump(op), 0)],
              sc := AddPending(popped.sc, [here]))
  {
  }

  lemma AddTwice(sc: seq<seq<int>>, ps: seq<int>, qs: seq<int>)
    requires |sc| > 0
    ensures AddPending(AddPending(sc, ps), qs) == AddPending(sc, ps + qs)
  {
    Assoc(sc[|sc| - 1], ps, qs);
  }

  function TestCells(fr: Frame, op: LogicOp, item: Item, b: nat): Fragment {
    Lift(RvalCode(fr, item, b) + TestCode(fr, RV(b))) + [J(TestJump(op), Sc)]
  }

  lemma TestSplit(fr: Frame, op: LogicOp, f: Fragment, item: Item, b: nat, base: int)
    ensures var g := f + Lift(RvalCode(fr, item, b));
      var h := f + TestCells(fr, op, item, b);
      && Raw(h) == Raw(g) + [Cmp(Op(fr.size, RV(b)), Imm(0)), Go(TestJump(op), 0)]
      && Pending(h, Sc, base) == Pending(g, Sc, base) + [base + |g| + 2]
  {
    var g := f + Lift(RvalCode(fr, item, b));
    var h := f + TestCells(fr, op, item, b);
    var mid := g + Lift(TestCode(fr, RV(b)));
    assert h == mid + [J(TestJump(op), Sc)];
    assert h[..|h| - 1] == mid;
    PendingAppend(g, Lift(TestCode(fr, RV(b))), Sc, base);
    PendingLift(TestCode(fr, RV(b)), Sc, base + |g|);
    NoMore(Pending(g, Sc, base));
  }

  lemma LinkEmitted(fr: Frame, op: LogicOp, l: Expr, r: Expr, b: nat)
    ensures var e := Logic(op, l, r);
      && Assemble(e, fr.vars, Some(op))
         == Assemble(l, fr.vars, Some(op)) + [ScTest(op)] + Assemble(r, fr.vars, Some(op))
      && Chain(fr, op, e, b)
         == Chain(fr, op, l, b) + TestCells(fr, op, ChainItem(fr, op, l, b), b) + Chain(fr, op, r, b)
      && ChainItem(fr, op, e, b) == ChainItem(fr, op, r, b)
  {
    var f, item := Chain(fr, op, l, b), ChainItem(fr, op, l, b);
    Assoc(f, Lift(RvalCode(fr, item, b) + TestCode(fr, RV(b))), [J(TestJump(op), Sc)]);
  }

  lemma {:induction false} EmitChain(fr: Frame, op: LogicOp, e: Expr, b: nat, st: Em)
    requires Canon(st, fr, b) && |st.sc| > 0
    ensures Emits(st, Assemble(e, fr.vars, Some(op)), AfterChain(st, Chain(fr, op, e, b), ChainItem(fr, op, e, b)))
    decreases Size(e), if InChain(op, e) then 0 else 7
  {
    var base := |st.code|;
    if InChain(op, e) {
      LinkEmitted(fr, op, e.left, e.right, b);
      hide Assemble, Chain, ChainItem, TestCells, AfterChain, EmitAll, Raw, Pending, Next, Enabled;
      var f, item := Chain(fr, op, e.left, b), ChainItem(fr, op, e.left, b);
      var test := TestCells(fr, op, item, b);
      var g := Chain(fr, op, e.right, b);
      var irs := Assemble(e.left, fr.vars, Some(op));
      EmitChain(fr, op, e.left, b, st);
      ChainRegister(fr, op, e.left, b);
      TestChain(fr, b, st, f, item, op);
      Then1(st, irs, AfterChain(st, f, item), ScTest(op));
      var st2 := InsideChain(st, f + test);
      EmitChain(fr, op, e.right, b, st2);
      ThenAll(st, irs + [ScTest(op)], st2, Assemble(e.right, fr.vars, Some(op)),
              AfterChain(st2, g, ChainItem(fr, op, e.right, b)));
      JoinChain(st, f + test, g, ChainItem(fr, op, e.right, b));
    } else {
      EmitClosed(fr, e, b, st, Some(op));
      RawLift(Code(fr, e, b));
      PendingLift(Code(fr, e, b), Sc, base);
      NoMore(st.sc[|st.sc| - 1]);
      assert AddPending(st.sc, []) == st.sc;
    }
  }

  lemma JoinChain(st: Em, f: Fragment, g: Fragment, item: Item)
    requires |st.sc| > 0
    ensures AfterChain(InsideChain(st, f), g, item) == AfterChain(st, f + g, item)
  {
    RawAppend(f, g);
    Assoc(st.code, Raw(f), Raw(g));
    PendingAppend(f, g, Sc, |st.code|);
    AddTwice(st.sc, Pending(f, Sc, |st.code|), Pending(g, Sc, |st.code| + |f|));
  }

  lemma CloseChain(fr: Frame, b: nat, st: Em, f: Fragment, item: Item)
    requires Canon(st, fr, b) && (item.RValue? ==> item == RV(b))
    ensures var st1 := AfterChain(OpenSc(st), f, item);
      var open := f + Lift(RvalCode(fr, item, b));
      && Enabled(st1, ScEnd)
      && Next(st1, ScEnd)
         == After(st, Raw(Bind(open, Sc, |open|)) + UnaryCode(ScEnd, fr.size, RV(b), RV(b)), RV(b))
  {
    PopInside(fr, b, OpenSc(st), f, item);
    RvalChain(fr, b, OpenSc(st), f, item);
    CloseOpen(fr, b, st, f + Lift(RvalCode(fr, item, b)));
    hide CloseSc, ToRval;
  }

  lemma CloseOpen(fr: Frame, b: nat, st: Em, open: Fragment)
    requires Canon(st, fr, b)
    ensures |OpenSc(st).sc| > 0
    ensures var st2 := AfterChain(OpenSc(st), open, RV(b));
      && |st2.stack| > 0 && |st2.sc| > 0
      && CloseSc(st2)
         == After(st, Raw(Bind(open, Sc, |open|)) + UnaryCode(ScEnd, fr.size, RV(b), RV(b)), RV(b))
  {
    OnlyPending(st, open);
    CloseState(st, open, b, fr);
    Unary1After(st, fr, b, Raw(Bind(open, Sc, |open|)), RV(b), ScEnd);
    hide Raw, Pending, Lift, Bind, PatchAll, After, RvalCode, UnaryCode, Unary1;
  }

  /** Inside a fresh chain the innermost list holds the chain's own jumps. */
  lemma OnlyPending(st: Em, f: Fragment)
    ensures |OpenSc(st).sc| > 0
    ensures var sc := AddPending(OpenSc(st).sc, Pending(f, Sc, |st.code|));
      sc[..|sc| - 1] == st.sc && sc[|sc| - 1] == Pending(f, Sc, |st.code|)
  {
    var qs := Pending(f, Sc, |st.code|);
    assert [] + qs == qs;
  }

  lemma CloseCode(pre: seq<Instr>, open: Fragment, end: int)
    requires end == |pre| + |open|
    ensures PatchAll(pre + Raw(open), Pending(open, Sc, |pre|), end) == pre + Raw(Bind(open, Sc, |open|))
  {
    SameSelf(Pending(open, Sc, |pre|));
    PatchOpen(pre, open, Pending(open, Sc, |pre|), Sc, |open|);
  }

  lemma CloseState(st: Em, open: Fragment, b: nat, fr: Frame)
    requires Canon(st, fr, b)
    ensures |OpenSc(st).sc| > 0
    ensures var st2 := AfterChain(OpenSc(st), open, RV(b));
      st2.(code := PatchAll(st2.code, Pending(open, Sc, |st.code|), Here(st2)), sc := st.sc)
      == After(st, Raw(Bind(open, Sc, |open|)), RV(b))
  {
    var st2 := AfterChain(OpenSc(st), open, RV(b));
    CloseCode(st.code, open, Here(st2));
    hide PatchAll, Pending, Raw, Bind;
    assert st2 == After(st, Raw(open), RV(b)).(sc := st2.sc);
  }

  lemma {:induction false} EmitLogic(fr: Frame, op: LogicOp, l: Expr, r: Expr, b: nat, st: Em,
                                     parent: Option<LogicOp>)
    requires Canon(st, fr, b) && parent != Some(op)
    ensures EmitsExpr(fr, Logic(op, l, r), b, st, parent)
    decreases Size(Logic(op, l, r)), 5
  {
    var e := Logic(op, l, r);
    var irs := Assemble(e, fr.vars, Some(op));
    var st1 := AfterChain(OpenSc(st), Chain(fr, op, e, b), ChainItem(fr, op, e, b));
    EmitChain(fr, op, e, b, OpenSc(st));
    ChainRegister(fr, op, e, b);
    CloseChain(fr, b, st, Chain(fr, op, e, b), ChainItem(fr, op, e, b));
    Then1(st, [], st, ScBegin);
    assert [] + [ScBegin] == [ScBegin];
    ThenAll(st, [ScBegin], OpenSc(st), irs, st1);
    Then1(st, [ScBegin] + irs, st1, ScEnd);
    LogicShape(fr, e, b, parent);
    hide Code, Assemble, Chain, ChainItem, EmitAll, AfterChain, CloseSc;
  }

  lemma LogicShape(fr: Frame, e: Expr, b: nat, parent: Option<LogicOp>)
    requires e.Logic? && parent != Some(e.lop)
    ensures ItemOf(fr, e, b) == RV(b)
    ensures Assemble(e, fr.vars, parent) == [ScBegin] + Assemble(e, fr.vars, Some(e.lop)) + [ScEnd]
    ensures var open := Chain(fr, e.lop, e, b) + Lift(RvalCode(fr, ChainItem(fr, e.lop, e, b), b));
      Code(fr, e, b) == Raw(Bind(open, Sc, |open|)) + UnaryCode(ScEnd, fr.size, RV(b), RV(b))
  {
  }

  // ----- branches -----

  lemma PatchAt(pre: seq<Instr>, j: Jump, x: seq<Instr>, target: int)
    ensures Patch(pre + [Go(j, 0)] + x, |pre| + 1, target) == pre + [Go(j, target - (|pre| + 1))] + x
  {
  }

  /** The state with code appended and the innermost branch's jump position moved there. */
  function Marked(st: Em, c: seq<Instr>): Em
    requires |st.branches| > 0
  {
    SetJump(Emit(st, c))
  }

  lemma ThenStep(fr: Frame, b: nat, st: Em, c: seq<Instr>, item: Item)
    requires Canon(st, fr, b) && (item.RValue? ==> item == RV(b)) && |st.branches| > 0
    ensures Enabled(After(st, c, item), Then)
    ensures Next(After(st, c, item), Then) == Marked(st, c + TestCode(fr, item) + [Go(IfZero, 0)])
  {
    PopAfter(st, fr, b, c, item);
    assert TestCode(fr, item) + [Go(IfZero, 0)] == [Cmp(Op(fr.size, item), Imm(0)), Go(IfZero, 0)];
    Assoc(c, TestCode(fr, item), [Go(IfZero, 0)]);
    Assoc(st.code, c, [Cmp(Op(fr.size, item), Imm(0)), Go(IfZero, 0)]);
  }

  /** st is Marked at the end of pre and the jump; x is the code of the then-part. */
  lemma ElseStep(st: Em, pre: seq<Instr>, x: seq<Instr>)
    requires |st.branches| > 0
    requires st.code == pre + [Go(IfZero, 0)] + x && Branching(st).curr == |pre| + 1
    ensures Next(st, Else) ==
      SetJump(st.(code := pre + [Go(IfZero, |x| + 1)] + x + [Go(Always, 0)]))
  {
    var code := st.code + [Go(Always, 0)];
    assert code == pre + [Go(IfZero, 0)] + (x + [Go(Always, 0)]);
    PatchAt(pre, IfZero, x + [Go(Always, 0)], |code|);
    assert pre + [Go(IfZero, |x| + 1)] + (x + [Go(Always, 0)]) == pre + [Go(IfZero, |x| + 1)] + x + [Go(Always, 0)];
  }

  lemma WriteStep(st: Em, pre: seq<Instr>, y: seq<Instr>)
    requires |st.branches| > 0
    requires st.code == pre + [Go(Always, 0)] + y && Branching(st).curr == |pre| + 1
    ensures WriteJump(st) == st.(code := pre + [Go(Always, |y|)] + y)
  {
    PatchAt(pre, Always, y, |st.code|);
  }

  function BranchHead(fr: Frame, c: Expr, b: nat): seq<Instr> {
    Code(fr, c, b) + TestCode(fr, ItemOf(fr, c, b))
  }

  /** Up to and including the conditional jump. */
  lemma {:induction false} EmitHead(fr: Frame, c: Expr, b: nat, st: Em, loop: bool)
    requires Canon(st, fr, b)
    ensures Emits(st, [If(loop)] + Assemble(c, fr.vars, None) + [Then],
                  Marked(Next(st, If(loop)), BranchHead(fr, c, b) + [Go(IfZero, 0)]))
    decreases Size(c), 7
  {
    var st0 := Next(st, If(loop));
    var item := ItemOf(fr, c, b);
    Then1(st, [], st, If(loop));
    assert [] + [If(loop)] == [If(loop)];
    EmitClosed(fr, c, b, st0, None);
    ItemRegister(fr, c, b);
    ThenAll(st, [If(loop)], st0, Assemble(c, fr.vars, None), After(st0, Code(fr, c, b), item));
    ThenStep(fr, b, st0, Code(fr, c, b), item);
    Then1(st, [If(loop)] + Assemble(c, fr.vars, None), After(st0, Code(fr, c, b), item), Then);
  }

  /** An arm of a conditional expression ends in the merge register. */
  lemma {:induction false} EmitArm(fr: Frame, e: Expr, b: nat, st: Em)
    requires Canon(st, fr, b)
    ensures Emits(st, Assemble(e, fr.vars, None) + [Rval], After(st, ArmCode(fr, e, b), RV(b)))
    decreases Size(e), 7
  {
    EmitClosed(fr, e, b, st, None);
    ItemRegister(fr, e, b);
    RvalAfter(st, fr, b, Code(fr, e, b), ItemOf(fr, e, b));
    Then1(st, Assemble(e, fr.vars, None), After(st, Code(fr, e, b), ItemOf(fr, e, b)), Rval);
  }

  function ArmCode(fr: Frame, e: Expr, b: nat): seq<Instr> {
    Code(fr, e, b) + RvalCode(fr, ItemOf(fr, e, b), b)
  }

  /** Closing an if without pending breaks restores the enclosing branches. */
  lemma EndStep(st: Em, m: Mark, pre: seq<Instr>, y: seq<Instr>)
    requires |st.branches| > 0 && Branching(st) == m && !m.loop && m.ends == []
    requires st.code == pre + [Go(Always, 0)] + y && m.curr == |pre| + 1
    ensures Enabled(st, End)
    ensures Next(st, End) == st.(code := pre + [Go(Always, |y|)] + y, branches := st.branches[..|st.branches| - 1])
  {
    WriteStep(st, pre, y);
  }

  lemma PopStep(fr: Frame, b: nat, st: Em, c: seq<Instr>, item: Item)
    requires Canon(st, fr, b) && (item.RValue? ==> item == RV(b))
    ensures Enabled(After(st, c, item), Pop) && Next(After(st, c, item), Pop) == Emit(st, c)
  {
    PopAfter(st, fr, b, c, item);
  }

  /** From the conditional jump to the end of the then-part and its jump over the else-part. */
  lemma {:induction false} EmitThen(fr: Frame, t: Expr, b: nat, st: Em, st2: Em, irs: seq<Ir>, pre: seq<Instr>)
    requires Canon(st2, fr, b) && |st2.branches| > 0 && Emits(st, irs, st2)
    requires st2.code == pre + [Go(IfZero, 0)] && Branching(st2).curr == |pre| + 1
    ensures var x := ArmCode(fr, t, b);
      Emits(st, irs + (Assemble(t, fr.vars, None) + [Rval]) + [Pop] + [Else],
            SetJump(st2.(code := pre + [Go(IfZero, |x| + 1)] + x + [Go(Always, 0)])))
    decreases Size(t), 8
  {
    var x, it := ArmCode(fr, t, b), Assemble(t, fr.vars, None);
    EmitArm(fr, t, b, st2);
    ThenAll(st, irs, st2, it + [Rval], After(st2, x, RV(b)));
    PopStep(fr, b, st2, x, RV(b));
    Then1(st, irs + (it + [Rval]), After(st2, x, RV(b)), Pop);
    ElseStep(Emit(st2, x), pre, x);
    Then1(st, irs + (it + [Rval]) + [Pop], Emit(st2, x), Else);
  }

  lemma {:induction false} EmitOtherwise(fr: Frame, f: Expr, b: nat, st: Em, st4: Em, irs: seq<Ir>, pre: seq<Instr>)
    requires Canon(st4, fr, b) && |st4.branches| > 0 && Emits(st, irs, st4)
    requires !Branching(st4).loop && Branching(st4).ends == []
    requires st4.code == pre + [Go(Always, 0)] && Branching(st4).curr == |pre| + 1
    ensures var y := ArmCode(fr, f, b);
      Emits(st, irs + (Assemble(f, fr.vars, None) + [Rval]) + [End],
            PushR(st4.(branches := st4.branches[..|st4.branches| - 1])).(code := pre + [Go(Always, |y|)] + y))
    decreases Size(f), 8
  {
    var y, ie := ArmCode(fr, f, b), Assemble(f, fr.vars, None);
    EmitArm(fr, f, b, st4);
    ThenAll(st, irs, st4, ie + [Rval], After(st4, y, RV(b)));
    EndStep(After(st4, y, RV(b)), Branching(st4), pre, y);
    Then1(st, irs + (ie + [Rval]), After(st4, y, RV(b)), End);
  }

  lemma {:induction false} EmitCond(fr: Frame, c: Expr, t: Expr, f: Expr, b: nat, st: Em, parent: Option<LogicOp>)
    requires Canon(st, fr, b)
    ensures EmitsExpr(fr, Cond(c, t, f), b, st, parent)
    decreases Size(c) + Size(t) + Size(f), 9
  {
    var head, x, y := BranchHead(fr, c, b), ArmCode(fr, t, b), ArmCode(fr, f, b);
    var ic, it, ie := Assemble(c, fr.vars, None), Assemble(t, fr.vars, None), Assemble(f, fr.vars, None);
    var pre := st.code + head;
    var st2 := Marked(Next(st, If(false)), head + [Go(IfZero, 0)]);
    hide *;
    var i2 := [If(false)] + ic + [Then];
    EmitHead(fr, c, b, st, false);
    MarkedState(fr, b, st, head, st2);
    EmitThen(fr, t, b, st, st2, i2, pre);
    var c4 := pre + [Go(IfZero, |x| + 1)] + x;
    var st4 := SetJump(st2.(code := c4 + [Go(Always, 0)]));
    JumpedState(fr, b, st, st2, c4, st4);
    EmitOtherwise(fr, f, b, st, st4, i2 + (it + [Rval]) + [Pop] + [Else], c4);
    RegroupIr(ic, it, ie);
    CondShape(fr, c, t, f, b, parent);
    CondState(st, st4, head, x, y);
    CondClosed(fr, Cond(c, t, f), b, st, parent);
  }

  /** Right behind the conditional jump: a new branch that has no breaks. */
  predicate InNewBranch(st: Em, st': Em) {
    && |st'.branches| == |st.branches| + 1 && st'.branches[..|st.branches|] == st.branches
    && !Branching(st').loop && Branching(st').ends == [] && st' == st.(code := st'.code, branches := st'.branches)
  }

  lemma MarkedState(fr: Frame, b: nat, st: Em, head: seq<Instr>, st2: Em)
    requires Canon(st, fr, b) && st2 == Marked(Next(st, If(false)), head + [Go(IfZero, 0)])
    ensures Canon(st2, fr, b) && InNewBranch(st, st2) && |st2.branches| > 0
    ensures st2.code == st.code + head + [Go(IfZero, 0)] && Branching(st2).curr == |st.code + head| + 1
  {
    Assoc(st.code, head, [Go(IfZero, 0)]);
  }

  lemma JumpedState(fr: Frame, b: nat, st: Em, st2: Em, c4: seq<Instr>, st4: Em)
    requires Canon(st2, fr, b) && InNewBranch(st, st2) && st4 == SetJump(st2.(code := c4 + [Go(Always, 0)]))
    ensures Canon(st4, fr, b) && InNewBranch(st, st4) && |st4.branches| > 0
    ensures !Branching(st4).loop && Branching(st4).ends == []
    ensures st4.code == c4 + [Go(Always, 0)] && Branching(st4).curr == |c4| + 1
  {
  }

  lemma CondClosed(fr: Frame, e: Expr, b: nat, st: Em, parent: Option<LogicOp>)
    requires ItemOf(fr, e, b) == RV(b)
    requires Emits(st, Assemble(e, fr.vars, parent), PushR(st).(code := st.code + Code(fr, e, b)))
    ensures EmitsExpr(fr, e, b, st, parent)
  {
    hide Code, Assemble, ItemOf, EmitAll;
  }

  lemma CondState(st: Em, st4: Em, head: seq<Instr>, x: seq<Instr>, y: seq<Instr>)
    requires InNewBranch(st, st4)
    ensures var c4 := st.code + head + [Go(IfZero, |x| + 1)] + x;
      PushR(st4.(branches := st4.branches[..|st4.branches| - 1])).(code := c4 + [Go(Always, |y|)] + y)
      == PushR(st).(code := st.code + (head + [Go(IfZero, |x| + 1)] + x + [Go(Always, |y|)] + y))
  {
    var c4 := st.code + head + [Go(IfZero, |x| + 1)] + x;
    assert c4 == st.code + (head + [Go(IfZero, |x| + 1)] + x);
    assert c4 + [Go(Always, |y|)] + y == st.code + (head + [Go(IfZero, |x| + 1)] + x + [Go(Always, |y|)] + y);
  }

  lemma RegroupIr(c: seq<Ir>, t: seq<Ir>, f: seq<Ir>)
    ensures [If(false)] + c + [Then] + (t + [Rval]) + [Pop] + [Else] + (f + [Rval]) + [End]
         == [If(false)] + c + [Then] + t + [Rval, Pop, Else] + f + [Rval, End]
  {
    var a := [If(false)] + c + [Then];
    Assoc(a, t, [Rval]);
    assert a + t + [Rval] + [Pop] + [Else] == a + t + [Rval, Pop, Else];
    var d := a + t + [Rval, Pop, Else];
    Assoc(d, f, [Rval]);
    assert d + f + [Rval] + [End] == d + f + [Rval, End];
  }

  lemma CondShape(fr: Frame, c: Expr, t: Expr, f: Expr, b: nat, parent: Option<LogicOp>)
    ensures ItemOf(fr, Cond(c, t, f), b) == RV(b)
    ensures var x, y := ArmCode(fr, t, b), ArmCode(fr, f, b);
      Code(fr, Cond(c, t, f), b) == BranchHead(fr, c, b) + [Go(IfZero, |x| + 1)] + x + [Go(Always, |y|)] + y
    ensures Assemble(Cond(c, t, f), fr.vars, parent)
      == [If(false)] + Assemble(c, fr.vars, None) + [Then] + Assemble(t, fr.vars, None) + [Rval, Pop, Else]
         + Assemble(f, fr.vars, None) + [Rval, End]
  {
  }
}
