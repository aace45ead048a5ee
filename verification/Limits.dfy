/** Where the compiler is wrong, and exactly when it is not. */
module Limits {
  import opened Basics
  import opened Words
  import opened Syntax
  import opened Machine
  import opened StackIr
  import opened Emitter
  import opened Fragments
  import opened EmitExpr
  import opened ExprEffects
  import opened ExprCorrect
  import opened EmitStmt
  import opened SethiUllman

  // ----- bitwise not -----

  /** The code of a bitwise not is right if and only if its operand is already in a register: on
      a variable it overwrites the variable, on a literal it does nothing. */
  lemma BitNotExactly(fr: Frame, b: nat, item: Item, s: Store)
    requires Held(fr, b, item)
    ensures var w := Read(s, Op(fr.size, item));
      Yields(fr, b, UnaryCode(NotI, fr.size, item, RV(b)), s, Complement(w)) <==> item.RValue?
  {
    var o, l := Op(fr.size, item), LocAt(fr, b);
    SlotRoundTrip(fr, b);
    if item.RValue? {
      NotYields(fr, b, s);
    } else {
      Two(Not(o), Mov(l, o), s);
      var r := Effects([Not(o), Mov(l, o)], s).value;
      if item.LValue? {
        assert Kept(fr, b, M(item.disp)) && Get(r, M(item.disp)) == Complement(Get(s, M(item.disp)));
      } else {
        assert Get(r, l) == item.v != Complement(item.v);
      }
    }
  }

  // ----- the unnoticed swap -----

  lemma {:induction false} NoBits(op: BinOp, width: nat)
    ensures Bitwise(op, 0, 0, width) == 0
  {
    if width > 0 {
      NoBits(op, width - 1);
    }
  }

  lemma LowBit(op: BinOp, v: Word, w: Word)
    requires op.BAnd? || op.BOr? || op.BXor?
    requires 0 <= v <= 1 && 0 <= w <= 1
    ensures Compute(op, v, w) == Bit(op, v, w)
  {
    NoBits(op, 63);
    assert Unsigned(v) == v && Unsigned(w) == w && v / 2 == 0 && w / 2 == 0;
  }

  /** No operator ignores its left operand. */
  lemma LeftMatters(op: BinOp) returns (v: Word, w: Word)
    requires Simple(op)
    ensures Compute(op, v, w) != Compute(op, w, w)
  {
    v, w := if op.BAnd? then 0 else 1, if op.BAnd? then 1 else 0;
    if op.BAnd? || op.BOr? || op.BXor? {
      LowBit(op, v, w);
      LowBit(op, w, w);
    }
  }

  ghost predicate RightOn(fr: Frame, op: BinOp, b: nat, x: Item, y: Item, s: Store)
    requires Simple(op)
  {
    Yields(fr, b, SimpleCode(fr, op, x, y, b), s, Compute(op, Read(s, Op(fr.size, x)), Read(s, Op(fr.size, y))))
  }

  /** The code of an operator is right in every state if and only if its operands are not a right
      one in the last register and a left one in the first spill slot. */
  lemma SwapExactly(fr: Frame, op: BinOp, b: nat, x: Item, y: Item)
    requires Simple(op) && Readable(fr, b, x, y) && (!y.RValue? ==> Stable(fr, b, Op(fr.size, y)))
    ensures (forall s: Store :: RightOn(fr, op, b, x, y, s)) <==> !BadSwap(b, x, y)
  {
    if BadSwap(b, x, y) {
      var v, w := LeftMatters(op);
      var s := Store(map[LocAt(fr, b + 1) := v, LocAt(fr, b) := w], 0, 0);
      BadSwapYields(fr, op, x, y, s);
      assert !RightOn(fr, op, b, x, y, s);
    } else {
      forall s: Store
        ensures RightOn(fr, op, b, x, y, s)
      {
        SimpleYields(fr, b, op, x, y, s);
      }
    }
  }

  /** The value of an operator whose swap goes unnoticed: its right operand, combined with itself. */
  lemma UnnoticedSwap(fr: Frame, op: BinOp, l: Expr, r: Expr, b: nat, code: seq<Instr>, p: int, m: State, env: Env)
    returns (n: nat)
    requires var e := Binary(op, l, r);
      Ready(fr, e, b, code, p, m, env) && Unnoticed(fr, op, l, r, b)
    requires Actual(fr, l, b + 1, env).Value? && Actual(fr, r, b, env).Value?
    ensures var w := Actual(fr, r, b, env).w;
      Computes(fr, b, code, n, m, p + |Code(fr, Binary(op, l, r), b)|, RV(b), Value(Compute(op, w, w)))
  {
    BinaryShape(fr, op, l, r, b, None);
    BinaryActual(fr, op, l, r, b, env);
    hide Code, ItemOf, Assemble, Actual, Runs, Same, Agrees, Compute;
    n := RunActual(fr, Binary(op, l, r), b, code, p, m, env);
  }

  /** What n steps compute is one result only. */
  lemma OneResult(fr: Frame, b: nat, code: seq<Instr>, n: nat, m: State, end: int, item: Item, r: Result, q: Result)
    requires Computes(fr, b, code, n, m, end, item, r) && !r.Undefined? && !q.Undefined?
    ensures Computes(fr, b, code, n, m, end, item, q) <==> r == q
  {
    hide Steps, Same;
  }

  /** A whole expression, of any size: a run gives the source value if and only if the unnoticed
      swaps in it make no difference to the value. */
  lemma RightExactly(fr: Frame, e: Expr, b: nat, code: seq<Instr>, p: int, m: State, env: Env) returns (n: nat)
    requires NotsRegisters(e) && Placed(code, p, Code(fr, e, b)) && m.Running? && m.pc == p
    requires FrameOk(fr) && Agrees(fr, env, m.s)
    requires !Meaning(e, env).Undefined? && !Actual(fr, e, b, env).Undefined?
    ensures Computes(fr, b, code, n, m, p + |Code(fr, e, b)|, ItemOf(fr, e, b), Meaning(e, env))
      <==> Actual(fr, e, b, env) == Meaning(e, env)
  {
    hide Code, ItemOf, Actual, Runs, Same, Agrees, Meaning, NotsRegisters, Computes, FrameOk;
    NotsRun(fr, e, b);
    n := RunActual(fr, e, b, code, p, m, env);
    OneResult(fr, b, code, n, m, p + |Code(fr, e, b)|, ItemOf(fr, e, b), Actual(fr, e, b, env), Meaning(e, env));
  }

  // ----- how large an expression has to be for that -----

  /** x + x, the sum of two such, and so on. */
  function Doubled(k: nat): (e: Expr)
    ensures Su(e) == k + 1 && Leaves(e) == Pow2(k) && NotsRegisters(e)
  {
    if k == 0 then Var("x") else Binary(Add, Doubled(k - 1), Doubled(k - 1))
  }

  /** A left operand just as heavy as the right one occupies a register; six of them around
      -x - (x + x). */
  function Nested(k: nat): (e: Expr)
    ensures Su(e) == k + 2 && Leaves(e) == Pow2(k + 1) + 1 && NotsRegisters(e)
  {
    if k == 0 then
      assert Pow2(1) == 2;
      Binary(Sub, Unary(Minus, Var("x")), Doubled(1))
    else Binary(Add, Doubled(k), Nested(k - 1))
  }

  /** A sum whose left operand comes first, into a register. */
  lemma SumValue(fr: Frame, l: Expr, r: Expr, b: nat, b1: nat, env: Env, v: Word, w: Word, u: Word)
    requires !RightFirst(l, r) && b1 == b + Used(ItemOf(fr, l, b)) && InWord(v + w) && InWord(v + u)
    requires Actual(fr, l, b, env) == Meaning(l, env) == Value(v)
    requires Actual(fr, r, b1, env) == Value(w) && Meaning(r, env) == Value(u)
    ensures var e := Binary(Add, l, r);
      && Actual(fr, e, b, env) == Value(v + w) && Meaning(e, env) == Value(v + u)
      && (Safe(fr, e, b) ==> Safe(fr, r, b1))
  {
    AddFits(v, w);
    AddFits(v, u);
    hide Compute, Faults, ItemOf, Used, RightFirst, Unnoticed;
  }

  lemma AddFits(v: Word, w: Word)
    requires InWord(v + w)
    ensures !Faults(Add, v, w) && Compute(Add, v, w) == v + w
  {
  }

  lemma DoubledIs(k: nat)
    requires k > 0
    ensures Doubled(k) == Binary(Add, Doubled(k - 1), Doubled(k - 1)) && !RightFirst(Doubled(k - 1), Doubled(k - 1))
  {
  }

  lemma NestedIs(fr: Frame, k: nat, b: nat)
    requires k > 0
    ensures Nested(k) == Binary(Add, Doubled(k), Nested(k - 1)) && !RightFirst(Doubled(k), Nested(k - 1))
    ensures Used(ItemOf(fr, Doubled(k), b)) == 1
  {
    DoubledIs(k);
    hide Doubled;
  }

  lemma SmallPowers(k: nat)
    requires k <= 7
    ensures 1 <= Pow2(k) <= 128 && (k > 0 ==> Pow2(k) == 2 * Pow2(k - 1) && 1 <= Pow2(k - 1) <= 64)
  {
    Pow2Grows(k, 7);
    Pow2Grows(0, k);
    assert Pow2(7) == 128;
    if k > 0 {
      Pow2Grows(0, k - 1);
    }
  }

  lemma SmallWord(v: int)
    requires -128 <= v <= 128
    ensures InWord(v)
  {
  }

  lemma DoubledOne(fr: Frame, b: nat, env: Env)
    requires env == map["x" := 1]
    ensures Actual(fr, Doubled(0), b, env) == Meaning(Doubled(0), env) == Value(1) && Pow2(0) == 1
  {
  }

  lemma {:induction false} DoubledValue(fr: Frame, k: nat, b: nat, env: Env)
    requires k <= 6 && env == map["x" := 1]
    ensures InWord(Pow2(k)) && Actual(fr, Doubled(k), b, env) == Meaning(Doubled(k), env) == Value(Pow2(k))
  {
    SmallPowers(k);
    hide *;
    SmallWord(Pow2(k));
    if k == 0 {
      DoubledOne(fr, b, env);
      return;
    }
    var d := Doubled(k - 1);
    var b1 := b + Used(ItemOf(fr, d, b));
    DoubledIs(k);
    DoubledValue(fr, k - 1, b, env);
    DoubledValue(fr, k - 1, b1, env);
    SumValue(fr, d, d, b, b1, env, Pow2(k - 1), Pow2(k - 1), Pow2(k - 1));
  }

  lemma NestedCore(fr: Frame, env: Env)
    requires env == map["x" := 1]
    ensures !Safe(fr, Nested(0), 6) && Pow2(1) == 2
    ensures Actual(fr, Nested(0), 6, env) == Value(0) && Meaning(Nested(0), env) == Value(-3)
  {
    var l, r := Unary(Minus, Var("x")), Doubled(1);
    DoubledValue(fr, 1, 6, env);
    UnnoticedExactly(fr, Sub, l, r, 6);
    assert Pow2(1) == 2;
    assert Actual(fr, l, 7, env) == Value(-1) == Meaning(l, env);
    assert Used(ItemOf(fr, r, 6)) == 1;
  }

  lemma {:induction false} NestedValue(fr: Frame, k: nat, b: nat, env: Env)
    requires k + b == 6 && env == map["x" := 1]
    ensures Pow2(k + 1) <= 128 && !Safe(fr, Nested(k), b)
    ensures Actual(fr, Nested(k), b, env) == Value(Pow2(k + 1) - 2)
    ensures Meaning(Nested(k), env) == Value(Pow2(k + 1) - 5)
  {
    hide *;
    SmallPowers(k + 1);
    if k == 0 {
      NestedCore(fr, env);
      return;
    }
    var l, r := Doubled(k), Nested(k - 1);
    NestedIs(fr, k, b);
    DoubledValue(fr, k, b, env);
    NestedValue(fr, k - 1, b + 1, env);
    SmallWord(Pow2(k + 1) - 2);
    SmallWord(Pow2(k + 1) - 5);
    SumValue(fr, l, r, b, b + 1, env, Pow2(k), Pow2(k) - 2, Pow2(k) - 5);
  }

  lemma OuterNested(fr: Frame, env: Env) returns (e: Expr)
    requires env == map["x" := 1]
    ensures
      && NotsRegisters(e) && Leaves(e) == 129 && !Safe(fr, e, 0)
      && Actual(fr, e, 0, env) == Value(126) && Meaning(e, env) == Value(123)
  {
    assert Pow2(7) == 128;
    hide Doubled, Nested, Actual, Meaning, Safe, Pow2;
    e := Nested(6);
    NestedValue(fr, 6, 0, env);
  }

  /** Up to 128 leaves are always safe on an empty stack, and no larger number is. */
  lemma SafeBound(n: nat)
    ensures (forall fr: Frame, e: Expr | NotsRegisters(e) && Leaves(e) <= n :: Safe(fr, e, 0)) <==> n <= 128
  {
    if n <= 128 {
      forall fr: Frame, e: Expr | NotsRegisters(e) && Leaves(e) <= n
        ensures Safe(fr, e, 0)
      {
        SmallIsSafe(fr, e);
      }
    } else {
      var fr := Frame(map[], 0);
      hide Nested, Safe, NotsRegisters, Leaves, Actual, Meaning;
      var e := OuterNested(fr, map["x" := 1]);
      assert NotsRegisters(e) && Leaves(e) <= n;
    }
  }

  /** A whole expression of 129 leaves, compiled on an empty stack, that comes out as 126 instead
      of 123. */
  lemma SwapCounterexample() returns (fr: Frame, e: Expr, env: Env, m: State, n: nat)
    ensures NotsRegisters(e) && Leaves(e) == 129 && FrameOk(fr) && m.Running? && m.pc == 0 && Agrees(fr, env, m.s)
    ensures Meaning(e, env) == Value(123)
    ensures var code := Code(fr, e, 0);
      var m' := Steps(code, n, m);
      m'.Running? && m'.pc == |code| && Read(m'.s, Op(fr.size, ItemOf(fr, e, 0))) == 126
  {
    fr, env := Frame(map["x" := 8], 8), map["x" := 1];
    m := Running(0, Store(map[M(-8) := 1], 0, 0));
    assert Local(fr, "x") == -8;
    assert Agrees(fr, env, m.s);
    hide Code, Steps, Meaning, Actual, Nested, Agrees, Local, Same, ItemOf, Runs, NotsRegisters, Leaves, Safe;
    e := OuterNested(fr, env);
    NotsRun(fr, e, 0);
    var code := Code(fr, e, 0);
    assert code[0..|code|] == code;
    n := RunActual(fr, e, 0, code, 0, m, env);
  }

  // ----- loops over a bare expression or assignment -----

  lemma TailKeeps(st: Em, start: nat, curr: int)
    requires |st.branches| > 0 && Branching(st) == Mark(Some(start), curr, [], true)
    ensures Enabled(st, GotoStart) && Enabled(Next(st, GotoStart), Else)
    ensures Enabled(Next(Next(st, GotoStart), Else), End)
    ensures Next(Next(Next(st, GotoStart), Else), End).stack == st.stack
  {
    hide Patch, PatchAll;
  }

  lemma HeadEmitted(fr: Frame, c: Option<Expr>, st: Em) returns (st2: Em)
    requires Canon(st, fr, 0)
    ensures Emits(st, [If(true)] + (if c.Some? then Assemble(c.value, fr.vars, None) else [PushI(1)]) + [Then], st2)
    ensures HeadDone(st, LoopHead(fr, c), true, st2)
  {
    hide Code, ItemOf, Assemble, EmitAll, LoopHead;
    st2 := Marked(Next(st, If(true)), LoopHead(fr, c) + [Go(IfZero, 0)]);
    EmitLoopHead(fr, c, st);
    HeadState(st, LoopHead(fr, c), true);
  }

  /** What the body of a loop leaves on the operand stack. */
  function Left(fr: Frame, b: Stmt): seq<Item> {
    match b
    case Eval(e) => [ItemOf(fr, e, 0)]
    case Assign(x, _) => [LValue(Local(fr, x))]
    case OpAssign(_, x, _) => [LValue(Local(fr, x))]
    case _ => []
  }

  /** An expression or an assignment, without the pop that follows it elsewhere. */
  lemma EmitBare(fr: Frame, b: Stmt, st: Em) returns (st': Em)
    requires Canon(st, fr, 0) && LeavesItem(b) && Balanced(b, true)
    ensures Emits(st, AssembleStmt(b, fr.vars), st')
    ensures st'.stack == st.stack + Left(fr, b) && st'.branches == st.branches
  {
    hide Code, ItemOf, Assemble, EmitAll;
    match b
    case Eval(e) =>
      EmitClosed(fr, e, 0, st, None);
      ItemRegister(fr, e, 0);
      st' := After(st, Code(fr, e, 0), ItemOf(fr, e, 0));
    case Assign(x, e) =>
      var st2 := EmitPlace(fr, x, e, st);
      Then1(st, [LStack(OffsetOf(fr.vars, x))] + Assemble(e, fr.vars, None), st2, StoreTop);
      st' := Next(st2, StoreTop);
    case OpAssign(op, x, e) =>
      var st2 := EmitPlace(fr, x, e, st);
      Then1(st, [LStack(OffsetOf(fr.vars, x))] + Assemble(e, fr.vars, None), st2, StoreArith(op));
      st' := Next(st2, StoreArith(op));
  }

  /** The assembly of a loop never pops what its body leaves. So a loop leaves the operand stack as
      it was if and only if its body is neither an expression nor an assignment. */
  lemma LoopExactly(fr: Frame, c: Option<Expr>, b: Stmt, st: Em) returns (st': Em)
    requires Canon(st, fr, 0) && Balanced(b, true)
    ensures Emits(st, AssembleStmt(Loop(c, b), fr.vars), st') && st'.stack == st.stack + Left(fr, b)
    ensures st'.stack == st.stack <==> !LeavesItem(b)
  {
    hide Code, ItemOf, Assemble, AssembleStmt, EmitAll, StmtCode, LoopHead, Next, Enabled;
    if LeavesItem(b) {
      st' := BareLoop(fr, c, b, st);
    } else {
      st' := EmitLoop(fr, c, b, true, st);
      NoMore(AssembleStmt(Loop(c, b), fr.vars));
      assert Left(fr, b) == [];
    }
  }

  lemma BareLoop(fr: Frame, c: Option<Expr>, b: Stmt, st: Em) returns (st': Em)
    requires Canon(st, fr, 0) && Balanced(b, true) && LeavesItem(b)
    ensures Emits(st, AssembleStmt(Loop(c, b), fr.vars), st') && st'.stack == st.stack + Left(fr, b)
  {
    hide Code, ItemOf, Assemble, AssembleStmt, EmitAll, LoopHead, Next, Enabled;
    var head, ib := LoopHead(fr, c), AssembleStmt(b, fr.vars);
    var i2 := [If(true)] + (if c.Some? then Assemble(c.value, fr.vars, None) else [PushI(1)]) + [Then];
    var st2 := HeadEmitted(fr, c, st);
    var st3 := EmitBare(fr, b, st2);
    ThenAll(st, i2, st2, ib, st3);
    TailKeeps(st3, |st.code|, |st.code| + |head| + 1);
    Then1(st, i2 + ib, st3, GotoStart);
    Then1(st, i2 + ib + [GotoStart], Next(st3, GotoStart), Else);
    var st4 := Next(Next(st3, GotoStart), Else);
    Then1(st, i2 + ib + [GotoStart] + [Else], st4, End);
    st' := Next(st4, End);
    LoopShape(fr, c, b);
    NoMore(AssembleStmt(Loop(c, b), fr.vars));
  }
}
