/** Compiled expressions compute their meaning. */
module ExprCorrect {
  import opened Basics
  import opened Words
  import opened Syntax
  import opened Machine
  import opened StackIr
  import opened Emitter
  import opened Fragments
  import opened EmitExpr
  import opened ExprEffects

  /** Every variable lies inside the frame. */
  predicate FrameOk(fr: Frame) {
    forall x | x in fr.vars :: fr.vars[x] <= fr.size
  }

  /** The machine's frame holds the environment. */
  predicate Agrees(fr: Frame, env: Env, s: Store) {
    forall x | x in env :: x in fr.vars && Get(s, M(Local(fr, x))) == env[x]
  }

  /** Every bitwise not is of something that is already in a register. */
  predicate Runs(fr: Frame, e: Expr, b: nat) {
    match e
    case Lit(_) => true
    case Var(_) => true
    case Unary(op, i) => Runs(fr, i, b) && (op.BitNot? ==> ItemOf(fr, i, b).RValue?)
    case Cast(i) => Runs(fr, i, b)
    case Binary(_, l, r) =>
      if RightFirst(l, r) then Runs(fr, r, b) && Runs(fr, l, b + Used(ItemOf(fr, r, b)))
      else Runs(fr, l, b) && Runs(fr, r, b + Used(ItemOf(fr, l, b)))
    case Logic(_, l, r) => Runs(fr, l, b) && Runs(fr, r, b)
    case Cond(c, t, f) => Runs(fr, c, b) && Runs(fr, t, b) && Runs(fr, f, b)
    case Comma(l, r) => Runs(fr, l, b) && Runs(fr, r, b)
  }

  /** The operands of op are taken for unswapped although they are swapped. */
  predicate Unnoticed(fr: Frame, op: BinOp, l: Expr, r: Expr, b: nat) {
    var y := ItemOf(fr, r, b);
    RightFirst(l, r) && Simple(op) && BadSwap(b, ItemOf(fr, l, b + Used(y)), y)
  }

  /** What an operator makes of the values of its operands: after an unnoticed swap, the right one
      is combined with itself. */
  function Combined(op: BinOp, unnoticed: bool, v: Result, w: Result): Result
    requires unnoticed ==> Simple(op)
  {
    if unnoticed && v.Value? && w.Value? then Value(Compute(op, w.w, w.w)) else Both(op, v, w)
  }

  /** What an expression compiled with b registers in use comes to. It is the meaning, but for
      unnoticed swaps. */
  function Actual(fr: Frame, e: Expr, b: nat, env: Env): Result {
    match e
    case Lit(v) => Value(v)
    case Var(x) => if x in env then Value(env[x]) else Undefined
    case Unary(op, i) =>
      var a := Actual(fr, i, b, env);
      if a.Value? then Value(UnaryValue(op, a.w)) else a
    case Cast(i) => Actual(fr, i, b, env)
    case Binary(op, l, r) =>
      if RightFirst(l, r) then
        Combined(op, Unnoticed(fr, op, l, r, b), Actual(fr, l, b + Used(ItemOf(fr, r, b)), env), Actual(fr, r, b, env))
      else Both(op, Actual(fr, l, b, env), Actual(fr, r, b + Used(ItemOf(fr, l, b)), env))
    case Logic(op, l, r) =>
      var a := Actual(fr, l, b, env);
      if !a.Value? then a
      else if Decides(op, a.w) then Value(Truth(op.OrElse?))
      else
        var c := Actual(fr, r, b, env);
        if c.Value? then Value(Truth(c.w != 0)) else c
    case Cond(c, t, f) =>
      var a := Actual(fr, c, b, env);
      if !a.Value? then a
      else if a.w != 0 then Actual(fr, t, b, env)
      else Actual(fr, f, b, env)
    case Comma(l, r) =>
      var a := Actual(fr, l, b, env);
      if a.Value? then Actual(fr, r, b, env) else a
  }

  /** Where the code is known to be right: no unnoticed swap, and no bitwise not of something
      that is not yet in a register. */
  predicate Safe(fr: Frame, e: Expr, b: nat) {
    match e
    case Lit(_) => true
    case Var(_) => true
    case Unary(op, i) => Safe(fr, i, b) && (op.BitNot? ==> ItemOf(fr, i, b).RValue?)
    case Cast(i) => Safe(fr, i, b)
    case Binary(op, l, r) =>
      if RightFirst(l, r) then
        Safe(fr, r, b) && Safe(fr, l, b + Used(ItemOf(fr, r, b))) && !Unnoticed(fr, op, l, r, b)
      else Safe(fr, l, b) && Safe(fr, r, b + Used(ItemOf(fr, l, b)))
    case Logic(_, l, r) => Safe(fr, l, b) && Safe(fr, r, b)
    case Cond(c, t, f) => Safe(fr, c, b) && Safe(fr, t, b) && Safe(fr, f, b)
    case Comma(l, r) => Safe(fr, l, b) && Safe(fr, r, b)
  }

  /** Without unnoticed swaps, code computes the meaning. */
  lemma {:induction false} SafeActual(fr: Frame, e: Expr, b: nat, env: Env)
    requires Safe(fr, e, b)
    ensures Runs(fr, e, b) && Actual(fr, e, b, env) == Meaning(e, env)
  {
    match e
    case Lit(_) =>
    case Var(_) =>
    case Unary(_, i) => SafeActual(fr, i, b, env);
    case Cast(i) => SafeActual(fr, i, b, env);
    case Binary(_, l, r) =>
      if RightFirst(l, r) {
        SafeActual(fr, r, b, env);
        SafeActual(fr, l, b + Used(ItemOf(fr, r, b)), env);
      } else {
        SafeActual(fr, l, b, env);
        SafeActual(fr, r, b + Used(ItemOf(fr, l, b)), env);
      }
    case Logic(_, l, r) => SafeActual(fr, l, b, env); SafeActual(fr, r, b, env);
    case Cond(c, t, f) => SafeActual(fr, c, b, env); SafeActual(fr, t, b, env); SafeActual(fr, f, b, env);
    case Comma(l, r) => SafeActual(fr, l, b, env); SafeActual(fr, r, b, env);
  }

  // ----- labels -----

  lemma BindAppend(f: Fragment, g: Fragment, lab: Label, t: int)
    ensures Bind(f + g, lab, t) == Bind(f, lab, t) + Bind(g, lab, t - |f|)
  {
  }

  lemma BindLift(c: seq<Instr>, lab: Label, t: int)
    ensures Bind(Lift(c), lab, t) == Lift(c)
  {
  }

  /** A fragment whose open chain jumps land at target. */
  predicate PlacedOpen(code: seq<Instr>, p: int, f: Fragment, target: int) {
    Placed(code, p, Raw(Bind(f, Sc, target - p)))
  }

  lemma OpenSplit(code: seq<Instr>, p: int, f: Fragment, g: Fragment, target: int)
    requires PlacedOpen(code, p, f + g, target)
    ensures PlacedOpen(code, p, f, target) && PlacedOpen(code, p + |f|, g, target)
  {
    BindAppend(f, g, Sc, target - p);
    var x, y := Bind(f, Sc, target - p), Bind(g, Sc, target - p - |f|);
    assert Raw(x + y) == Raw(x) + Raw(y);
    PlacedSplit(code, p, Raw(x), Raw(y));
  }

  lemma OpenLift(code: seq<Instr>, p: int, c: seq<Instr>, target: int)
    requires PlacedOpen(code, p, Lift(c), target)
    ensures Placed(code, p, c)
  {
    BindLift(c, Sc, target - p);
    assert Raw(Lift(c)) == c;
  }

  // ----- runs -----

  /** The machine is at pc, having kept what it should, and the operand reads w. */
  ghost predicate Reached(fr: Frame, b: nat, m: State, m': State, pc: int, o: Operand, w: Word) {
    m.Running? && m'.Running? && m'.pc == pc && Same(fr, b, m.s, m'.s) && Read(m'.s, o) == w
  }

  /** n steps from m produce the result r in item, at pc. */
  ghost predicate Computes(fr: Frame, b: nat, code: seq<Instr>, n: nat, m: State, pc: int, item: Item, r: Result) {
    match r
    case Value(w) => Reached(fr, b, m, Steps(code, n, m), pc, Op(fr.size, item), w)
    case Fault => Steps(code, n, m) == Faulting
    case Undefined => true
  }

  lemma AgreesSame(fr: Frame, env: Env, b: nat, s: Store, s': Store)
    requires FrameOk(fr) && Agrees(fr, env, s) && Same(fr, b, s, s')
    ensures Agrees(fr, env, s')
  {
    forall x | x in env
      ensures Get(s', M(Local(fr, x))) == env[x]
    {
      assert Kept(fr, b, M(Local(fr, x)));
    }
  }

  /** Register b, a literal, or a local variable. */
  predicate Held(fr: Frame, b: nat, item: Item) {
    if item.RValue? then item == RV(b) && Stable(fr, b + 1, Op(fr.size, item))
    else Stable(fr, b, Op(fr.size, item)) && (item.LValue? ==> SlotIndex(fr.size, M(item.disp)) == -1)
  }

  /** An item that has a value is a register below the next free one, a literal or a local. */
  lemma {:induction false} ItemStable(fr: Frame, e: Expr, b: nat, env: Env, s: Store)
    requires FrameOk(fr) && Agrees(fr, env, s) && Actual(fr, e, b, env).Value?
    ensures Held(fr, b, ItemOf(fr, e, b))
  {
    match e
    case Lit(_) =>
    case Var(x) =>
    case Unary(Plus, i) => ItemStable(fr, i, b, env, s);
    case Comma(_, r) => ItemStable(fr, r, b, env, s);
    case _ => RegisterStable(fr, b + 1, b);
  }

  /** Straight code after a run. */
  lemma ThenYields(fr: Frame, b: nat, code: seq<Instr>, n: nat, m: State, p: int, c: seq<Instr>, w: Word)
    requires m.Running? && Placed(code, p, c)
    requires var m1 := Steps(code, n, m);
      m1.Running? && m1.pc == p && Same(fr, b, m.s, m1.s) && Yields(fr, b, c, m1.s, w)
    ensures Computes(fr, b, code, n + |c|, m, p + |c|, RV(b), Value(w))
  {
    var m1 := Steps(code, n, m);
    RunStraight(code, p, c, m1);
    StepsAdd(code, n, |c|, m);
    SameTrans(fr, b, m.s, m1.s, Steps(code, n + |c|, m).s);
  }

  lemma ThenYieldsOrFaults(fr: Frame, b: nat, code: seq<Instr>, n: nat, m: State, p: int, c: seq<Instr>,
                           op: BinOp, v: Word, w: Word)
    requires m.Running? && Placed(code, p, c)
    requires var m1 := Steps(code, n, m);
      m1.Running? && m1.pc == p && Same(fr, b, m.s, m1.s) && YieldsOrFaults(fr, b, c, m1.s, op, v, w)
    ensures Computes(fr, b, code, n + |c|, m, p + |c|, RV(b), Both(op, Value(v), Value(w)))
  {
    if Faults(op, v, w) {
      RunStraight(code, p, c, Steps(code, n, m));
      StepsAdd(code, n, |c|, m);
    } else {
      ThenYields(fr, b, code, n, m, p, c, Compute(op, v, w));
    }
  }

  /** A run that has faulted stays that way. */
  lemma ThenFaulting(code: seq<Instr>, n: nat, k: nat, m: State)
    requires Steps(code, n, m) == Faulting
    ensures Steps(code, n + k, m) == Faulting
  {
    StepsAdd(code, n, k, m);
    StepsStay(code, k, Faulting);
  }

  // ----- the main induction -----

  /** The situation in which a compiled expression is run. */
  ghost predicate Ready(fr: Frame, e: Expr, b: nat, code: seq<Instr>, p: int, m: State, env: Env) {
    && Placed(code, p, Code(fr, e, b)) && m.Running? && m.pc == p
    && FrameOk(fr) && Agrees(fr, env, m.s) && Runs(fr, e, b)
  }

  ghost predicate Ran(fr: Frame, e: Expr, b: nat, code: seq<Instr>, p: int, m: State, env: Env, n: nat) {
    Computes(fr, b, code, n, m, p + |Code(fr, e, b)|, ItemOf(fr, e, b), Actual(fr, e, b, env))
  }

  lemma {:induction false} RunActual(fr: Frame, e: Expr, b: nat, code: seq<Instr>, p: int, m: State, env: Env)
    returns (n: nat)
    requires Ready(fr, e, b, code, p, m, env)
    ensures Ran(fr, e, b, code, p, m, env, n)
    decreases Size(e), 6
  {
    n := 0;
    if Actual(fr, e, b, env).Undefined? {
      return;
    }
    hide Ready, Ran;
    match e
    case Lit(v) => RunLeaf(fr, e, b, code, p, m, env);
    case Var(x) => RunLeaf(fr, e, b, code, p, m, env);
    case Unary(op, i) => n := RunUnary(fr, op, i, b, code, p, m, env);
    case Cast(i) => n := RunCast(fr, i, b, code, p, m, env);
    case Binary(op, l, r) => n := RunBinary(fr, op, l, r, b, code, p, m, env);
    case Logic(op, l, r) => n := RunLogic(fr, op, l, r, b, code, p, m, env);
    case Cond(c, t, f) => n := RunCond(fr, c, t, f, b, code, p, m, env);
    case Comma(l, r) => n := RunComma(fr, l, r, b, code, p, m, env);
  }

  /** Where there is no unnoticed swap, compiled code computes the meaning of its source. */
  lemma RunCode(fr: Frame, e: Expr, b: nat, code: seq<Instr>, p: int, m: State, env: Env) returns (n: nat)
    requires Placed(code, p, Code(fr, e, b)) && m.Running? && m.pc == p
    requires FrameOk(fr) && Agrees(fr, env, m.s) && Safe(fr, e, b)
    ensures Computes(fr, b, code, n, m, p + |Code(fr, e, b)|, ItemOf(fr, e, b), Meaning(e, env))
  {
    SafeActual(fr, e, b, env);
    n := RunActual(fr, e, b, code, p, m, env);
  }

  lemma RunLeaf(fr: Frame, e: Expr, b: nat, code: seq<Instr>, p: int, m: State, env: Env)
    requires Ready(fr, e, b, code, p, m, env) && (e.Lit? || e.Var?)
    ensures Ran(fr, e, b, code, p, m, env, 0)
  {
  }

  lemma {:induction false} RunCast(fr: Frame, i: Expr, b: nat, code: seq<Instr>, p: int, m: State, env: Env)
    returns (n: nat)
    requires Ready(fr, Cast(i), b, code, p, m, env) && !Actual(fr, Cast(i), b, env).Undefined?
    ensures Ran(fr, Cast(i), b, code, p, m, env, n)
    decreases Size(i), 7
  {
    CastShape(fr, i, b, env);
    hide Code, ItemOf, Actual, Runs, Assemble, Same, Steps, FrameOk, Agrees;
    var c, item := Code(fr, i, b), ItemOf(fr, i, b);
    var d := UnaryCode(Cvt, fr.size, item, RV(b));
    PlacedSplit(code, p, c, d);
    n := RunActual(fr, i, b, code, p, m, env);
    if Actual(fr, i, b, env).Value? {
      LoadYields(fr, b, Op(fr.size, item), Steps(code, n, m).s);
      ThenYields(fr, b, code, n, m, p + |c|, d, Actual(fr, i, b, env).w);
      n := n + |d|;
    }
  }

  lemma CastShape(fr: Frame, i: Expr, b: nat, env: Env)
    ensures Code(fr, Cast(i), b) == Code(fr, i, b) + UnaryCode(Cvt, fr.size, ItemOf(fr, i, b), RV(b))
    ensures ItemOf(fr, Cast(i), b) == RV(b) && Actual(fr, Cast(i), b, env) == Actual(fr, i, b, env)
    ensures Runs(fr, Cast(i), b) ==> Runs(fr, i, b)
  {
  }

  /** Moves the item on top into its register. */
  lemma ThenRval(fr: Frame, b: nat, code: seq<Instr>, n: nat, m: State, p: int, item: Item, w: Word)
    requires m.Running? && Placed(code, p, RvalCode(fr, item, b)) && (item.RValue? ==> item == RV(b))
    requires Reached(fr, b, m, Steps(code, n, m), p, Op(fr.size, item), w)
    ensures var c := RvalCode(fr, item, b);
      Reached(fr, b, m, Steps(code, n + |c|, m), p + |c|, Op(fr.size, RV(b)), w)
  {
    if !item.RValue? {
      LoadYields(fr, b, Op(fr.size, item), Steps(code, n, m).s);
      ThenYields(fr, b, code, n, m, p, RvalCode(fr, item, b), w);
    }
  }

  lemma {:induction false} RunUnary(fr: Frame, op: UnOp, i: Expr, b: nat, code: seq<Instr>, p: int, m: State, env: Env)
    returns (n: nat)
    requires Ready(fr, Unary(op, i), b, code, p, m, env) && !Actual(fr, Unary(op, i), b, env).Undefined?
    ensures Ran(fr, Unary(op, i), b, code, p, m, env, n)
    decreases Size(i), 7
  {
    UnaryShape(fr, op, i, b, None);
    UnaryActual(fr, op, i, b, env);
    hide Code, ItemOf, Actual, Runs, Assemble, Same, Steps, FrameOk, Agrees, UnaryOpCode, UnaryValue, Stable;
    var c, item := Code(fr, i, b), ItemOf(fr, i, b);
    var d := UnaryOpCode(fr, op, item, b);
    PlacedSplit(code, p, c, d);
    n := RunActual(fr, i, b, code, p, m, env);
    if Actual(fr, i, b, env).Value? {
      ItemStable(fr, i, b, env, m.s);
      ThenUnary(fr, op, b, code, n, m, p + |c|, item, Actual(fr, i, b, env).w);
      n := n + |d|;
    }
  }

  lemma UnaryActual(fr: Frame, op: UnOp, i: Expr, b: nat, env: Env)
    ensures var a := Actual(fr, i, b, env);
      Actual(fr, Unary(op, i), b, env) == if a.Value? then Value(UnaryValue(op, a.w)) else a
    ensures Runs(fr, Unary(op, i), b) ==> Runs(fr, i, b) && (op.BitNot? ==> ItemOf(fr, i, b).RValue?)
  {
  }

  lemma ThenUnary(fr: Frame, op: UnOp, b: nat, code: seq<Instr>, n: nat, m: State, p: int, item: Item, w: Word)
    requires m.Running? && Placed(code, p, UnaryOpCode(fr, op, item, b))
    requires (item.RValue? ==> item == RV(b)) && (op.BitNot? ==> item.RValue?)
    requires Reached(fr, b, m, Steps(code, n, m), p, Op(fr.size, item), w)
    ensures var c := UnaryOpCode(fr, op, item, b);
      Reached(fr, b, m, Steps(code, n + |c|, m), p + |c|, Op(fr.size, if op.Plus? then item else RV(b)),
              UnaryValue(op, w))
  {
    hide Same, Step, UnaryCode;
    var s1 := Steps(code, n, m).s;
    match op
    case Plus =>
    case Minus =>
      var rv, d := RvalCode(fr, item, b), UnaryCode(NegI, fr.size, RV(b), RV(b));
      PlacedSplit(code, p, rv, d);
      ThenRval(fr, b, code, n, m, p, item, w);
      NegYields(fr, b, Steps(code, n + |rv|, m).s);
      ThenYields(fr, b, code, n + |rv|, m, p + |rv|, d, Negate(w));
    case LogicNot =>
      TestYields(fr, b, item, s1);
      ThenYields(fr, b, code, n, m, p, UnaryCode(Zero, fr.size, item, RV(b)), Truth(w == 0));
    case BitNot =>
      NotYields(fr, b, s1);
      ThenYields(fr, b, code, n, m, p, UnaryCode(NotI, fr.size, item, RV(b)), Complement(w));
  }

  /** Both operands have been evaluated, the first one into register b if into any. */
  ghost predicate PairRan(fr: Frame, b: nat, code: seq<Instr>, n: nat, m: State, pc: int, x: Item, y: Item,
                          r: Result, q: Result) {
    if r.Value? && q.Value? then
      && Reached(fr, b, m, Steps(code, n, m), pc, Op(fr.size, x), r.w)
      && Reached(fr, b, m, Steps(code, n, m), pc, Op(fr.size, y), q.w)
      && Readable(fr, b, x, y)
      && (!x.RValue? ==> Stable(fr, b, Op(fr.size, x)))
      && (!y.RValue? ==> Stable(fr, b, Op(fr.size, y)))
    else Steps(code, n, m) == Faulting
  }

  lemma JoinPair(fr: Frame, b: nat, code: seq<Instr>, n: nat, k: nat, m: State, p1: int, pc: int, x: Item, y: Item,
                 r: Result, q: Result)
    requires m.Running? && r.Value? && !q.Undefined?
    requires Computes(fr, b, code, n, m, p1, x, r) && Held(fr, b, x)
    requires Computes(fr, b + Used(x), code, k, Steps(code, n, m), pc, y, q)
    requires q.Value? ==> Held(fr, b + Used(x), y)
    ensures PairRan(fr, b, code, n + k, m, pc, x, y, r, q)
  {
    StepsAdd(code, n, k, m);
    if q.Value? {
      var s1, s2 := Steps(code, n, m).s, Steps(code, n + k, m).s;
      SameFewer(fr, b, b + Used(x), s1, s2);
      SameTrans(fr, b, m.s, s1, s2);
      StableRead(fr, b + Used(x), s1, s2, Op(fr.size, x));
    }
  }

  lemma {:induction false} RunPair(fr: Frame, first: Expr, second: Expr, b: nat, x: Item, b1: nat, y: Item,
                                   code: seq<Instr>, p: int, p1: int, pc: int, m: State, env: Env)
    returns (n: nat)
    requires x == ItemOf(fr, first, b) && b1 == b + Used(x) && y == ItemOf(fr, second, b1)
    requires Placed(code, p, Code(fr, first, b)) && p1 == p + |Code(fr, first, b)| && Runs(fr, first, b)
    requires Placed(code, p1, Code(fr, second, b1)) && pc == p1 + |Code(fr, second, b1)| && Runs(fr, second, b1)
    requires m.Running? && m.pc == p && FrameOk(fr) && Agrees(fr, env, m.s)
    requires !Actual(fr, first, b, env).Undefined? && !Actual(fr, second, b1, env).Undefined?
    ensures PairRan(fr, b, code, n, m, pc, x, y, Actual(fr, first, b, env), Actual(fr, second, b1, env))
    decreases Size(first) + Size(second), 7, 0
  {
    hide Code, ItemOf, Actual, Runs, Held, Same, Stable, Step, Steps, FrameOk, Agrees, Placed;
    n := RunActual(fr, first, b, code, p, m, env);
    if Actual(fr, first, b, env).Value? {
      var m1 := Steps(code, n, m);
      ItemStable(fr, first, b, env, m.s);
      AgreesSame(fr, env, b, m.s, m1.s);
      var k := RunActual(fr, second, b1, code, p1, m1, env);
      if Actual(fr, second, b1, env).Value? {
        ItemStable(fr, second, b1, env, m1.s);
      }
      JoinPair(fr, b, code, n, k, m, p1, pc, x, y, Actual(fr, first, b, env), Actual(fr, second, b1, env));
      n := n + k;
    }
  }

  lemma {:induction false} RunBinary(fr: Frame, op: BinOp, l: Expr, r: Expr, b: nat, code: seq<Instr>, p: int,
                                     m: State, env: Env)
    returns (n: nat)
    requires Ready(fr, Binary(op, l, r), b, code, p, m, env) && !Actual(fr, Binary(op, l, r), b, env).Undefined?
    ensures Ran(fr, Binary(op, l, r), b, code, p, m, env, n)
    decreases Size(l) + Size(r), 8
  {
    BinaryShape(fr, op, l, r, b, None);
    BinaryActual(fr, op, l, r, b, env);
    hide Code, ItemOf, Actual, Runs, Computes, Assemble, ArithCode, Same, Steps, FrameOk, Agrees, Both, Combined,
      Unnoticed;
    if RightFirst(l, r) {
      n := RunOrdered(fr, op, r, l, b, code, p, m, env, true);
    } else {
      n := RunOrdered(fr, op, l, r, b, code, p, m, env, false);
    }
  }

  function OperatorCode(fr: Frame, op: BinOp, x: Item, y: Item, b: nat, swap: bool): seq<Instr> {
    if swap then ArithCode(fr, op, y, x, b) else ArithCode(fr, op, x, y, b)
  }

  /** What an operator comes to when its operands, in the order of evaluation, come to r and q. */
  function OperatorResult(op: BinOp, x: Item, y: Item, b: nat, swap: bool, r: Result, q: Result): Result {
    if swap then Combined(op, Simple(op) && BadSwap(b, y, x), q, r)
    else Combined(op, Simple(op) && BadSwap(b, x, y), r, q)
  }

  lemma {:induction false} RunOrdered(fr: Frame, op: BinOp, first: Expr, second: Expr, b: nat, code: seq<Instr>, p: int,
                                      m: State, env: Env, swap: bool)
    returns (n: nat)
    requires var x := ItemOf(fr, first, b);
      var y := ItemOf(fr, second, b + Used(x));
      && Placed(code, p, Code(fr, first, b) + Code(fr, second, b + Used(x)) + OperatorCode(fr, op, x, y, b, swap))
      && Runs(fr, first, b) && Runs(fr, second, b + Used(x))
      && !Actual(fr, first, b, env).Undefined? && !Actual(fr, second, b + Used(x), env).Undefined?
    requires m.Running? && m.pc == p && FrameOk(fr) && Agrees(fr, env, m.s)
    ensures var x := ItemOf(fr, first, b);
      var y := ItemOf(fr, second, b + Used(x));
      var c := Code(fr, first, b) + Code(fr, second, b + Used(x)) + OperatorCode(fr, op, x, y, b, swap);
      var r, q := Actual(fr, first, b, env), Actual(fr, second, b + Used(x), env);
      Computes(fr, b, code, n, m, p + |c|, RV(b), OperatorResult(op, x, y, b, swap, r, q))
    decreases Size(first) + Size(second), 7, 1
  {
    hide Code, ItemOf, Actual, Runs, Same, Stable, Step, Steps, ArithCode, PairRan, Computes, Combined, BadSwap;
    var x := ItemOf(fr, first, b);
    var b1 := b + Used(x);
    var y := ItemOf(fr, second, b1);
    var c := Code(fr, first, b) + Code(fr, second, b1);
    var p1 := p + |Code(fr, first, b)|;
    var r, q := Actual(fr, first, b, env), Actual(fr, second, b1, env);
    PlacedSplit(code, p, c, OperatorCode(fr, op, x, y, b, swap));
    PlacedSplit(code, p, Code(fr, first, b), Code(fr, second, b1));
    n := RunPair(fr, first, second, b, x, b1, y, code, p, p1, p + |c|, m, env);
    if swap {
      n := ThenOperator(fr, b, code, n, m, p + |c|, op, y, x, q, r);
    } else {
      n := ThenOperator(fr, b, code, n, m, p + |c|, op, x, y, r, q);
    }
  }

  lemma BinaryCode(fr: Frame, op: BinOp, l: Expr, r: Expr, b: nat)
    ensures var swap := RightFirst(l, r);
      var first, second := if swap then r else l, if swap then l else r;
      var x := ItemOf(fr, first, b);
      var y := ItemOf(fr, second, b + Used(x));
      Code(fr, Binary(op, l, r), b)
      == Code(fr, first, b) + Code(fr, second, b + Used(x)) + OperatorCode(fr, op, x, y, b, swap)
  {
    BinaryShape(fr, op, l, r, b, None);
    hide Code, ItemOf, RightFirst, ArithCode;
  }

  lemma BinaryActual(fr: Frame, op: BinOp, l: Expr, r: Expr, b: nat, env: Env)
    ensures var swap := RightFirst(l, r);
      var first, second := if swap then r else l, if swap then l else r;
      var x := ItemOf(fr, first, b);
      var y := ItemOf(fr, second, b + Used(x));
      var v, w := Actual(fr, first, b, env), Actual(fr, second, b + Used(x), env);
      var a := Actual(fr, Binary(op, l, r), b, env);
      && a == OperatorResult(op, x, y, b, swap, v, w)
      && (!a.Undefined? ==> !v.Undefined? && !w.Undefined?)
      && (Runs(fr, Binary(op, l, r), b) ==> Runs(fr, first, b) && Runs(fr, second, b + Used(x)))
  {
    ItemRegister(fr, l, b);
  }

  /** x is the left operand and y the right one, in whichever order they were evaluated. */
  lemma ThenOperator(fr: Frame, b: nat, code: seq<Instr>, n: nat, m: State, pc: int, op: BinOp, x: Item, y: Item,
                     r: Result, q: Result) returns (k: nat)
    requires Placed(code, pc, ArithCode(fr, op, x, y, b))
    requires m.Running? && !r.Undefined? && !q.Undefined?
    requires PairRan(fr, b, code, n, m, pc, x, y, r, q) || PairRan(fr, b, code, n, m, pc, y, x, q, r)
    ensures Computes(fr, b, code, k, m, pc + |ArithCode(fr, op, x, y, b)|, RV(b),
                     Combined(op, Simple(op) && BadSwap(b, x, y), r, q))
  {
    k := n;
    if r.Value? && q.Value? {
      k := n + |ArithCode(fr, op, x, y, b)|;
      if !PairRan(fr, b, code, n, m, pc, x, y, r, q) {
        EitherOrder(fr, b, code, n, m, pc, x, y, r, q);
      }
      hide PairRan, Computes, ArithCode, Placed, BadSwap, Compute, Faults;
      if Simple(op) && BadSwap(b, x, y) {
        ThenBadSwap(fr, b, code, n, m, pc, op, x, y, r.w, q.w);
      } else {
        ThenArith(fr, b, code, n, m, pc, op, x, y, r.w, q.w);
      }
    }
  }

  lemma EitherOrder(fr: Frame, b: nat, code: seq<Instr>, n: nat, m: State, pc: int, x: Item, y: Item,
                    r: Result, q: Result)
    requires PairRan(fr, b, code, n, m, pc, y, x, q, r)
    ensures PairRan(fr, b, code, n, m, pc, x, y, r, q)
  {
    hide Steps, Same, Stable;
  }

  lemma ThenArith(fr: Frame, b: nat, code: seq<Instr>, n: nat, m: State, pc: int, op: BinOp, x: Item, y: Item,
                  v: Word, w: Word)
    requires Placed(code, pc, ArithCode(fr, op, x, y, b)) && m.Running? && (Simple(op) ==> !BadSwap(b, x, y))
    requires PairRan(fr, b, code, n, m, pc, x, y, Value(v), Value(w))
    ensures var c := ArithCode(fr, op, x, y, b);
      Computes(fr, b, code, n + |c|, m, pc + |c|, RV(b), Both(op, Value(v), Value(w)))
  {
    hide Steps, Same, Stable, ArithCode, Computes, YieldsOrFaults;
    ArithYields(fr, b, op, x, y, Steps(code, n, m).s);
    ThenYieldsOrFaults(fr, b, code, n, m, pc, ArithCode(fr, op, x, y, b), op, v, w);
  }

  lemma ThenBadSwap(fr: Frame, b: nat, code: seq<Instr>, n: nat, m: State, pc: int, op: BinOp, x: Item, y: Item,
                    v: Word, w: Word)
    requires Placed(code, pc, ArithCode(fr, op, x, y, b)) && m.Running? && Simple(op) && BadSwap(b, x, y)
    requires PairRan(fr, b, code, n, m, pc, x, y, Value(v), Value(w))
    ensures var c := ArithCode(fr, op, x, y, b);
      Computes(fr, b, code, n + |c|, m, pc + |c|, RV(b), Value(Compute(op, w, w)))
  {
    hide Steps, Same, Stable, SimpleCode, Computes, Yields;
    BadSwapYields(fr, op, x, y, Steps(code, n, m).s);
    ThenYields(fr, b, code, n, m, pc, ArithCode(fr, op, x, y, b), Compute(op, w, w));
  }

  // ----- sequencing -----

  /** One run after another. */
  lemma ThenComputes(fr: Frame, b: nat, code: seq<Instr>, n: nat, k: nat, m: State, pc: int, item: Item, r: Result)
    requires m.Running? && Steps(code, n, m).Running? && Same(fr, b, m.s, Steps(code, n, m).s)
    requires Computes(fr, b, code, k, Steps(code, n, m), pc, item, r)
    ensures Computes(fr, b, code, n + k, m, pc, item, r)
  {
    StepsAdd(code, n, k, m);
    if r.Value? {
      SameTrans(fr, b, m.s, Steps(code, n, m).s, Steps(code, n + k, m).s);
    }
  }

  lemma {:induction false} RunComma(fr: Frame, l: Expr, r: Expr, b: nat, code: seq<Instr>, p: int, m: State, env: Env)
    returns (n: nat)
    requires Ready(fr, Comma(l, r), b, code, p, m, env) && !Actual(fr, Comma(l, r), b, env).Undefined?
    ensures Ran(fr, Comma(l, r), b, code, p, m, env, n)
    decreases Size(l) + Size(r), 7
  {
    hide Code, ItemOf, Actual, Runs, Assemble, Same, Steps, FrameOk, Agrees;
    CommaShape(fr, l, r, b, None);
    CommaActual(fr, l, r, b, env);
    PlacedSplit(code, p, Code(fr, l, b), Code(fr, r, b));
    n := RunActual(fr, l, b, code, p, m, env);
    if Actual(fr, l, b, env).Value? {
      var m1 := Steps(code, n, m);
      AgreesSame(fr, env, b, m.s, m1.s);
      var k := RunActual(fr, r, b, code, p + |Code(fr, l, b)|, m1, env);
      ThenComputes(fr, b, code, n, k, m, p + |Code(fr, Comma(l, r), b)|, ItemOf(fr, r, b), Actual(fr, r, b, env));
      n := n + k;
    }
  }

  lemma CommaActual(fr: Frame, l: Expr, r: Expr, b: nat, env: Env)
    ensures var a := Actual(fr, l, b, env);
      Actual(fr, Comma(l, r), b, env) == if a.Value? then Actual(fr, r, b, env) else a
    ensures Runs(fr, Comma(l, r), b) ==> Runs(fr, l, b) && Runs(fr, r, b)
  {
  }

  // ----- tests and jumps -----

  predicate Jumps(j: Jump, w: Word) {
    match j
    case Always => true
    case IfZero => w == 0
    case IfNotZero => w != 0
  }

  /** A comparison with zero and the jump that depends on it change no register but scratch. */
  lemma ThenTest(fr: Frame, b: nat, code: seq<Instr>, n: nat, m: State, p: int, o: Operand, w: Word, j: Jump, rel: int)
    requires Placed(code, p, [Cmp(o, Imm(0)), Go(j, rel)])
    requires Reached(fr, b, m, Steps(code, n, m), p, o, w)
    ensures var m1, m2 := Steps(code, n, m), Steps(code, n + 2, m);
      && Reached(fr, b, m, m2, p + 2 + (if Jumps(j, w) then rel else 0), Imm(w), w)
      && Get(m2.s, LocAt(fr, b)) == Get(m1.s, LocAt(fr, b))
  {
    var m1 := Steps(code, n, m);
    var c := [Cmp(o, Imm(0)), Go(j, rel)];
    assert code[p] == code[p..p + 2][0] == c[0];
    assert code[p + 1] == code[p..p + 2][1] == c[1];
    var a := Step(code, m1);
    assert Steps(code, 2, m1) == Step(code, a) by {
      assert Steps(code, 1, a) == Step(code, a);
    }
    StepsAdd(code, n, 2, m);
    SlotRoundTrip(fr, b);
    assert Same(fr, b, m1.s, a.s);
    SameTrans(fr, b, m.s, m1.s, a.s);
  }

  // ----- short-circuit chains -----

  /** A chain either falls through, leaving an item with the right truth value, or jumps to its
      end with the deciding value in the merge register. */
  ghost predicate ChainRan(fr: Frame, op: LogicOp, b: nat, code: seq<Instr>, n: nat, m: State, pc: int, target: int,
                           item: Item, r: Result, jumped: bool) {
    match r
    case Value(v) =>
      var m' := Steps(code, n, m);
      && m.Running? && m'.Running? && Same(fr, b, m.s, m'.s)
      && (if jumped then m'.pc == target && Decides(op, Get(m'.s, LocAt(fr, b))) && v == Truth(op.OrElse?)
          else m'.pc == pc && (Read(m'.s, Op(fr.size, item)) != 0 <==> v != 0))
    case Fault => Steps(code, n, m) == Faulting
    case Undefined => true
  }

  lemma TestCellsCode(fr: Frame, op: LogicOp, item: Item, b: nat, t: int)
    ensures var rv := RvalCode(fr, item, b);
      Raw(Bind(TestCells(fr, op, item, b), Sc, t))
      == rv + [Cmp(Op(fr.size, RV(b)), Imm(0)), Go(TestJump(op), t - |rv| - 2)]
  {
    var rv := RvalCode(fr, item, b);
    BindAppend(Lift(rv + TestCode(fr, RV(b))), [J(TestJump(op), Sc)], Sc, t);
    BindLift(rv + TestCode(fr, RV(b)), Sc, t);
  }

  /** The test behind an operand of a chain. */
  lemma ThenCells(fr: Frame, op: LogicOp, b: nat, code: seq<Instr>, n: nat, m: State, p: int, target: int, item: Item,
                  v: Word) returns (k: nat)
    requires PlacedOpen(code, p, TestCells(fr, op, item, b), target)
    requires ChainRan(fr, op, b, code, n, m, p, target, item, Value(v), false)
    requires item.RValue? ==> item == RV(b)
    ensures var m' := Steps(code, k, m);
      && m.Running? && m'.Running? && Same(fr, b, m.s, m'.s)
      && (if Decides(op, v) then m'.pc == target && Decides(op, Get(m'.s, LocAt(fr, b)))
          else m'.pc == p + |TestCells(fr, op, item, b)|)
  {
    var rv := RvalCode(fr, item, b);
    var w := Read(Steps(code, n, m).s, Op(fr.size, item));
    TestCellsCode(fr, op, item, b, target - p);
    var test := [Cmp(Op(fr.size, RV(b)), Imm(0)), Go(TestJump(op), target - p - |rv| - 2)];
    PlacedSplit(code, p, rv, test);
    ThenRval(fr, b, code, n, m, p, item, w);
    ThenTest(fr, b, code, n + |rv|, m, p + |rv|, Op(fr.size, RV(b)), w, TestJump(op), target - p - |rv| - 2);
    k := n + |rv| + 2;
  }

  lemma {:induction false} RunChain(fr: Frame, op: LogicOp, e: Expr, b: nat, code: seq<Instr>, p: int, target: int,
                                    m: State, env: Env) returns (n: nat, jumped: bool)
    requires PlacedOpen(code, p, Chain(fr, op, e, b), target) && m.Running? && m.pc == p
    requires FrameOk(fr) && Agrees(fr, env, m.s) && Runs(fr, e, b)
    ensures ChainRan(fr, op, b, code, n, m, p + |Chain(fr, op, e, b)|, target, ChainItem(fr, op, e, b),
                     Actual(fr, e, b, env), jumped)
    ensures jumped ==> InChain(op, e)
    decreases Size(e), if InChain(op, e) then 0 else 7
  {
    n, jumped := 0, false;
    if Actual(fr, e, b, env).Undefined? {
    } else if !InChain(op, e) {
      OpenLift(code, p, Code(fr, e, b), target);
      n := RunActual(fr, e, b, code, p, m, env);
    } else {
      n, jumped := RunLink(fr, op, e.left, e.right, b, code, p, target, m, env);
    }
  }

  lemma LinkShape(fr: Frame, op: LogicOp, l: Expr, r: Expr, b: nat, env: Env)
    ensures var e := Logic(op, l, r);
      && Chain(fr, op, e, b)
         == Chain(fr, op, l, b) + TestCells(fr, op, ChainItem(fr, op, l, b), b) + Chain(fr, op, r, b)
      && ChainItem(fr, op, e, b) == ChainItem(fr, op, r, b)
      && (Runs(fr, e, b) ==> Runs(fr, l, b) && Runs(fr, r, b))
      && var a, c := Actual(fr, l, b, env), Actual(fr, r, b, env);
         Actual(fr, e, b, env) ==
           if !a.Value? then a
           else if Decides(op, a.w) then Value(Truth(op.OrElse?))
           else if c.Value? then Value(Truth(c.w != 0)) else c
  {
    var f, item := Chain(fr, op, l, b), ChainItem(fr, op, l, b);
    Assoc(f, Lift(RvalCode(fr, item, b) + TestCode(fr, RV(b))), [J(TestJump(op), Sc)]);
  }

  lemma {:induction false} RunLink(fr: Frame, op: LogicOp, l: Expr, r: Expr, b: nat, code: seq<Instr>, p: int,
                                   target: int, m: State, env: Env) returns (n: nat, jumped: bool)
    requires var e := Logic(op, l, r);
      PlacedOpen(code, p, Chain(fr, op, e, b), target) && Runs(fr, e, b) && !Actual(fr, e, b, env).Undefined?
    requires m.Running? && m.pc == p && FrameOk(fr) && Agrees(fr, env, m.s)
    ensures var e := Logic(op, l, r);
      ChainRan(fr, op, b, code, n, m, p + |Chain(fr, op, e, b)|, target, ChainItem(fr, op, e, b),
               Actual(fr, e, b, env), jumped)
    decreases Size(l) + Size(r), 8
  {
    LinkShape(fr, op, l, r, b, env);
    hide Chain, ChainItem, Actual, Runs, Same, Steps, FrameOk, Agrees, TestCells, PlacedOpen;
    var f, item, g := Chain(fr, op, l, b), ChainItem(fr, op, l, b), Chain(fr, op, r, b);
    var test := TestCells(fr, op, item, b);
    OpenSplit(code, p, f + test, g, target);
    OpenSplit(code, p, f, test, target);
    n, jumped := RunChain(fr, op, l, b, code, p, target, m, env);
    if Actual(fr, l, b, env).Value? && !jumped {
      var v := Actual(fr, l, b, env).w;
      ChainRegister(fr, op, l, b);
      n := ThenCells(fr, op, b, code, n, m, p + |f|, target, item, v);
      jumped := Decides(op, v);
      if !jumped {
        var m1 := Steps(code, n, m);
        AgreesSame(fr, env, b, m.s, m1.s);
        var k, j := RunChain(fr, op, r, b, code, p + |f + test|, target, m1, env);
        StepsAdd(code, n, k, m);
        if Actual(fr, r, b, env).Value? {
          SameTrans(fr, b, m.s, m1.s, Steps(code, n + k, m).s);
        }
        n, jumped := n + k, j;
      }
    }
  }

  lemma {:induction false} RunLogic(fr: Frame, op: LogicOp, l: Expr, r: Expr, b: nat, code: seq<Instr>, p: int,
                                    m: State, env: Env)
    returns (n: nat)
    requires Ready(fr, Logic(op, l, r), b, code, p, m, env) && !Actual(fr, Logic(op, l, r), b, env).Undefined?
    ensures Ran(fr, Logic(op, l, r), b, code, p, m, env, n)
    decreases Size(l) + Size(r), 9
  {
    hide Code, Chain, ChainItem, ItemOf, Actual, Runs, Same, Steps, FrameOk, Agrees, PlacedOpen, UnaryCode, Bind,
      Assemble, ChainRan, Computes;
    var e := Logic(op, l, r);
    LogicShape(fr, e, b, None);
    LogicValue(fr, op, l, r, b, env);
    var f, item := Chain(fr, op, e, b), ChainItem(fr, op, e, b);
    var rv, tail := RvalCode(fr, item, b), UnaryCode(ScEnd, fr.size, RV(b), RV(b));
    var open := f + Lift(rv);
    var target := p + |open|;
    PlacedSplit(code, p, Raw(Bind(open, Sc, |open|)), tail);
    OpenIs(code, p, open, target);
    OpenSplit(code, p, f, Lift(rv), target);
    OpenLift(code, p + |f|, rv, target);
    var k, jumped := RunLink(fr, op, l, r, b, code, p, target, m, env);
    ChainRegister(fr, op, e, b);
    n := ThenMerge(fr, op, b, code, k, m, p + |f|, target, item, Actual(fr, e, b, env), jumped);
  }

  /** At the end of a chain both paths meet, and the merge register becomes 0 or 1. */
  lemma ThenMerge(fr: Frame, op: LogicOp, b: nat, code: seq<Instr>, k: nat, m: State, pc: int, target: int, item: Item,
                  r: Result, jumped: bool) returns (n: nat)
    requires ChainRan(fr, op, b, code, k, m, pc, target, item, r, jumped)
    requires !r.Undefined? && (r.Value? ==> r.w == Truth(r.w != 0)) && (item.RValue? ==> item == RV(b))
    requires Placed(code, pc, RvalCode(fr, item, b)) && target == pc + |RvalCode(fr, item, b)|
    requires Placed(code, target, UnaryCode(ScEnd, fr.size, RV(b), RV(b)))
    ensures Computes(fr, b, code, n, m, target + |UnaryCode(ScEnd, fr.size, RV(b), RV(b))|, RV(b), r)
  {
    n := k;
    if r.Value? {
      if !jumped {
        ThenRval(fr, b, code, n, m, pc, item, Read(Steps(code, n, m).s, Op(fr.size, item)));
        n := n + |RvalCode(fr, item, b)|;
      }
      var tail := UnaryCode(ScEnd, fr.size, RV(b), RV(b));
      TestYields(fr, b, RV(b), Steps(code, n, m).s);
      ThenYields(fr, b, code, n, m, target, tail, r.w);
      n := n + |tail|;
    }
  }

  lemma OpenIs(code: seq<Instr>, p: int, f: Fragment, target: int)
    requires Placed(code, p, Raw(Bind(f, Sc, |f|))) && target == p + |f|
    ensures PlacedOpen(code, p, f, target)
  {
    assert target - p == |f|;
  }

  lemma LogicValue(fr: Frame, op: LogicOp, l: Expr, r: Expr, b: nat, env: Env)
    ensures var v := Actual(fr, Logic(op, l, r), b, env); v.Value? ==> v.w == Truth(v.w != 0)
  {
  }

  // ----- conditional expressions -----

  /** An arm runs into the merge register. */
  lemma {:induction false} RunArm(fr: Frame, e: Expr, b: nat, code: seq<Instr>, p: int, n: nat, m: State, env: Env)
    returns (k: nat)
    requires Placed(code, p, ArmCode(fr, e, b)) && Runs(fr, e, b) && FrameOk(fr)
    requires m.Running? && Steps(code, n, m).Running? && Steps(code, n, m).pc == p
    requires Same(fr, b, m.s, Steps(code, n, m).s) && Agrees(fr, env, m.s)
    ensures Computes(fr, b, code, k, m, p + |ArmCode(fr, e, b)|, RV(b), Actual(fr, e, b, env))
    decreases Size(e), 8
  {
    hide Code, ItemOf, Actual, Runs, Same, Steps, FrameOk, Agrees;
    var c, item := Code(fr, e, b), ItemOf(fr, e, b);
    var m1 := Steps(code, n, m);
    PlacedSplit(code, p, c, RvalCode(fr, item, b));
    AgreesSame(fr, env, b, m.s, m1.s);
    k := RunActual(fr, e, b, code, p, m1, env);
    ThenComputes(fr, b, code, n, k, m, p + |c|, item, Actual(fr, e, b, env));
    k := n + k;
    if Actual(fr, e, b, env).Value? {
      ItemRegister(fr, e, b);
      ThenRval(fr, b, code, k, m, p + |c|, item, Actual(fr, e, b, env).w);
      k := k + |RvalCode(fr, item, b)|;
    }
  }

  lemma ThenJump(fr: Frame, b: nat, code: seq<Instr>, n: nat, m: State, p: int, item: Item, r: Result, rel: int)
    requires m.Running? && Placed(code, p, [Go(Always, rel)])
    requires Computes(fr, b, code, n, m, p, item, r)
    ensures Computes(fr, b, code, n + 1, m, p + 1 + rel, item, r)
  {
    StepsAdd(code, n, 1, m);
    if r.Value? {
      assert code[p] == code[p..p + 1][0];
      assert Steps(code, 1, Steps(code, n, m)) == Step(code, Steps(code, n, m));
    } else if r.Fault? {
      ThenFaulting(code, n, 1, m);
    }
  }

  lemma {:induction false} RunCond(fr: Frame, c: Expr, t: Expr, f: Expr, b: nat, code: seq<Instr>, p: int, m: State,
                                   env: Env)
    returns (n: nat)
    requires Ready(fr, Cond(c, t, f), b, code, p, m, env) && !Actual(fr, Cond(c, t, f), b, env).Undefined?
    ensures Ran(fr, Cond(c, t, f), b, code, p, m, env, n)
    decreases Size(c) + Size(t) + Size(f), 9
  {
    var e := Cond(c, t, f);
    CondShape(fr, c, t, f, b, None);
    CondActual(fr, c, t, f, b, env);
    hide Code, ItemOf, Actual, Runs, Same, Steps, FrameOk, Agrees, ArmCode;
    var cc, ic, x, y := Code(fr, c, b), ItemOf(fr, c, b), ArmCode(fr, t, b), ArmCode(fr, f, b);
    CondPlaced(code, p, cc, Op(fr.size, ic), x, y);
    n := RunActual(fr, c, b, code, p, m, env);
    if Actual(fr, c, b, env).Value? {
      var w := Actual(fr, c, b, env).w;
      ThenTest(fr, b, code, n, m, p + |cc|, Op(fr.size, ic), w, IfZero, |x| + 1);
      if w != 0 {
        n := RunArm(fr, t, b, code, p + |cc| + 2, n + 2, m, env);
        ThenJump(fr, b, code, n, m, p + |cc| + 2 + |x|, RV(b), Actual(fr, t, b, env), |y|);
        n := n + 1;
      } else {
        n := RunArm(fr, f, b, code, p + |cc| + 3 + |x|, n + 2, m, env);
      }
    }
  }

  lemma CondActual(fr: Frame, c: Expr, t: Expr, f: Expr, b: nat, env: Env)
    ensures var a := Actual(fr, c, b, env);
      Actual(fr, Cond(c, t, f), b, env)
        == if !a.Value? then a else if a.w != 0 then Actual(fr, t, b, env) else Actual(fr, f, b, env)
    ensures Runs(fr, Cond(c, t, f), b) ==> Runs(fr, c, b) && Runs(fr, t, b) && Runs(fr, f, b)
  {
  }

  /** The parts of a placed conditional. */
  lemma CondPlaced(code: seq<Instr>, p: int, c: seq<Instr>, o: Operand, x: seq<Instr>, y: seq<Instr>)
    requires Placed(code, p, c + [Cmp(o, Imm(0))] + [Go(IfZero, |x| + 1)] + x + [Go(Always, |y|)] + y)
    ensures Placed(code, p, c) && Placed(code, p + |c|, [Cmp(o, Imm(0)), Go(IfZero, |x| + 1)])
    ensures Placed(code, p + |c| + 2, x) && Placed(code, p + |c| + 2 + |x|, [Go(Always, |y|)])
    ensures Placed(code, p + |c| + 3 + |x|, y)
  {
    var test := [Cmp(o, Imm(0)), Go(IfZero, |x| + 1)];
    assert c + [Cmp(o, Imm(0))] + [Go(IfZero, |x| + 1)] == c + test;
    PlacedSplit(code, p, c + test + x + [Go(Always, |y|)], y);
    PlacedSplit(code, p, c + test + x, [Go(Always, |y|)]);
    PlacedSplit(code, p, c + test, x);
    PlacedSplit(code, p, c, test);
  }
}
