/** The preprocessor evaluates #if conditions while it parses them. It computes the value of the
    very tree that the compiler's parser would build. */
module Conditions {
  import opened Basics
  import opened Words
  import opened Syntax
  import opened Climbing
  import opened Arithmetic

  // ----- the value of a tree -----

  predicate Divides(op: Op) {
    op == Slash || op == Percent
  }

  function Apply(op: Op, a: Word, b: Word): Word
    requires Divides(op) ==> b != 0
  {
    match op
    case Plus => Wrap(a + b)
    case Minus => Wrap(a - b)
    case Star => Wrap(a * b)
    case Slash => Wrap(TruncDiv(a, b))
    case Percent => Wrap(a - b * TruncDiv(a, b))
    case Ampersand => Compute(BAnd, a, b)
    case Pipe => Compute(BOr, a, b)
    case Hat => Compute(BXor, a, b)
    case ShiftLeft => Wrap(a * Pow2(b % 64))
    case ShiftRight => Wrap(a / Pow2(b % 64))
    case EqualEqual => Truth(a == b)
    case NotEqual => Truth(a != b)
    case Less => Truth(a < b)
    case Greater => Truth(a > b)
    case LessEqual => Truth(a <= b)
    case GreaterEqual => Truth(a >= b)
    case AndAnd => Truth(a != 0 && b != 0)
    case OrOr => Truth(a != 0 || b != 0)
    case _ => a
  }

  function ApplyPrefix(op: Op, a: Word): Word {
    match op
    case Minus => Negate(a)
    case Tilde => Complement(a)
    case Bang => Truth(a == 0)
    case _ => a
  }

  /** Everything is evaluated, also what does not decide; an undefined macro is 0. */
  function ValueOf(t: Tree): Option<Word> {
    match t
    case Lit(v) => Some(v)
    case Id(_) => Some(0)
    case Un(op, i) =>
      var a := ValueOf(i);
      if a.Some? then Some(ApplyPrefix(op, a.value)) else None
    case Paren(i) => ValueOf(i)
    case Bin(op, l, r) =>
      var a, b := ValueOf(l), ValueOf(r);
      if a.None? || b.None? || (Divides(op) && b.value == 0) then None else Some(Apply(op, a.value, b.value))
    case Tern(c, a, b) =>
      var x, y, z := ValueOf(c), ValueOf(a), ValueOf(b);
      if x.None? || y.None? || z.None? then None else if x.value != 0 then y else z
  }

  predicate DividesByZero(t: Tree) {
    match t
    case Lit(_) => false
    case Id(_) => false
    case Un(_, i) => DividesByZero(i)
    case Paren(i) => DividesByZero(i)
    case Bin(op, l, r) => DividesByZero(l) || DividesByZero(r) || (Divides(op) && ValueOf(r) == Some(0))
    case Tern(c, a, b) => DividesByZero(c) || DividesByZero(a) || DividesByZero(b)
  }

  lemma {:induction false} NoValueExactly(t: Tree)
    ensures ValueOf(t).None? <==> DividesByZero(t)
  {
    match t
    case Lit(_) =>
    case Id(_) =>
    case Un(_, i) => NoValueExactly(i);
    case Paren(i) => NoValueExactly(i);
    case Bin(_, l, r) => NoValueExactly(l); NoValueExactly(r);
    case Tern(c, a, b) => NoValueExactly(c); NoValueExactly(a); NoValueExactly(b);
  }

  // ----- evaluation while parsing -----

  /** What a parse comes to: its value, unless some divisor is zero. */
  function Computed(r: Parsed<Tree>): Parsed<Word> {
    if r.Ok? && ValueOf(r.value).Some? then Ok(ValueOf(r.value).value, r.rest) else Failed
  }

  /** Once a part has no value, the whole will have none. */
  lemma {:induction false} ClimbHopeless(left: Tree, toks: seq<Token>, p: nat)
    requires p >= LOWEST && ValueOf(left).None?
    ensures Computed(Climb(Condition, left, toks, p)) == Failed
    decreases |toks|
  {
    var q := NextPrecedence(Condition, toks);
    if q >= p {
      if toks[0] == Question {
        var a := Parse(Condition, toks[1..], q);
        if a.Ok? && a.rest != [] && a.rest[0] == Colon {
          var b := Parse(Condition, a.rest[1..], q);
          if b.Ok? {
            ClimbHopeless(Tern(left, a.value, b.value), b.rest, p);
          }
        }
      } else {
        var op := toks[0].op;
        var r := Parse(Condition, toks[1..], RightMin(Condition, op));
        if r.Ok? {
          ClimbHopeless(Bin(op, left, r.value), r.rest, p);
        }
      }
    }
  }

  lemma ParseHopeless(toks: seq<Token>, p: nat)
    requires p >= LOWEST && Computed(Operand(Condition, toks)) == Failed
    ensures Computed(Parse(Condition, toks, p)) == Failed
  {
    var r := Operand(Condition, toks);
    hide Climb, Operand;
    if r.Ok? {
      ClimbHopeless(r.value, r.rest, p);
    }
  }

  /** After a question mark: the step of the loop, if both arms have values. */
  lemma TernStep(left: Tree, toks: seq<Token>, p: nat, a: Parsed<Tree>)
    requires p >= LOWEST && toks != [] && toks[0] == Question && p <= 1 && a == Parse(Condition, toks[1..], 1)
    ensures Computed(a) == Failed || a.rest == [] || a.rest[0] != Colon
        ==> Computed(Climb(Condition, left, toks, p)) == Failed
    ensures a.Ok? && a.rest != [] && a.rest[0] == Colon ==>
        var b := Parse(Condition, a.rest[1..], 1);
        && (Computed(b) == Failed ==> Computed(Climb(Condition, left, toks, p)) == Failed)
        && (b.Ok? ==> Climb(Condition, left, toks, p) == Climb(Condition, Tern(left, a.value, b.value), b.rest, p))
  {
    hide Parse;
    if a.Ok? && a.rest != [] && a.rest[0] == Colon {
      var b := Parse(Condition, a.rest[1..], 1);
      if b.Ok? && (Computed(a) == Failed || Computed(b) == Failed) {
        ClimbHopeless(Tern(left, a.value, b.value), b.rest, p);
      }
    }
  }

  /** After any other operator. */
  lemma BinStep(left: Tree, toks: seq<Token>, p: nat, q: nat, r: Parsed<Tree>)
    requires p >= LOWEST && toks != [] && toks[0].Sym? && p <= q == Precedence(Condition, toks[0])
    requires r == Parse(Condition, toks[1..], q + 1)
    ensures Computed(r) == Failed || (Divides(toks[0].op) && ValueOf(r.value) == Some(0))
        ==> Computed(Climb(Condition, left, toks, p)) == Failed
    ensures r.Ok? ==>
        Climb(Condition, left, toks, p) == Climb(Condition, Bin(toks[0].op, left, r.value), r.rest, p)
  {
    hide Parse;
    if r.Ok? && (Computed(r) == Failed || (Divides(toks[0].op) && ValueOf(r.value) == Some(0))) {
      ClimbHopeless(Bin(toks[0].op, left, r.value), r.rest, p);
    }
  }

  lemma {:induction false} WrappedComputed(ops: seq<Op>, r: Parsed<Tree>)
    requires Computed(r) == Failed
    ensures Computed(Wrapped(ops, r)) == Failed
    decreases |ops|
  {
    if ops == [] {
    } else {
      WrappedComputed(ops[..|ops| - 1], if r.Ok? then Ok(Un(ops[|ops| - 1], r.value), r.rest) else Failed);
    }
  }

  /** The stacked prefix operators, the last one first. */
  method ApplyAll(ops: seq<Op>, operand: Word, ghost operandTree: Tree, ghost rest: seq<Token>) returns (value: Word)
    requires ValueOf(operandTree) == Some(operand)
    ensures Computed(Wrapped(ops, Ok(operandTree, rest))) == Ok(value, rest)
  {
    value := operand;
    var stack := ops;
    ghost var tree := operandTree;
    while stack != []
      invariant ValueOf(tree) == Some(value)
      invariant Wrapped(ops, Ok(operandTree, rest)) == Wrapped(stack, Ok(tree, rest))
      decreases |stack|
    {
      var op := stack[|stack| - 1];
      stack := stack[..|stack| - 1];
      if op == Op.Minus {
        value := Negate(value);
      } else if op == Tilde {
        value := Complement(value);
      } else if op == Bang {
        value := Truth(value == 0);
      }
      tree := Un(op, tree);
    }
  }

  class Evaluator {
    const tokens: seq<Token>
    var ptr: nat

    constructor (tokens: seq<Token>)
      ensures this.tokens == tokens && ptr == 0
    {
      this.tokens, ptr := tokens, 0;
    }

    predicate Valid()
      reads this
    {
      ptr <= |tokens|
    }

    function Rest(): seq<Token>
      requires Valid()
      reads this
    {
      tokens[ptr..]
    }

    /** The end of the line reads as a token that fits nowhere. */
    function Current(): Token
      requires Valid()
      reads this
    {
      if ptr < |tokens| then tokens[ptr] else Other
    }

    method GetOperand() returns (value: Option<Word>)
      requires Valid()
      modifies this`ptr
      ensures Valid() && ptr >= old(ptr)
      ensures Computed(Operand(Condition, old(Rest()))) == if value.Some? then Ok(value.value, Rest()) else Failed
      decreases |tokens| - ptr, 0
    {
      hide Parse, Climb, Precedence, Prefix, Operand, Apply;
      var stack: seq<Op> := [];
      while Current().Sym? && Prefix(Current().op)
        invariant Valid() && ptr >= old(ptr)
        invariant Operand(Condition, old(Rest())) == Wrapped(stack, Operand(Condition, Rest()))
        decreases |tokens| - ptr
      {
        assert Rest() == [tokens[ptr]] + tokens[ptr + 1..];
        OperandShape(Condition, tokens[ptr], tokens[ptr + 1..]);
        assert (stack + [tokens[ptr].op])[..|stack|] == stack;
        stack := stack + [tokens[ptr].op];
        ptr := ptr + 1;
      }
      ghost var here := Operand(Condition, Rest());
      ghost var tree;
      var token := Current();
      OperandHere(Rest(), token);
      if token.Number? {
        ptr := ptr + 1;
        value := Some(token.v);
        tree := Tree.Lit(token.v);
      } else if token == Open {
        ptr := ptr + 1;
        value := ComputeExpression(LOWEST);
        if value.None? || Current() != Close {
          WrappedComputed(stack, here);
          return None;
        }
        tree := here.value;
        ptr := ptr + 1;
      } else if token.Name? {
        ptr := ptr + 1;
        value := Some(0);
        tree := Id(token.s);
      } else {
        WrappedComputed(stack, here);
        return None;
      }
      var result := ApplyAll(stack, value.value, tree, Rest());
      value := Some(result);
    }

    /** Both arms of a conditional are computed, then one is chosen. */
    method ComputeArms(condition: Word, minPrec: nat, ghost tree: Tree, ghost toks: seq<Token>)
      returns (left: Option<Word>, ghost next: Tree)
      requires Valid() && LOWEST <= minPrec <= 1 && ValueOf(tree) == Some(condition)
      requires toks != [] && toks[0] == Question && toks[1..] == Rest()
      modifies this`ptr
      ensures Valid() && ptr >= old(ptr)
      ensures left.None? ==> Computed(Climb(Condition, tree, toks, minPrec)) == Failed
      ensures left.Some? ==> ValueOf(next) == left
      ensures left.Some? ==> Climb(Condition, tree, toks, minPrec) == Climb(Condition, next, Rest(), minPrec)
      decreases |tokens| - ptr, 2
    {
      ghost var a := Parse(Condition, Rest(), 1);
      TernStep(tree, toks, minPrec, a);
      ComputedOk(a);
      hide Parse, Climb, ValueOf, Computed;
      next := tree;
      var then_ := ComputeExpression(1);
      if then_.None? || Current() != Colon {
        return None, tree;
      }
      ptr := ptr + 1;
      assert Rest() == a.rest[1..];
      ghost var b := Parse(Condition, Rest(), 1);
      ComputedOk(b);
      var otherwise := ComputeExpression(1);
      if otherwise.None? {
        return None, tree;
      }
      TernValue(tree, a.value, b.value);
      left := if condition != 0 then then_ else otherwise;
      next := Tern(tree, a.value, b.value);
    }

    method ComputeExpression(minPrec: nat) returns (left: Option<Word>)
      requires Valid() && minPrec >= LOWEST
      modifies this`ptr
      ensures Valid() && ptr >= old(ptr)
      ensures Computed(Parse(Condition, old(Rest()), minPrec))
        == if left.Some? then Ok(left.value, Rest()) else Failed
      decreases |tokens| - ptr, 1
    {
      ghost var start, first := Rest(), Operand(Condition, Rest());
      left := GetOperand();
      if left.None? {
        ParseHopeless(start, minPrec);
        return;
      }
      ghost var tree := first.value;
      ghost var whole := Parse(Condition, start, minPrec);
      ComputedOk(first);
      hide Parse, Climb, Operand, ValueOf, Apply, Precedence, Computed;
      while true
        invariant Valid() && ptr > old(ptr) && left.Some? && ValueOf(tree) == left
        invariant whole == Climb(Condition, tree, Rest(), minPrec)
        decreases |tokens| - ptr
      {
        ghost var toks := Rest();
        var token := Current();
        var precedence := Precedence(Condition, token);
        LoopEnds(tree, toks, minPrec);
        NextFacts(Condition, toks);
        assert precedence == NextPrecedence(Condition, toks) by {
          OtherFits();
        }
        if precedence < minPrec {
          ComputedOk(Ok(tree, toks));
          break;
        }
        ptr := ptr + 1;
        assert toks != [] && toks[0] == token && toks[1..] == Rest();
        if token == Question {
          left, tree := ComputeArms(left.value, minPrec, tree, toks);
          if left.None? {
            return;
          }
        } else {
          ghost var r := Parse(Condition, Rest(), precedence + 1);
          BinStep(tree, toks, minPrec, precedence, r);
          ComputedOk(r);
          var right := ComputeExpression(precedence + 1);
          if right.None? || (Divides(token.op) && right.value == 0) {
            return None;
          }
          BinValue(token.op, tree, r.value);
          left := Some(Apply(token.op, left.value, right.value));
          tree := Bin(token.op, tree, r.value);
        }
      }
    }
  }

  lemma OperandHere(toks: seq<Token>, token: Token)
    requires if toks == [] then token == Other else token == toks[0]
    ensures var r, p := Operand(Condition, toks), if toks == [] then Failed else Parse(Condition, toks[1..], LOWEST);
      && (token.Number? ==> r == Ok(Tree.Lit(token.v), toks[1..]))
      && (token.Name? ==> r == Ok(Id(token.s), toks[1..]))
      && (token == Open ==> r == if p.Ok? && p.rest != [] && p.rest[0] == Close then Ok(Paren(p.value), p.rest[1..])
                                 else Failed)
      && (!token.Number? && !token.Name? && token != Open && !(token.Sym? && Prefix(token.op)) ==> r == Failed)
  {
    if toks != [] {
      assert toks == [toks[0]] + toks[1..];
      OperandShape(Condition, toks[0], toks[1..]);
    }
  }

  lemma ComputedOk(r: Parsed<Tree>)
    ensures Computed(r).Ok? <==> r.Ok? && ValueOf(r.value).Some?
    ensures Computed(r).Ok? ==> Some(Computed(r).value) == ValueOf(r.value) && Computed(r).rest == r.rest
  {
  }

  lemma OtherFits()
    ensures Precedence(Condition, Other) == 0
  {
  }

  lemma TernValue(c: Tree, a: Tree, b: Tree)
    requires ValueOf(c).Some? && ValueOf(a).Some? && ValueOf(b).Some?
    ensures ValueOf(Tern(c, a, b)) == if ValueOf(c).value != 0 then ValueOf(a) else ValueOf(b)
  {
  }

  lemma BinValue(op: Op, l: Tree, r: Tree)
    requires ValueOf(l).Some? && ValueOf(r).Some? && (Divides(op) ==> ValueOf(r).value != 0)
    ensures ValueOf(Bin(op, l, r)) == Some(Apply(op, ValueOf(l).value, ValueOf(r).value))
  {
  }

  lemma LoopEnds(tree: Tree, toks: seq<Token>, p: nat)
    requires p >= LOWEST
    ensures NextPrecedence(Condition, toks) < p ==> Climb(Condition, tree, toks, p) == Ok(tree, toks)
  {
  }

  // ----- the compiler would build the same tree -----

  /** Neither assignments nor commas. */
  predicate Shared(t: Token) {
    t.Sym? ==> !Assigns(t.op) && t.op != Op.Comma
  }

  predicate AllShared(toks: seq<Token>) {
    forall t | t in toks :: Shared(t)
  }

  /** The compiler's minimum for a condition's: two more, except that the outermost levels, of
      assignments and commas, make no difference. */
  predicate SameMin(p: nat, s: nat) {
    p >= LOWEST && (s == p + 2 || (p == LOWEST && LOWEST <= s <= 3))
  }

  lemma SharedPrecedence(t: Token)
    requires Shared(t)
    ensures var p, s := Precedence(Condition, t), Precedence(Source, t);
      s == (if p > 0 then p + 2 else 0)
    ensures t.Sym? ==>
        RightMin(Condition, t.op) == Precedence(Condition, t) + 1 && RightMin(Source, t.op) == Precedence(Source, t) + 1
  {
  }

  lemma SharedTail(toks: seq<Token>)
    requires AllShared(toks) && toks != []
    ensures Shared(toks[0]) && AllShared(toks[1..])
  {
    assert toks[0] in toks;
  }

  /** Equal results, and nothing new in what is left. */
  predicate Same(r: Parsed<Tree>, s: Parsed<Tree>) {
    r == s && (r.Ok? ==> AllShared(r.rest))
  }

  lemma {:induction false} SameOperand(toks: seq<Token>)
    requires AllShared(toks)
    ensures Same(Operand(Condition, toks), Operand(Source, toks))
    decreases |toks|, 0
  {
    if toks == [] {
    } else {
      SharedTail(toks);
      assert toks == [toks[0]] + toks[1..];
      OperandShape(Condition, toks[0], toks[1..]);
      OperandShape(Source, toks[0], toks[1..]);
      hide Operand, Parse, Precedence, AllShared;
      if toks[0].Sym? {
        SameOperand(toks[1..]);
      } else if toks[0] == Open {
        SameParse(toks[1..], LOWEST, LOWEST);
        var r := Parse(Condition, toks[1..], LOWEST);
        if r.Ok? && r.rest != [] {
          SharedTail(r.rest);
        }
      }
    }
  }

  lemma {:induction false} SameParse(toks: seq<Token>, p: nat, s: nat)
    requires AllShared(toks) && SameMin(p, s)
    ensures Same(Parse(Condition, toks, p), Parse(Source, toks, s))
    decreases |toks|, 2
  {
    SameOperand(toks);
    hide Operand, Climb, AllShared;
    var r := Operand(Condition, toks);
    if r.Ok? {
      SameClimb(r.value, r.rest, p, s);
    }
  }

  lemma {:induction false} SameClimb(left: Tree, toks: seq<Token>, p: nat, s: nat)
    requires AllShared(toks) && SameMin(p, s)
    ensures Same(Climb(Condition, left, toks, p), Climb(Source, left, toks, s))
    decreases |toks|, 1
  {
    var q := NextPrecedence(Condition, toks);
    if toks == [] {
      return;
    }
    SharedTail(toks);
    SharedPrecedence(toks[0]);
    ClimbUnfolds(Condition, left, toks, p);
    ClimbUnfolds(Source, left, toks, s);
    hide Precedence, Parse, AllShared, RightMin, Climb;
    if q >= p {
      if toks[0] == Question {
        SameParse(toks[1..], q, q + 2);
        var a := Parse(Condition, toks[1..], q);
        if a.Ok? && a.rest != [] && a.rest[0] == Colon {
          SharedTail(a.rest);
          SameParse(a.rest[1..], q, q + 2);
          var b := Parse(Condition, a.rest[1..], q);
          if b.Ok? {
            SameClimb(Tern(left, a.value, b.value), b.rest, p, s);
          }
        }
      } else {
        SameParse(toks[1..], q + 1, q + 3);
        var r := Parse(Condition, toks[1..], q + 1);
        if r.Ok? {
          SameClimb(Bin(toks[0].op, left, r.value), r.rest, p, s);
        }
      }
    }
  }

  /** A condition comes to the value of the tree that the compiler would build from it, and fails
      exactly when the compiler could not or that tree divides by zero. */
  lemma ConditionExactly(toks: seq<Token>)
    requires AllShared(toks)
    ensures var tree, value := Parse(Source, toks, LOWEST), Computed(Parse(Condition, toks, LOWEST));
      && (value == Failed <==> tree == Failed || DividesByZero(tree.value))
      && (value.Ok? ==> Some(value.value) == ValueOf(tree.value) && value.rest == tree.rest)
  {
    SameParse(toks, LOWEST, LOWEST);
    var r := Parse(Condition, toks, LOWEST);
    if r.Ok? {
      NoValueExactly(r.value);
    }
  }

  // ----- what the values are -----

  /** The operators that conditions share with the model's expressions: all but the shifts. */
  predicate Ordinary(op: Op) {
    !Assigns(op) && op != Op.Comma && op != ShiftLeft && op != ShiftRight && op != Tilde && op != Bang
  }

  predicate Translatable(t: Tree) {
    match t
    case Lit(_) => true
    case Id(_) => true
    case Un(op, i) => Prefix(op) && Translatable(i)
    case Paren(i) => Translatable(i)
    case Bin(op, l, r) => Ordinary(op) && Translatable(l) && Translatable(r)
    case Tern(c, a, b) => Translatable(c) && Translatable(a) && Translatable(b)
  }

  function SourceOperator(op: Op): BinOp {
    match op
    case Star => Mul
    case Slash => Div
    case Percent => Mod
    case Plus => Add
    case Minus => Sub
    case Less => Lt
    case Greater => Gt
    case LessEqual => Le
    case GreaterEqual => Ge
    case EqualEqual => Eq
    case NotEqual => Ne
    case Ampersand => BAnd
    case Hat => BXor
    case _ => BOr
  }

  function SourcePrefix(op: Op): UnOp {
    match op
    case Minus => UnOp.Minus
    case Tilde => BitNot
    case Bang => LogicNot
    case _ => UnOp.Plus
  }

  /** The same expression in the compiled language; an undefined macro is 0. */
  function Translated(t: Tree): Expr {
    match t
    case Lit(v) => Expr.Lit(v)
    case Id(_) => Expr.Lit(0)
    case Un(op, i) => Unary(SourcePrefix(op), Translated(i))
    case Paren(i) => Translated(i)
    case Bin(op, l, r) =>
      if op == AndAnd then Logic(AndAlso, Translated(l), Translated(r))
      else if op == OrOr then Logic(OrElse, Translated(l), Translated(r))
      else Binary(SourceOperator(op), Translated(l), Translated(r))
    case Tern(c, a, b) => Cond(Translated(c), Translated(a), Translated(b))
  }

  /** The smallest word is divided by -1 somewhere; the processor does not do that. */
  predicate Overflows(t: Tree) {
    match t
    case Lit(_) => false
    case Id(_) => false
    case Un(_, i) => Overflows(i)
    case Paren(i) => Overflows(i)
    case Bin(op, l, r) =>
      Overflows(l) || Overflows(r) || (Divides(op) && ValueOf(l) == Some(-HALF) && ValueOf(r) == Some(-1))
    case Tern(c, a, b) => Overflows(c) || Overflows(a) || Overflows(b)
  }

  lemma OperatorValue(op: Op, a: Word, b: Word)
    requires Ordinary(op) && op != AndAnd && op != OrOr
    requires Divides(op) ==> b != 0 && !(a == -HALF && b == -1)
    ensures var o := SourceOperator(op); !Faults(o, a, b) && Compute(o, a, b) == Apply(op, a, b)
  {
    hide Wrap, TruncDiv, Bitwise, InWord, Apply, Compute;
    if Divides(op) {
      DivideValue(op, a, b);
    } else if op == Star {
      ProductValue(a, b);
    } else {
      PlainValue(op, a, b);
    }
  }

  lemma ProductValue(a: Word, b: Word)
    ensures Compute(Mul, a, b) == Apply(Star, a, b)
  {
    hide Wrap, TruncDiv, Bitwise;
  }

  lemma PlainValue(op: Op, a: Word, b: Word)
    requires Ordinary(op) && op != AndAnd && op != OrOr && !Divides(op) && op != Star
    ensures var o := SourceOperator(op); !Faults(o, a, b) && Compute(o, a, b) == Apply(op, a, b)
  {
    hide Wrap, TruncDiv, Bitwise, InWord, Unsigned, Abs;
  }

  lemma DivideValue(op: Op, a: Word, b: Word)
    requires Divides(op) && b != 0 && !(a == -HALF && b == -1)
    ensures var o := SourceOperator(op); !Faults(o, a, b) && Compute(o, a, b) == Apply(op, a, b)
  {
    FaultsExactly(Div, a, b);
    FaultsExactly(Mod, a, b);
    DivisionFits(a, b);
    hide Wrap, TruncDiv, Bitwise, Faults, InWord;
  }

  lemma DivisionFits(a: Word, b: Word)
    requires !Faults(Div, a, b)
    ensures Wrap(TruncDiv(a, b)) == TruncDiv(a, b)
  {
    WrapInside(TruncDiv(a, b));
  }

  /** Where a condition has a value, it is the one that the compiled language gives to the same
      expression, although that stops at what decides && and ||. */
  lemma {:induction false} ValueIsMeaning(t: Tree)
    requires Translatable(t) && ValueOf(t).Some? && !Overflows(t)
    ensures Meaning(Translated(t), map[]) == Value(ValueOf(t).value)
  {
    hide Apply, Compute, Faults;
    match t
    case Lit(_) =>
    case Id(_) =>
    case Un(op, i) => ValueIsMeaning(i);
    case Paren(i) => ValueIsMeaning(i);
    case Bin(op, l, r) =>
      ValueIsMeaning(l);
      ValueIsMeaning(r);
      if op == AndAnd || op == OrOr {
        LogicApplied(op, ValueOf(l).value, ValueOf(r).value);
      } else {
        OperatorValue(op, ValueOf(l).value, ValueOf(r).value);
      }
    case Tern(c, a, b) =>
      ValueIsMeaning(c);
      ValueIsMeaning(a);
      ValueIsMeaning(b);
  }

  lemma LogicApplied(op: Op, a: Word, b: Word)
    requires op == AndAnd || op == OrOr
    ensures Apply(op, a, b) == if op == AndAnd then Truth(a != 0 && b != 0) else Truth(a != 0 || b != 0)
  {
  }

  /** A shift goes by the count modulo 64: to the left a multiplication that wraps around, to the right
      a division that rounds down. */
  lemma ShiftsExactly(a: Word, b: Word)
    ensures var n, left, right := Pow2(b % 64), Apply(ShiftLeft, a, b), Apply(ShiftRight, a, b);
      (left - a * n) % FULL == 0 && n * right <= a < n * right + n
  {
    var n := Pow2(b % 64);
    WrapExactly(a * n);
    assert a == n * (a / n) + a % n;
    QuotientFits(a, n);
    WrapInside(a / n);
  }

  lemma QuotientFits(a: Word, n: nat)
    requires n > 0
    ensures InWord(a / n)
  {
    var q := a / n;
    assert a == n * q + a % n;
    if q >= 0 {
      NotNegative(n - 1, q);
      assert n * q == q + (n - 1) * q;
    } else {
      NotNegative(n - 1, -q - 1);
      assert n * q + n == (q + 1) - (n - 1) * (-q - 1);
    }
  }
}
