/** Precedence climbing, as the compiler and the preprocessor both do it, and the grammar that it
    decides: the trees whose precedences and associativities fit. */
module Climbing {
  import opened Words
  import opened Syntax

  datatype Op =
    | Star | Slash | Percent | Plus | Minus | ShiftLeft | ShiftRight
    | Less | Greater | LessEqual | GreaterEqual | EqualEqual | NotEqual
    | Ampersand | Hat | Pipe | AndAnd | OrOr
    | Equals | PlusEquals | MinusEquals | StarEquals | SlashEquals | PercentEquals
    | ShiftLeftEquals | ShiftRightEquals | AndEquals | PipeEquals | HatEquals
    | Comma | Tilde | Bang

  datatype Token = Number(v: Word) | Name(s: string) | Sym(op: Op) | Question | Colon | Open | Close | Other

  /** The two tables: that of the compiler and that of #if conditions. */
  datatype Dialect = Source | Condition

  function SourcePrecedence(op: Op): nat {
    match op
    case Star => 13
    case Slash => 13
    case Percent => 13
    case Plus => 12
    case Minus => 12
    case ShiftLeft => 11
    case ShiftRight => 11
    case Less => 10
    case Greater => 10
    case LessEqual => 10
    case GreaterEqual => 10
    case EqualEqual => 9
    case NotEqual => 9
    case Ampersand => 8
    case Hat => 7
    case Pipe => 6
    case AndAnd => 5
    case OrOr => 4
    case Comma => 1
    case Tilde => 0
    case Bang => 0
    case _ => 2
  }

  function ConditionPrecedence(op: Op): nat {
    match op
    case Star => 11
    case Slash => 11
    case Percent => 11
    case Plus => 10
    case Minus => 10
    case ShiftLeft => 9
    case ShiftRight => 9
    case Less => 8
    case Greater => 8
    case LessEqual => 8
    case GreaterEqual => 8
    case EqualEqual => 7
    case NotEqual => 7
    case Ampersand => 6
    case Hat => 5
    case Pipe => 4
    case AndAnd => 3
    case OrOr => 2
    case _ => 0
  }

  predicate Assigns(op: Op) {
    match op
    case Equals => true
    case PlusEquals => true
    case MinusEquals => true
    case StarEquals => true
    case SlashEquals => true
    case PercentEquals => true
    case ShiftLeftEquals => true
    case ShiftRightEquals => true
    case AndEquals => true
    case PipeEquals => true
    case HatEquals => true
    case _ => false
  }

  function Precedence(d: Dialect, t: Token): nat {
    match t
    case Sym(op) => if d == Source then SourcePrecedence(op) else ConditionPrecedence(op)
    case Question => Ternary(d)
    case _ => 0
  }

  function Ternary(d: Dialect): nat {
    if d == Source then 3 else 1
  }

  /** Right-to-left association. */
  predicate Rtl(d: Dialect, op: Op) {
    d == Source && Assigns(op)
  }

  /** The least precedence of an operator on the right of this one, and so what stops it. */
  function RightMin(d: Dialect, op: Op): nat {
    Precedence(d, Sym(op)) + if Rtl(d, op) then 0 else 1
  }

  function LeftMin(d: Dialect, op: Op): nat {
    Precedence(d, Sym(op)) + if Rtl(d, op) then 1 else 0
  }

  predicate Prefix(op: Op) {
    op == Op.Plus || op == Op.Minus || op == Tilde || op == Bang
  }

  /** The precedence that parsing inside parentheses starts with; every expression has it. */
  const LOWEST: nat := 1

  datatype Tree =
    | Lit(v: Word)
    | Id(s: string)
    | Un(uop: Op, inner: Tree)
    | Paren(inner: Tree)
    | Bin(op: Op, left: Tree, right: Tree)
    | Tern(when: Tree, then_: Tree, otherwise: Tree)

  // ----- the grammar -----

  const OPERAND: nat := 100

  function Level(d: Dialect, t: Tree): nat {
    match t
    case Bin(op, _, _) => Precedence(d, Sym(op))
    case Tern(_, _, _) => Ternary(d)
    case _ => OPERAND
  }

  predicate Fits(d: Dialect, t: Tree, p: nat) {
    Level(d, t) >= p && WellFormed(d, t)
  }

  predicate WellFormed(d: Dialect, t: Tree) {
    match t
    case Lit(_) => true
    case Id(_) => true
    case Un(op, i) => Prefix(op) && Level(d, i) == OPERAND && WellFormed(d, i)
    case Paren(i) => Level(d, i) >= LOWEST && WellFormed(d, i)
    case Bin(op, l, r) =>
      && Level(d, l) >= LeftMin(d, op) && WellFormed(d, l)
      && Level(d, r) >= RightMin(d, op) && WellFormed(d, r)
      && Precedence(d, Sym(op)) >= LOWEST
    case Tern(c, a, b) =>
      && Level(d, c) > Ternary(d) && WellFormed(d, c)
      && Level(d, a) >= Ternary(d) && WellFormed(d, a)
      && Level(d, b) >= Ternary(d) && WellFormed(d, b)
  }

  function Yield(t: Tree): (r: seq<Token>)
    ensures |r| > 0
  {
    match t
    case Lit(v) => [Number(v)]
    case Id(s) => [Name(s)]
    case Un(op, i) => [Sym(op)] + Yield(i)
    case Paren(i) => [Open] + Yield(i) + [Close]
    case Bin(op, l, r) => Yield(l) + [Sym(op)] + Yield(r)
    case Tern(c, a, b) => Yield(c) + [Question] + Yield(a) + [Colon] + Yield(b)
  }

  // ----- the parser as functions -----

  datatype Parsed<T> = Ok(value: T, rest: seq<Token>) | Failed

  function NextPrecedence(d: Dialect, toks: seq<Token>): nat {
    if toks == [] then 0 else Precedence(d, toks[0])
  }

  function Operand(d: Dialect, toks: seq<Token>): (r: Parsed<Tree>)
    ensures r.Ok? ==> |r.rest| < |toks|
    decreases |toks|, 0
  {
    if toks == [] then Failed
    else if toks[0].Sym? && Prefix(toks[0].op) then
      var r := Operand(d, toks[1..]);
      if r.Ok? then Ok(Un(toks[0].op, r.value), r.rest) else Failed
    else
      match toks[0]
      case Number(v) => Ok(Tree.Lit(v), toks[1..])
      case Name(s) => Ok(Id(s), toks[1..])
      case Open =>
        var r := Parse(d, toks[1..], LOWEST);
        if r.Ok? && r.rest != [] && r.rest[0] == Close then Ok(Paren(r.value), r.rest[1..]) else Failed
      case _ => Failed
  }

  function Parse(d: Dialect, toks: seq<Token>, p: nat): (r: Parsed<Tree>)
    requires p >= LOWEST
    ensures r.Ok? ==> |r.rest| < |toks|
    decreases |toks|, 2
  {
    var r := Operand(d, toks);
    if r.Ok? then Climb(d, r.value, r.rest, p) else Failed
  }

  /** The loop of the parser, from a tree already built. */
  function Climb(d: Dialect, left: Tree, toks: seq<Token>, p: nat): (r: Parsed<Tree>)
    requires p >= LOWEST
    ensures r.Ok? ==> |r.rest| <= |toks|
    decreases |toks|, 1
  {
    var q := NextPrecedence(d, toks);
    if q < p then Ok(left, toks)
    else if toks[0] == Question then
      var a := Parse(d, toks[1..], q);
      if !a.Ok? || a.rest == [] || a.rest[0] != Colon then Failed
      else
        var b := Parse(d, a.rest[1..], q);
        if b.Ok? then Climb(d, Tern(left, a.value, b.value), b.rest, p) else Failed
    else
      var r := Parse(d, toks[1..], RightMin(d, toks[0].op));
      if r.Ok? then Climb(d, Bin(toks[0].op, left, r.value), r.rest, p) else Failed
  }

  // ----- the parser as the source has it -----

  /** What a call has done, compared with the function. */
  predicate Did(want: Parsed<Tree>, got: Option<Tree>, tokens: seq<Token>) {
    if got.Some? then want == Ok(got.value, tokens) else want == Failed
  }

  class Parser {
    const d: Dialect
    var tokens: seq<Token>

    constructor (d: Dialect, tokens: seq<Token>)
      ensures this.d == d && this.tokens == tokens
    {
      this.d, this.tokens := d, tokens;
    }

    /** Prefix operators are stacked, and wrapped around the operand from the inside out. */
    method ParseOperand() returns (node: Option<Tree>)
      modifies this`tokens
      ensures Did(Operand(d, old(tokens)), node, tokens) && |tokens| <= |old(tokens)|
      decreases |tokens|, 0
    {
      var ops: seq<Op> := [];
      while tokens != [] && tokens[0].Sym? && Prefix(tokens[0].op)
        invariant Operand(d, old(tokens)) == Wrapped(ops, Operand(d, tokens)) && |tokens| <= |old(tokens)|
        decreases |tokens|
      {
        ops := ops + [tokens[0].op];
        tokens := tokens[1..];
      }
      if tokens == [] {
        WrappedFails(ops);
        return None;
      }
      var token := tokens[0];
      match token {
        case Number(v) =>
          tokens := tokens[1..];
          node := Some(Tree.Lit(v));
        case Name(s) =>
          tokens := tokens[1..];
          node := Some(Id(s));
        case Open =>
          tokens := tokens[1..];
          var inner := ParseExpression(LOWEST);
          if inner.None? || tokens == [] || tokens[0] != Close {
            WrappedFails(ops);
            return None;
          }
          tokens := tokens[1..];
          node := Some(Paren(inner.value));
        case _ =>
          WrappedFails(ops);
          return None;
      }
      while ops != []
        invariant node.Some? && Operand(d, old(tokens)) == Wrapped(ops, Ok(node.value, tokens))
        decreases |ops|
      {
        node := Some(Un(ops[|ops| - 1], node.value));
        ops := ops[..|ops| - 1];
      }
    }

    method ParseExpression(p: nat) returns (node: Option<Tree>)
      requires p >= LOWEST
      modifies this`tokens
      ensures Did(Parse(d, old(tokens), p), node, tokens) && |tokens| <= |old(tokens)|
      decreases |tokens|, 1
    {
      node := ParseOperand();
      if node.None? {
        return;
      }
      while true
        invariant node.Some? && |tokens| < |old(tokens)|
        invariant Parse(d, old(tokens), p) == Climb(d, node.value, tokens, p)
        decreases |tokens|
      {
        var q := if tokens == [] then 0 else Precedence(d, tokens[0]);
        if q < p {
          break;
        }
        var token := tokens[0];
        tokens := tokens[1..];
        if token == Question {
          var a := ParseExpression(q);
          if a.None? || tokens == [] || tokens[0] != Colon {
            return None;
          }
          tokens := tokens[1..];
          var b := ParseExpression(q);
          if b.None? {
            return None;
          }
          node := Some(Tern(node.value, a.value, b.value));
        } else {
          var r := ParseExpression(q + if Rtl(d, token.op) then 0 else 1);
          if r.None? {
            return None;
          }
          node := Some(Bin(token.op, node.value, r.value));
        }
      }
    }
  }

  function Wrapped(ops: seq<Op>, r: Parsed<Tree>): Parsed<Tree>
    decreases |ops|
  {
    if ops == [] then r
    else Wrapped(ops[..|ops| - 1], if r.Ok? then Ok(Un(ops[|ops| - 1], r.value), r.rest) else Failed)
  }

  lemma {:induction false} WrappedFails(ops: seq<Op>)
    ensures Wrapped(ops, Failed) == Failed
    decreases |ops|
  {
    if ops == [] {
    } else {
      WrappedFails(ops[..|ops| - 1]);
    }
  }

  // ----- soundness -----

  /** What stops a tree from being extended on its right edge. */
  function Stop(d: Dialect, t: Tree): nat {
    match t
    case Bin(op, _, _) => RightMin(d, op)
    case Tern(_, _, _) => Ternary(d)
    case _ => OPERAND
  }

  lemma PrecedenceFacts(d: Dialect, op: Op)
    ensures Precedence(d, Sym(op)) != Ternary(d) && Precedence(d, Sym(op)) < OPERAND - 1
    ensures Rtl(d, op) <==> d == Source && Precedence(d, Sym(op)) == 2
  {
  }

  /** The three ways in which an operand begins. */
  lemma OperandShape(d: Dialect, token: Token, rest: seq<Token>)
    ensures var r, inner, p := Operand(d, [token] + rest), Operand(d, rest), Parse(d, rest, LOWEST);
      && (token.Sym? ==>
            r == if Prefix(token.op) && inner.Ok? then Ok(Un(token.op, inner.value), inner.rest) else Failed)
      && (token == Open ==> r == if p.Ok? && p.rest != [] && p.rest[0] == Close then Ok(Paren(p.value), p.rest[1..])
                                 else Failed)
      && (token.Number? ==> r == Ok(Tree.Lit(token.v), rest))
      && (token.Name? ==> r == Ok(Id(token.s), rest))
      && (token == Question || token == Colon || token == Close || token == Other ==> r == Failed)
  {
    assert ([token] + rest)[1..] == rest;
    hide Precedence, Climb;
  }

  lemma {:induction false} OperandSound(d: Dialect, toks: seq<Token>)
    ensures var r := Operand(d, toks);
      r.Ok? ==> toks == Yield(r.value) + r.rest && Level(d, r.value) == OPERAND && WellFormed(d, r.value)
    decreases |toks|, 0
  {
    if toks == [] {
    } else {
      var token, rest := toks[0], toks[1..];
      assert toks == [token] + rest;
      OperandShape(d, token, rest);
      hide Operand, Precedence, Parse, Prefix, NextPrecedence;
      if token.Sym? {
        OperandSound(d, rest);
      } else if token == Open {
        ParseSound(d, rest, LOWEST);
        hide WellFormed, Yield;
        ParenSound(d, rest);
      }
    }
  }

  lemma ParenSound(d: Dialect, rest: seq<Token>)
    requires var r := Parse(d, rest, LOWEST);
      r.Ok? ==> rest == Yield(r.value) + r.rest && Fits(d, r.value, LOWEST)
    ensures var r := Parse(d, rest, LOWEST);
      r.Ok? && r.rest != [] && r.rest[0] == Close ==>
        var t := Paren(r.value);
        [Open] + rest == Yield(t) + r.rest[1..] && Level(d, t) == OPERAND && WellFormed(d, t)
  {
    var r := Parse(d, rest, LOWEST);
    hide Parse;
    if r.Ok? && r.rest != [] {
      assert r.rest == [r.rest[0]] + r.rest[1..];
    }
  }

  lemma {:induction false} ParseSound(d: Dialect, toks: seq<Token>, p: nat)
    requires LOWEST <= p <= OPERAND
    ensures var r := Parse(d, toks, p);
      r.Ok? ==> toks == Yield(r.value) + r.rest && Fits(d, r.value, p) && NextPrecedence(d, r.rest) < p
    decreases |toks|, 2
  {
    OperandSound(d, toks);
    var r := Operand(d, toks);
    if r.Ok? {
      NextFacts(d, r.rest);
      ClimbSound(d, r.value, r.rest, p);
    }
  }

  lemma NextFacts(d: Dialect, toks: seq<Token>)
    ensures NextPrecedence(d, toks) < OPERAND - 1
    ensures NextPrecedence(d, toks) >= LOWEST ==> toks != [] && (toks[0] == Question || toks[0].Sym?)
    ensures toks != [] && toks[0] == Question ==> NextPrecedence(d, toks) == Ternary(d)
    ensures toks != [] && toks[0].Sym? ==> NextPrecedence(d, toks) == Precedence(d, toks[0]) != Ternary(d)
  {
    if toks != [] && toks[0].Sym? {
      PrecedenceFacts(d, toks[0].op);
    }
  }

  /** An operator that may follow a tree may take it as its left operand. */
  lemma MayFollow(d: Dialect, left: Tree, op: Op, right: Tree, p: nat)
    requires WellFormed(d, left) && LOWEST <= p <= Precedence(d, Sym(op)) < Stop(d, left)
    requires Fits(d, right, RightMin(d, op))
    ensures Fits(d, Bin(op, left, right), p)
  {
    PrecedenceFacts(d, op);
    if left.Bin? {
      PrecedenceFacts(d, left.op);
    }
    hide Precedence, Rtl;
  }

  lemma QuestionMayFollow(d: Dialect, left: Tree, a: Tree, b: Tree)
    requires WellFormed(d, left) && Ternary(d) < Stop(d, left)
    requires Fits(d, a, Ternary(d)) && Fits(d, b, Ternary(d))
    ensures Fits(d, Tern(left, a, b), Ternary(d))
  {
    if left.Bin? {
      PrecedenceFacts(d, left.op);
    }
  }

  lemma ClimbUnfolds(d: Dialect, left: Tree, toks: seq<Token>, p: nat)
    requires p >= LOWEST && toks != []
    ensures var q, r := Precedence(d, toks[0]), Climb(d, left, toks, p);
      if q < p then r == Ok(left, toks)
      else if toks[0] == Question then
        var a := Parse(d, toks[1..], q);
        if !a.Ok? || a.rest == [] || a.rest[0] != Colon then r == Failed
        else
          var b := Parse(d, a.rest[1..], q);
          r == if b.Ok? then Climb(d, Tern(left, a.value, b.value), b.rest, p) else Failed
      else
        toks[0].Sym? &&
        var c := Parse(d, toks[1..], RightMin(d, toks[0].op));
        r == if c.Ok? then Climb(d, Bin(toks[0].op, left, c.value), c.rest, p) else Failed
  {
    hide Parse;
  }

  lemma {:induction false} ClimbSound(d: Dialect, left: Tree, toks: seq<Token>, p: nat)
    requires LOWEST <= p <= OPERAND && Fits(d, left, p) && NextPrecedence(d, toks) < Stop(d, left)
    ensures var r := Climb(d, left, toks, p);
      r.Ok? ==>
        Yield(left) + toks == Yield(r.value) + r.rest && Fits(d, r.value, p) && NextPrecedence(d, r.rest) < p
    decreases |toks|, 1
  {
    NextFacts(d, toks);
    var q := NextPrecedence(d, toks);
    if q >= p {
      if toks[0] == Question {
        QuestionSound(d, left, toks, p);
      } else {
        OperatorSound(d, left, toks, p);
      }
    }
  }

  lemma {:induction false} QuestionSound(d: Dialect, left: Tree, toks: seq<Token>, p: nat)
    requires LOWEST <= p <= OPERAND && Fits(d, left, p) && NextPrecedence(d, toks) < Stop(d, left)
    requires toks != [] && toks[0] == Question && p <= Ternary(d)
    ensures var r := Climb(d, left, toks, p);
      r.Ok? ==>
        Yield(left) + toks == Yield(r.value) + r.rest && Fits(d, r.value, p) && NextPrecedence(d, r.rest) < p
    decreases |toks|, 0
  {
    ClimbUnfolds(d, left, toks, p);
    var q := Ternary(d);
    hide Precedence, Rtl, WellFormed, Climb, Parse, Yield;
    assert toks == [toks[0]] + toks[1..];
    ParseSound(d, toks[1..], q);
    var a := Parse(d, toks[1..], q);
    if a.Ok? && a.rest != [] && a.rest[0] == Colon {
      assert a.rest == [a.rest[0]] + a.rest[1..];
      ParseSound(d, a.rest[1..], q);
      var b := Parse(d, a.rest[1..], q);
      if b.Ok? {
        QuestionMayFollow(d, left, a.value, b.value);
        TernYield(left, a.value, b.value, toks, a.rest, b.rest);
        ClimbSound(d, Tern(left, a.value, b.value), b.rest, p);
      }
    }
  }

  lemma {:induction false} OperatorSound(d: Dialect, left: Tree, toks: seq<Token>, p: nat)
    requires LOWEST <= p <= OPERAND && Fits(d, left, p) && NextPrecedence(d, toks) < Stop(d, left)
    requires toks != [] && toks[0].Sym? && p <= Precedence(d, toks[0])
    ensures var r := Climb(d, left, toks, p);
      r.Ok? ==>
        Yield(left) + toks == Yield(r.value) + r.rest && Fits(d, r.value, p) && NextPrecedence(d, r.rest) < p
    decreases |toks|, 0
  {
    ClimbUnfolds(d, left, toks, p);
    var op := toks[0].op;
    PrecedenceFacts(d, op);
    hide Precedence, Rtl, WellFormed, Climb, Parse, Yield;
    assert toks == [toks[0]] + toks[1..];
    ParseSound(d, toks[1..], RightMin(d, op));
    var r := Parse(d, toks[1..], RightMin(d, op));
    if r.Ok? {
      MayFollow(d, left, op, r.value, p);
      BinYield(op, left, r.value, toks, r.rest);
      ClimbSound(d, Bin(op, left, r.value), r.rest, p);
    }
  }

  lemma BinYield(op: Op, l: Tree, r: Tree, toks: seq<Token>, rest: seq<Token>)
    requires toks == [Sym(op)] + (Yield(r) + rest)
    ensures Yield(l) + toks == Yield(Bin(op, l, r)) + rest
  {
  }

  lemma TernYield(c: Tree, a: Tree, b: Tree, toks: seq<Token>, mid: seq<Token>, rest: seq<Token>)
    requires toks == [Question] + (Yield(a) + mid) && mid == [Colon] + (Yield(b) + rest)
    ensures Yield(c) + toks == Yield(Tern(c, a, b)) + rest
  {
  }

  // ----- completeness -----

  lemma {:induction false} OperandComplete(d: Dialect, t: Tree, rest: seq<Token>)
    requires Level(d, t) == OPERAND && WellFormed(d, t)
    ensures Operand(d, Yield(t) + rest) == Ok(t, rest)
    decreases t, 0
  {
    if t.Bin? {
      PrecedenceFacts(d, t.op);
    }
    hide Operand, Precedence, Parse, Prefix, WellFormed;
    match t
    case Lit(v) => OperandShape(d, Number(v), rest);
    case Id(s) => OperandShape(d, Name(s), rest);
    case Un(op, i) => PrefixComplete(d, op, i, rest);
    case Paren(i) => ParenComplete(d, i, rest);
    case Bin(op, _, _) =>
    case Tern(_, _, _) =>
  }

  lemma {:induction false} PrefixComplete(d: Dialect, op: Op, i: Tree, rest: seq<Token>)
    requires WellFormed(d, Un(op, i))
    ensures Operand(d, Yield(Un(op, i)) + rest) == Ok(Un(op, i), rest)
    decreases i, 3
  {
    hide Operand, Precedence, Parse;
    OperandComplete(d, i, rest);
    OperandShape(d, Sym(op), Yield(i) + rest);
    assert Yield(Un(op, i)) + rest == [Sym(op)] + (Yield(i) + rest);
  }

  lemma {:induction false} ParenComplete(d: Dialect, i: Tree, rest: seq<Token>)
    requires WellFormed(d, Paren(i))
    ensures Operand(d, Yield(Paren(i)) + rest) == Ok(Paren(i), rest)
    decreases i, 3
  {
    hide Operand, Precedence, Parse;
    var tail := [Close] + rest;
    OperandShape(d, Open, Yield(i) + tail);
    assert Yield(Paren(i)) + rest == [Open] + (Yield(i) + tail);
    assert tail[1..] == rest;
    CloseStops(d, rest);
    ParseComplete(d, i, tail, LOWEST);
  }

  lemma CloseStops(d: Dialect, rest: seq<Token>)
    ensures NextPrecedence(d, [Close] + rest) == 0
  {
  }

  lemma StopAbove(d: Dialect, t: Tree, p: nat)
    requires Fits(d, t, p)
    ensures p <= Stop(d, t)
  {
    if t.Bin? {
      PrecedenceFacts(d, t.op);
    }
  }

  /** A well-formed tree's tokens bring the parser's loop to that tree. */
  lemma {:induction false} ParseReaches(d: Dialect, t: Tree, rest: seq<Token>, p: nat)
    requires LOWEST <= p && Fits(d, t, p) && NextPrecedence(d, rest) < Stop(d, t)
    ensures Parse(d, Yield(t) + rest, p) == Climb(d, t, rest, p)
    decreases t, 1
  {
    if Level(d, t) == OPERAND {
      OperandComplete(d, t, rest);
    } else if t.Bin? {
      BinReached(d, t.op, t.left, t.right, rest, p);
    } else {
      TernReached(d, t.when, t.then_, t.otherwise, rest, p);
    }
  }

  lemma {:induction false} BinReached(d: Dialect, op: Op, l: Tree, r: Tree, rest: seq<Token>, p: nat)
    requires LOWEST <= p && Fits(d, Bin(op, l, r), p) && NextPrecedence(d, rest) < RightMin(d, op)
    ensures Parse(d, Yield(Bin(op, l, r)) + rest, p) == Climb(d, Bin(op, l, r), rest, p)
    decreases Bin(op, l, r), 0
  {
    PrecedenceFacts(d, op);
    if l.Bin? {
      PrecedenceFacts(d, l.op);
    }
    var mid := [Sym(op)] + (Yield(r) + rest);
    assert Yield(Bin(op, l, r)) + rest == Yield(l) + mid;
    assert mid[1..] == Yield(r) + rest;
    assert NextPrecedence(d, mid) == Precedence(d, Sym(op));
    ParseReaches(d, l, mid, p);
    ParseComplete(d, r, rest, RightMin(d, op));
  }

  lemma {:induction false} TernReached(d: Dialect, c: Tree, a: Tree, b: Tree, rest: seq<Token>, p: nat)
    requires LOWEST <= p && Fits(d, Tern(c, a, b), p) && NextPrecedence(d, rest) < Ternary(d)
    ensures Parse(d, Yield(Tern(c, a, b)) + rest, p) == Climb(d, Tern(c, a, b), rest, p)
    decreases Tern(c, a, b), 0
  {
    if c.Bin? {
      PrecedenceFacts(d, c.op);
    }
    var q := Ternary(d);
    var y := Yield(b) + rest;
    var last := [Colon] + y;
    var x := Yield(a) + last;
    hide Operand, Parse, Climb, Precedence, WellFormed;
    TernTokens(c, a, b, rest);
    QuestionNext(d, x, y);
    ParseReaches(d, c, [Question] + x, p);
    ParseComplete(d, a, last, q);
    ParseComplete(d, b, rest, q);
    ClimbTern(d, c, x, a, y, b, rest, p);
  }

  lemma TernTokens(c: Tree, a: Tree, b: Tree, rest: seq<Token>)
    ensures Yield(Tern(c, a, b)) + rest
      == Yield(c) + ([Question] + (Yield(a) + ([Colon] + (Yield(b) + rest))))
  {
  }

  lemma QuestionNext(d: Dialect, x: seq<Token>, y: seq<Token>)
    ensures NextPrecedence(d, [Question] + x) == Ternary(d) && NextPrecedence(d, [Colon] + y) == 0
  {
  }

  lemma ClimbTern(d: Dialect, c: Tree, x: seq<Token>, a: Tree, y: seq<Token>, b: Tree, rest: seq<Token>, p: nat)
    requires LOWEST <= p <= Ternary(d)
    requires Parse(d, x, Ternary(d)) == Ok(a, [Colon] + y) && Parse(d, y, Ternary(d)) == Ok(b, rest)
    ensures Climb(d, c, [Question] + x, p) == Climb(d, Tern(c, a, b), rest, p)
  {
    hide Parse;
    assert ([Question] + x)[1..] == x && ([Colon] + y)[1..] == y;
  }

  lemma {:induction false} ParseComplete(d: Dialect, t: Tree, rest: seq<Token>, p: nat)
    requires LOWEST <= p && Fits(d, t, p) && NextPrecedence(d, rest) < p
    ensures Parse(d, Yield(t) + rest, p) == Ok(t, rest)
    decreases t, 2
  {
    StopAbove(d, t, p);
    ParseReaches(d, t, rest, p);
  }

  // ----- what the two give together -----

  /** A split of the tokens into a tree and the rest that the grammar allows. */
  predicate Reading(d: Dialect, toks: seq<Token>, p: nat, t: Tree, rest: seq<Token>) {
    toks == Yield(t) + rest && Fits(d, t, p) && NextPrecedence(d, rest) < p
  }

  /** The parser accepts exactly what can be read, and what it returns is the only reading. */
  lemma ParsesExactly(d: Dialect, toks: seq<Token>, p: nat, t: Tree, rest: seq<Token>)
    requires LOWEST <= p <= OPERAND
    ensures Parse(d, toks, p) == Ok(t, rest) <==> Reading(d, toks, p, t, rest)
  {
    ParseSound(d, toks, p);
    if Reading(d, toks, p, t, rest) {
      ParseComplete(d, t, rest, p);
    }
  }

  /** Two well-formed trees with the same tokens are the same tree. */
  lemma Unambiguous(d: Dialect, t: Tree, u: Tree)
    requires Fits(d, t, LOWEST) && Fits(d, u, LOWEST) && Yield(t) == Yield(u)
    ensures t == u
  {
    assert Yield(t) + [] == Yield(t) && Yield(u) + [] == Yield(u);
    ParseComplete(d, t, [], LOWEST);
    ParseComplete(d, u, [], LOWEST);
  }

  /** Putting parentheses around a tree makes it an operand that is read back as it stands. */
  lemma ParenthesesProtect(d: Dialect, t: Tree, rest: seq<Token>)
    requires WellFormed(d, t) && Level(d, t) >= LOWEST
    ensures Operand(d, [Open] + Yield(t) + [Close] + rest) == Ok(Paren(t), rest)
  {
    OperandComplete(d, Paren(t), rest);
  }

  // ----- the grammar without numbers -----

  /** The operators between two operands, those that bind tightest first. ?: has its place among
      them. */
  function ClassOps(i: nat): seq<Op> {
    match i
    case 0 => [Star, Slash, Percent]
    case 1 => [Op.Plus, Op.Minus]
    case 2 => [ShiftLeft, ShiftRight]
    case 3 => [Less, Greater, LessEqual, GreaterEqual]
    case 4 => [EqualEqual, NotEqual]
    case 5 => [Ampersand]
    case 6 => [Hat]
    case 7 => [Pipe]
    case 8 => [AndAnd]
    case 9 => [OrOr]
    case 11 => [Equals, PlusEquals, MinusEquals, StarEquals, SlashEquals, PercentEquals, ShiftLeftEquals,
                ShiftRightEquals, AndEquals, PipeEquals, HatEquals]
    case 12 => [Op.Comma]
    case _ => []
  }

  const CONDITIONAL: nat := 10
  const ASSIGNMENTS: nat := 11

  /** Conditions end the list with ?:. */
  function ClassCount(d: Dialect): nat {
    if d == Source then 13 else 11
  }

  predicate InClass(d: Dialect, op: Op, i: nat) {
    i < ClassCount(d) && op in ClassOps(i)
  }

  ghost predicate Infix(d: Dialect, op: Op) {
    exists i: nat :: InClass(d, op, i)
  }

  ghost predicate Before(d: Dialect, op: Op, than: Op) {
    exists i: nat, j: nat :: i < j && InClass(d, op, i) && InClass(d, than, j)
  }

  ghost predicate Beside(d: Dialect, op: Op, other: Op) {
    exists i: nat :: InClass(d, op, i) && InClass(d, other, i)
  }

  ghost predicate AboveConditional(d: Dialect, op: Op) {
    exists i: nat :: i < CONDITIONAL && InClass(d, op, i)
  }

  /** Only assignments associate to the right. */
  predicate FromRight(op: Op) {
    op in ClassOps(ASSIGNMENTS)
  }

  /** What may stand without parentheses on the left, and on the right, of an operator. */
  ghost predicate LeftOperand(d: Dialect, op: Op, l: Tree) {
    match l
    case Bin(o, _, _) => Before(d, o, op) || (Beside(d, o, op) && !FromRight(op))
    case Tern(_, _, _) => !AboveConditional(d, op)
    case _ => true
  }

  ghost predicate RightOperand(d: Dialect, op: Op, r: Tree) {
    match r
    case Bin(o, _, _) => Before(d, o, op) || (Beside(d, o, op) && FromRight(op))
    case Tern(_, _, _) => !AboveConditional(d, op)
    case _ => true
  }

  /** Parentheses stand wherever the grouping is not that of the classes, at every level. */
  ghost predicate Grouped(d: Dialect, t: Tree) {
    match t
    case Lit(_) => true
    case Id(_) => true
    case Un(op, i) => op in [Op.Plus, Op.Minus, Tilde, Bang] && !i.Bin? && !i.Tern? && Grouped(d, i)
    case Paren(i) => Grouped(d, i)
    case Bin(op, l, r) =>
      Infix(d, op) && LeftOperand(d, op, l) && RightOperand(d, op, r) && Grouped(d, l) && Grouped(d, r)
    case Tern(c, a, b) =>
      && !c.Tern? && (c.Bin? ==> AboveConditional(d, c.op)) && Grouped(d, c)
      && (a.Bin? ==> AboveConditional(d, a.op)) && Grouped(d, a)
      && (b.Bin? ==> AboveConditional(d, b.op)) && Grouped(d, b)
  }

  /** The class whose operators have a precedence. */
  function ClassAt(d: Dialect, precedence: nat): nat {
    if precedence <= ClassCount(d) then ClassCount(d) - precedence else 0
  }

  lemma ClassFound(d: Dialect, op: Op)
    requires Precedence(d, Sym(op)) >= 1
    ensures Precedence(d, Sym(op)) <= ClassCount(d) && InClass(d, op, ClassAt(d, Precedence(d, Sym(op))))
  {
  }

  lemma ClassInSource(op: Op, i: nat)
    requires op in ClassOps(i)
    ensures i < 13 && SourcePrecedence(op) == 13 - i
  {
    if i < 5 {
      TightClass(op, i);
    } else {
      LooseClass(op, i);
    }
    hide ClassOps, SourcePrecedence;
  }

  lemma TightClass(op: Op, i: nat)
    requires i < 5 && op in ClassOps(i)
    ensures SourcePrecedence(op) == 13 - i && ConditionPrecedence(op) == 11 - i
  {
  }

  lemma LooseClass(op: Op, i: nat)
    requires i >= 5 && op in ClassOps(i)
    ensures i < 13 && i != CONDITIONAL && SourcePrecedence(op) == 13 - i
    ensures ConditionPrecedence(op) == if i < 10 then 11 - i else 0
  {
  }

  lemma ClassInCondition(op: Op, i: nat)
    requires op in ClassOps(i)
    ensures ConditionPrecedence(op) == (if i < 10 then 11 - i else 0) && i != CONDITIONAL
  {
    if i < 5 {
      TightClass(op, i);
    } else {
      LooseClass(op, i);
    }
    hide ClassOps, ConditionPrecedence;
  }

  lemma ClassOnly(op: Op, i: nat)
    requires op in ClassOps(i)
    ensures i < 13 && SourcePrecedence(op) == 13 - i
    ensures i < 10 ==> ConditionPrecedence(op) == 11 - i
    ensures i >= 10 ==> ConditionPrecedence(op) == 0 && i != CONDITIONAL
  {
    hide *;
    ClassInSource(op, i);
    ClassInCondition(op, i);
  }

  lemma ClassOfOp(d: Dialect, op: Op, i: nat)
    ensures InClass(d, op, i) <==> Precedence(d, Sym(op)) >= 1 && i == ClassAt(d, Precedence(d, Sym(op)))
    ensures Precedence(d, Sym(op)) <= ClassCount(d)
  {
    if op in ClassOps(i) {
      ClassOnly(op, i);
    }
    if Precedence(d, Sym(op)) >= 1 {
      ClassFound(d, op);
    } else {
      NoClass(d, op);
    }
    hide ClassOps, SourcePrecedence, ConditionPrecedence;
  }

  lemma NoClass(d: Dialect, op: Op)
    ensures Precedence(d, Sym(op)) <= ClassCount(d)
  {
  }

  lemma RtlExactly(d: Dialect, op: Op)
    ensures Rtl(d, op) <==> d == Source && FromRight(op)
  {
    AssignsExactly(op);
    hide Assigns, FromRight;
  }

  lemma AssignsExactly(op: Op)
    ensures Assigns(op) <==> FromRight(op)
  {
    if FromRight(op) {
      ClassOnly(op, ASSIGNMENTS);
      hide ClassOps;
    }
  }

  lemma ClassesOf(d: Dialect, op: Op)
    ensures var p := Precedence(d, Sym(op));
      p <= ClassCount(d) && forall k: nat :: InClass(d, op, k) <==> p >= 1 && k == ClassAt(d, p)
  {
    hide *;
    ClassOfOp(d, op, 0);
    forall k: nat
      ensures InClass(d, op, k) <==> Precedence(d, Sym(op)) >= 1 && k == ClassAt(d, Precedence(d, Sym(op)))
    {
      ClassOfOp(d, op, k);
    }
  }

  lemma InfixDecides(d: Dialect, op: Op)
    ensures Infix(d, op) <==> Precedence(d, Sym(op)) >= 1
    ensures AboveConditional(d, op) <==> Precedence(d, Sym(op)) > Ternary(d)
  {
    ClassesOf(d, op);
    hide Precedence, InClass;
    var p := Precedence(d, Sym(op));
    if p >= 1 {
      assert InClass(d, op, ClassAt(d, p));
    }
  }

  lemma ClassOrder(d: Dialect, p: nat, q: nat)
    requires 1 <= p <= ClassCount(d) && 1 <= q <= ClassCount(d)
    ensures ClassAt(d, p) < ClassAt(d, q) <==> p > q
    ensures ClassAt(d, p) == ClassAt(d, q) <==> p == q
  {
  }

  lemma ClassesDecide(d: Dialect, op: Op, other: Op)
    ensures var p, q := Precedence(d, Sym(op)), Precedence(d, Sym(other));
      (Before(d, op, other) <==> p > q >= 1) && (Beside(d, op, other) <==> p == q >= 1)
  {
    ClassesOf(d, op);
    ClassesOf(d, other);
    var p, q := Precedence(d, Sym(op)), Precedence(d, Sym(other));
    hide Precedence, InClass;
    if p >= 1 && q >= 1 {
      ClassOrder(d, p, q);
      BeforeAt(d, op, other, ClassAt(d, p), ClassAt(d, q));
      BesideAt(d, op, other, ClassAt(d, p), ClassAt(d, q));
    } else {
      NotBeside(d, op, other);
    }
  }

  lemma NotBeside(d: Dialect, op: Op, other: Op)
    requires (forall k: nat :: !InClass(d, op, k)) || (forall k: nat :: !InClass(d, other, k))
    ensures !Before(d, op, other) && !Beside(d, op, other)
  {
    hide InClass;
  }

  lemma BeforeAt(d: Dialect, op: Op, other: Op, i: nat, j: nat)
    requires InClass(d, op, i) && forall k: nat | InClass(d, op, k) :: k == i
    requires InClass(d, other, j) && forall k: nat | InClass(d, other, k) :: k == j
    ensures Before(d, op, other) <==> i < j
  {
    hide *;
    if Before(d, op, other) {
      var x, y := BeforeIs(d, op, other);
    }
    if i < j {
      BeforeFrom(d, op, other, i, j);
    }
  }

  lemma BeforeFrom(d: Dialect, op: Op, other: Op, i: nat, j: nat)
    requires i < j && InClass(d, op, i) && InClass(d, other, j)
    ensures Before(d, op, other)
  {
    hide InClass;
  }

  lemma BeforeIs(d: Dialect, op: Op, other: Op) returns (x: nat, y: nat)
    requires Before(d, op, other)
    ensures x < y && InClass(d, op, x) && InClass(d, other, y)
  {
    hide InClass;
    x, y :| x < y && InClass(d, op, x) && InClass(d, other, y);
  }

  lemma BesideAt(d: Dialect, op: Op, other: Op, i: nat, j: nat)
    requires InClass(d, op, i) && forall k: nat | InClass(d, op, k) :: k == i
    requires InClass(d, other, j) && forall k: nat | InClass(d, other, k) :: k == j
    ensures Beside(d, op, other) <==> i == j
  {
    hide InClass;
  }

  lemma ArmDecides(d: Dialect, t: Tree)
    ensures Level(d, t) > Ternary(d) <==> !t.Tern? && (t.Bin? ==> AboveConditional(d, t.op))
    ensures Level(d, t) >= Ternary(d) <==> (t.Bin? ==> AboveConditional(d, t.op))
  {
    if t.Bin? {
      InfixDecides(d, t.op);
      PrecedenceFacts(d, t.op);
    }
    hide AboveConditional;
  }

  lemma OperandsDecide(d: Dialect, op: Op, l: Tree, r: Tree)
    requires Precedence(d, Sym(op)) >= 1
    ensures Level(d, l) >= LeftMin(d, op) <==> LeftOperand(d, op, l)
    ensures Level(d, r) >= RightMin(d, op) <==> RightOperand(d, op, r)
  {
    hide Before, Beside, AboveConditional, ClassOps, FromRight, Rtl, SourcePrecedence, ConditionPrecedence;
    RtlAlike(d, op);
    PrecedenceFacts(d, op);
    InfixDecides(d, op);
    if l.Bin? {
      ClassesDecide(d, l.op, op);
    }
    if r.Bin? {
      ClassesDecide(d, r.op, op);
    }
  }

  /** In conditions there is no assignment to be beside. */
  lemma RtlAlike(d: Dialect, op: Op)
    requires Precedence(d, Sym(op)) >= 1
    ensures Rtl(d, op) <==> FromRight(op)
  {
    RtlExactly(d, op);
    if FromRight(op) {
      ClassOnly(op, ASSIGNMENTS);
    }
  }

  lemma {:induction false} GroupedExactly(d: Dialect, t: Tree)
    ensures WellFormed(d, t) <==> Grouped(d, t)
    ensures WellFormed(d, t) ==> Level(d, t) >= LOWEST
  {
    hide Precedence, LeftOperand, RightOperand, Infix, AboveConditional, Rtl;
    match t
    case Lit(_) =>
    case Id(_) =>
    case Un(_, i) =>
      GroupedExactly(d, i);
      if i.Bin? {
        PrecedenceFacts(d, i.op);
      }
    case Paren(i) => GroupedExactly(d, i);
    case Bin(op, l, r) =>
      GroupedExactly(d, l);
      GroupedExactly(d, r);
      InfixDecides(d, op);
      if Precedence(d, Sym(op)) >= 1 {
        OperandsDecide(d, op, l, r);
      }
    case Tern(c, a, b) =>
      GroupedExactly(d, c);
      GroupedExactly(d, a);
      GroupedExactly(d, b);
      ArmDecides(d, c);
      ArmDecides(d, a);
      ArmDecides(d, b);
  }

  /** The parser reads what is grouped as the classes say, up to a token that cannot go on. */
  lemma ParsesGrouped(d: Dialect, toks: seq<Token>, t: Tree, rest: seq<Token>)
    ensures Parse(d, toks, LOWEST) == Ok(t, rest) <==>
      toks == Yield(t) + rest && Grouped(d, t)
      && (rest == [] || (rest[0] != Question && (rest[0].Sym? ==> !Infix(d, rest[0].op))))
  {
    ParsesExactly(d, toks, LOWEST, t, rest);
    GroupedExactly(d, t);
    NextFacts(d, rest);
    if rest != [] && rest[0].Sym? {
      InfixDecides(d, rest[0].op);
    }
    hide Grouped, WellFormed, Yield, Infix, Level, Parse;
  }

  lemma YieldOfBin(op: Op, l: Tree, r: Tree, x: seq<Token>, y: seq<Token>)
    requires Yield(l) == x && Yield(r) == y
    ensures Yield(Bin(op, l, r)) == x + [Sym(op)] + y
  {
  }

  lemma SmallYields(op1: Op, op2: Op, a: string, b: string, c: string)
    ensures var toks := [Name(a), Sym(op1), Name(b), Sym(op2), Name(c)];
      && Yield(Bin(op2, Bin(op1, Id(a), Id(b)), Id(c))) == toks
      && Yield(Bin(op1, Id(a), Bin(op2, Id(b), Id(c)))) == toks
  {
    YieldOfBin(op1, Id(a), Id(b), [Name(a)], [Name(b)]);
    YieldOfBin(op2, Id(b), Id(c), [Name(b)], [Name(c)]);
    YieldOfBin(op2, Bin(op1, Id(a), Id(b)), Id(c), [Name(a), Sym(op1), Name(b)], [Name(c)]);
    YieldOfBin(op1, Id(a), Bin(op2, Id(b), Id(c)), [Name(a)], [Name(b), Sym(op2), Name(c)]);
  }

  /** Two operators in a row: the tighter one takes the operand between them, and within a class the
      left one does, but for assignments. */
  lemma TwoOperators(d: Dialect, i: nat, j: nat, op1: Op, op2: Op, a: string, b: string, c: string)
    requires InClass(d, op1, i) && InClass(d, op2, j)
    ensures Parse(d, [Name(a), Sym(op1), Name(b), Sym(op2), Name(c)], LOWEST) ==
      Ok(if i < j || (i == j && i != ASSIGNMENTS) then Bin(op2, Bin(op1, Id(a), Id(b)), Id(c))
         else Bin(op1, Id(a), Bin(op2, Id(b), Id(c))), [])
  {
    var toks := [Name(a), Sym(op1), Name(b), Sym(op2), Name(c)];
    var t, u := Bin(op1, Id(a), Id(b)), Bin(op2, Id(b), Id(c));
    IdsGrouped(d, op1, i, a, b);
    IdsGrouped(d, op2, j, b, c);
    hide *;
    SmallYields(op1, op2, a, b, c);
    assert toks == toks + [];
    if i < j || (i == j && i != ASSIGNMENTS) {
      TightLeft(d, op1, op2, i, j, t);
      BinGrouped(d, op2, t, Id(c));
      ParsesGrouped(d, toks, Bin(op2, t, Id(c)), []);
    } else {
      TightRight(d, op1, op2, i, j, u);
      BinGrouped(d, op1, Id(a), u);
      ParsesGrouped(d, toks, Bin(op1, Id(a), u), []);
    }
  }

  lemma IdsGrouped(d: Dialect, op: Op, i: nat, a: string, b: string)
    requires InClass(d, op, i)
    ensures Infix(d, op) && LeftOperand(d, op, Id(a)) && RightOperand(d, op, Id(b))
    ensures Grouped(d, Bin(op, Id(a), Id(b)))
  {
    hide InClass;
  }

  lemma TightLeft(d: Dialect, op1: Op, op2: Op, i: nat, j: nat, t: Tree)
    requires InClass(d, op1, i) && InClass(d, op2, j) && t.Bin? && t.op == op1
    requires i < j || (i == j && i != ASSIGNMENTS)
    ensures LeftOperand(d, op2, t)
  {
    FromRightExactly(d, op2, j);
    hide InClass, FromRight;
  }

  lemma TightRight(d: Dialect, op1: Op, op2: Op, i: nat, j: nat, u: Tree)
    requires InClass(d, op1, i) && InClass(d, op2, j) && u.Bin? && u.op == op2
    requires j < i || (i == j && i == ASSIGNMENTS)
    ensures RightOperand(d, op1, u)
  {
    FromRightExactly(d, op1, i);
    hide InClass, FromRight;
  }

  lemma BinGrouped(d: Dialect, op: Op, l: Tree, r: Tree)
    requires Infix(d, op) && LeftOperand(d, op, l) && RightOperand(d, op, r)
    requires (Grouped(d, l) || l.Id?) && (Grouped(d, r) || r.Id?)
    ensures Grouped(d, Bin(op, l, r))
  {
    hide Infix, LeftOperand, RightOperand;
  }

  lemma FromRightExactly(d: Dialect, op: Op, i: nat)
    requires InClass(d, op, i)
    ensures FromRight(op) <==> i == ASSIGNMENTS
  {
    ClassOnly(op, i);
    if FromRight(op) {
      ClassOnly(op, ASSIGNMENTS);
    }
  }

  predicate IsComma(t: Tree) {
    t.Bin? && t.op == Op.Comma
  }

  /** An unparenthesised comma is an operand of nothing but a comma to its right. */
  lemma CommaOutside(op: Op, l: Tree, r: Tree)
    requires Grouped(Source, Bin(op, l, r))
    ensures !IsComma(r) && (IsComma(l) ==> op == Op.Comma)
  {
    ClassesDecide(Source, Op.Comma, op);
    InfixDecides(Source, op);
    RtlExactly(Source, op);
    hide ClassOps, Before, Beside, Infix, FromRight, AboveConditional;
  }

  /** A prefix operator binds tighter than any other. */
  lemma PrefixFirst(d: Dialect, op: Op, op2: Op, a: string, b: string)
    requires Infix(d, op2)
    ensures Parse(d, [Sym(op), Name(a), Sym(op2), Name(b)], LOWEST) ==
      if op in [Op.Plus, Op.Minus, Tilde, Bang] then Ok(Bin(op2, Un(op, Id(a)), Id(b)), []) else Failed
  {
    var toks, t := [Sym(op), Name(a), Sym(op2), Name(b)], Bin(op2, Un(op, Id(a)), Id(b));
    if op in [Op.Plus, Op.Minus, Tilde, Bang] {
      assert Yield(Un(op, Id(a))) == [Sym(op), Name(a)];
      YieldOfBin(op2, Un(op, Id(a)), Id(b), [Sym(op), Name(a)], [Name(b)]);
      assert toks == toks + [];
      assert Grouped(d, Un(op, Id(a)));
      hide Yield, Infix, Grouped;
      BinGrouped(d, op2, Un(op, Id(a)), Id(b));
      ParsesGrouped(d, toks, t, []);
    } else {
      assert toks == [Sym(op)] + toks[1..];
      OperandShape(d, Sym(op), toks[1..]);
    }
  }

  lemma YieldOfTern(t: Tree, a: Tree, b: Tree, x: seq<Token>, y: seq<Token>, z: seq<Token>)
    requires Yield(t) == x && Yield(a) == y && Yield(b) == z
    ensures Yield(Tern(t, a, b)) == x + [Question] + y + [Colon] + z
  {
  }

  lemma TernGrouped(d: Dialect, t: Tree, a: Tree, b: Tree)
    requires Grouped(d, t) && Grouped(d, a) && Grouped(d, b) && !t.Tern?
    requires forall u | u in [t, a, b] && u.Bin? :: AboveConditional(d, u.op)
    ensures Grouped(d, Tern(t, a, b))
  {
    assert t in [t, a, b] && a in [t, a, b] && b in [t, a, b];
    hide AboveConditional;
  }

  lemma NameReady(d: Dialect, op: Op, a: string)
    ensures LeftOperand(d, op, Id(a)) && RightOperand(d, op, Id(a)) && Grouped(d, Id(a)) && Yield(Id(a)) == [Name(a)]
  {
  }

  lemma TernReady(d: Dialect, op: Op, t: Tree)
    requires t.Tern? && !AboveConditional(d, op)
    ensures LeftOperand(d, op, t) && RightOperand(d, op, t)
  {
    hide AboveConditional;
  }

  /** An operator in front of a conditional expression: it takes the condition, or all of it. */
  lemma BeforeConditional(d: Dialect, op: Op, a: string, b: string, c: string, e: string)
    requires Infix(d, op)
    ensures Parse(d, [Name(a), Sym(op), Name(b), Question, Name(c), Colon, Name(e)], LOWEST) ==
      Ok(if AboveConditional(d, op) then Tern(Bin(op, Id(a), Id(b)), Id(c), Id(e))
         else Bin(op, Id(a), Tern(Id(b), Id(c), Id(e))), [])
  {
    hide *;
    var toks := [Name(a), Sym(op), Name(b), Question, Name(c), Colon, Name(e)];
    var x, y := Bin(op, Id(a), Id(b)), Tern(Id(b), Id(c), Id(e));
    NameReady(d, op, a);
    NameReady(d, op, b);
    NameReady(d, op, c);
    NameReady(d, op, e);
    assert toks == toks + [];
    if AboveConditional(d, op) {
      YieldOfBin(op, Id(a), Id(b), [Name(a)], [Name(b)]);
      YieldOfTern(x, Id(c), Id(e), [Name(a), Sym(op), Name(b)], [Name(c)], [Name(e)]);
      BinGrouped(d, op, Id(a), Id(b));
      TernGrouped(d, x, Id(c), Id(e));
      ParsesGrouped(d, toks, Tern(x, Id(c), Id(e)), []);
    } else {
      YieldOfTern(Id(b), Id(c), Id(e), [Name(b)], [Name(c)], [Name(e)]);
      YieldOfBin(op, Id(a), y, [Name(a)], [Name(b), Question, Name(c), Colon, Name(e)]);
      TernGrouped(d, Id(b), Id(c), Id(e));
      TernReady(d, op, y);
      BinGrouped(d, op, Id(a), y);
      ParsesGrouped(d, toks, Bin(op, Id(a), y), []);
    }
  }

  /** And one behind it: it takes the last operand, or all of it. */
  lemma BehindConditional(d: Dialect, op: Op, a: string, b: string, c: string, e: string)
    requires Infix(d, op)
    ensures Parse(d, [Name(a), Question, Name(b), Colon, Name(c), Sym(op), Name(e)], LOWEST) ==
      Ok(if AboveConditional(d, op) then Tern(Id(a), Id(b), Bin(op, Id(c), Id(e)))
         else Bin(op, Tern(Id(a), Id(b), Id(c)), Id(e)), [])
  {
    hide *;
    var toks := [Name(a), Question, Name(b), Colon, Name(c), Sym(op), Name(e)];
    var x, y := Bin(op, Id(c), Id(e)), Tern(Id(a), Id(b), Id(c));
    NameReady(d, op, a);
    NameReady(d, op, b);
    NameReady(d, op, c);
    NameReady(d, op, e);
    assert toks == toks + [];
    if AboveConditional(d, op) {
      YieldOfBin(op, Id(c), Id(e), [Name(c)], [Name(e)]);
      YieldOfTern(Id(a), Id(b), x, [Name(a)], [Name(b)], [Name(c), Sym(op), Name(e)]);
      BinGrouped(d, op, Id(c), Id(e));
      TernGrouped(d, Id(a), Id(b), x);
      ParsesGrouped(d, toks, Tern(Id(a), Id(b), x), []);
    } else {
      YieldOfTern(Id(a), Id(b), Id(c), [Name(a)], [Name(b)], [Name(c)]);
      YieldOfBin(op, y, Id(e), [Name(a), Question, Name(b), Colon, Name(c)], [Name(e)]);
      TernGrouped(d, Id(a), Id(b), Id(c));
      TernReady(d, op, y);
      BinGrouped(d, op, y, Id(e));
      ParsesGrouped(d, toks, Bin(op, y, Id(e)), []);
    }
  }
}
