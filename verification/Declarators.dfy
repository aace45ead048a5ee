/** Declarators, parsed from the inside out with a stack of suffixes and a queue of its own for
    every parenthesised part, against their meaning in the C grammar. */
module Declarators {
  import opened Syntax

  datatype Kind =
    | Scalar
    | Void
    | PointerTo(to: Type)
    | ArrayOf(element: Type, size: Option<nat>)
    | FunctionOf(ret: Type)

  datatype Type = Type(kind: Kind, isConst: bool)

  function MakePointer(t: Type): Type {
    Type(PointerTo(t), false)
  }

  function MakeConst(t: Type): Type {
    t.(isConst := true)
  }

  predicate Incomplete(t: Type) {
    t.kind.Void? || (t.kind.ArrayOf? && t.kind.size.None?)
  }

  /** What an array may hold. */
  predicate MayBeElement(t: Type) {
    !t.kind.FunctionOf? && !Incomplete(t)
  }

  /** What a function may return. */
  predicate MayBeReturned(t: Type) {
    !t.kind.FunctionOf? && !t.kind.ArrayOf?
  }

  // ----- the grammar -----

  /** Sections 6.7.6 and 6.7.7 of ISO/IEC 9899:2011, with empty parameter lists. */
  datatype Declarator =
    | Named(name: string)
    | Nameless
    | Pointer(inner: Declarator)
    | Const(inner: Declarator)
    | Array(inner: Declarator, size: Option<nat>)
    | Function(inner: Declarator)

  datatype Token =
    | Star | ConstWord | Name(s: string) | BracketOpen | BracketClose | Number(n: nat) | Open | Close | Other

  /** Prefixes need parentheses in front of a suffix. */
  function Direct(d: Declarator): seq<Token>
    decreases d, 1
  {
    if d.Pointer? || d.Const? then [Open] + Tokens(d) + [Close] else Tokens(d)
  }

  function Brackets(size: Option<nat>): seq<Token> {
    if size.Some? then [BracketOpen, Number(size.value), BracketClose] else [BracketOpen, BracketClose]
  }

  function Tokens(d: Declarator): seq<Token>
    decreases d, 0
  {
    match d
    case Named(x) => [Name(x)]
    case Nameless => []
    case Pointer(i) => [Star] + Tokens(i)
    case Const(i) => [ConstWord] + Tokens(i)
    case Array(i, n) => Direct(i) + Brackets(n)
    case Function(i) => Direct(i) + [Open, Close]
  }

  datatype Declared = Ok(t: Type, name: Option<string>) | Invalid

  /** What a declarator makes of the type in front of it. */
  function Denotes(d: Declarator, t: Type): Declared {
    match d
    case Named(x) => Ok(t, Some(x))
    case Nameless => Ok(t, None)
    case Pointer(i) => Denotes(i, MakePointer(t))
    case Const(i) => Denotes(i, MakeConst(t))
    case Array(i, n) => if MayBeElement(t) then Denotes(i, Type(ArrayOf(t, n), false)) else Invalid
    case Function(i) => if MayBeReturned(t) then Denotes(i, Type(FunctionOf(t), false)) else Invalid
  }

  // ----- the parser as functions -----

  datatype Item = Inner(tokens: seq<Token>) | Call(tokens: seq<Token>) | Elements(size: Option<nat>)

  /** The tokens up to and including the close that ends the current parenthesis. */
  function Collect(toks: seq<Token>, depth: nat): (r: Option<(seq<Token>, seq<Token>)>)
    ensures r.Some? ==> |r.value.0| + |r.value.1| == |toks| && |r.value.0| > 0
  {
    if toks == [] then None
    else if toks[0] == Close && depth == 0 then Some(([Close], toks[1..]))
    else
      var r := Collect(toks[1..], if toks[0] == Open then depth + 1 else if toks[0] == Close then depth - 1 else depth);
      if r.None? then None else Some(([toks[0]] + r.value.0, r.value.1))
  }

  datatype Scanned = Stopped(t: Type, stack: seq<Item>, name: Option<string>, rest: seq<Token>) | Unreadable

  predicate Short(stack: seq<Item>, bound: nat) {
    forall i | i in stack && i.Inner? :: |i.tokens| < bound
  }

  function Push(stack: seq<Item>, i: Item, bound: nat): (r: seq<Item>)
    requires Short(stack, bound) && (i.Inner? ==> |i.tokens| < bound)
    ensures Short(r, bound)
  {
    stack + [i]
  }

  /** The first loop: prefixes change the type at once, suffixes are stacked. */
  function Scan(t: Type, toks: seq<Token>, lhs: bool, stack: seq<Item>, name: Option<string>, bound: nat): (r: Scanned)
    requires Short(stack, bound) && |toks| <= bound
    ensures r.Stopped? ==> Short(r.stack, bound)
    decreases |toks|
  {
    if toks == [] then Stopped(t, stack, name, toks)
    else
      match toks[0]
      case Star => if lhs then Scan(MakePointer(t), toks[1..], lhs, stack, name, bound) else Unreadable
      case ConstWord => if lhs then Scan(MakeConst(t), toks[1..], lhs, stack, name, bound) else Unreadable
      case Name(x) => Scan(t, toks[1..], false, stack, Some(x), bound)
      case BracketOpen =>
        if |toks| >= 2 && toks[1] == BracketClose then
          Scan(t, toks[2..], false, Push(stack, Elements(None), bound), name, bound)
        else if |toks| >= 3 && toks[1].Number? && toks[2] == BracketClose then
          Scan(t, toks[3..], false, Push(stack, Elements(Some(toks[1].n)), bound), name, bound)
        else Unreadable
      case Open =>
        var r := Collect(toks[1..], 0);
        if r.None? then Unreadable
        else
          Scan(t, r.value.1, false, Push(stack, if lhs then Inner(r.value.0) else Call(r.value.0), bound), name, bound)
      case _ => Stopped(t, stack, name, toks)
  }

  /** The second loop: suffixes take effect from the right, the parenthesised part comes last. */
  function Unwind(t: Type, stack: seq<Item>, name: Option<string>, bound: nat): Declared
    requires Short(stack, bound)
    decreases bound, 0, |stack|
  {
    if stack == [] then Ok(t, name)
    else
      var n := |stack| - 1;
      var item := stack[n];
      match item
      case Elements(size) =>
        if MayBeElement(t) then Unwind(Type(ArrayOf(t, size), false), stack[..n], name, bound) else Invalid
      case Call(toks) =>
        if MayBeReturned(t) && |toks| <= 1 then Unwind(Type(FunctionOf(t), false), stack[..n], name, bound) else Invalid
      case Inner(toks) =>
        if |toks| <= 1 then Invalid
        else
          var r := Parse(t, toks);
          if r.0.Invalid? then Invalid
          else Unwind(r.0.t, stack[..n], if name.Some? then name else r.0.name, bound)
  }

  /** The type and name, and the tokens left over. */
  function Parse(t: Type, toks: seq<Token>): (Declared, seq<Token>)
    decreases |toks|, 1, 0
  {
    var r := Scan(t, toks, true, [], None, |toks|);
    if |toks| == 1 then (Ok(t, None), toks)
    else if r.Unreadable? then (Invalid, []) else (Unwind(r.t, r.stack, r.name, |toks|), r.rest)
  }

  // ----- the parser as the source has it -----

  class Queue {
    var tokens: seq<Token>

    constructor (tokens: seq<Token>)
      ensures this.tokens == tokens
    {
      this.tokens := tokens;
    }

    predicate Starts(t: Token)
      reads this
    {
      tokens != [] && tokens[0] == t
    }

    method Pop() returns (t: Token)
      requires tokens != []
      modifies this
      ensures old(tokens) == [t] + tokens
    {
      t := tokens[0];
      tokens := tokens[1..];
    }

    /** Takes everything up to the matching close out of this queue. */
    method TakeParenthesised() returns (inner: Option<seq<Token>>)
      modifies this
      ensures inner.Some? <==> Collect(old(tokens), 0).Some?
      ensures inner.Some? ==> Collect(old(tokens), 0) == Some((inner.value, tokens))
    {
      var depth: nat := 0;
      var taken: seq<Token> := [];
      NothingPrepended(Collect(tokens, 0));
      while true
        invariant Collect(old(tokens), 0) == Prepended(taken, Collect(tokens, depth))
        decreases |tokens|
      {
        if tokens == [] {
          return None;
        }
        ghost var before := taken;
        var token := Pop();
        taken := taken + [token];
        if token == Open {
          depth := depth + 1;
        }
        if token == Close {
          if depth == 0 {
            return Some(taken);
          }
          depth := depth - 1;
        }
        PrependedTwice(before, token, Collect(tokens, depth));
      }
    }
  }

  function Prepended(a: seq<Token>, r: Option<(seq<Token>, seq<Token>)>): Option<(seq<Token>, seq<Token>)> {
    if r.None? then None else Some((a + r.value.0, r.value.1))
  }

  lemma PrependedTwice(a: seq<Token>, t: Token, r: Option<(seq<Token>, seq<Token>)>)
    ensures Prepended(a, Prepended([t], r)) == Prepended(a + [t], r)
  {
    if r.Some? {
      assert a + ([t] + r.value.0) == a + [t] + r.value.0;
    }
  }

  method ParseDeclarations(queue: Queue, base: Type) returns (result: Declared)
    modifies queue
    ensures result == Parse(base, old(queue.tokens)).0
    ensures result.Ok? ==> queue.tokens == Parse(base, old(queue.tokens)).1
    decreases |queue.tokens|
  {
    if |queue.tokens| == 1 {
      return Ok(base, None);
    }
    var bound := |queue.tokens|;
    ghost var all := queue.tokens;
    var t, lhs, stack, name := base, true, [], None;
    while queue.tokens != []
      invariant Short(stack, bound) && |queue.tokens| <= bound
      invariant Scan(base, all, true, [], None, bound) == Scan(t, queue.tokens, lhs, stack, name, bound)
      decreases |queue.tokens|
    {
      if queue.Starts(Star) || queue.Starts(ConstWord) {
        if !lhs {
          return Invalid;
        }
        var token := queue.Pop();
        t := if token == Star then MakePointer(t) else MakeConst(t);
      } else if queue.tokens[0].Name? {
        var token := queue.Pop();
        name := Some(token.s);
        lhs := false;
      } else if queue.Starts(BracketOpen) {
        if |queue.tokens| >= 2 && queue.tokens[1] == BracketClose {
          queue.tokens := queue.tokens[2..];
          stack := Push(stack, Elements(None), bound);
        } else if |queue.tokens| >= 3 && queue.tokens[1].Number? && queue.tokens[2] == BracketClose {
          stack := Push(stack, Elements(Some(queue.tokens[1].n)), bound);
          queue.tokens := queue.tokens[3..];
        } else {
          return Invalid;
        }
        lhs := false;
      } else if queue.Starts(Open) {
        var _ := queue.Pop();
        var inner := queue.TakeParenthesised();
        if inner.None? {
          return Invalid;
        }
        stack := Push(stack, if lhs then Inner(inner.value) else Call(inner.value), bound);
        lhs := false;
      } else {
        break;
      }
    }
    ghost var want, rest := Unwind(t, stack, name, bound), queue.tokens;
    while stack != []
      invariant queue.tokens == rest && Short(stack, bound) && Unwind(t, stack, name, bound) == want
      decreases |stack|
    {
      var item := stack[|stack| - 1];
      stack := stack[..|stack| - 1];
      match item {
        case Elements(size) =>
          if !MayBeElement(t) {
            return Invalid;
          }
          t := Type(ArrayOf(t, size), false);
        case Call(toks) =>
          if !MayBeReturned(t) || |toks| > 1 {
            return Invalid;
          }
          t := Type(FunctionOf(t), false);
        case Inner(toks) =>
          if |toks| <= 1 {
            return Invalid;
          }
          var inner := new Queue(toks);
          var r := ParseDeclarations(inner, t);
          if r.Invalid? {
            return Invalid;
          }
          t := r.t;
          name := if name.Some? then name else r.name;
      }
    }
    result := Ok(t, name);
  }

  // ----- parsing follows the grammar -----

  /** A function without a name in front of its parentheses. */
  predicate BareCall(d: Declarator) {
    match d
    case Named(_) => false
    case Nameless => false
    case Function(i) => i.Nameless? || BareCall(i)
    case _ => BareCall(d.inner)
  }

  /** What the parser makes of a declarator: what it denotes, but no nameless functions. */
  function Reads(d: Declarator, t: Type): Declared {
    match d
    case Named(x) => Ok(t, Some(x))
    case Nameless => Ok(t, None)
    case Pointer(i) => Reads(i, MakePointer(t))
    case Const(i) => Reads(i, MakeConst(t))
    case Array(i, n) => if MayBeElement(t) then Reads(i, Type(ArrayOf(t, n), false)) else Invalid
    case Function(i) =>
      if i.Nameless? then Invalid
      else if MayBeReturned(t) then Reads(i, Type(FunctionOf(t), false))
      else Invalid
  }

  lemma {:induction false} ReadsExactly(d: Declarator, t: Type)
    ensures Reads(d, t) == if BareCall(d) then Invalid else Denotes(d, t)
    decreases d
  {
    match d
    case Named(_) =>
    case Nameless =>
    case Pointer(i) => ReadsExactly(i, MakePointer(t));
    case Const(i) => ReadsExactly(i, MakeConst(t));
    case Array(i, n) => ReadsExactly(i, Type(ArrayOf(t, n), false));
    case Function(i) => ReadsExactly(i, Type(FunctionOf(t), false));
  }

  predicate Prefixed(d: Declarator) {
    d.Pointer? || d.Const?
  }

  /** The stack and the name that scanning a declarator leaves behind. */
  function StackOf(d: Declarator): seq<Item> {
    match d
    case Named(_) => []
    case Nameless => []
    case Array(i, n) => StackOf(i) + [Elements(n)]
    case Function(i) => StackOf(i) + [if i.Nameless? then Inner([Close]) else Call([Close])]
    case _ => [Inner(Tokens(d) + [Close])]
  }

  function NameOf(d: Declarator): Option<string> {
    match d
    case Named(x) => Some(x)
    case Array(i, _) => NameOf(i)
    case Function(i) => NameOf(i)
    case _ => None
  }

  /** A declarator's own parentheses are balanced. */
  lemma {:induction false} CollectThrough(d: Declarator, more: seq<Token>, depth: nat)
    ensures Collect(Tokens(d) + more, depth) == Prepended(Tokens(d), Collect(more, depth))
    decreases d, 0
  {
    hide Collect, Prepended;
    match d
    case Named(x) => CollectOne(Name(x), more, depth);
    case Nameless => assert [] + more == more; NothingPrepended(Collect(more, depth));
    case Pointer(i) => CollectThrough(i, more, depth); CollectFirst(Star, Tokens(i), more, depth, depth);
    case Const(i) => CollectThrough(i, more, depth); CollectFirst(ConstWord, Tokens(i), more, depth, depth);
    case Array(i, n) =>
      var tail := Brackets(n) + more;
      DirectThrough(i, tail, depth);
      BracketsThrough(n, more, depth);
      JoinThrough(Direct(i), Brackets(n), more, depth);
    case Function(i) =>
      var tail := [Open, Close] + more;
      DirectThrough(i, tail, depth);
      CollectOne(Close, more, depth + 1);
      CollectFirst(Open, [Close], more, depth, depth);
      assert [Open] + [Close] == [Open, Close];
      JoinThrough(Direct(i), [Open, Close], more, depth);
  }

  lemma NothingPrepended(r: Option<(seq<Token>, seq<Token>)>)
    ensures Prepended([], r) == r
  {
    if r.Some? {
      assert [] + r.value.0 == r.value.0;
    }
  }

  function Deeper(t: Token, depth: nat): nat
    requires t == Close ==> depth > 0
  {
    if t == Open then depth + 1 else if t == Close then depth - 1 else depth
  }

  lemma CollectOne(t: Token, more: seq<Token>, depth: nat)
    requires t == Close ==> depth > 0
    ensures Collect([t] + more, depth) == Prepended([t], Collect(more, Deeper(t, depth)))
  {
    assert ([t] + more)[1..] == more;
  }

  lemma CollectFirst(t: Token, a: seq<Token>, more: seq<Token>, depth: nat, end: nat)
    requires t == Close ==> depth > 0
    requires Collect(a + more, Deeper(t, depth)) == Prepended(a, Collect(more, end))
    ensures Collect([t] + a + more, depth) == Prepended([t] + a, Collect(more, end))
  {
    assert [t] + a + more == [t] + (a + more);
    CollectOne(t, a + more, depth);
    var r := Collect(more, end);
    if r.Some? {
      assert [t] + (a + r.value.0) == [t] + a + r.value.0;
    }
  }

  lemma JoinThrough(a: seq<Token>, b: seq<Token>, more: seq<Token>, depth: nat)
    requires Collect(a + (b + more), depth) == Prepended(a, Collect(b + more, depth))
    requires Collect(b + more, depth) == Prepended(b, Collect(more, depth))
    ensures Collect(a + b + more, depth) == Prepended(a + b, Collect(more, depth))
  {
    assert a + b + more == a + (b + more);
    var r := Collect(more, depth);
    if r.Some? {
      assert a + (b + r.value.0) == a + b + r.value.0;
    }
  }

  lemma BracketsThrough(n: Option<nat>, more: seq<Token>, depth: nat)
    ensures Collect(Brackets(n) + more, depth) == Prepended(Brackets(n), Collect(more, depth))
  {
    CollectOne(BracketClose, more, depth);
    if n.Some? {
      CollectFirst(Number(n.value), [BracketClose], more, depth, depth);
      assert [Number(n.value)] + [BracketClose] == [Number(n.value), BracketClose];
      CollectFirst(BracketOpen, [Number(n.value), BracketClose], more, depth, depth);
      assert [BracketOpen] + [Number(n.value), BracketClose] == Brackets(n);
    } else {
      CollectFirst(BracketOpen, [BracketClose], more, depth, depth);
      assert [BracketOpen] + [BracketClose] == Brackets(n);
    }
  }

  lemma {:induction false} DirectThrough(d: Declarator, more: seq<Token>, depth: nat)
    ensures Collect(Direct(d) + more, depth) == Prepended(Direct(d), Collect(more, depth))
    decreases d, 1
  {
    if Prefixed(d) {
      var a := Tokens(d);
      CollectThrough(d, [Close] + more, depth + 1);
      CollectOne(Close, more, depth + 1);
      var r := Collect(more, depth);
      if r.Some? {
        assert a + ([Close] + r.value.0) == a + [Close] + r.value.0;
      }
      assert a + ([Close] + more) == a + [Close] + more;
      CollectFirst(Open, a + [Close], more, depth, depth);
      assert [Open] + (a + [Close]) == Direct(d);
    } else {
      CollectThrough(d, more, depth);
    }
  }

  lemma CollectInner(d: Declarator, more: seq<Token>)
    ensures Collect(Tokens(d) + [Close] + more, 0) == Some((Tokens(d) + [Close], more))
  {
    CollectThrough(d, [Close] + more, 0);
    hide Tokens;
    assert Tokens(d) + ([Close] + more) == Tokens(d) + [Close] + more;
    assert ([Close] + more)[1..] == more;
  }

  /** The tokens behind a declarator that end it. */
  predicate Ends(toks: seq<Token>) {
    toks != [] && (toks[0] == Close || toks[0] == BracketClose || toks[0] == Other || toks[0].Number?)
  }

  lemma ScanBrackets(t: Type, n: Option<nat>, more: seq<Token>, lhs: bool, stack: seq<Item>, name: Option<string>,
                     bound: nat)
    requires Short(stack, bound) && |Brackets(n) + more| <= bound
    ensures Short(stack + [Elements(n)], bound)
    ensures Scan(t, Brackets(n) + more, lhs, stack, name, bound)
      == Scan(t, more, false, stack + [Elements(n)], name, bound)
  {
    assert (Brackets(n) + more)[|Brackets(n)|..] == more;
  }

  lemma ScanCall(t: Type, more: seq<Token>, lhs: bool, stack: seq<Item>, name: Option<string>, bound: nat)
    requires Short(stack, bound) && |more| + 2 <= bound
    ensures var item := if lhs then Inner([Close]) else Call([Close]);
      && Short(stack + [item], bound)
      && Scan(t, [Open, Close] + more, lhs, stack, name, bound) == Scan(t, more, false, stack + [item], name, bound)
  {
    var toks := [Open, Close] + more;
    assert toks[1..] == [Close] + more && ([Close] + more)[1..] == more;
    assert Collect(toks[1..], 0) == Some(([Close], more));
  }

  lemma ScanInner(t: Type, d: Declarator, more: seq<Token>, bound: nat)
    requires |Direct(d) + more| <= bound && Prefixed(d)
    ensures Short(StackOf(d), bound)
    ensures Scan(t, Direct(d) + more, true, [], None, bound) == Scan(t, more, false, StackOf(d), None, bound)
  {
    CollectInner(d, more);
    var toks := Direct(d) + more;
    assert toks[1..] == Tokens(d) + [Close] + more;
    hide Tokens, Collect;
    assert [] + [Inner(Tokens(d) + [Close])] == StackOf(d);
  }

  /** Scanning a direct declarator does not depend on the type. */
  lemma {:induction false} ScanDirect(t: Type, d: Declarator, more: seq<Token>, bound: nat)
    requires |Direct(d) + more| <= bound
    ensures Short(StackOf(d), bound)
    ensures Scan(t, Direct(d) + more, true, [], None, bound)
      == Scan(t, more, d.Nameless?, StackOf(d), NameOf(d), bound)
    decreases d
  {
    match d
    case Named(x) => assert ([Name(x)] + more)[1..] == more;
    case Nameless => assert [] + more == more;
    case Array(i, n) =>
      assert Direct(d) + more == Direct(i) + (Brackets(n) + more);
      ScanDirect(t, i, Brackets(n) + more, bound);
      ScanBrackets(t, n, more, i.Nameless?, StackOf(i), NameOf(i), bound);
    case Function(i) =>
      assert Direct(d) + more == Direct(i) + ([Open, Close] + more);
      ScanDirect(t, i, [Open, Close] + more, bound);
      ScanCall(t, more, i.Nameless?, StackOf(i), NameOf(i), bound);
    case _ => ScanInner(t, d, more, bound);
  }

  /** The core of a declarator, and the type that its prefixes make. */
  function Core(d: Declarator): Declarator {
    if Prefixed(d) then Core(d.inner) else d
  }

  function Prefix(d: Declarator, t: Type): Type {
    match d
    case Pointer(i) => Prefix(i, MakePointer(t))
    case Const(i) => Prefix(i, MakeConst(t))
    case _ => t
  }

  lemma {:induction false} CoreReads(d: Declarator, t: Type)
    ensures Reads(d, t) == Reads(Core(d), Prefix(d, t))
    ensures !Prefixed(Core(d)) && (Prefixed(d) ==> Core(d) < d)
    decreases d
  {
    match d
    case Pointer(i) => CoreReads(i, MakePointer(t));
    case Const(i) => CoreReads(i, MakeConst(t));
    case _ =>
  }

  lemma {:induction false} ScanAll(t: Type, d: Declarator, more: seq<Token>, bound: nat)
    requires |Tokens(d) + more| <= bound && Ends(more)
    ensures Short(StackOf(Core(d)), bound)
    ensures Scan(t, Tokens(d) + more, true, [], None, bound)
      == Stopped(Prefix(d, t), StackOf(Core(d)), NameOf(Core(d)), more)
    decreases d
  {
    match d
    case Pointer(i) =>
      assert (Tokens(d) + more)[1..] == Tokens(i) + more;
      ScanAll(MakePointer(t), i, more, bound);
    case Const(i) =>
      assert (Tokens(d) + more)[1..] == Tokens(i) + more;
      ScanAll(MakeConst(t), i, more, bound);
    case _ => ScanDirect(t, d, more, bound);
  }

  lemma {:induction false} UnwindReads(t: Type, d: Declarator, bound: nat)
    requires Short(StackOf(d), bound)
    ensures Unwind(t, StackOf(d), NameOf(d), bound) == Reads(d, t)
    decreases d, 1
  {
    match d
    case Named(_) =>
    case Nameless =>
    case Array(i, n) =>
      assert StackOf(d)[..|StackOf(d)| - 1] == StackOf(i);
      if MayBeElement(t) {
        UnwindReads(Type(ArrayOf(t, n), false), i, bound);
      }
    case Function(i) =>
      assert StackOf(d)[..|StackOf(d)| - 1] == StackOf(i);
      if MayBeReturned(t) && !i.Nameless? {
        UnwindReads(Type(FunctionOf(t), false), i, bound);
      }
    case _ =>
      ParseReads(t, d, [Close]);
      assert StackOf(d)[..0] == [];
  }

  /** The parser reads every declarator as the grammar says, and stops right behind it. */
  lemma {:induction false} ParseReads(t: Type, d: Declarator, more: seq<Token>)
    requires Ends(more)
    ensures var r := Parse(t, Tokens(d) + more);
      r.0 == Reads(d, t) && (r.0.Ok? ==> r.1 == more)
    decreases d, if Prefixed(d) then 0 else 2
  {
    CoreReads(d, t);
    ScanAll(t, d, more, |Tokens(d) + more|);
    UnwindReads(Prefix(d, t), Core(d), |Tokens(d) + more|);
    if |Tokens(d) + more| == 1 {
      NoTokens(d);
    }
  }

  lemma NoTokens(d: Declarator)
    ensures Tokens(d) == [] ==> d.Nameless?
  {
  }

  // ----- round trip -----

  /** What declares a type: each layer of the type, outermost first, wraps the declarator. */
  function Spell(t: Type, d: Declarator): Declarator {
    var e := if t.isConst then Const(d) else d;
    match t.kind
    case Scalar => d
    case Void => d
    case PointerTo(to) => Spell(to, Pointer(e))
    case ArrayOf(of, n) => Spell(of, Array(e, n))
    case FunctionOf(ret) => Spell(ret, Function(e))
  }

  function BaseOf(t: Type): Type {
    match t.kind
    case Scalar => t
    case Void => t
    case PointerTo(to) => BaseOf(to)
    case ArrayOf(of, _) => BaseOf(of)
    case FunctionOf(ret) => BaseOf(ret)
  }

  /** The kinds that an array holds: not a function, and nothing whose size is unknown. */
  predicate ElementKind(k: Kind) {
    match k
    case Scalar => true
    case Void => false
    case PointerTo(_) => true
    case ArrayOf(_, size) => size.Some?
    case FunctionOf(_) => false
  }

  /** The kinds that a function returns. */
  predicate ReturnKind(k: Kind) {
    match k
    case Scalar => true
    case Void => true
    case PointerTo(_) => true
    case ArrayOf(_, _) => false
    case FunctionOf(_) => false
  }

  /** Section 6.7.6 again: which types there are, by their layers. */
  predicate ValidType(t: Type) {
    match t.kind
    case Scalar => true
    case Void => true
    case PointerTo(to) => ValidType(to)
    case ArrayOf(of, _) => ElementKind(of.kind) && ValidType(of)
    case FunctionOf(ret) => ReturnKind(ret.kind) && ValidType(ret)
  }

  /** One suffix is accepted exactly behind those kinds, and makes an array or a function of the type
      in front of it. */
  lemma SuffixExactly(t: Type, n: Option<nat>)
    ensures Denotes(Array(Nameless, n), t)
      == if ElementKind(t.kind) then Ok(Type(ArrayOf(t, n), false), None) else Invalid
    ensures Denotes(Function(Nameless), t)
      == if ReturnKind(t.kind) then Ok(Type(FunctionOf(t), false), None) else Invalid
  {
  }

  lemma {:induction false} SpellDenotes(t: Type, d: Declarator)
    ensures Denotes(Spell(t, d), BaseOf(t)) == if ValidType(t) then Denotes(d, t) else Invalid
    decreases t
  {
    var e := if t.isConst then Const(d) else d;
    match t.kind
    case Scalar =>
    case Void =>
    case PointerTo(to) => SpellDenotes(to, Pointer(e));
    case ArrayOf(of, n) => SpellDenotes(of, Array(e, n));
    case FunctionOf(ret) => SpellDenotes(ret, Function(e));
  }

  lemma {:induction false} SpellCalls(t: Type, d: Declarator)
    ensures BareCall(Spell(t, d)) <==> BareCall(d) || (d.Nameless? && t.kind.FunctionOf? && !t.isConst)
    decreases t
  {
    var e := if t.isConst then Const(d) else d;
    match t.kind
    case Scalar =>
    case Void =>
    case PointerTo(to) => SpellCalls(to, Pointer(e));
    case ArrayOf(of, n) => SpellCalls(of, Array(e, n));
    case FunctionOf(ret) => SpellCalls(ret, Function(e));
  }

  /** Parsing the declaration of a type, with its base type in front, gives that type and name
      back, unless the type is one that cannot be; then it is refused. */
  lemma RoundTrip(t: Type, x: string, more: seq<Token>)
    requires Ends(more)
    ensures var r := Parse(BaseOf(t), Tokens(Spell(t, Named(x))) + more);
      if ValidType(t) then r == (Ok(t, Some(x)), more) else r.0 == Invalid
  {
    var d := Spell(t, Named(x));
    ParseReads(BaseOf(t), d, more);
    ReadsExactly(d, BaseOf(t));
    SpellDenotes(t, Named(x));
    SpellCalls(t, Named(x));
  }

  /** The same for a type without a name, as in a cast. Only functions are not read back. */
  lemma NamelessRoundTrip(t: Type, more: seq<Token>)
    requires Ends(more)
    ensures var r := Parse(BaseOf(t), Tokens(Spell(t, Nameless)) + more);
      if ValidType(t) && (!t.kind.FunctionOf? || t.isConst) then r == (Ok(t, None), more) else r.0 == Invalid
  {
    var d := Spell(t, Nameless);
    ParseReads(BaseOf(t), d, more);
    ReadsExactly(d, BaseOf(t));
    SpellDenotes(t, Nameless);
    SpellCalls(t, Nameless);
  }

  /** So no two types share a declaration. */
  lemma SpelledApart(t: Type, u: Type, x: string)
    requires ValidType(t) && ValidType(u) && BaseOf(t) == BaseOf(u)
    requires Tokens(Spell(t, Named(x))) == Tokens(Spell(u, Named(x)))
    ensures t == u
  {
    RoundTrip(t, x, [Other]);
    RoundTrip(u, x, [Other]);
  }
}
