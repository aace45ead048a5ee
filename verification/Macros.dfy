/** Object-like macros: expansion repeats until nothing changes, guarded by a set of the macros
    in use, and arrives where replacing names in any order under hide sets does. */
module Macros {
  import opened Basics

  datatype Token = Id(name: string, disabled: bool) | Text(text: string)

  type Table = map<string, seq<Token>>

  // ----- expansion as functions -----

  predicate Expands(t: Token, table: Table, used: set<string>) {
    t.Id? && t.name in table && t.name !in used && !t.disabled
  }

  function Disable(ts: seq<Token>): (r: seq<Token>)
    ensures |r| == |ts|
  {
    seq(|ts|, i requires 0 <= i < |ts| => Disabled(ts[i]))
  }

  function Disabled(t: Token): Token {
    if t.Id? then t.(disabled := true) else t
  }

  function Replace(t: Token, table: Table, used: set<string>): seq<Token>
    decreases table.Keys - used, 0
  {
    if Expands(t, table, used) then
      assert t.name in table.Keys - used;
      Disable(ReplaceAll(table[t.name], table, used + {t.name}))
    else [t]
  }

  function ReplaceAll(ts: seq<Token>, table: Table, used: set<string>): seq<Token>
    decreases table.Keys - used, 1, |ts|
  {
    if ts == [] then [] else Replace(ts[0], table, used) + ReplaceAll(ts[1..], table, used)
  }

  /** Something in the list would still be expanded. */
  predicate Pending(ts: seq<Token>, table: Table, used: set<string>) {
    exists t | t in ts :: Expands(t, table, used)
  }

  // ----- nothing is left after one pass -----

  lemma NoneAppend(a: seq<Token>, b: seq<Token>, table: Table, used: set<string>)
    requires !Pending(a, table, used) && !Pending(b, table, used)
    ensures !Pending(a + b, table, used)
  {
    forall t | t in a + b
      ensures !Expands(t, table, used)
    {
      assert t in a || t in b;
    }
  }

  lemma DisabledDone(ts: seq<Token>, table: Table, used: set<string>)
    ensures !Pending(Disable(ts), table, used)
  {
  }

  /** Replaced tokens are disabled, the others had no reason to be replaced. */
  lemma {:induction false} OnePassDone(ts: seq<Token>, table: Table, used: set<string>)
    ensures !Pending(ReplaceAll(ts, table, used), table, used)
    decreases |ts|
  {
    if ts == [] {
    } else {
      OnePassDone(ts[1..], table, used);
      var first := Replace(ts[0], table, used);
      if Expands(ts[0], table, used) {
        DisabledDone(ReplaceAll(table[ts[0].name], table, used + {ts[0].name}), table, used);
      }
      NoneAppend(first, ReplaceAll(ts[1..], table, used), table, used);
    }
  }

  lemma {:induction false} DoneStays(ts: seq<Token>, table: Table, used: set<string>)
    requires !Pending(ts, table, used)
    ensures ReplaceAll(ts, table, used) == ts
    decreases |ts|
  {
    if ts == [] {
    } else {
      assert ts[0] in ts;
      assert forall t | t in ts[1..] :: t in ts;
      DoneStays(ts[1..], table, used);
      assert ts == [ts[0]] + ts[1..];
    }
  }

  /** So every pass after the first changes nothing. */
  lemma SecondPassIdle(ts: seq<Token>, table: Table, used: set<string>)
    ensures var once := ReplaceAll(ts, table, used); ReplaceAll(once, table, used) == once
  {
    OnePassDone(ts, table, used);
    DoneStays(ReplaceAll(ts, table, used), table, used);
  }

  // ----- expansion as the source does it -----

  lemma NextReplaced(done: seq<Token>, ts: seq<Token>, i: nat, table: Table, used: set<string>)
    requires i < |ts|
    ensures done + ReplaceAll(ts[i..], table, used)
         == done + Replace(ts[i], table, used) + ReplaceAll(ts[i + 1..], table, used)
  {
    assert ts[i..][1..] == ts[i + 1..];
    Assoc(done, Replace(ts[i], table, used), ReplaceAll(ts[i + 1..], table, used));
  }

  class Stream {
    var tokens: seq<Token>

    constructor (tokens: seq<Token>)
      ensures this.tokens == tokens
    {
      this.tokens := tokens;
    }

    method Add(t: Token)
      modifies this
      ensures tokens == old(tokens) + [t]
    {
      tokens := tokens + [t];
    }
  }

  class Preprocessor {
    const table: Table
    var used: set<string>

    constructor (table: Table)
      ensures this.table == table && used == {}
    {
      this.table, used := table, {};
    }

    /** Expands a replacement list: passes from one list to another until a pass expands nothing. */
    method Expand(dest: Stream, body: seq<Token>)
      modifies this, dest
      ensures used == old(used) && dest.tokens == old(dest.tokens) + Disable(ReplaceAll(body, table, used))
      decreases table.Keys - used, 2
    {
      var list2 := body;
      var expanded := true;
      ghost var goal, kept, before := ReplaceAll(body, table, used), used, dest.tokens;
      OnePassDone(body, table, used);
      SecondPassIdle(body, table, used);
      hide Replace, Disable;
      while expanded
        invariant used == kept && dest.tokens == before
        invariant ReplaceAll(list2, table, used) == goal
        invariant expanded || list2 == goal
        invariant list2 == body || !Pending(list2, table, used)
        decreases Pending(list2, table, used), expanded
      {
        expanded := false;
        var list1 := list2;
        var stream2 := new Stream([]);
        for i := 0 to |list1|
          invariant used == kept && dest.tokens == before && fresh(stream2)
          invariant stream2.tokens + ReplaceAll(list1[i..], table, used) == goal
          invariant expanded ==> Pending(list1, table, used)
        {
          var token := list1[i];
          assert token in list1;
          NextReplaced(stream2.tokens, list1, i, table, used);
          if token.Id? {
            var replaced := ProcessIdentifier(stream2, token);
            if replaced {
              expanded := true;
            }
          } else {
            stream2.Add(token);
          }
        }
        assert stream2.tokens + [] == stream2.tokens;
        list2 := stream2.tokens;
      }
      ghost var start := dest.tokens;
      for i := 0 to |list2|
        invariant used == kept && dest.tokens == start + Disable(list2)[..i]
      {
        DisableNext(start, list2, i);
        dest.Add(Disabled(list2[i]));
      }
      assert Disable(list2)[..|list2|] == Disable(list2);
    }

    /** Marks the macro as used while its replacement is expanded. */
    method ProcessIdentifier(dest: Stream, token: Token) returns (replaced: bool)
      requires token.Id?
      modifies this, dest
      ensures used == old(used) && dest.tokens == old(dest.tokens) + Replace(token, table, used)
      ensures replaced == Expands(token, table, used)
      decreases table.Keys - used, 1
    {
      if token.name !in table || token.name in used || token.disabled {
        dest.Add(token);
        return false;
      }
      ghost var before := used;
      assert token.name in table.Keys - used;
      used := used + {token.name};
      Expand(dest, table[token.name]);
      used := used - {token.name};
      assert used == before;
      return true;
    }
  }

  lemma DisableNext(start: seq<Token>, ts: seq<Token>, i: nat)
    requires i < |ts|
    ensures start + Disable(ts)[..i] + [Disabled(ts[i])] == start + Disable(ts)[..i + 1]
  {
  }

  // ----- hide sets -----

  /** A name or text with the macros that may no longer be expanded in its place. */
  datatype Painted = Painted(t: Token, hidden: set<string>)

  predicate Replaceable(p: Painted, table: Table) {
    p.t.Id? && p.t.name in table && p.t.name !in p.hidden
  }

  function Paint(ts: seq<Token>, hidden: set<string>): (r: seq<Painted>)
    ensures |r| == |ts|
  {
    seq(|ts|, i requires 0 <= i < |ts| => Painted(ts[i], hidden))
  }

  /** One replacement, at any place: the name's own replacement list, hidden from itself. */
  ghost predicate Step(ps: seq<Painted>, qs: seq<Painted>, table: Table, at: nat) {
    && at < |ps| && Replaceable(ps[at], table)
    && qs == ps[..at] + Paint(table[ps[at].t.name], ps[at].hidden + {ps[at].t.name}) + ps[at + 1..]
  }

  ghost predicate Rewrites(ps: seq<Painted>, qs: seq<Painted>, table: Table) {
    exists at: nat :: Step(ps, qs, table, at)
  }

  /** A sequence of lists, each made from the one before by a replacement. */
  ghost predicate Chain(run: seq<seq<Painted>>, table: Table) {
    |run| <= 1 || (Rewrites(run[0], run[1], table) && Chain(run[1..], table))
  }

  predicate Final(ps: seq<Painted>, table: Table) {
    forall p | p in ps :: !Replaceable(p, table)
  }

  /** The names and texts, without marks. */
  function Bare(ts: seq<Token>): (r: seq<Token>)
    ensures |r| == |ts|
  {
    seq(|ts|, i requires 0 <= i < |ts| => BareToken(ts[i]))
  }

  function BareToken(t: Token): Token {
    if t.Id? then t.(disabled := false) else t
  }

  function Tokens(ps: seq<Painted>): (r: seq<Token>)
    ensures |r| == |ps|
  {
    seq(|ps|, i requires 0 <= i < |ps| => BareToken(ps[i].t))
  }

  /** What a list comes to if every name is replaced under its own hide set. */
  function Value(ps: seq<Painted>, table: Table): seq<Token> {
    if ps == [] then [] else Bare(Replace(BareToken(ps[0].t), table, ps[0].hidden)) + Value(ps[1..], table)
  }

  /** Replacement lists come from the source, where nothing is disabled. */
  predicate Plain(ts: seq<Token>) {
    forall t | t in ts :: t.Id? ==> !t.disabled
  }

  predicate PlainTable(table: Table) {
    forall x | x in table :: Plain(table[x])
  }

  lemma BareAppend(a: seq<Token>, b: seq<Token>)
    ensures Bare(a + b) == Bare(a) + Bare(b)
  {
  }

  lemma BareDisable(ts: seq<Token>)
    ensures Bare(Disable(ts)) == Bare(ts)
  {
  }

  lemma {:induction false} ValueAppend(a: seq<Painted>, b: seq<Painted>, table: Table)
    ensures Value(a + b, table) == Value(a, table) + Value(b, table)
    decreases |a|
  {
    if a == [] {
      assert a + b == b;
    } else {
      assert (a + b)[1..] == a[1..] + b;
      ValueAppend(a[1..], b, table);
      Assoc(Bare(Replace(BareToken(a[0].t), table, a[0].hidden)), Value(a[1..], table), Value(b, table));
    }
  }

  /** A list painted all over with one hide set has the value of its expansion under that set. */
  lemma {:induction false} ValuePaint(ts: seq<Token>, hidden: set<string>, table: Table)
    requires Plain(ts)
    ensures Value(Paint(ts, hidden), table) == Bare(ReplaceAll(ts, table, hidden))
    decreases |ts|
  {
    if ts == [] {
    } else {
      assert ts[0] in ts && forall t | t in ts[1..] :: t in ts;
      assert Paint(ts, hidden)[1..] == Paint(ts[1..], hidden);
      assert BareToken(ts[0]) == ts[0];
      ValuePaint(ts[1..], hidden, table);
      BareAppend(Replace(ts[0], table, hidden), ReplaceAll(ts[1..], table, hidden));
    }
  }

  lemma ValueOne(p: Painted, table: Table)
    ensures Value([p], table) == Bare(Replace(BareToken(p.t), table, p.hidden))
  {
    assert [p][1..] == [];
    var a := Bare(Replace(BareToken(p.t), table, p.hidden));
    assert a + [] == a;
  }

  lemma StepKeeps(ps: seq<Painted>, qs: seq<Painted>, table: Table, at: nat)
    requires PlainTable(table) && Step(ps, qs, table, at)
    ensures Value(qs, table) == Value(ps, table)
  {
    var a, p, b := ps[..at], ps[at], ps[at + 1..];
    var body := table[p.t.name];
    var hidden := p.hidden + {p.t.name};
    assert ps == a + [p] + b;
    ValueAppend(a + [p], b, table);
    ValueAppend(a, [p], table);
    ValueOne(p, table);
    ValuePaint(body, hidden, table);
    BareDisable(ReplaceAll(body, table, hidden));
    ValueAppend(a + Paint(body, hidden), b, table);
    ValueAppend(a, Paint(body, hidden), table);
  }

  lemma {:induction false} FinalValue(ps: seq<Painted>, table: Table)
    requires Final(ps, table)
    ensures Value(ps, table) == Tokens(ps)
    decreases |ps|
  {
    if ps == [] {
    } else {
      assert ps[0] in ps && forall p | p in ps[1..] :: p in ps;
      FinalValue(ps[1..], table);
      assert Tokens(ps) == [BareToken(ps[0].t)] + Tokens(ps[1..]);
      assert Bare([BareToken(ps[0].t)]) == [BareToken(ps[0].t)];
    }
  }

  lemma {:induction false} ChainKeeps(run: seq<seq<Painted>>, table: Table)
    requires PlainTable(table) && Chain(run, table) && run != []
    ensures Value(run[|run| - 1], table) == Value(run[0], table)
    decreases |run|
  {
    if |run| == 1 {
    } else {
      var at: nat :| Step(run[0], run[1], table, at);
      StepKeeps(run[0], run[1], table, at);
      ChainKeeps(run[1..], table);
    }
  }

  /** Whatever the order in which names are replaced under hide sets, once no more can be, the
      tokens are those of the expansion. */
  lemma AnyOrder(ts: seq<Token>, run: seq<seq<Painted>>, table: Table)
    requires PlainTable(table) && Plain(ts) && run != [] && run[0] == Paint(ts, {})
    requires Chain(run, table) && Final(run[|run| - 1], table)
    ensures Tokens(run[|run| - 1]) == Bare(ReplaceAll(ts, table, {}))
  {
    ChainKeeps(run, table);
    FinalValue(run[|run| - 1], table);
    ValuePaint(ts, {}, table);
  }

  lemma {:induction false} ChainJoin(a: seq<seq<Painted>>, b: seq<seq<Painted>>, table: Table)
    requires Chain(a, table) && Chain(b, table) && a != [] && b != [] && a[|a| - 1] == b[0]
    ensures Chain(a + b[1..], table)
    decreases |a|
  {
    if |a| == 1 {
      assert a + b[1..] == b;
    } else {
      ChainJoin(a[1..], b, table);
      assert (a + b[1..])[1..] == a[1..] + b[1..];
    }
  }

  /** Replacing can always be carried to an end, in any surroundings. */
  lemma {:induction false} Normalizes(a: seq<Painted>, ts: seq<Token>, hidden: set<string>, b: seq<Painted>,
                                      table: Table)
    returns (run: seq<seq<Painted>>, done: seq<Painted>)
    ensures run != [] && run[0] == a + Paint(ts, hidden) + b && run[|run| - 1] == a + done + b
    ensures Chain(run, table) && Final(done, table)
    decreases table.Keys - hidden, |ts|
  {
    if ts == [] {
      run, done := [a + b], [];
      assert a + Paint(ts, hidden) + b == a + b && a + done + b == a + b;
    } else {
      var p, later := Painted(ts[0], hidden), Paint(ts[1..], hidden);
      assert Paint(ts, hidden) == [p] + later;
      if Replaceable(p, table) {
        run, done := NormalizesName(a, ts, hidden, b, table);
      } else {
        var r, d := Normalizes(a + [p], ts[1..], hidden, b, table);
        run, done := r, [p] + d;
        assert a + [p] + later + b == a + Paint(ts, hidden) + b;
        assert a + [p] + d + b == a + done + b;
      }
    }
  }

  lemma {:induction false} NormalizesName(a: seq<Painted>, ts: seq<Token>, hidden: set<string>, b: seq<Painted>,
                                          table: Table)
    returns (run: seq<seq<Painted>>, done: seq<Painted>)
    requires ts != [] && Replaceable(Painted(ts[0], hidden), table)
    ensures run != [] && run[0] == a + Paint(ts, hidden) + b && run[|run| - 1] == a + done + b
    ensures Chain(run, table) && Final(done, table)
    decreases table.Keys - hidden, |ts|, 0
  {
    var x, later := ts[0].name, Paint(ts[1..], hidden);
    assert x in table.Keys - hidden;
    var start := a + Paint(ts, hidden) + b;
    NameStep(a, ts, hidden, b, table);
    var r1, d1 := Normalizes(a, table[x], hidden + {x}, later + b, table);
    var r2, d2 := Normalizes(a + d1, ts[1..], hidden, b, table);
    hide Paint, Step, Chain, Final;
    Around(a, d1, later, b);
    Around(a, d1, d2, b);
    run := RunOn(start, r1, r2, table);
    done := d1 + d2;
    BothFinal(d1, d2, table);
  }

  lemma BothFinal(a: seq<Painted>, b: seq<Painted>, table: Table)
    requires Final(a, table) && Final(b, table)
    ensures Final(a + b, table)
  {
  }

  lemma Around(a: seq<Painted>, b: seq<Painted>, c: seq<Painted>, d: seq<Painted>)
    ensures a + b + (c + d) == a + b + c + d && a + b + c + d == a + (b + c) + d
  {
  }

  lemma NameStep(a: seq<Painted>, ts: seq<Token>, hidden: set<string>, b: seq<Painted>, table: Table)
    requires ts != [] && Replaceable(Painted(ts[0], hidden), table)
    ensures var x := ts[0].name;
      Rewrites(a + Paint(ts, hidden) + b, a + Paint(table[x], hidden + {x}) + (Paint(ts[1..], hidden) + b), table)
  {
    var p, rest := Painted(ts[0], hidden), Paint(ts[1..], hidden) + b;
    var start := a + Paint(ts, hidden) + b;
    assert start == a + [p] + rest;
    assert start[..|a|] == a && start[|a|] == p && start[|a| + 1..] == rest;
    assert Step(start, a + Paint(table[p.t.name], hidden + {p.t.name}) + rest, table, |a|);
  }

  /** A first replacement, then one run after another. */
  lemma RunOn(start: seq<Painted>, r1: seq<seq<Painted>>, r2: seq<seq<Painted>>, table: Table)
    returns (run: seq<seq<Painted>>)
    requires r1 != [] && r2 != [] && Rewrites(start, r1[0], table) && Chain(r1, table) && Chain(r2, table)
    requires r1[|r1| - 1] == r2[0]
    ensures run != [] && run[0] == start && run[|run| - 1] == r2[|r2| - 1] && Chain(run, table)
  {
    ChainJoin(r1, r2, table);
    var tail := r1 + r2[1..];
    run := [start] + tail;
    assert run[1..] == tail;
  }

  /** And it ends in the expansion, also if macros name each other or themselves. */
  lemma ReplacingEnds(ts: seq<Token>, table: Table) returns (run: seq<seq<Painted>>)
    requires PlainTable(table) && Plain(ts)
    ensures run != [] && run[0] == Paint(ts, {}) && Chain(run, table) && Final(run[|run| - 1], table)
    ensures Tokens(run[|run| - 1]) == Bare(ReplaceAll(ts, table, {}))
  {
    var done;
    run, done := Normalizes([], ts, {}, [], table);
    assert [] + Paint(ts, {}) + [] == Paint(ts, {}) && [] + done + [] == done;
    AnyOrder(ts, run, table);
  }
}
