/** Gotos and labels: jumps to labels that are already known are written at once, the others are
    remembered per label and patched when the label comes. */
module GotoPatch {
  import opened Syntax

  type Byte = x: int | 0 <= x < 256

  datatype Item = Plain(bytes: seq<Byte>) | Goto(target: string) | LabelHere(name: string)

  // ----- 32-bit displacements -----

  function Low(u: int): (r: int)
    ensures 0 <= r < 256
  {
    u % 256
  }

  /** Four bytes, least significant first, of the low 32 bits. */
  function Little(v: int): (r: seq<Byte>)
    ensures |r| == 4
  {
    var u: int := v % 0x1_0000_0000;
    [Low(u), Low(u / 256), Low(u / 65536), Low(u / 16777216)]
  }

  function Displacement(b: seq<Byte>): int
    requires |b| == 4
  {
    var b0: int, b1: int, b2: int, b3: int := b[0], b[1], b[2], b[3];
    var u := b0 + 256 * b1 + 65536 * b2 + 16777216 * b3;
    if u < 0x8000_0000 then u else u - 0x1_0000_0000
  }

  lemma LittleRoundTrip(v: int)
    requires -0x8000_0000 <= v < 0x8000_0000
    ensures Displacement(Little(v)) == v
  {
    var u := v % 0x1_0000_0000;
    assert u == if v < 0 then v + 0x1_0000_0000 else v;
    var a, b, c := u / 256, u / 65536, u / 16777216;
    assert a / 256 == b && b / 256 == c;
  }

  const JMP: Byte := 0xE9

  function Jump(v: int): (r: seq<Byte>)
    ensures |r| == 5
  {
    [JMP] + Little(v)
  }

  // ----- what is to be emitted -----

  function Length(i: Item): nat {
    match i
    case Plain(b) => |b|
    case Goto(_) => 5
    case LabelHere(_) => 0
  }

  function Size(items: seq<Item>): nat {
    if items == [] then 0 else Size(items[..|items| - 1]) + Length(items[|items| - 1])
  }

  function FirstDefinition(items: seq<Item>, x: string): Option<nat> {
    if items == [] then None
    else
      var n := |items| - 1;
      var before := FirstDefinition(items[..n], x);
      if before.Some? then before else if items[n] == LabelHere(x) then Some(Size(items[..n])) else None
  }

  function LastDefinition(items: seq<Item>, x: string): Option<nat> {
    if items == [] then None
    else
      var n := |items| - 1;
      if items[n] == LabelHere(x) then Some(Size(items[..n])) else LastDefinition(items[..n], x)
  }

  /** A goto jumps to the latest definition before it, or else to the first one behind it. */
  function Target(items: seq<Item>, k: nat, x: string): Option<nat>
    requires k <= |items|
  {
    var before := LastDefinition(items[..k], x);
    if before.Some? then before else FirstDefinition(items, x)
  }

  function End(items: seq<Item>, k: nat): nat
    requires k < |items|
  {
    Size(items[..k + 1])
  }

  /** The displacement of a jump counts from its end; without a label it stays zero. */
  function Relative(items: seq<Item>, k: nat, x: string): int
    requires k < |items|
  {
    var t := Target(items, k, x);
    if t.Some? then t.value - End(items, k) else 0
  }

  function Bytes(items: seq<Item>, k: nat): (r: seq<Byte>)
    requires k < |items|
    ensures |r| == Length(items[k])
  {
    match items[k]
    case Plain(b) => b
    case Goto(x) => Jump(Relative(items, k, x))
    case LabelHere(_) => []
  }

  function Chunks(items: seq<Item>): (r: seq<seq<Byte>>)
    ensures |r| == |items|
  {
    seq(|items|, k requires 0 <= k < |items| => Bytes(items, k))
  }

  function Flat(chunks: seq<seq<Byte>>): seq<Byte> {
    if chunks == [] then [] else Flat(chunks[..|chunks| - 1]) + chunks[|chunks| - 1]
  }

  /** The whole code. */
  function Linked(items: seq<Item>): seq<Byte> {
    Flat(Chunks(items))
  }

  /** The ends of the gotos to x. */
  function Waiting(items: seq<Item>, x: string): seq<nat> {
    if items == [] then []
    else
      var n := |items| - 1;
      Waiting(items[..n], x) + if items[n] == Goto(x) then [Size(items)] else []
  }

  // ----- emission -----

  /** Fills in the four bytes in front of a position. */
  function PutDisplacement(code: seq<Byte>, pos: nat, v: int): (r: seq<Byte>)
    requires 4 <= pos <= |code|
    ensures |r| == |code|
  {
    code[..pos - 4] + Little(v) + code[pos..]
  }

  datatype Info = Info(position: Option<nat>, stack: seq<nat>)

  type Table = map<string, Info>

  /** What is known of a label after the items: where it is, or who waits for it. */
  predicate Knows(labels: Table, items: seq<Item>, x: string) {
    var at := LastDefinition(items, x);
    if at.Some? then x in labels && labels[x] == Info(at, [])
    else if x in labels then labels[x] == Info(None, Waiting(items, x))
    else Waiting(items, x) == []
  }

  ghost predicate KnowsAll(labels: Table, items: seq<Item>) {
    forall x :: Knows(labels, items, x)
  }

  class Writer {
    var code: seq<Byte>
    var labels: Table

    constructor ()
      ensures Emitted([])
    {
      code, labels := [], map[];
    }

    ghost predicate Emitted(items: seq<Item>)
      reads this
    {
      code == Linked(items) && KnowsAll(labels, items)
    }

    method Emit(bytes: seq<Byte>, ghost items: seq<Item>)
      requires Emitted(items)
      modifies this
      ensures Emitted(items + [Plain(bytes)])
    {
      LinkedPlain(items, Plain(bytes));
      KnowsStill(labels, items, Plain(bytes));
      code := code + bytes;
    }

    /** A jump with a zero displacement at first. */
    method EmitGoto(x: string, ghost items: seq<Item>)
      requires Emitted(items)
      modifies this
      ensures Emitted(items + [Goto(x)])
    {
      ghost var more := items + [Goto(x)];
      assert Knows(labels, items, x);
      LinkedGoto(items, x);
      code := code + Jump(0);
      if x !in labels {
        labels := labels[x := Info(None, [])];
      }
      var pos := |code|;
      var info := labels[x];
      if info.position.None? {
        labels := labels[x := info.(stack := info.stack + [pos])];
      } else {
        code := PutDisplacement(code, pos, info.position.value - pos);
      }
      KnowsGoto(old(labels), labels, items, x, pos);
    }

    /** The label is here: everyone who waits for it is told, the latest first. */
    method EmitLabel(x: string, ghost items: seq<Item>)
      requires Emitted(items)
      modifies this
      ensures Emitted(items + [LabelHere(x)])
    {
      ghost var more := items + [LabelHere(x)];
      assert Knows(labels, items, x);
      LinkedSize(items);
      NothingPatched(items, x);
      hide Linked, LastDefinition, Waiting, PatchedFrom, Flat, Size, KnowsAll;
      ghost var code0 := code;
      if x !in labels {
        PatchedNone(items, x);
        labels := labels[x := Info(Some(|code|), [])];
      } else {
        var here := |code|;
        code := Patched(code, labels[x].stack, here, items, x);
        labels := labels[x := Info(Some(here), [])];
        LabelLinked(items, x, code0, code);
      }
      KnowsLabel(old(labels), labels, items, x);
    }

    method EmitAll(items: seq<Item>)
      requires Emitted([])
      modifies this
      ensures code == Linked(items)
      ensures forall x | LastDefinition(items, x).Some? :: x in labels && labels[x].stack == []
    {
      for i := 0 to |items|
        invariant Emitted(items[..i])
      {
        assert items[..i + 1] == items[..i] + [items[i]];
        match items[i] {
          case Plain(b) => Emit(b, items[..i]);
          case Goto(x) => EmitGoto(x, items[..i]);
          case LabelHere(x) => EmitLabel(x, items[..i]);
        }
      }
      assert items[..|items|] == items;
      forall x | LastDefinition(items, x).Some?
        ensures x in labels && labels[x].stack == []
      {
        assert Knows(labels, items, x);
      }
    }
  }

  /** Patches the jumps on the stack, the latest first. */
  method Patched(code: seq<Byte>, stack: seq<nat>, here: nat, ghost items: seq<Item>, ghost x: string)
    returns (r: seq<Byte>)
    requires here == |code| == Size(items)
    requires stack != [] ==> LastDefinition(items, x).None?
    requires LastDefinition(items, x).None? ==>
      stack == Waiting(items, x) && code == Flat(PatchedFrom(items, x, |Waiting(items, x)|))
    ensures |r| == |code|
    ensures LastDefinition(items, x).None? ==> r == Flat(PatchedFrom(items, x, 0))
    ensures LastDefinition(items, x).Some? ==> r == code
  {
    hide PatchedFrom, Flat, Waiting, LastDefinition, Size, PutDisplacement;
    r := code;
    var n: nat := |stack|;
    while n > 0
      invariant n <= |stack| && |r| == here
      invariant LastDefinition(items, x).None? ==> r == Flat(PatchedFrom(items, x, n))
      invariant LastDefinition(items, x).Some? ==> r == code
    {
      n := n - 1;
      var pos := stack[n];
      PatchOne(items, x, n);
      r := PutDisplacement(r, pos, here - pos);
    }
  }

  lemma LabelLinked(items: seq<Item>, x: string, code: seq<Byte>, r: seq<Byte>)
    requires code == Linked(items)
    requires LastDefinition(items, x).None? ==> r == Flat(PatchedFrom(items, x, 0))
    requires LastDefinition(items, x).Some? ==> r == code
    ensures r == Linked(items + [LabelHere(x)])
  {
    if LastDefinition(items, x).Some? {
      PatchedNone(items, x);
    } else {
      AllPatched(items, x);
    }
  }

  // ----- items appended -----

  lemma {:induction false} FirstOrLast(items: seq<Item>, x: string)
    ensures FirstDefinition(items, x).Some? <==> LastDefinition(items, x).Some?
    decreases |items|
  {
    if items != [] {
      FirstOrLast(items[..|items| - 1], x);
    }
  }

  /** A further item changes no jump before it unless it is the first definition of its target. */
  lemma SameTarget(items: seq<Item>, i: Item, k: nat, x: string)
    requires k <= |items| && (i != LabelHere(x) || LastDefinition(items, x).Some?)
    ensures Target(items + [i], k, x) == Target(items, k, x)
  {
    var more := items + [i];
    assert more[..k] == items[..k] && more[..|more| - 1] == items;
    FirstOrLast(items, x);
  }

  lemma SameEnd(items: seq<Item>, i: Item, k: nat)
    requires k < |items|
    ensures End(items + [i], k) == End(items, k)
  {
    assert (items + [i])[..k + 1] == items[..k + 1];
  }

  lemma SameRelative(items: seq<Item>, i: Item, k: nat, x: string)
    requires k < |items| && (i != LabelHere(x) || LastDefinition(items, x).Some?)
    ensures Relative(items + [i], k, x) == Relative(items, k, x)
  {
    hide Target, End;
    SameTarget(items, i, k, x);
    SameEnd(items, i, k);
  }

  lemma SameBytes(items: seq<Item>, i: Item, k: nat)
    requires k < |items|
    requires i.LabelHere? && items[k] == Goto(i.name) ==> LastDefinition(items, i.name).Some?
    ensures Bytes(items + [i], k) == Bytes(items, k)
  {
    hide Relative, Jump, LastDefinition, Size;
    if items[k].Goto? {
      SameRelative(items, i, k, items[k].target);
    }
  }

  lemma FlatAppend(chunks: seq<seq<Byte>>, c: seq<Byte>)
    ensures Flat(chunks + [c]) == Flat(chunks) + c
  {
    assert (chunks + [c])[..|chunks|] == chunks;
  }

  lemma LinkedMore(items: seq<Item>, i: Item)
    requires forall k | 0 <= k < |items| :: Bytes(items + [i], k) == Bytes(items, k)
    ensures Linked(items + [i]) == Linked(items) + Bytes(items + [i], |items|)
  {
    assert Chunks(items + [i]) == Chunks(items) + [Bytes(items + [i], |items|)];
    FlatAppend(Chunks(items), Bytes(items + [i], |items|));
  }

  lemma LinkedPlain(items: seq<Item>, i: Item)
    requires i.Plain?
    ensures Linked(items + [i]) == Linked(items) + i.bytes
  {
    hide Little, Jump;
    forall k | 0 <= k < |items|
      ensures Bytes(items + [i], k) == Bytes(items, k)
    {
      SameBytes(items, i, k);
    }
    LinkedMore(items, i);
  }

  lemma LinkedSize(items: seq<Item>)
    ensures |Linked(items)| == Size(items)
  {
    FlatSize(items, Chunks(items), |items|);
    assert items[..|items|] == items && Chunks(items)[..|items|] == Chunks(items);
  }

  lemma {:induction false} FlatSize(items: seq<Item>, chunks: seq<seq<Byte>>, n: nat)
    requires n <= |items| == |chunks| && forall k | 0 <= k < |items| :: |chunks[k]| == Length(items[k])
    ensures |Flat(chunks[..n])| == Size(items[..n])
    decreases n
  {
    if n > 0 {
      FlatSize(items, chunks, n - 1);
      assert chunks[..n][..n - 1] == chunks[..n - 1];
      assert items[..n][..n - 1] == items[..n - 1];
    }
  }

  lemma LinkedGoto(items: seq<Item>, x: string)
    ensures var more, at := items + [Goto(x)], LastDefinition(items, x);
      && Size(more) == |Linked(items)| + 5
      && Linked(more) == Linked(items) + Jump(if at.Some? then at.value - Size(more) else 0)
      && LastDefinition(more, x) == at
  {
    hide Little, Jump;
    var more := items + [Goto(x)];
    LinkedSize(items);
    forall k | 0 <= k < |items|
      ensures Bytes(more, k) == Bytes(items, k)
    {
      SameBytes(items, Goto(x), k);
    }
    LinkedMore(items, Goto(x));
    assert more[..|items|] == items && more[..|items| + 1] == more && more[..|more| - 1] == items;
    FirstOrLast(more, x);
  }

  lemma KnowsStill(labels: Table, items: seq<Item>, i: Item)
    requires KnowsAll(labels, items) && i.Plain?
    ensures KnowsAll(labels, items + [i])
  {
    forall x
      ensures Knows(labels, items + [i], x)
    {
      assert Knows(labels, items, x);
      assert (items + [i])[..|items|] == items;
    }
  }

  lemma KnowsGoto(before: Table, after: Table, items: seq<Item>, x: string, pos: nat)
    requires KnowsAll(before, items) && pos == Size(items + [Goto(x)])
    requires forall y | y != x :: (y in before <==> y in after) && (y in before ==> after[y] == before[y])
    requires var info := if x in before then before[x] else Info(None, []);
      x in after && after[x] == if info.position.None? then info.(stack := info.stack + [pos]) else info
    ensures KnowsAll(after, items + [Goto(x)])
  {
    forall y
      ensures Knows(after, items + [Goto(x)], y)
    {
      assert Knows(before, items, y);
      assert (items + [Goto(x)])[..|items|] == items;
    }
  }

  lemma KnowsLabel(before: Table, after: Table, items: seq<Item>, x: string)
    requires KnowsAll(before, items)
    requires forall y | y != x :: (y in before <==> y in after) && (y in before ==> after[y] == before[y])
    requires x in after && after[x] == Info(Some(Size(items)), [])
    ensures KnowsAll(after, items + [LabelHere(x)])
  {
    forall y
      ensures Knows(after, items + [LabelHere(x)], y)
    {
      assert Knows(before, items, y);
      assert (items + [LabelHere(x)])[..|items|] == items;
    }
  }

  // ----- patching -----

  /** The chunk of a goto to x once it is patched to the end of the items. */
  function PatchedChunk(items: seq<Item>, k: nat): seq<Byte>
    requires k < |items|
  {
    Jump(Size(items) - End(items, k))
  }

  /** How many gotos to x stand before the item at k. */
  function Rank(items: seq<Item>, k: nat, x: string): nat
    requires k <= |items|
  {
    |Waiting(items[..k], x)|
  }

  /** The chunks when all gotos to x but the first n are patched. */
  function PatchedFrom(items: seq<Item>, x: string, n: nat): (r: seq<seq<Byte>>)
    ensures |r| == |items|
  {
    seq(|items|, k requires 0 <= k < |items| =>
      if items[k] == Goto(x) && Rank(items, k, x) >= n then PatchedChunk(items, k) else Bytes(items, k))
  }

  /** A goto to x is listed where its rank says. */
  lemma {:induction false} RankBelow(items: seq<Item>, k: nat, x: string)
    requires k < |items| && items[k] == Goto(x)
    ensures Rank(items, k, x) < |Waiting(items, x)| && Waiting(items, x)[Rank(items, k, x)] == End(items, k)
    decreases |items|
  {
    var n := |items| - 1;
    if k < n {
      RankBelow(items[..n], k, x);
      assert items[..n][..k] == items[..k] && items[..n][..k + 1] == items[..k + 1];
    } else {
      assert items[..k + 1] == items;
    }
  }

  /** And every listed position belongs to one. */
  lemma {:induction false} WhichGoto(items: seq<Item>, x: string, n: nat) returns (k: nat)
    requires n < |Waiting(items, x)|
    ensures k < |items| && items[k] == Goto(x) && Rank(items, k, x) == n && End(items, k) == Waiting(items, x)[n]
    decreases |items|
  {
    var last := |items| - 1;
    if n < |Waiting(items[..last], x)| {
      k := WhichGoto(items[..last], x, n);
      assert items[..last][..k] == items[..k] && items[..last][..k + 1] == items[..k + 1];
    } else {
      k := last;
      assert items[..k + 1] == items;
    }
  }

  lemma RanksDiffer(items: seq<Item>, j: nat, k: nat, x: string)
    requires j < k < |items| && items[j] == Goto(x)
    ensures Rank(items, j, x) < Rank(items, k, x)
  {
    RankBelow(items[..k], j, x);
    assert items[..k][..j] == items[..j];
  }

  lemma {:induction false} NoneBefore(items: seq<Item>, k: nat, x: string)
    requires k <= |items| && LastDefinition(items, x).None?
    ensures LastDefinition(items[..k], x).None?
    decreases |items|
  {
    if k < |items| {
      var n := |items| - 1;
      NoneBefore(items[..n], k, x);
      assert items[..n][..k] == items[..k];
    } else {
      assert items[..k] == items;
    }
  }

  lemma LinkedLabel(items: seq<Item>, x: string)
    requires forall k | 0 <= k < |items| :: Bytes(items + [LabelHere(x)], k) == Bytes(items, k)
    ensures Linked(items + [LabelHere(x)]) == Linked(items)
  {
    LinkedMore(items, LabelHere(x));
    assert Linked(items) + [] == Linked(items);
  }

  /** A label that is known already, or that nobody waits for, changes no code. */
  lemma PatchedNone(items: seq<Item>, x: string)
    requires LastDefinition(items, x).Some? || Waiting(items, x) == []
    ensures Linked(items + [LabelHere(x)]) == Linked(items)
  {
    hide Little, Jump;
    forall k | 0 <= k < |items|
      ensures Bytes(items + [LabelHere(x)], k) == Bytes(items, k)
    {
      if items[k] == Goto(x) {
        RankBelow(items, k, x);
      }
      SameBytes(items, LabelHere(x), k);
    }
    LinkedLabel(items, x);
  }

  lemma NothingPatched(items: seq<Item>, x: string)
    ensures Flat(PatchedFrom(items, x, |Waiting(items, x)|)) == Linked(items)
  {
    hide Little, Jump;
    var chunks := PatchedFrom(items, x, |Waiting(items, x)|);
    forall k | 0 <= k < |items|
      ensures chunks[k] == Bytes(items, k)
    {
      if items[k] == Goto(x) {
        RankBelow(items, k, x);
      }
    }
    assert chunks == Chunks(items);
  }

  /** Patching the end of one chunk, a jump, replaces that chunk. */
  lemma {:induction false} PatchChunk(chunks: seq<seq<Byte>>, k: nat, v: int, w: int)
    requires k < |chunks| && chunks[k] == Jump(w)
    ensures 5 <= |Flat(chunks[..k + 1])| <= |Flat(chunks)|
    ensures PutDisplacement(Flat(chunks), |Flat(chunks[..k + 1])|, v) == Flat(chunks[k := Jump(v)])
    decreases |chunks|
  {
    hide Little, Jump;
    var n := |chunks| - 1;
    var before, last := chunks[..n], chunks[n];
    if k < n {
      PatchChunk(before, k, v, w);
      assert before[..k + 1] == chunks[..k + 1];
      assert chunks[k := Jump(v)][..n] == before[k := Jump(v)];
      PutBefore(Flat(before), last, |Flat(chunks[..k + 1])|, v);
    } else {
      assert chunks[..k + 1] == chunks && chunks[k := Jump(v)][..n] == before;
      PutLast(Flat(before), v, w);
    }
  }

  lemma PutBefore(a: seq<Byte>, b: seq<Byte>, pos: nat, v: int)
    requires 4 <= pos <= |a|
    ensures PutDisplacement(a + b, pos, v) == PutDisplacement(a, pos, v) + b
  {
    assert (a + b)[..pos - 4] == a[..pos - 4] && (a + b)[pos..] == a[pos..] + b;
  }

  lemma PutLast(a: seq<Byte>, v: int, w: int)
    ensures PutDisplacement(a + Jump(w), |a| + 5, v) == a + Jump(v)
  {
    var code := a + Jump(w);
    assert code[..|a| + 1] == a + [JMP] && code[|a| + 5..] == [];
  }

  lemma StillZero(items: seq<Item>, k: nat, x: string)
    requires k < |items| && items[k] == Goto(x) && LastDefinition(items, x).None?
    ensures Bytes(items, k) == Jump(0)
  {
    NoneBefore(items, k, x);
    FirstOrLast(items, x);
    hide LastDefinition, FirstDefinition, Jump, End;
  }

  /** The chunk that a goto has once its label follows at the end. */
  lemma JustDefined(items: seq<Item>, k: nat, x: string)
    requires k < |items| && items[k] == Goto(x) && LastDefinition(items, x).None?
    ensures Bytes(items + [LabelHere(x)], k) == PatchedChunk(items, k)
  {
    var more := items + [LabelHere(x)];
    FirstOrLast(items, x);
    NoneBefore(items, k, x);
    assert more[..|items|] == items && more[..k] == items[..k];
    assert FirstDefinition(more, x) == Some(Size(items));
    hide FirstDefinition, Jump;
    SameEnd(items, LabelHere(x), k);
  }

  /** The last goto that still waits is patched. */
  lemma PatchOne(items: seq<Item>, x: string, n: nat)
    requires LastDefinition(items, x).None? && n < |Waiting(items, x)|
    ensures var code, pos := Flat(PatchedFrom(items, x, n + 1)), Waiting(items, x)[n];
      && 4 <= pos <= |code|
      && PutDisplacement(code, pos, Size(items) - pos) == Flat(PatchedFrom(items, x, n))
  {
    hide *;
    var k := WhichGoto(items, x, n);
    var chunks, v := PatchedFrom(items, x, n + 1), Size(items) - End(items, k);
    PatchedStep(items, x, n, k, v);
    PatchChunk(chunks, k, v, 0);
    ChunksSize(items, x, n + 1, k);
  }

  lemma ChunksSize(items: seq<Item>, x: string, n: nat, k: nat)
    requires k < |items|
    ensures |Flat(PatchedFrom(items, x, n)[..k + 1])| == End(items, k)
  {
    FlatSize(items, PatchedFrom(items, x, n), k + 1);
    hide Flat, Size, Bytes;
  }

  /** The n-th goto to x is at k: it is the one that is patched next. */
  lemma PatchedStep(items: seq<Item>, x: string, n: nat, k: nat, v: int)
    requires LastDefinition(items, x).None? && k < |items| && items[k] == Goto(x)
    requires Rank(items, k, x) == n && v == Size(items) - End(items, k)
    ensures var chunks := PatchedFrom(items, x, n + 1);
      chunks[k] == Jump(0) && PatchedFrom(items, x, n) == chunks[k := Jump(v)]
  {
    hide Little, Jump, Waiting, LastDefinition, FirstDefinition;
    var chunks := PatchedFrom(items, x, n + 1);
    StillZero(items, k, x);
    assert chunks[k] == Jump(0);
    hide Bytes, Size, End;
    forall j | 0 <= j < |items|
      ensures PatchedFrom(items, x, n)[j] == chunks[k := Jump(v)][j]
    {
      if items[j] == Goto(x) && j != k {
        if j < k {
          RanksDiffer(items, j, k, x);
        } else {
          RanksDiffer(items, k, j, x);
        }
      }
    }
  }

  lemma AllPatched(items: seq<Item>, x: string)
    requires LastDefinition(items, x).None?
    ensures Flat(PatchedFrom(items, x, 0)) == Linked(items + [LabelHere(x)])
  {
    hide Bytes, PatchedChunk, LastDefinition;
    var more, chunks := items + [LabelHere(x)], PatchedFrom(items, x, 0);
    forall k | 0 <= k < |items|
      ensures Bytes(more, k) == chunks[k]
    {
      if items[k] == Goto(x) {
        JustDefined(items, k, x);
      } else {
        SameBytes(items, LabelHere(x), k);
      }
    }
    LastEmpty(items, x);
    assert Chunks(more) == chunks + [[]];
    FlatAppend(chunks, []);
  }

  lemma LastEmpty(items: seq<Item>, x: string)
    ensures Bytes(items + [LabelHere(x)], |items|) == []
  {
  }

  /** With one definition of each label, every goto jumps to it, whichever side it is on. */
  lemma {:induction false} JumpsLand(items: seq<Item>, k: nat, l: nat, x: string)
    requires k < |items| && items[k] == Goto(x) && l < |items| && items[l] == LabelHere(x)
    requires forall i | 0 <= i < |items| && items[i] == LabelHere(x) :: i == l
    ensures Bytes(items, k) == Jump(Size(items[..l]) - End(items, k))
  {
    hide Little, Jump;
    OnlyDefinition(items, |items|, l, x);
    OnlyDefinition(items, k, l, x);
    assert items[..|items|] == items;
  }

  /** In the emitted code: a byte 0xE9 and four more lie in front of the end of each jump, and these
      four, read as a signed number, lead from there to the label, in code of less than two
      gigabytes. */
  lemma JumpsDecoded(items: seq<Item>, k: nat, l: nat, x: string)
    requires k < |items| && items[k] == Goto(x) && l < |items| && items[l] == LabelHere(x)
    requires forall i | 0 <= i < |items| && items[i] == LabelHere(x) :: i == l
    requires Size(items) < 0x8000_0000
    ensures var code, end := Linked(items), End(items, k);
      && 5 <= end <= |code| && Size(items[..l]) <= |code| && code[end - 5] == 0xE9
      && end + Displacement(code[end - 4..end]) == Size(items[..l])
  {
    hide *;
    LinkedAt(items, k);
    LinkedSize(items);
    SizePrefix(items, l);
    JumpsLand(items, k, l, x);
    JumpDecoded(Linked(items), End(items, k), Size(items[..l]) - End(items, k));
  }

  /** Where the bytes of an item are in the code. */
  lemma LinkedAt(items: seq<Item>, k: nat)
    requires k < |items|
    ensures var n, end := |Bytes(items, k)|, End(items, k);
      n <= end <= |Linked(items)| && Linked(items)[end - n..end] == Bytes(items, k)
  {
    var chunks := Chunks(items);
    FlatSize(items, chunks, k + 1);
    ChunkAt(chunks, k);
    hide Size, Flat, Bytes;
  }

  lemma JumpDecoded(code: seq<Byte>, end: nat, v: int)
    requires 5 <= end <= |code| && code[end - 5..end] == Jump(v) && -0x8000_0000 <= v < 0x8000_0000
    ensures Displacement(code[end - 4..end]) == v && code[end - 5] == 0xE9
  {
    LittleRoundTrip(v);
    hide Little, Displacement;
    assert code[end - 5] == code[end - 5..end][0];
    assert code[end - 4..end] == code[end - 5..end][1..] == Little(v);
  }

  lemma {:induction false} SizePrefix(items: seq<Item>, n: nat)
    requires n <= |items|
    ensures Size(items[..n]) <= Size(items)
    decreases |items|
  {
    if n == |items| {
      assert items[..n] == items;
    } else {
      var last := |items| - 1;
      assert items[..last][..n] == items[..n];
      SizePrefix(items[..last], n);
    }
  }

  lemma {:induction false} ChunkAt(chunks: seq<seq<Byte>>, k: nat)
    requires k < |chunks|
    ensures var code, end := Flat(chunks), |Flat(chunks[..k + 1])|;
      |chunks[k]| <= end <= |code| && code[end - |chunks[k]|..end] == chunks[k]
    decreases |chunks|
  {
    var last := |chunks| - 1;
    if k == last {
      assert chunks[..k + 1] == chunks;
    } else {
      assert chunks[..last][..k + 1] == chunks[..k + 1];
      ChunkAt(chunks[..last], k);
    }
  }

  lemma {:induction false} OnlyDefinition(items: seq<Item>, n: nat, l: nat, x: string)
    requires n <= |items| && l < |items| && items[l] == LabelHere(x)
    requires forall i | 0 <= i < |items| && items[i] == LabelHere(x) :: i == l
    ensures LastDefinition(items[..n], x) == FirstDefinition(items[..n], x)
      == if l < n then Some(Size(items[..l])) else None
    decreases n
  {
    if n > 0 {
      OnlyDefinition(items, n - 1, l, x);
      assert items[..n][..n - 1] == items[..n - 1];
    }
  }
}
