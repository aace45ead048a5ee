/** Scalar calls: two separate pieces of code, the call sequence and the prologue, have to find
    every argument in the same place. */
module CallConv {
  import opened Basics
  import opened Syntax
  import FL = FrameLayout

  datatype Param = Param(name: Option<string>, isFloat: bool, size: nat)

  /** A width of a scalar. */
  predicate Width(n: nat) {
    n == 1 || n == 2 || n == 4 || n == 8
  }

  predicate Scalar(p: Param) {
    Width(p.size)
  }

  predicate AllScalar(ps: seq<Param>) {
    forall p | p in ps :: Scalar(p)
  }

  const INT_REGS: nat := 6
  const FLOAT_REGS: nat := 8

  datatype Class = Integer | Floating | Memory

  datatype Base = Rsp | Rbp

  datatype Spot = IntReg(i: nat) | FloatReg(i: nat) | Mem(base: Base, disp: int)

  /** The registers and stack words given out so far. */
  datatype Counts = Counts(ints: nat, floats: nat, stack: nat)

  // ----- the caller, as functions -----

  function ClassOf(p: Param, n: Counts): Class {
    if p.isFloat then (if n.floats >= FLOAT_REGS then Memory else Floating)
    else if n.ints >= INT_REGS then Memory
    else Integer
  }

  function Count(c: Class, n: Counts): Counts {
    match c
    case Integer => n.(ints := n.ints + 1)
    case Floating => n.(floats := n.floats + 1)
    case Memory => n.(stack := n.stack + 1)
  }

  function Classes(ps: seq<Param>, n: Counts): (cs: seq<Class>)
    ensures |cs| == |ps|
  {
    if ps == [] then [] else [ClassOf(ps[0], n)] + Classes(ps[1..], Count(ClassOf(ps[0], n), n))
  }

  function Tally(ps: seq<Param>, n: Counts): Counts {
    if ps == [] then n else Tally(ps[1..], Count(ClassOf(ps[0], n), n))
  }

  /** Where the call sequence moves an argument. Anything that is not for an xmm register goes to
      the next integer register as long as there is one. */
  function CallerClass(c: Class, n: Counts): Class {
    if c.Floating? && n.floats < FLOAT_REGS then Floating
    else if n.ints < INT_REGS then Integer
    else Memory
  }

  function SpotOf(c: Class, n: Counts, base: Base): Spot {
    match c
    case Integer => IntReg(n.ints)
    case Floating => FloatReg(n.floats)
    case Memory => Mem(base, 8 * n.stack)
  }

  function CallerSpots(cs: seq<Class>, n: Counts): (r: seq<Spot>)
    ensures |r| == |cs|
  {
    if cs == [] then []
    else
      var c := CallerClass(cs[0], n);
      [SpotOf(c, n, Rsp)] + CallerSpots(cs[1..], Count(c, n))
  }

  const NONE := Counts(0, 0, 0)

  function Sent(ps: seq<Param>): (r: seq<Spot>)
    ensures |r| == |ps|
  {
    CallerSpots(Classes(ps, NONE), NONE)
  }

  /** The outgoing area, padded so that rsp is a multiple of 16. */
  function StackUsed(words: nat, stackBytes: nat): nat {
    var bytes := 8 * words;
    if (bytes + stackBytes) % 16 != 0 then bytes + (16 - (bytes + stackBytes) % 16) else bytes
  }

  // ----- the prologue, as functions -----

  function CalleeClass(p: Param, n: Counts): Class {
    if p.isFloat && n.floats < FLOAT_REGS then Floating
    else if !p.isFloat && n.ints < INT_REGS then Integer
    else Memory
  }

  function CalleeSpots(ps: seq<Param>, n: Counts): (r: seq<Spot>)
    ensures |r| == |ps|
  {
    if ps == [] then []
    else
      var c := CalleeClass(ps[0], n);
      [SpotOf(c, n, Rbp)] + CalleeSpots(ps[1..], Count(c, n))
  }

  /** Six saved registers and the return address lie between rbp and the stack arguments. */
  const ENTRY := Counts(0, 0, 7)

  function Expected(ps: seq<Param>): (r: seq<Spot>)
    ensures |r| == |ps|
  {
    CalleeSpots(ps, ENTRY)
  }

  function Pad(offset: nat, p: Param): nat
    requires Scalar(p)
  {
    FL.AlignUp(offset, p.size)
  }

  /** Offsets of the homes that the prologue stores parameters to. */
  function Homes(ps: seq<Param>, offset: nat): (r: seq<nat>)
    requires AllScalar(ps)
    ensures |r| == |ps|
  {
    if ps == [] then []
    else
      assert ps[0] in ps;
      var home := Pad(offset, ps[0]) + if ps[0].name.Some? then ps[0].size else 0;
      [home] + Homes(ps[1..], home)
  }

  // ----- the emitted moves -----

  /** Argument number arg goes to dst. */
  datatype Send = Send(arg: nat, dst: Spot)

  /** The parameter in src goes to its home, size bytes at rbp - home. */
  datatype Receive = Receive(src: Spot, home: nat, size: nat)

  function Sends(ps: seq<Param>): seq<Send> {
    seq(|ps|, i requires 0 <= i < |ps| => Send(i, Sent(ps)[i]))
  }

  function Receives(ps: seq<Param>, spots: seq<Spot>, homes: seq<nat>): seq<Receive>
    requires |spots| == |homes| == |ps|
  {
    if ps == [] then []
    else
      (if ps[0].name.Some? then [Receive(spots[0], homes[0], ps[0].size)] else [])
      + Receives(ps[1..], spots[1..], homes[1..])
  }

  class Counter {
    var ints: nat
    var floats: nat
    var stack: nat

    constructor (stack: nat)
      ensures Value() == Counts(0, 0, stack)
    {
      this.ints, this.floats, this.stack := 0, 0, stack;
    }

    function Value(): Counts
      reads this
    {
      Counts(ints, floats, stack)
    }

    method Classify(p: Param) returns (c: Class)
      modifies this
      ensures c == ClassOf(p, old(Value())) && Value() == Count(c, old(Value()))
    {
      c := if p.isFloat then Floating else Integer;
      if (if c.Floating? then floats else ints) >= (if c.Floating? then 8 else 6) {
        c := Memory;
      }
      match c {
        case Integer => ints := ints + 1;
        case Floating => floats := floats + 1;
        case Memory => stack := stack + 1;
      }
    }
  }

  method ClassifyAll(ps: seq<Param>) returns (classes: seq<Class>, words: nat)
    ensures classes == Classes(ps, NONE) && words == Tally(ps, NONE).stack
  {
    var counter := new Counter(0);
    classes := [];
    for i := 0 to |ps|
      invariant classes + Classes(ps[i..], counter.Value()) == Classes(ps, NONE)
      invariant Tally(ps[i..], counter.Value()) == Tally(ps, NONE)
    {
      assert ps[i..][1..] == ps[i + 1..];
      var c := counter.Classify(ps[i]);
      classes := classes + [c];
    }
    words := counter.stack;
  }

  lemma SpotStep(cs: seq<Class>, n: Counts)
    requires cs != []
    ensures var c := CallerClass(cs[0], n);
      CallerSpots(cs, n) == [SpotOf(c, n, Rsp)] + CallerSpots(cs[1..], Count(c, n))
  {
  }

  method ChooseSpots(classes: seq<Class>) returns (spots: seq<Spot>)
    ensures spots == CallerSpots(classes, NONE)
  {
    hide CallerSpots;
    spots := [];
    var ints: nat, floats: nat, stack: nat := 0, 0, 0;
    assert spots + CallerSpots(classes[0..], NONE) == CallerSpots(classes, NONE);
    for i := 0 to |classes|
      invariant spots + CallerSpots(classes[i..], Counts(ints, floats, stack)) == CallerSpots(classes, NONE)
    {
      SpotStep(classes[i..], Counts(ints, floats, stack));
      assert classes[i..][1..] == classes[i + 1..];
      if classes[i] == Floating && floats < 8 {
        spots := spots + [FloatReg(floats)];
        floats := floats + 1;
      } else if ints < 6 {
        spots := spots + [IntReg(ints)];
        ints := ints + 1;
      } else {
        spots := spots + [Mem(Rsp, stack * 8)];
        stack := stack + 1;
      }
    }
  }

  /** The call sequence: classifies all arguments, sizes the outgoing area, moves them. */
  method EmitCall(ps: seq<Param>, stackBytes: nat) returns (sends: seq<Send>, used: nat)
    ensures sends == Sends(ps) && used == StackUsed(Tally(ps, NONE).stack, stackBytes)
  {
    var classes, words := ClassifyAll(ps);
    used := words * 8;
    if (used + stackBytes) % 16 != 0 {
      used := used + (16 - (used + stackBytes) % 16);
    }
    var spots := ChooseSpots(classes);
    sends := [];
    for i := 0 to |ps|
      invariant |sends| == i && forall k | 0 <= k < i :: sends[k] == Send(k, spots[k])
    {
      sends := sends + [Send(i, spots[i])];
    }
    assert spots == Sent(ps);
    assert sends == Sends(ps);
  }

  /** What the prologue still has to emit. */
  function Rest(ps: seq<Param>, n: Counts, offset: nat): seq<Receive>
    requires AllScalar(ps)
  {
    Receives(ps, CalleeSpots(ps, n), Homes(ps, offset))
  }

  lemma RestStep(ps: seq<Param>, n: Counts, offset: nat)
    requires AllScalar(ps) && ps != []
    ensures var p := ps[0];
      && Scalar(p)
      && var c, at := CalleeClass(p, n), Pad(offset, p);
         Rest(ps, n, offset) ==
           if p.name.Some? then
             [Receive(SpotOf(c, n, Rbp), at + p.size, p.size)] + Rest(ps[1..], Count(c, n), at + p.size)
           else Rest(ps[1..], Count(c, n), at)
  {
    assert ps[0] in ps;
    var c := CalleeClass(ps[0], n);
    assert CalleeSpots(ps, n)[1..] == CalleeSpots(ps[1..], Count(c, n));
    var home := Homes(ps, offset)[0];
    assert Homes(ps, offset)[1..] == Homes(ps[1..], home);
  }

  lemma PadUp(offset: nat, p: Param)
    requires Scalar(p)
    ensures Pad(offset, p) == if offset % p.size != 0 then offset + (p.size - offset % p.size) else offset
  {
  }

  /** The parameter loop of the prologue. */
  method EmitPrologue(ps: seq<Param>) returns (receives: seq<Receive>)
    requires AllScalar(ps)
    ensures receives == Receives(ps, Expected(ps), Homes(ps, 0))
  {
    receives := [];
    var ints: nat, floats: nat, stack: nat, offset: nat := 0, 0, 7, 0;
    assert ps[0..] == ps && Rest(ps, ENTRY, 0) == Receives(ps, Expected(ps), Homes(ps, 0));
    assert Rest([], ENTRY, 0) == [];
    hide Rest, Pad, Receives, Homes, CalleeSpots, AllScalar, FL.AlignUp;
    for i := 0 to |ps|
      invariant AllScalar(ps[i..])
      invariant receives + Rest(ps[i..], Counts(ints, floats, stack), offset) == Rest(ps, ENTRY, 0)
    {
      ghost var n := Counts(ints, floats, stack);
      ScalarNext(ps, i);
      RestStep(ps[i..], n, offset);
      assert ps[i..][1..] == ps[i + 1..];
      var p := ps[i];
      PadUp(offset, p);
      if offset % p.size != 0 {
        offset := offset + (p.size - offset % p.size);
      }
      hide Scalar;
      var src;
      if p.isFloat && floats < 8 {
        src := FloatReg(floats);
        floats := floats + 1;
      } else if !p.isFloat && ints < 6 {
        src := IntReg(ints);
        ints := ints + 1;
      } else {
        src := Mem(Rbp, stack * 8);
        stack := stack + 1;
      }
      ghost var c := CalleeClass(p, n);
      assert src == SpotOf(c, n, Rbp) && Counts(ints, floats, stack) == Count(c, n);
      hide SpotOf, Count, CalleeClass;
      if p.name.Some? {
        offset := offset + p.size;
        Assoc(receives, [Receive(src, offset, p.size)], Rest(ps[i + 1..], Counts(ints, floats, stack), offset));
        receives := receives + [Receive(src, offset, p.size)];
      }
    }
    NoRest(Counts(ints, floats, stack), offset);
  }

  lemma ScalarNext(ps: seq<Param>, i: nat)
    requires i < |ps| && AllScalar(ps[i..])
    ensures Scalar(ps[i]) && AllScalar(ps[i + 1..])
  {
    assert ps[i..][0] in ps[i..];
    forall p | p in ps[i + 1..]
      ensures Scalar(p)
    {
      assert p in ps[i..][1..];
    }
  }

  lemma NoRest(n: Counts, offset: nat)
    ensures Rest([], n, offset) == []
  {
  }

  // ----- when both sides name the same places -----

  function Address(s: Spot, rsp: int, rbp: int): int
    requires s.Mem?
  {
    (if s.base == Rsp then rsp else rbp) + s.disp
  }

  predicate Meets(a: Spot, b: Spot, rsp: int, rbp: int) {
    if a.Mem? && b.Mem? then Address(a, rsp, rbp) == Address(b, rsp, rbp) else a == b
  }

  predicate AllMeet(a: seq<Spot>, b: seq<Spot>, rsp: int, rbp: int)
    requires |a| == |b|
  {
    forall i | 0 <= i < |a| :: Meets(a[i], b[i], rsp, rbp)
  }

  function Floats(ps: seq<Param>): nat {
    if ps == [] then 0 else Floats(ps[..|ps| - 1]) + if ps[|ps| - 1].isFloat then 1 else 0
  }

  function Ints(ps: seq<Param>): nat {
    if ps == [] then 0 else Ints(ps[..|ps| - 1]) + if ps[|ps| - 1].isFloat then 0 else 1
  }

  /** Every float beyond the eighth comes after at least six integers. */
  predicate LateFloats(ps: seq<Param>) {
    forall i | 0 <= i < |ps| && ps[i].isFloat && Floats(ps[..i]) >= 8 :: Ints(ps[..i]) >= 6
  }

  /** The same for what follows after the parameters in pre. */
  predicate LateAfter(pre: seq<Param>, ps: seq<Param>)
    decreases |ps|
  {
    ps == [] || ((ps[0].isFloat && Floats(pre) >= 8 ==> Ints(pre) >= 6) && LateAfter(pre + [ps[0]], ps[1..]))
  }

  lemma {:induction false} LateSplit(pre: seq<Param>, ps: seq<Param>)
    ensures LateAfter(pre, ps) <==>
      forall i | |pre| <= i < |pre + ps| && (pre + ps)[i].isFloat && Floats((pre + ps)[..i]) >= 8 ::
        Ints((pre + ps)[..i]) >= 6
    decreases |ps|
  {
    if ps == [] {
    } else {
      var all := pre + ps;
      LateSplit(pre + [ps[0]], ps[1..]);
      assert pre + [ps[0]] + ps[1..] == all;
      assert all[..|pre|] == pre && all[|pre|] == ps[0];
    }
  }

  function Min(a: nat, b: nat): nat {
    if a < b then a else b
  }

  /** Classification, call sequence and prologue have counted the parameters in pre alike. */
  predicate InStep(pre: seq<Param>, cc: Counts, mc: Counts, kc: Counts) {
    && cc.ints == mc.ints == kc.ints == Min(Ints(pre), 6)
    && cc.floats == mc.floats == kc.floats == Min(Floats(pre), 8)
    && kc.stack == mc.stack + 7
  }

  lemma {:induction false} MeetExactly(pre: seq<Param>, ps: seq<Param>, cc: Counts, mc: Counts, kc: Counts, rsp: int,
                                       rbp: int)
    requires InStep(pre, cc, mc, kc) && rsp == rbp + 56
    ensures AllMeet(CallerSpots(Classes(ps, cc), mc), CalleeSpots(ps, kc), rsp, rbp) <==> LateAfter(pre, ps)
    decreases |ps|
  {
    if ps == [] {
    } else {
      var p, pre' := ps[0], pre + [ps[0]];
      var cls := ClassOf(p, cc);
      var c, k := CallerClass(cls, mc), CalleeClass(p, kc);
      assert pre'[..|pre' | - 1] == pre;
      var a, b := CallerSpots(Classes(ps, cc), mc), CalleeSpots(ps, kc);
      assert Classes(ps, cc)[1..] == Classes(ps[1..], Count(cls, cc));
      var a', b' := CallerSpots(Classes(ps[1..], Count(cls, cc)), Count(c, mc)), CalleeSpots(ps[1..], Count(k, kc));
      assert a == [SpotOf(c, mc, Rsp)] + a' && b == [SpotOf(k, kc, Rbp)] + b';
      assert Meets(a[0], b[0], rsp, rbp) <==> c == k;
      if c == k {
        MeetExactly(pre', ps[1..], Count(cls, cc), Count(c, mc), Count(k, kc), rsp, rbp);
        TailMeets(a[0], a', b[0], b', rsp, rbp);
      }
    }
  }

  lemma TailMeets(x: Spot, a: seq<Spot>, y: Spot, b: seq<Spot>, rsp: int, rbp: int)
    requires |a| == |b|
    ensures AllMeet([x] + a, [y] + b, rsp, rbp) <==> Meets(x, y, rsp, rbp) && AllMeet(a, b, rsp, rbp)
  {
    if AllMeet([x] + a, [y] + b, rsp, rbp) {
      assert ([x] + a)[0] == x && ([y] + b)[0] == y;
      forall i | 0 <= i < |a|
        ensures Meets(a[i], b[i], rsp, rbp)
      {
        assert ([x] + a)[i + 1] == a[i] && ([y] + b)[i + 1] == b[i];
      }
    }
  }

  /** The prologue finds every argument where the call sequence put it if and only if no float
      beyond the eighth comes while integer registers are still free. */
  lemma AgreeExactly(ps: seq<Param>, rsp: int, rbp: int)
    requires rsp == rbp + 56
    ensures AllMeet(Sent(ps), Expected(ps), rsp, rbp) <==> LateFloats(ps)
  {
    MeetExactly([], ps, NONE, NONE, ENTRY, rsp, rbp);
    LateSplit([], ps);
    assert [] + ps == ps;
  }

  lemma {:induction false} FewFloats(ps: seq<Param>)
    ensures Floats(ps) + Ints(ps) == |ps|
    ensures forall i | 0 <= i < |ps| && ps[i].isFloat :: Floats(ps[..i]) < Floats(ps)
    decreases |ps|
  {
    if ps == [] {
    } else {
      var n := |ps| - 1;
      FewFloats(ps[..n]);
      forall i | 0 <= i < |ps| && ps[i].isFloat
        ensures Floats(ps[..i]) < Floats(ps)
      {
        if i < n {
          assert ps[..n][..i] == ps[..i] && ps[..n][i] == ps[i];
        }
      }
    }
  }

  /** With at most eight floats they always agree. */
  lemma EightFloatsAgree(ps: seq<Param>, rsp: int, rbp: int)
    requires Floats(ps) <= 8 && rsp == rbp + 56
    ensures AllMeet(Sent(ps), Expected(ps), rsp, rbp)
  {
    FewFloats(ps);
    AgreeExactly(ps, rsp, rbp);
  }

  // ----- the registers by their numbers -----

  /** How many of the parameters found no float register waiting for them. */
  function NotInFloats(ps: seq<Param>): nat {
    Ints(ps) + if Floats(ps) > 8 then Floats(ps) - 8 else 0
  }

  /** The call sequence: the n-th float is in float register n while n is below eight; of all others
      the n-th is in integer register n while n is below six, and then on the stack in order. */
  function SentSpot(p: Param, before: seq<Param>): Spot {
    var n := NotInFloats(before);
    if p.isFloat && Floats(before) < 8 then FloatReg(Floats(before))
    else if n < 6 then IntReg(n)
    else Mem(Rsp, 8 * (n - 6))
  }

  /** The prologue: floats and integers are counted apart, and share the stack. */
  function ExpectedSpot(p: Param, before: seq<Param>): Spot {
    var floats, ints := Floats(before), Ints(before);
    if p.isFloat && floats < 8 then FloatReg(floats)
    else if !p.isFloat && ints < 6 then IntReg(ints)
    else Mem(Rbp, 56 + 8 * ((if floats > 8 then floats - 8 else 0) + if ints > 6 then ints - 6 else 0))
  }

  lemma {:induction false} SentFrom(pre: seq<Param>, ps: seq<Param>, cc: Counts, mc: Counts, i: nat)
    requires cc.floats == mc.floats == Min(Floats(pre), 8) && i < |ps|
    requires mc.ints == Min(NotInFloats(pre), 6) && mc.ints + mc.stack == NotInFloats(pre)
    ensures CallerSpots(Classes(ps, cc), mc)[i] == SentSpot(ps[i], pre + ps[..i])
    decreases |ps|
  {
    var p, more := ps[0], pre + [ps[0]];
    var cls := ClassOf(p, cc);
    var c := CallerClass(cls, mc);
    assert more[..|more| - 1] == pre;
    assert Classes(ps, cc)[1..] == Classes(ps[1..], Count(cls, cc));
    if i == 0 {
      assert pre + ps[..0] == pre;
    } else {
      assert more + ps[1..][..i - 1] == pre + ps[..i];
      SentFrom(more, ps[1..], Count(cls, cc), Count(c, mc), i - 1);
    }
  }

  lemma {:induction false} ExpectedFrom(pre: seq<Param>, ps: seq<Param>, n: Counts, i: nat)
    requires n.floats == Min(Floats(pre), 8) && n.ints == Min(Ints(pre), 6) && i < |ps|
    requires n.floats + n.ints + n.stack == Floats(pre) + Ints(pre) + 7
    ensures CalleeSpots(ps, n)[i] == ExpectedSpot(ps[i], pre + ps[..i])
    decreases |ps|
  {
    var p, more := ps[0], pre + [ps[0]];
    assert more[..|more| - 1] == pre;
    if i == 0 {
      assert pre + ps[..0] == pre;
    } else {
      assert more + ps[1..][..i - 1] == pre + ps[..i];
      ExpectedFrom(more, ps[1..], Count(CalleeClass(p, n), n), i - 1);
    }
  }

  /** Where an argument is sent, and where a parameter is expected, for every signature. */
  lemma SpotsExactly(ps: seq<Param>, i: nat)
    requires i < |ps|
    ensures Sent(ps)[i] == SentSpot(ps[i], ps[..i]) && Expected(ps)[i] == ExpectedSpot(ps[i], ps[..i])
  {
    assert [] + ps[..i] == ps[..i];
    SentFrom([], ps, NONE, NONE, i);
    ExpectedFrom([], ps, ENTRY, i);
  }

  lemma {:induction false} TallyFrom(pre: seq<Param>, ps: seq<Param>, n: Counts)
    requires n.floats == Min(Floats(pre), 8) && n.ints == Min(Ints(pre), 6)
    requires n.floats + n.ints + n.stack == Floats(pre) + Ints(pre)
    ensures var t, all := Tally(ps, n), pre + ps;
      && t.floats == Min(Floats(all), 8) && t.ints == Min(Ints(all), 6)
      && t.floats + t.ints + t.stack == Floats(all) + Ints(all)
    decreases |ps|
  {
    if ps == [] {
      assert pre + ps == pre;
    } else {
      var more := pre + [ps[0]];
      assert more[..|more| - 1] == pre && more + ps[1..] == pre + ps;
      TallyFrom(more, ps[1..], Count(ClassOf(ps[0], n), n));
    }
  }

  /** The outgoing area has a word for each integer beyond the sixth and each float beyond the eighth. */
  lemma TallyExactly(ps: seq<Param>)
    ensures Tally(ps, NONE).stack
      == (if Ints(ps) > 6 then Ints(ps) - 6 else 0) + if Floats(ps) > 8 then Floats(ps) - 8 else 0
  {
    TallyFrom([], ps, NONE);
    assert [] + ps == ps;
  }

  lemma {:induction false} FloatsMonotone(ps: seq<Param>, i: nat)
    requires i <= |ps|
    ensures Floats(ps[..i]) <= Floats(ps)
    decreases |ps|
  {
    if i == |ps| {
      assert ps[..i] == ps;
    } else {
      assert ps[..|ps| - 1][..i] == ps[..i];
      FloatsMonotone(ps[..|ps| - 1], i);
    }
  }

  /** With at most eight floats that is the rule of section 3.2.3 of the System V AMD64 psABI: rdi, the
      first integer register, for the first integer, and so on up to the sixth. */
  lemma SixIntegersEightFloats(ps: seq<Param>, i: nat)
    requires i < |ps| && Floats(ps) <= 8
    ensures var ints, floats := Ints(ps[..i]), Floats(ps[..i]);
      && Sent(ps)[i] == (if ps[i].isFloat then FloatReg(floats)
                         else if ints < 6 then IntReg(ints)
                         else Mem(Rsp, 8 * (ints - 6)))
      && Expected(ps)[i] == (if ps[i].isFloat then FloatReg(floats)
                             else if ints < 6 then IntReg(ints)
                             else Mem(Rbp, 56 + 8 * (ints - 6)))
  {
    SpotsExactly(ps, i);
    FewFloats(ps);
    FloatsMonotone(ps, i);
  }

  // ----- the outgoing area -----

  /** Whatever the signature, arguments moved to the stack stay inside the words counted for them. */
  lemma {:induction false} StackFits(ps: seq<Param>, cc: Counts, mc: Counts, i: nat)
    requires cc.floats == mc.floats <= 8 && cc.ints <= mc.ints <= 6
    requires cc.ints + cc.stack == mc.ints + mc.stack && i < |ps|
    ensures var s := CallerSpots(Classes(ps, cc), mc)[i];
      s.Mem? ==> s.base == Rsp && 8 * mc.stack <= s.disp && s.disp + 8 <= 8 * Tally(ps, cc).stack
    decreases |ps|
  {
    var cls := ClassOf(ps[0], cc);
    var c := CallerClass(cls, mc);
    var cc', mc' := Count(cls, cc), Count(c, mc);
    assert Classes(ps, cc)[1..] == Classes(ps[1..], cc');
    if i > 0 {
      StackFits(ps[1..], cc', mc', i - 1);
    } else if c.Memory? {
      TallyGrows(ps[1..], cc');
      TallyCovers(ps[1..], cc', mc');
    }
  }

  lemma {:induction false} TallyGrows(ps: seq<Param>, n: Counts)
    ensures Tally(ps, n).stack >= n.stack
    decreases |ps|
  {
    if ps == [] {
    } else {
      TallyGrows(ps[1..], Count(ClassOf(ps[0], n), n));
    }
  }

  lemma TallyCovers(ps: seq<Param>, cc: Counts, mc: Counts)
    requires cc.ints <= mc.ints && cc.ints + cc.stack == mc.ints + mc.stack
    ensures Tally(ps, cc).stack >= mc.stack
  {
    TallyGrows(ps, cc);
  }

  /** Entered with rsp at 8 beyond a multiple of 16, as after any aligned call, a function makes
      its own calls aligned, and hands its arguments to a callee 56 bytes above the callee's rbp. */
  lemma CallAligned(entry: int, storage: nat, words: nat, stackBytes: nat)
    requires entry % 16 == 8
    ensures var rbp := entry - 6 * 8;
      var rounded := if storage % 16 != 0 then storage + (16 - storage % 16) else storage;
      var rsp := rbp - (rounded + 72) - stackBytes - StackUsed(words, stackBytes);
      && rsp % 16 == 0 && (rsp - 8) % 16 == 8
      && rsp == ((rsp - 8) - 6 * 8) + 56
      && 8 * words <= StackUsed(words, stackBytes) < 8 * words + 16
  {
    var rounded := if storage % 16 != 0 then storage + (16 - storage % 16) else storage;
    var used := StackUsed(words, stackBytes) + stackBytes;
    assert rounded % 16 == 0 && used % 16 == 0;
    hide StackUsed;
    SixteensApart(entry, rounded, used);
  }

  lemma SixteensApart(entry: int, a: int, b: int)
    requires entry % 16 == 8 && a % 16 == 0 && b % 16 == 0
    ensures var rsp := entry - 48 - (a + 72) - b; rsp % 16 == 0 && (rsp - 8) % 16 == 8
  {
  }

  // ----- an argument's way -----

  /** Memory by the byte: which byte of which value. */
  datatype Byte = Byte(v: int, k: nat)

  datatype Cpu = Cpu(ints: map<nat, int>, floats: map<nat, int>, mem: int -> Byte)

  function PutMem(s: Cpu, addr: int, size: nat, v: int): Cpu {
    s.(mem := a => if addr <= a < addr + size then Byte(v, a - addr) else s.mem(a))
  }

  function Put(s: Cpu, at: Spot, rsp: int, rbp: int, size: nat, v: int): Cpu {
    match at
    case IntReg(i) => s.(ints := s.ints[i := v])
    case FloatReg(i) => s.(floats := s.floats[i := v])
    case Mem(_, _) => PutMem(s, Address(at, rsp, rbp), size, v)
  }

  predicate HasMem(s: Cpu, addr: int, size: nat, v: int) {
    forall a | addr <= a < addr + size :: s.mem(a) == Byte(v, a - addr)
  }

  predicate Has(s: Cpu, at: Spot, rsp: int, rbp: int, size: nat, v: int) {
    match at
    case IntReg(i) => i in s.ints && s.ints[i] == v
    case FloatReg(i) => i in s.floats && s.floats[i] == v
    case Mem(_, _) => HasMem(s, Address(at, rsp, rbp), size, v)
  }

  /** What a load of that size finds: the value whose bytes are all there, or nothing good. */
  function Load(s: Cpu, at: Spot, rbp: int, size: nat): Option<int> {
    match at
    case IntReg(i) => if i in s.ints then Some(s.ints[i]) else None
    case FloatReg(i) => if i in s.floats then Some(s.floats[i]) else None
    case Mem(_, _) =>
      var addr := Address(at, 0, rbp);
      var v := s.mem(addr).v;
      if HasMem(s, addr, size, v) then Some(v) else None
  }

  function RunSends(sends: seq<Send>, ps: seq<Param>, args: seq<int>, rsp: int, s: Cpu): Cpu
    requires |args| == |ps| && forall m | m in sends :: m.arg < |ps|
  {
    if sends == [] then s
    else
      assert sends[0] in sends;
      var m := sends[0];
      RunSends(sends[1..], ps, args, rsp, Put(s, m.dst, rsp, 0, ps[m.arg].size, args[m.arg]))
  }

  /** None as soon as the prologue loads anything but a whole value. */
  function RunReceives(rs: seq<Receive>, rbp: int, s: Cpu): Option<Cpu> {
    if rs == [] then Some(s)
    else
      var v := Load(s, rs[0].src, rbp, rs[0].size);
      if v.None? then None else RunReceives(rs[1..], rbp, PutMem(s, rbp - rs[0].home, rs[0].size, v.value))
  }

  // the caller's side

  /** The places from n on. */
  predicate From(s: Spot, n: Counts) {
    match s
    case IntReg(i) => i >= n.ints
    case FloatReg(i) => i >= n.floats
    case Mem(b, d) => b == Rsp && d >= 8 * n.stack
  }

  lemma {:induction false} SpotsFrom(cs: seq<Class>, n: Counts, m: Counts)
    requires m.ints <= n.ints && m.floats <= n.floats && m.stack <= n.stack
    ensures forall s | s in CallerSpots(cs, n) :: From(s, m)
    decreases |cs|
  {
    if cs == [] {
    } else {
      SpotsFrom(cs[1..], Count(CallerClass(cs[0], n), n), m);
    }
  }

  /** A later argument does not overwrite an earlier one. */
  predicate Separate(s: Spot, t: Spot) {
    if s.Mem? && t.Mem? then s.base == t.base && (s.disp + 8 <= t.disp || t.disp + 8 <= s.disp) else s != t
  }

  lemma PutSeparate(s: Cpu, a: Spot, b: Spot, rsp: int, n: nat, v: int, k: nat, w: int)
    requires Separate(a, b) && n <= 8 && k <= 8 && Has(s, a, rsp, 0, n, v)
    ensures Has(Put(s, b, rsp, 0, k, w), a, rsp, 0, n, v)
  {
  }

  lemma PutHas(s: Cpu, a: Spot, rsp: int, rbp: int, n: nat, v: int)
    ensures Has(Put(s, a, rsp, rbp, n, v), a, rsp, rbp, n, v)
  {
  }

  /** Pairwise separate. */
  predicate Scattered(spots: seq<Spot>) {
    forall i, j | 0 <= i < j < |spots| :: Separate(spots[i], spots[j])
  }

  lemma {:induction false} SpotsScattered(cs: seq<Class>, n: Counts)
    ensures Scattered(CallerSpots(cs, n))
    decreases |cs|
  {
    if cs == [] {
    } else {
      var c := CallerClass(cs[0], n);
      var rest := CallerSpots(cs[1..], Count(c, n));
      SpotsScattered(cs[1..], Count(c, n));
      SpotsFrom(cs[1..], Count(c, n), Count(c, n));
      var all := CallerSpots(cs, n);
      assert all == [SpotOf(c, n, Rsp)] + rest;
      forall i, j | 0 <= i < j < |all|
        ensures Separate(all[i], all[j])
      {
        assert all[j] == rest[j - 1] && all[j] in rest;
        if i > 0 {
          assert all[i] == rest[i - 1];
        }
      }
    }
  }

  /** The first n arguments are in place. */
  ghost predicate Arrived(ps: seq<Param>, spots: seq<Spot>, args: seq<int>, rsp: int, s: Cpu, n: nat)
    requires n <= |ps| == |spots| == |args|
  {
    forall i | 0 <= i < n :: Has(s, spots[i], rsp, 0, ps[i].size, args[i])
  }

  lemma {:induction false} SendsArrive(ps: seq<Param>, sends: seq<Send>, args: seq<int>, rsp: int, s: Cpu, n: nat)
    requires AllScalar(ps) && n + |sends| == |ps| == |args|
    requires forall i | 0 <= i < |sends| :: sends[i] == Send(n + i, Sent(ps)[n + i])
    requires Scattered(Sent(ps)) && Arrived(ps, Sent(ps), args, rsp, s, n)
    ensures forall m | m in sends :: m.arg < |ps|
    ensures Arrived(ps, Sent(ps), args, rsp, RunSends(sends, ps, args, rsp, s), |ps|)
    decreases |sends|
  {
    if sends == [] {
    } else {
      var spots, dst := Sent(ps), sends[0].dst;
      assert dst == spots[n];
      var p, v := ps[n], args[n];
      assert p in ps;
      var s' := Put(s, dst, rsp, 0, p.size, v);
      forall i | 0 <= i < n + 1
        ensures Has(s', spots[i], rsp, 0, ps[i].size, args[i])
      {
        if i < n {
          assert ps[i] in ps;
          assert Separate(spots[i], spots[n]);
          PutSeparate(s, spots[i], dst, rsp, ps[i].size, args[i], p.size, v);
        } else {
          PutHas(s, dst, rsp, 0, p.size, v);
        }
      }
      forall i | 0 <= i < |sends[1..]|
        ensures sends[1..][i] == Send(n + 1 + i, spots[n + 1 + i])
      {
        assert sends[1..][i] == sends[i + 1];
      }
      SendsArrive(ps, sends[1..], args, rsp, s', n + 1);
    }
  }

  // the callee's side

  /** Every parameter can be read where the prologue looks for it, above the callee's frame. */
  ghost predicate Available(ps: seq<Param>, spots: seq<Spot>, args: seq<int>, rbp: int, s: Cpu)
    requires |ps| == |spots| == |args|
  {
    forall i | 0 <= i < |ps| ::
      Has(s, spots[i], 0, rbp, ps[i].size, args[i]) && (spots[i].Mem? ==> spots[i].base == Rbp && spots[i].disp >= 0)
  }

  ghost predicate AtHome(ps: seq<Param>, homes: seq<nat>, args: seq<int>, rbp: int, s: Cpu)
    requires |ps| == |homes| == |args|
  {
    forall i | 0 <= i < |ps| && ps[i].name.Some? :: HasMem(s, rbp - homes[i], ps[i].size, args[i])
  }

  /** Nothing changed in registers, nor in memory from addr on. */
  ghost predicate SameAbove(s: Cpu, s': Cpu, addr: int) {
    s'.ints == s.ints && s'.floats == s.floats && forall a | a >= addr :: s'.mem(a) == s.mem(a)
  }

  lemma LoadFinds(s: Cpu, at: Spot, rbp: int, n: nat, v: int)
    requires Has(s, at, 0, rbp, n, v) && n > 0 && (at.Mem? ==> at.base == Rbp)
    ensures Load(s, at, rbp, n) == Some(v)
  {
    if at.Mem? {
      var addr := Address(at, 0, rbp);
      assert s.mem(addr) == Byte(v, addr - addr);
    }
  }

  lemma AvailableLater(ps: seq<Param>, spots: seq<Spot>, args: seq<int>, rbp: int, s: Cpu, s': Cpu)
    requires |ps| == |spots| == |args| && ps != [] && Available(ps, spots, args, rbp, s) && SameAbove(s, s', rbp)
    ensures Available(ps[1..], spots[1..], args[1..], rbp, s')
  {
    forall i | 0 <= i < |ps| - 1
      ensures Has(s', spots[1..][i], 0, rbp, ps[1..][i].size, args[1..][i])
      ensures spots[1..][i].Mem? ==> spots[1..][i].base == Rbp && spots[1..][i].disp >= 0
    {
      assert Has(s, spots[i + 1], 0, rbp, ps[i + 1].size, args[i + 1]);
    }
  }

  /** One parameter received. */
  lemma FirstReceived(ps: seq<Param>, spots: seq<Spot>, homes: seq<nat>, args: seq<int>, rbp: int, s: Cpu)
    returns (s1: Cpu)
    requires AllScalar(ps) && ps != [] && |ps| == |spots| == |args| == |homes| && Available(ps, spots, args, rbp, s)
    ensures RunReceives(Receives(ps, spots, homes), rbp, s)
      == RunReceives(Receives(ps[1..], spots[1..], homes[1..]), rbp, s1)
    ensures SameAbove(s, s1, rbp - homes[0] + if ps[0].name.Some? then ps[0].size else 0)
    ensures ps[0].name.Some? ==> HasMem(s1, rbp - homes[0], ps[0].size, args[0])
  {
    var p, home := ps[0], homes[0];
    assert p in ps;
    var rest := Receives(ps[1..], spots[1..], homes[1..]);
    s1 := if p.name.Some? then PutMem(s, rbp - home, p.size, args[0]) else s;
    if p.name.Some? {
      LoadFinds(s, spots[0], rbp, p.size, args[0]);
      assert Receives(ps, spots, homes) == [Receive(spots[0], home, p.size)] + rest;
    } else {
      assert Receives(ps, spots, homes) == rest;
    }
  }

  lemma JoinHomes(ps: seq<Param>, homes: seq<nat>, args: seq<int>, rbp: int, s: Cpu)
    requires |ps| == |homes| == |args| && ps != [] && AtHome(ps[1..], homes[1..], args[1..], rbp, s)
    requires ps[0].name.Some? ==> HasMem(s, rbp - homes[0], ps[0].size, args[0])
    ensures AtHome(ps, homes, args, rbp, s)
  {
    hide HasMem;
    forall i | 0 <= i < |ps| && ps[i].name.Some?
      ensures HasMem(s, rbp - homes[i], ps[i].size, args[i])
    {
      if i > 0 {
        assert ps[1..][i - 1] == ps[i];
        assert HasMem(s, rbp - homes[1..][i - 1], ps[1..][i - 1].size, args[1..][i - 1]);
      }
    }
  }

  lemma {:induction false} ReceivesLand(ps: seq<Param>, spots: seq<Spot>, homes: seq<nat>, offset: nat,
                                        args: seq<int>, rbp: int, s: Cpu)
    requires AllScalar(ps) && |ps| == |spots| == |args| && homes == Homes(ps, offset)
    requires Available(ps, spots, args, rbp, s)
    ensures var r := RunReceives(Receives(ps, spots, homes), rbp, s);
      r.Some? && SameAbove(s, r.value, rbp - offset) && AtHome(ps, homes, args, rbp, r.value)
    decreases |ps|
  {
    if ps == [] {
    } else {
      var home := homes[0];
      assert ps[0] in ps;
      assert home >= offset + if ps[0].name.Some? then ps[0].size else 0;
      assert homes[1..] == Homes(ps[1..], home);
      hide Receives, RunReceives, Available, Homes;
      var s1 := FirstReceived(ps, spots, homes, args, rbp, s);
      AvailableLater(ps, spots, args, rbp, s, s1);
      ReceivesLand(ps[1..], spots[1..], homes[1..], home, args[1..], rbp, s1);
      JoinHomes(ps, homes, args, rbp, RunReceives(Receives(ps, spots, homes), rbp, s).value);
    }
  }

  lemma {:induction false} ExpectedAbove(ps: seq<Param>, n: Counts)
    ensures forall s | s in CalleeSpots(ps, n) :: s.Mem? ==> s.base == Rbp && s.disp >= 8 * n.stack
    decreases |ps|
  {
    if ps == [] {
    } else {
      ExpectedAbove(ps[1..], Count(CalleeClass(ps[0], n), n));
    }
  }

  lemma HasMeets(s: Cpu, s': Cpu, a: Spot, b: Spot, rsp: int, rbp: int, n: nat, v: int)
    requires Has(s, a, rsp, 0, n, v) && Meets(a, b, rsp, rbp) && SameAbove(s, s', rsp)
    requires a.Mem? ==> a.base == Rsp && a.disp >= 0
    requires b.Mem? ==> b.base == Rbp
    ensures Has(s', b, 0, rbp, n, v)
  {
  }

  /** Every argument of a call ends up at the home of its parameter, if no float beyond the eighth
      comes while integer registers are free. Between call sequence and prologue, the return
      address and the saved registers are pushed below the arguments. */
  lemma CallDelivers(ps: seq<Param>, args: seq<int>, rsp: int, rbp: int, s: Cpu, entered: Cpu)
    requires AllScalar(ps) && |args| == |ps| && LateFloats(ps) && rsp == rbp + 56
    requires SameAbove(RunSends(Sends(ps), ps, args, rsp, s), entered, rsp)
    ensures var homes := Homes(ps, 0);
      var r := RunReceives(Receives(ps, Expected(ps), homes), rbp, entered);
      r.Some? && AtHome(ps, homes, args, rbp, r.value)
  {
    var sent, expected := Sent(ps), Expected(ps);
    AgreeExactly(ps, rsp, rbp);
    SpotsScattered(Classes(ps, NONE), NONE);
    SpotsFrom(Classes(ps, NONE), NONE, NONE);
    SendsArrive(ps, Sends(ps), args, rsp, s, 0);
    ExpectedAbove(ps, ENTRY);
    forall i | 0 <= i < |ps|
      ensures Has(entered, expected[i], 0, rbp, ps[i].size, args[i])
      ensures expected[i].Mem? ==> expected[i].base == Rbp && expected[i].disp >= 0
    {
      assert sent[i] in sent && expected[i] in expected && From(sent[i], NONE);
      assert Meets(sent[i], expected[i], rsp, rbp);
      HasMeets(RunSends(Sends(ps), ps, args, rsp, s), entered, sent[i], expected[i], rsp, rbp, ps[i].size, args[i]);
    }
    ReceivesLand(ps, expected, Homes(ps, 0), 0, args, rbp, entered);
  }

  // ----- the homes are where the frame layout put the parameters -----

  function ParamLeaves(ps: seq<Param>): (r: seq<FL.SizeTree>)
    ensures |r| == |ps|
  {
    seq(|ps|, i requires 0 <= i < |ps| => FL.Leaf(ps[i].name, ps[i].size, ps[i].size, false))
  }

  predicate AllNamed(ps: seq<Param>) {
    forall p | p in ps :: p.name.Some?
  }

  /** Offsets that the frame layout gives to parameters; it passes over those without a name. */
  function Laid(ps: seq<Param>, size: nat): (r: seq<nat>)
    requires AllScalar(ps)
    ensures |r| == |ps|
  {
    if ps == [] then []
    else
      assert ps[0] in ps;
      var end := if ps[0].name.Some? then Pad(size, ps[0]) + ps[0].size else size;
      [end] + Laid(ps[1..], end)
  }

  lemma {:induction false} LeafLaid(ps: seq<Param>, body: seq<FL.SizeTree>, size: nat, vars: FL.Places, i: nat)
    requires AllScalar(ps) && i < |ps| && ps[i].name.Some?
    requires FL.AllSized(ParamLeaves(ps) + body) && FL.Unique(ParamLeaves(ps) + body)
    ensures var places, x := FL.PlaceLeaves(ParamLeaves(ps) + body, size, vars), ps[i].name.value;
      x in FL.LeafNames(ParamLeaves(ps) + body) && x in places && places[x] == FL.OnStack(Laid(ps, size)[i])
    decreases |ps|
  {
    var cs := ParamLeaves(ps) + body;
    assert cs[1..] == ParamLeaves(ps[1..]) + body;
    assert ps[0] in ps && cs[0] == FL.Leaf(ps[0].name, ps[0].size, ps[0].size, false);
    var end := Laid(ps, size)[0];
    assert end == FL.Grow(cs[0], size) && Laid(ps, size)[1..] == Laid(ps[1..], end);
    var placed := FL.Place(cs[0], size, vars);
    if i == 0 {
      FL.LeavesKeep(cs[1..], end, placed);
      FL.NamesSplit(cs[1..]);
    } else {
      LeafLaid(ps[1..], body, end, placed, i - 1);
    }
  }

  lemma ParamLaid(ps: seq<Param>, body: seq<FL.SizeTree>, globals: FL.Places, i: nat)
    requires AllScalar(ps) && i < |ps| && ps[i].name.Some?
    requires FL.AllSized(ParamLeaves(ps) + body) && FL.Unique(ParamLeaves(ps) + body)
    ensures var places, x := FL.PlaceScope(ParamLeaves(ps) + body, 0, globals), ps[i].name.value;
      x in places && places[x] == FL.OnStack(Laid(ps, 0)[i])
  {
    var cs := ParamLeaves(ps) + body;
    LeafLaid(ps, body, 0, globals, i);
    FL.NodesKeep(cs, FL.LeavesEnd(cs, 0), FL.PlaceLeaves(cs, 0, globals));
    FL.NamesSplit(cs);
  }

  /** Wherever a named parameter follows unnamed ones, its place is also aligned for the widest of
      these. The named parameters so far end at size, widest is that of the unnamed ones since. */
  predicate Unmoved(ps: seq<Param>, size: nat, widest: nat)
    requires AllScalar(ps) && widest > 0
  {
    if ps == [] then true
    else
      assert ps[0] in ps;
      var p := ps[0];
      if p.name.None? then Unmoved(ps[1..], size, Max(widest, p.size))
      else Pad(size, p) % widest == 0 && Unmoved(ps[1..], Pad(size, p) + p.size, 1)
  }

  lemma SameRest(size: nat, a: nat)
    requires Width(a)
    ensures size % a == (size % 8) % a
  {
    if a == 1 {
    } else if a == 2 {
    } else if a == 4 {
    }
  }

  lemma Shifted8(q: nat, c: nat)
    requires c <= 8
    ensures (8 * q + c) % 8 == if c == 8 then 0 else c
  {
  }

  /** What padding to a width does depends on the position within eight bytes only. */
  lemma AlignIn8(size: nat, a: nat)
    requires Width(a)
    ensures var k := size % 8;
      && FL.AlignUp(size, a) == size - k + FL.AlignUp(k, a)
      && (FL.AlignUp(size, a) % 8 == if FL.AlignUp(k, a) == 8 then 0 else FL.AlignUp(k, a))
  {
    var k, q := size % 8, size / 8;
    SameRest(size, a);
    SmallAligned(k, a);
    Shifted8(q, FL.AlignUp(k, a));
    assert FL.AlignUp(size, a) == size - k + FL.AlignUp(k, a);
    assert size == 8 * q + k;
    hide FL.AlignUp;
  }

  lemma AlignTwice(size: nat, a: nat, b: nat)
    requires Width(a) && Width(b)
    ensures FL.AlignUp(FL.AlignUp(size, a), b) == FL.AlignUp(size, Max(a, b))
    ensures FL.AlignUp(size, Max(a, b)) == FL.AlignUp(size, b) <==> FL.AlignUp(size, b) % a == 0
  {
    var k := size % 8;
    AlignIn8(size, a);
    AlignIn8(size, b);
    AlignIn8(FL.AlignUp(size, a), b);
    SameRest(FL.AlignUp(size, b), a);
    SmallAligned(k, a);
    SmallAligned(k, b);
    SmallAligned(FL.AlignUp(size, a) % 8, b);
    hide FL.AlignUp;
  }

  lemma SmallAligned(k: nat, a: nat)
    requires Width(a) && k < 8
    ensures FL.AlignUp(k, a) ==
      if a == 1 then k
      else if a == 8 then (if k == 0 then 0 else 8)
      else if a == 4 then (if k == 0 then 0 else if k <= 4 then 4 else 8)
      else if k == 0 then 0 else if k <= 2 then 2 else if k <= 4 then 4 else if k <= 6 then 6 else 8
  {
  }

  predicate SameHomes(ps: seq<Param>, homes: seq<nat>, laid: seq<nat>)
    requires |ps| == |homes| == |laid|
  {
    forall i | 0 <= i < |ps| && ps[i].name.Some? :: homes[i] == laid[i]
  }

  lemma FirstHome(ps: seq<Param>, homes: seq<nat>, laid: seq<nat>)
    requires |ps| == |homes| == |laid| && ps != []
    ensures SameHomes(ps, homes, laid) <==>
      (ps[0].name.Some? ==> homes[0] == laid[0]) && SameHomes(ps[1..], homes[1..], laid[1..])
  {
    if (ps[0].name.Some? ==> homes[0] == laid[0]) && SameHomes(ps[1..], homes[1..], laid[1..]) {
      forall i | 0 <= i < |ps| && ps[i].name.Some?
        ensures homes[i] == laid[i]
      {
        if i > 0 {
          assert ps[1..][i - 1].name.Some? && homes[1..][i - 1] == laid[1..][i - 1];
        }
      }
    }
  }

  lemma {:induction false} HomesFrom(ps: seq<Param>, size: nat, widest: nat, offset: nat)
    requires AllScalar(ps) && Width(widest) && offset == FL.AlignUp(size, widest)
    ensures SameHomes(ps, Homes(ps, offset), Laid(ps, size)) <==> Unmoved(ps, size, widest)
    decreases |ps|
  {
    if ps == [] {
      return;
    }
    var p := ps[0];
    assert p in ps;
    var home, end := Homes(ps, offset)[0], Laid(ps, size)[0];
    assert Homes(ps, offset)[1..] == Homes(ps[1..], home) && Laid(ps, size)[1..] == Laid(ps[1..], end);
    FirstHome(ps, Homes(ps, offset), Laid(ps, size));
    AlignTwice(size, widest, p.size);
    hide SameHomes, FL.AlignUp;
    if p.name.None? {
      HomesFrom(ps[1..], size, Max(widest, p.size), home);
    } else if home == end {
      AlignOne(end);
      HomesFrom(ps[1..], end, 1, home);
    }
  }

  lemma AlignOne(size: nat)
    ensures FL.AlignUp(size, 1) == size
  {
  }

  /** Two pieces of code compute the offsets of the parameters. They agree on every named one if and
      only if no unnamed parameter makes the prologue pad where the layout does not. */
  lemma HomesExactly(ps: seq<Param>, body: seq<FL.SizeTree>, globals: FL.Places)
    requires AllScalar(ps) && FL.AllSized(ParamLeaves(ps) + body) && FL.Unique(ParamLeaves(ps) + body)
    ensures var places := FL.PlaceScope(ParamLeaves(ps) + body, 0, globals);
      (forall i | 0 <= i < |ps| && ps[i].name.Some? ::
         ps[i].name.value in places && places[ps[i].name.value] == FL.OnStack(Homes(ps, 0)[i]))
      <==> Unmoved(ps, 0, 1)
  {
    AlignOne(0);
    HomesFrom(ps, 0, 1, 0);
    forall i | 0 <= i < |ps| && ps[i].name.Some?
      ensures var places, x := FL.PlaceScope(ParamLeaves(ps) + body, 0, globals), ps[i].name.value;
        x in places && places[x] == FL.OnStack(Laid(ps, 0)[i])
    {
      ParamLaid(ps, body, globals, i);
    }
    hide Unmoved, Homes, Laid, FL.PlaceScope, FL.AllSized, FL.Unique, AllScalar;
  }

  lemma {:induction false} NamedUnmoved(ps: seq<Param>, size: nat)
    requires AllScalar(ps) && AllNamed(ps)
    ensures Unmoved(ps, size, 1)
    decreases |ps|
  {
    if ps == [] {
    } else {
      assert ps[0] in ps;
      NamedUnmoved(ps[1..], Pad(size, ps[0]) + ps[0].size);
    }
  }

  /** So they always agree when all parameters have names. */
  lemma HomesMatch(ps: seq<Param>, body: seq<FL.SizeTree>, globals: FL.Places, i: nat)
    requires AllScalar(ps) && AllNamed(ps) && i < |ps|
    requires FL.AllSized(ParamLeaves(ps) + body) && FL.Unique(ParamLeaves(ps) + body)
    ensures ps[i] in ps
    ensures var places, x := FL.PlaceScope(ParamLeaves(ps) + body, 0, globals), ps[i].name.value;
      x in places && places[x] == FL.OnStack(Homes(ps, 0)[i])
  {
    NamedUnmoved(ps, 0);
    HomesExactly(ps, body, globals);
  }

  /** An unnamed parameter makes the prologue pad where the layout does not: the char behind it is
      stored one place and loaded from another. */
  lemma UnnamedMisplaces() returns (ps: seq<Param>)
    ensures AllScalar(ps) && |ps| == 3 && !AllNamed(ps) && ps[2].name == Some("c")
    ensures FL.AllSized(ParamLeaves(ps)) && FL.LeavesEnd(ParamLeaves(ps), 0) == 2 && Homes(ps, 0)[2] == 9
  {
    var a, b, c := Param(Some("a"), false, 1), Param(None, false, 8), Param(Some("c"), false, 1);
    ps := [a, b, c];
    assert ps[1] in ps;
    assert ps[1..] == [b, c] && [b, c][1..] == [c] && [c][1..] == [];
    assert Homes([c], 8) == [9] && Homes([b, c], 1) == [8, 9];
    var x, y, z := FL.Leaf(Some("a"), 1, 1, false), FL.Leaf(None, 8, 8, false), FL.Leaf(Some("c"), 1, 1, false);
    var cs := ParamLeaves(ps);
    assert cs == [x, y, z] && cs[1..] == [y, z] && [y, z][1..] == [z] && [z][1..] == [];
    assert FL.AllSized([z]) && FL.AllSized([y, z]);
    assert FL.LeavesEnd([z], 1) == 2 && FL.LeavesEnd([y, z], 1) == 2;
  }
}
