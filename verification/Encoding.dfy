/** Instruction bytes: prefixes, REX, opcode, ModRM, SIB and displacement, and a decoder that gets
    every register and memory operand back from a stream of them. */
module Encoding {
  import opened Basics
  import opened Syntax
  import opened GotoPatch

  type Register = x: nat | x < 16

  datatype Mode = Memory | Disp8 | Disp32 | Direct

  /** forceRexW, forceSize, prefixF3, prefixF2, twoByte and fixedBits as in the instruction table. */
  datatype Form = Form(opcode: Byte, w: bool, size: bool, f3: bool, f2: bool, twoByte: bool, digit: Option<nat>)

  datatype Operand = Reg(r: Register) | Mem(base: Register, disp: int)

  /** reg is the register of ModRM's middle field; with a digit there is none. */
  datatype Instr = Instr(form: Form, reg: Register, rm: Operand)

  // ----- encoding as functions -----

  function ModeBits(m: Mode): nat {
    match m
    case Memory => 0
    case Disp8 => 1
    case Disp32 => 2
    case Direct => 3
  }

  function Rex(w: bool, reg: Register, rm: Register): nat {
    0x40 + (if w then 8 else 0) + (if reg >= 8 then 4 else 0) + (if rm >= 8 then 1 else 0)
  }

  /** A REX byte with nothing in it is left out. */
  function RexBytes(w: bool, reg: Register, rm: Register): seq<Byte> {
    if Rex(w, reg, rm) == 0x40 then [] else [Rex(w, reg, rm)]
  }

  function Byte1(b: bool, x: Byte): seq<Byte> {
    if b then [x] else []
  }

  function ModRm(mode: Mode, middle: nat, rm: Register): Byte
    requires middle < 8
  {
    ModeBits(mode) * 64 + middle * 8 + rm % 8
  }

  function Prefixes(f: Form): seq<Byte> {
    Byte1(f.size, 0x66) + Byte1(f.f3, 0xF3) + Byte1(f.f2, 0xF2)
  }

  /** rbp and r13 have no form without displacement, rsp and r12 none without a SIB byte. */
  function Tail(mode: Mode, middle: nat, rm: Register): seq<Byte>
    requires middle < 8
  {
    var zero := mode == Memory && rm % 8 == 5;
    var mode' := if zero then Disp8 else mode;
    [ModRm(mode', middle, rm)] + Byte1(mode' != Direct && rm % 8 == 4, 0x24) + Byte1(zero, 0)
  }

  predicate FormOk(f: Form) {
    f.digit.Some? ==> f.digit.value < 8
  }

  /** All but the displacement. */
  function Head(f: Form, reg: Register, rm: Register, mode: Mode): seq<Byte>
    requires FormOk(f)
  {
    Prefixes(f) + RexBytes(f.w, reg, rm) + Byte1(f.twoByte, 0x0F) + [f.opcode]
    + Tail(mode, if f.digit.Some? then f.digit.value else reg % 8, rm)
  }

  function ModeOf(rm: Operand): Mode {
    match rm
    case Reg(_) => Direct
    case Mem(_, d) => if d == 0 then Memory else if -128 <= d <= 127 then Disp8 else Disp32
  }

  function RegisterOf(rm: Operand): Register {
    if rm.Reg? then rm.r else rm.base
  }

  function Signed8(d: int): Byte
    requires -128 <= d <= 127
  {
    if d < 0 then d + 256 else d
  }

  function DispBytes(rm: Operand): seq<Byte> {
    match ModeOf(rm)
    case Disp8 => [Signed8(rm.disp)]
    case Disp32 => Little(rm.disp)
    case _ => []
  }

  function Encode(i: Instr): seq<Byte>
    requires FormOk(i.form)
  {
    Head(i.form, i.reg, RegisterOf(i.rm), ModeOf(i.rm)) + DispBytes(i.rm)
  }

  // ----- encoding as the source does it -----

  class ByteWriter {
    var bytes: seq<Byte>

    constructor ()
      ensures bytes == []
    {
      bytes := [];
    }

    method Int8(x: Byte)
      modifies this
      ensures bytes == old(bytes) + [x]
    {
      bytes := bytes + [x];
    }

    method Int32(v: int)
      modifies this
      ensures bytes == old(bytes) + Little(v)
    {
      bytes := bytes + Little(v);
    }

    method EncodePrefixes(f: Form)
      modifies this
      ensures bytes == old(bytes) + Prefixes(f)
    {
      if f.size {
        Int8(0x66);
      }
      if f.f3 {
        Int8(0xF3);
      }
      if f.f2 {
        Int8(0xF2);
      }
    }

    method EncodeTail(middle: nat, op1: Register, modeGiven: Mode)
      requires middle < 8
      modifies this
      ensures bytes == old(bytes) + Tail(modeGiven, middle, op1)
    {
      var mode := modeGiven;
      var emitZero := false;
      if mode == Memory && op1 % 8 == 5 {
        mode := Disp8;
        emitZero := true;
      }
      Int8(ModRm(mode, middle, op1));
      if mode != Direct && op1 % 8 == 4 {
        Int8(0x24);
      }
      if emitZero {
        Int8(0);
      }
    }

    method EncodeInstruction(f: Form, op2: Register, op1: Register, mode: Mode)
      requires FormOk(f)
      modifies this
      ensures bytes == old(bytes) + Head(f, op2, op1, mode)
    {
      ghost var middle := if f.digit.Some? then f.digit.value else op2 % 8;
      hide Prefixes, RexBytes, Byte1, Tail;
      EncodePrefixes(f);
      EncodeRex(f.w, op2, op1);
      Assoc(old(bytes), Prefixes(f), RexBytes(f.w, op2, op1));
      ghost var acc := Prefixes(f) + RexBytes(f.w, op2, op1);
      Escape(f.twoByte);
      Assoc(old(bytes), acc, Byte1(f.twoByte, 0x0F));
      acc := acc + Byte1(f.twoByte, 0x0F);
      Int8(f.opcode);
      Assoc(old(bytes), acc, [f.opcode]);
      acc := acc + [f.opcode];
      EncodeTail(if f.digit.Some? then f.digit.value else op2 % 8, op1, mode);
      Assoc(old(bytes), acc, Tail(mode, middle, op1));
    }

    method EncodeRex(w: bool, op2: Register, op1: Register)
      modifies this
      ensures bytes == old(bytes) + RexBytes(w, op2, op1)
    {
      var rex := 0;
      if op1 >= 8 {
        rex := rex + 1;
      }
      if op2 >= 8 {
        rex := rex + 4;
      }
      if w {
        rex := rex + 8;
      }
      if rex != 0 {
        Int8(0x40 + rex);
      }
    }

    method Escape(twoByte: bool)
      modifies this
      ensures bytes == old(bytes) + Byte1(twoByte, 0x0F)
    {
      if twoByte {
        Int8(0x0F);
      }
    }

    /** An instruction and its displacement. */
    method Perform(i: Instr)
      requires FormOk(i.form)
      modifies this
      ensures bytes == old(bytes) + Encode(i)
    {
      var mode := Direct;
      if i.rm.Mem? {
        if i.rm.disp == 0 {
          mode := Memory;
        } else if -128 <= i.rm.disp <= 127 {
          mode := Disp8;
        } else {
          mode := Disp32;
        }
      }
      EncodeInstruction(i.form, i.reg, RegisterOf(i.rm), mode);
      if mode == Disp8 {
        Int8(Signed8(i.rm.disp));
      }
      if mode == Disp32 {
        Int32(i.rm.disp);
      }
    }
  }

  function OneIf(b: bool): nat {
    if b then 1 else 0
  }

  /** Nothing is written that may be left out: REX only for the upper registers or a wide operand, a SIB
      byte only behind rsp and r12, and a displacement in one byte where it fits, in none where it is
      zero, but for rbp and r13. */
  lemma LengthExactly(i: Instr)
    requires FormOk(i.form)
    ensures var f, upper := i.form, i.reg >= 8 || RegisterOf(i.rm) >= 8;
      |Encode(i)| ==
        2 + OneIf(f.size) + OneIf(f.f3) + OneIf(f.f2) + OneIf(f.twoByte) + OneIf(f.w || upper)
        + (match i.rm
           case Reg(_) => 0
           case Mem(b, d) =>
             OneIf(b % 8 == 4)
             + if d == 0 then OneIf(b % 8 == 5) else if -128 <= d <= 127 then 1 else 4)
  {
    HeadLength(i.form, i.reg, RegisterOf(i.rm), ModeOf(i.rm));
    hide Little, Head;
  }

  lemma HeadLength(f: Form, reg: Register, rm: Register, mode: Mode)
    requires FormOk(f)
    ensures |Head(f, reg, rm, mode)|
      == 2 + OneIf(f.size) + OneIf(f.f3) + OneIf(f.f2) + OneIf(f.twoByte) + OneIf(f.w || reg >= 8 || rm >= 8)
         + OneIf(mode != Direct && rm % 8 == 4) + OneIf(mode == Memory && rm % 8 == 5)
  {
    TailLength(mode, if f.digit.Some? then f.digit.value else reg % 8, rm);
    RexLength(f.w, reg, rm);
    assert |Prefixes(f)| == OneIf(f.size) + OneIf(f.f3) + OneIf(f.f2);
    hide Tail, RexBytes, Prefixes;
  }

  lemma RexLength(w: bool, reg: Register, rm: Register)
    ensures |RexBytes(w, reg, rm)| == OneIf(w || reg >= 8 || rm >= 8)
  {
  }

  lemma TailLength(mode: Mode, middle: nat, rm: Register)
    requires middle < 8
    ensures |Tail(mode, middle, rm)|
      == 1 + OneIf(mode != Direct && rm % 8 == 4) + OneIf(mode == Memory && rm % 8 == 5)
  {
  }

  // ----- decoding -----

  datatype Decoded<T> = Ok(value: T, rest: seq<Byte>) | Bad

  datatype Marks = Marks(size: bool, f3: bool, f2: bool)

  /** Legacy prefixes, section 2.1.1 of the Intel SDM volume 2, in any order. */
  function DecodeMarks(b: seq<Byte>, m: Marks): (r: (Marks, seq<Byte>))
    ensures |r.1| <= |b|
  {
    if b == [] then (m, b)
    else if b[0] == 0x66 then DecodeMarks(b[1..], m.(size := true))
    else if b[0] == 0xF3 then DecodeMarks(b[1..], m.(f3 := true))
    else if b[0] == 0xF2 then DecodeMarks(b[1..], m.(f2 := true))
    else (m, b)
  }

  /** The REX byte's low four bits, section 2.2.1. */
  function DecodeRex(b: seq<Byte>): (nat, seq<Byte>) {
    if b != [] && 0x40 <= b[0] < 0x50 then (b[0] - 0x40, b[1..]) else (0, b)
  }

  function FromByte(x: int): int {
    if x < 128 then x else x - 256
  }

  function Bit(x: nat, n: nat): bool
    requires n > 0
  {
    x / n % 2 == 1
  }

  /** A SIB byte stands where the low field is 4; it must not bring an index register. */
  function SkipSib(mod: nat, low: nat, b: seq<Byte>): Option<seq<Byte>> {
    if mod == 3 || low != 4 then Some(b)
    else if b != [] && b[0] / 8 % 8 == 4 && b[0] % 8 == 4 then Some(b[1..])
    else None
  }

  function TakeOperand(mod: nat, low: nat, rm: Register, b: seq<Byte>): Decoded<Operand> {
    if mod == 3 then Ok(Reg(rm), b)
    else if mod == 0 then (if low == 5 then Bad else Ok(Mem(rm, 0), b))
    else if mod == 1 then (if b == [] then Bad else Ok(Mem(rm, FromByte(b[0])), b[1..]))
    else if |b| < 4 then Bad
    else Ok(Mem(rm, Displacement(b[..4])), b[4..])
  }

  /** ModRM, SIB and displacement, section 2.1.5, without an index register and without rip. */
  function DecodeOperand(b: seq<Byte>, rexR: bool, rexB: bool): Decoded<(Register, Operand)> {
    if b == [] then Bad
    else
      var mod: nat, middle: nat, low: nat := b[0] / 64, b[0] / 8 % 8, b[0] % 8;
      var r := SkipSib(mod, low, b[1..]);
      if r.None? then Bad
      else
        var o := TakeOperand(mod, low, low + if rexB then 8 else 0, r.value);
        if o.Bad? then Bad else Ok((middle + if rexR then 8 else 0, o.value), o.rest)
  }

  /** The opcodes of the instruction table whose ModRM byte holds a digit instead of a register. */
  predicate HasDigit(opcode: Byte, twoByte: bool) {
    if twoByte then 0x92 <= opcode <= 0x9F
    else
      opcode == 0x80 || opcode == 0x81 || opcode == 0x83 || opcode == 0xC0 || opcode == 0xC1 || opcode == 0xD2
      || opcode == 0xD3 || opcode == 0xF6 || opcode == 0xF7 || opcode == 0xFF
  }

  function Decode(b: seq<Byte>): Decoded<Instr> {
    var (m, b1) := DecodeMarks(b, Marks(false, false, false));
    var (rex, b2) := DecodeRex(b1);
    var two := b2 != [] && b2[0] == 0x0F;
    var b3 := if two then b2[1..] else b2;
    if b3 == [] then Bad
    else
      var o := DecodeOperand(b3[1..], Bit(rex, 4), Bit(rex, 1));
      if o.Bad? then Bad
      else
        var digit := HasDigit(b3[0], two);
        Ok(Instr(Form(b3[0], Bit(rex, 8), m.size, m.f3, m.f2, two, if digit then Some(o.value.0) else None),
                 if digit then 0 else o.value.0, o.value.1), o.rest)
  }

  // ----- decoding what was encoded -----

  /** The opcodes of the table are neither prefixes nor escapes. */
  predicate Opcode(f: Form) {
    f.twoByte || !(PrefixByte(f.opcode) || f.opcode == 0x0F || 0x40 <= f.opcode < 0x50)
  }

  /** What the table and the operands are like: a digit stands where there is no second register,
      and displacements have 32 bits. */
  predicate Encodable(i: Instr) {
    && FormOk(i.form) && Opcode(i.form) && (i.form.digit.Some? <==> HasDigit(i.form.opcode, i.form.twoByte))
    && (i.form.digit.Some? ==> i.reg == 0)
    && (i.rm.Mem? ==> -0x8000_0000 <= i.rm.disp < 0x8000_0000)
  }

  predicate PrefixByte(x: int) {
    x == 0x66 || x == 0xF3 || x == 0xF2
  }

  lemma MarksDecoded(f: Form, more: seq<Byte>)
    requires more != [] && !PrefixByte(more[0])
    ensures DecodeMarks(Prefixes(f) + more, Marks(false, false, false)) == (Marks(f.size, f.f3, f.f2), more)
  {
    var a, b, c := Byte1(f.size, 0x66), Byte1(f.f3, 0xF3), Byte1(f.f2, 0xF2);
    assert a + b + c + more == a + (b + (c + more));
    OneMark(f.size, 0x66, b + (c + more), Marks(false, false, false));
    OneMark(f.f3, 0xF3, c + more, Marks(f.size, false, false));
    OneMark(f.f2, 0xF2, more, Marks(f.size, f.f3, false));
    assert DecodeMarks(more, Marks(f.size, f.f3, f.f2)) == (Marks(f.size, f.f3, f.f2), more);
  }

  lemma OneMark(b: bool, x: Byte, more: seq<Byte>, m: Marks)
    requires PrefixByte(x)
    ensures DecodeMarks(Byte1(b, x) + more, m)
      == DecodeMarks(more, if !b then m else if x == 0x66 then m.(size := true)
                           else if x == 0xF3 then m.(f3 := true) else m.(f2 := true))
  {
    if b {
      assert ([x] + more)[1..] == more;
    } else {
      assert [] + more == more;
    }
  }

  lemma RexDecoded(w: bool, reg: Register, rm: Register, more: seq<Byte>)
    requires more != [] && !(0x40 <= more[0] < 0x50)
    ensures var (rex, rest) := DecodeRex(RexBytes(w, reg, rm) + more);
      rest == more && Bit(rex, 8) == w && Bit(rex, 4) == (reg >= 8) && Bit(rex, 1) == (rm >= 8)
  {
    if RexBytes(w, reg, rm) == [] {
      assert [] + more == more;
    } else {
      assert ([Rex(w, reg, rm)] + more)[1..] == more;
    }
  }

  lemma ModRmParts(m: nat, middle: nat, low: nat)
    requires m < 4 && middle < 8 && low < 8
    ensures var b: int := m * 64 + middle * 8 + low;
      b / 64 == m && b / 8 % 8 == middle && b % 8 == low
  {
  }

  /** Displacement bytes and what they stand for. */
  lemma DispDecoded(rm: Operand)
    requires rm.Mem? && -0x8000_0000 <= rm.disp < 0x8000_0000
    ensures ModeOf(rm) == Disp8 ==> FromByte(Signed8(rm.disp)) == rm.disp
    ensures ModeOf(rm) == Disp32 ==> Displacement(Little(rm.disp)) == rm.disp
  {
    LittleRoundTrip(rm.disp);
  }

  predicate NeedsZero(rm: Operand) {
    ModeOf(rm) == Memory && RegisterOf(rm) % 8 == 5
  }

  /** The mode as it is shown in ModRM. */
  function ShownMode(rm: Operand): Mode {
    if NeedsZero(rm) then Disp8 else ModeOf(rm)
  }

  lemma TailParts(middle: nat, rm: Operand, more: seq<Byte>)
    requires middle < 8
    ensures Tail(ModeOf(rm), middle, RegisterOf(rm)) + DispBytes(rm) + more
      == [ModRm(ShownMode(rm), middle, RegisterOf(rm))]
         + (Byte1(ShownMode(rm) != Direct && RegisterOf(rm) % 8 == 4, 0x24)
            + (Byte1(NeedsZero(rm), 0) + (DispBytes(rm) + more)))
  {
    hide DispBytes;
  }

  lemma SibSkipped(rm: Operand, more: seq<Byte>)
    ensures var low := RegisterOf(rm) % 8;
      SkipSib(ModeBits(ShownMode(rm)), low, Byte1(ShownMode(rm) != Direct && low == 4, 0x24) + more) == Some(more)
  {
    var low := RegisterOf(rm) % 8;
    if ShownMode(rm) != Direct && low == 4 {
      assert ([0x24] + more)[1..] == more;
    } else {
      assert [] + more == more;
    }
  }

  lemma OperandTaken(rm: Operand, more: seq<Byte>)
    requires rm.Mem? ==> -0x8000_0000 <= rm.disp < 0x8000_0000
    ensures TakeOperand(ModeBits(ShownMode(rm)), RegisterOf(rm) % 8, RegisterOf(rm),
                        Byte1(NeedsZero(rm), 0) + (DispBytes(rm) + more)) == Ok(rm, more)
  {
    var b := Byte1(NeedsZero(rm), 0) + (DispBytes(rm) + more);
    if rm.Mem? {
      DispDecoded(rm);
    }
    hide Little, Displacement;
    match ModeOf(rm)
    case Direct => assert b == more;
    case Memory =>
      if NeedsZero(rm) {
        assert b[1..] == more;
      } else {
        assert b == more;
      }
    case Disp8 => assert b[1..] == more;
    case Disp32 => assert b[..4] == Little(rm.disp) && b[4..] == more;
  }

  lemma RegisterParts(r: Register)
    ensures r == r % 8 + if r >= 8 then 8 else 0
  {
  }

  lemma OperandDecoded(middle: nat, rexR: bool, rm: Operand, more: seq<Byte>)
    requires middle < 8 && (rm.Mem? ==> -0x8000_0000 <= rm.disp < 0x8000_0000)
    ensures var b := Tail(ModeOf(rm), middle, RegisterOf(rm)) + DispBytes(rm) + more;
      DecodeOperand(b, rexR, RegisterOf(rm) >= 8) == Ok((middle + if rexR then 8 else 0, rm), more)
  {
    var r, shown := RegisterOf(rm), ShownMode(rm);
    var after := Byte1(NeedsZero(rm), 0) + (DispBytes(rm) + more);
    var sib := Byte1(shown != Direct && r % 8 == 4, 0x24);
    hide Tail, DispBytes, SkipSib, TakeOperand, DecodeOperand, Byte1, ShownMode, NeedsZero, RegisterOf, ModeOf, ModRm,
      ModeBits;
    TailParts(middle, rm, more);
    SibSkipped(rm, after);
    OperandTaken(rm, more);
    FieldsDecoded(shown, middle, r, rexR, sib + after, after, rm, more);
  }

  /** The decoder's steps on an operand, put together. */
  lemma FieldsDecoded(shown: Mode, middle: nat, r: Register, rexR: bool, b: seq<Byte>, after: seq<Byte>, rm: Operand,
                      more: seq<Byte>)
    requires middle < 8 && SkipSib(ModeBits(shown), r % 8, b) == Some(after)
    requires TakeOperand(ModeBits(shown), r % 8, r, after) == Ok(rm, more)
    ensures DecodeOperand([ModRm(shown, middle, r)] + b, rexR, r >= 8)
      == Ok((middle + if rexR then 8 else 0, rm), more)
  {
    ModRmParts(ModeBits(shown), middle, r % 8);
    RegisterParts(r);
    assert ([ModRm(shown, middle, r)] + b)[1..] == b;
    hide SkipSib, TakeOperand;
  }

  function Middle(i: Instr): (r: nat)
    requires FormOk(i.form)
    ensures r < 8
  {
    if i.form.digit.Some? then i.form.digit.value else i.reg % 8
  }

  lemma Regrouped(i: Instr, more: seq<Byte>)
    requires FormOk(i.form)
    ensures var f, r := i.form, RegisterOf(i.rm);
      var tail := Tail(ModeOf(i.rm), Middle(i), r) + DispBytes(i.rm) + more;
      Encode(i) + more == Prefixes(f) + (RexBytes(f.w, i.reg, r) + (Byte1(f.twoByte, 0x0F) + ([f.opcode] + tail)))
  {
    hide Tail, DispBytes, Prefixes, RexBytes, Byte1;
    var f, r := i.form, RegisterOf(i.rm);
    Seven(Prefixes(f), RexBytes(f.w, i.reg, r), Byte1(f.twoByte, 0x0F), [f.opcode], Tail(ModeOf(i.rm), Middle(i), r),
          DispBytes(i.rm), more);
  }

  lemma Seven(a: seq<Byte>, b: seq<Byte>, c: seq<Byte>, d: seq<Byte>, e: seq<Byte>, f: seq<Byte>, g: seq<Byte>)
    ensures a + b + c + d + e + f + g == a + (b + (c + (d + (e + f + g))))
  {
    Assoc(a + b + c + d, e, f);
    Assoc(a + b + c + d, e + f, g);
    Assoc(a + b + c, d, e + f + g);
    Assoc(a + b, c, d + (e + f + g));
    Assoc(a, b, c + (d + (e + f + g)));
  }

  /** The decoder's steps, put together. */
  lemma DecodeSteps(b: seq<Byte>, m: Marks, b1: seq<Byte>, rex: nat, b2: seq<Byte>,
                    b3: seq<Byte>, reg: Register, rm: Operand, more: seq<Byte>)
    requires DecodeMarks(b, Marks(false, false, false)) == (m, b1) && DecodeRex(b1) == (rex, b2)
    requires b2 != [] && b3 == (if b2[0] == 0x0F then b2[1..] else b2) && b3 != []
    requires DecodeOperand(b3[1..], Bit(rex, 4), Bit(rex, 1)) == Ok((reg, rm), more)
    ensures var two := b2[0] == 0x0F;
      var digit := HasDigit(b3[0], two);
      Decode(b) == Ok(Instr(Form(b3[0], Bit(rex, 8), m.size, m.f3, m.f2, two, if digit then Some(reg) else None),
                                 if digit then 0 else reg, rm), more)
  {
    hide DecodeOperand, DecodeMarks, DecodeRex, Bit;
  }

  /** The register field with REX.R, as the decoder puts it together. */
  function FieldOf(i: Instr): Register
    requires FormOk(i.form)
  {
    Middle(i) + if i.reg >= 8 then 8 else 0
  }

  lemma FieldBack(i: Instr)
    requires Encodable(i)
    ensures var f, digit := i.form, HasDigit(i.form.opcode, i.form.twoByte);
      Instr(Form(f.opcode, f.w, f.size, f.f3, f.f2, f.twoByte, if digit then Some(FieldOf(i)) else None),
            if digit then 0 else FieldOf(i), i.rm) == i
  {
    RegisterParts(i.reg);
  }

  /** The decoder takes exactly one instruction off the front, the one that was encoded. */
  lemma InstructionDecoded(i: Instr, more: seq<Byte>)
    requires Encodable(i)
    ensures Decode(Encode(i) + more) == Ok(i, more)
  {
    var f, r := i.form, RegisterOf(i.rm);
    var tail := Tail(ModeOf(i.rm), Middle(i), r) + DispBytes(i.rm) + more;
    var b3 := [f.opcode] + tail;
    var b2 := Byte1(f.twoByte, 0x0F) + b3;
    var b1 := RexBytes(f.w, i.reg, r) + b2;
    Regrouped(i, more);
    FirstBytes(f, i.reg, r, b2, b1, b3);
    FieldBack(i);
    hide *;
    MarksDecoded(f, b1);
    RexDecoded(f.w, i.reg, r, b2);
    OperandDecoded(Middle(i), i.reg >= 8, i.rm, more);
    Escaped(f, b2, b3, tail);
    DecodeSteps(Encode(i) + more, Marks(f.size, f.f3, f.f2), b1, DecodeRex(b1).0, b2, b3, FieldOf(i), i.rm, more);
  }

  lemma Escaped(f: Form, b2: seq<Byte>, b3: seq<Byte>, tail: seq<Byte>)
    requires b3 == [f.opcode] + tail && b2 == Byte1(f.twoByte, 0x0F) + b3
    ensures b3[1..] == tail && b2 != [] && b3 == if f.twoByte then b2[1..] else b2
  {
  }

  lemma FirstBytes(f: Form, reg: Register, rm: Register, b2: seq<Byte>, b1: seq<Byte>, b3: seq<Byte>)
    requires Opcode(f) && b3 != [] && b3[0] == f.opcode
    requires b2 == Byte1(f.twoByte, 0x0F) + b3 && b1 == RexBytes(f.w, reg, rm) + b2
    ensures b2 != [] && (b2[0] == 0x0F <==> f.twoByte) && !(0x40 <= b2[0] < 0x50)
    ensures b1 != [] && !PrefixByte(b1[0])
  {
  }

  // ----- streams -----

  predicate AllOk(items: seq<Instr>) {
    items == [] || (FormOk(items[0].form) && AllOk(items[1..]))
  }

  function EncodeAll(items: seq<Instr>): seq<Byte>
    requires AllOk(items)
  {
    if items == [] then [] else Encode(items[0]) + EncodeAll(items[1..])
  }

  predicate AllEncodable(items: seq<Instr>)
    ensures AllEncodable(items) ==> AllOk(items)
  {
    items == [] || (Encodable(items[0]) && AllEncodable(items[1..]))
  }

  /** At most n instructions. */
  function DecodeAll(b: seq<Byte>, n: nat): Option<seq<Instr>>
    decreases n
  {
    if b == [] then Some([])
    else if n == 0 then None
    else
      var first := Decode(b);
      if first.Bad? then None
      else
        var rest := DecodeAll(first.rest, n - 1);
        if rest.Some? then Some([first.value] + rest.value) else None
  }

  lemma StreamCons(i: Instr, items: seq<Instr>, n: nat)
    requires Encodable(i) && AllOk(items) && n > 0 && DecodeAll(EncodeAll(items), n - 1) == Some(items)
    ensures DecodeAll(Encode(i) + EncodeAll(items), n) == Some([i] + items)
  {
    var rest := EncodeAll(items);
    NotEmpty(i);
    InstructionDecoded(i, rest);
    hide Encode, Decode, Encodable, EncodeAll, DecodeAll;
    TakeFirst(Encode(i) + rest, n, i, rest, items);
  }

  /** A stream of instructions is read back as what was written. */
  lemma {:induction false} StreamDecoded(items: seq<Instr>, n: nat)
    requires |items| <= n && AllEncodable(items)
    ensures DecodeAll(EncodeAll(items), n) == Some(items)
    decreases |items|
  {
    hide Encode, Encodable, Decode, FormOk;
    if items == [] {
      return;
    }
    var first, rest := items[0], items[1..];
    StreamDecoded(rest, n - 1);
    assert EncodeAll(items) == Encode(first) + EncodeAll(rest) && [first] + rest == items;
    hide DecodeAll, EncodeAll, AllEncodable, AllOk;
    StreamCons(first, rest, n);
  }

  lemma TakeFirst(b: seq<Byte>, n: nat, i: Instr, rest: seq<Byte>, items: seq<Instr>)
    requires b != [] && n > 0 && Decode(b) == Ok(i, rest) && DecodeAll(rest, n - 1) == Some(items)
    ensures DecodeAll(b, n) == Some([i] + items)
  {
    hide Decode;
  }

  lemma NotEmpty(i: Instr)
    requires FormOk(i.form)
    ensures Encode(i) != []
  {
    hide Tail, Prefixes, RexBytes, Byte1, DispBytes;
  }

  /** So different streams have different bytes. */
  lemma StreamsDiffer(a: seq<Instr>, b: seq<Instr>)
    requires AllEncodable(a) && AllEncodable(b) && EncodeAll(a) == EncodeAll(b)
    ensures a == b
  {
    hide EncodeAll, DecodeAll, AllEncodable;
    StreamDecoded(a, |a| + |b|);
    StreamDecoded(b, |a| + |b|);
  }

  method EmitAll(items: seq<Instr>) returns (bytes: seq<Byte>)
    requires AllOk(items)
    ensures bytes == EncodeAll(items)
  {
    var writer := new ByteWriter();
    hide Encode;
    for k := 0 to |items|
      invariant AllOk(items[k..])
      invariant fresh(writer) && writer.bytes + EncodeAll(items[k..]) == EncodeAll(items)
    {
      assert items[k..][1..] == items[k + 1..];
      Assoc(writer.bytes, Encode(items[k]), EncodeAll(items[k + 1..]));
      writer.Perform(items[k]);
    }
    bytes := writer.bytes;
  }
}
