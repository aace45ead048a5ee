/** The machine word: a signed 64-bit integer with two's complement wrap-around,
    and the arithmetic that both the source language and the processor use. */
module Words {

  const HALF: int := 0x8000_0000_0000_0000
  const FULL: int := 0x1_0000_0000_0000_0000

  type Word = x: int | -HALF <= x < HALF

  predicate InWord(x: int) {
    -HALF <= x < HALF
  }

  function Wrap(x: int): Word {
    (x + HALF) % FULL - HALF
  }

  function Unsigned(x: Word): nat {
    if x < 0 then x + FULL else x
  }

  function Truth(b: bool): Word {
    if b then 1 else 0
  }

  function Abs(x: int): nat {
    if x < 0 then -x else x
  }

  /** Division truncating towards zero, as C and idiv have it. */
  function TruncDiv(a: int, b: int): int
    requires b != 0
  {
    if (a < 0) == (b < 0) then Abs(a) / Abs(b) else -(Abs(a) / Abs(b))
  }

  datatype BinOp = Add | Sub | Mul | Div | Mod | BAnd | BOr | BXor | Eq | Ne | Lt | Le | Gt | Ge

  /** One bit of a bitwise operation, on the low bits of x and y. */
  function Bit(op: BinOp, x: nat, y: nat): nat {
    match op
    case BAnd => if x % 2 == 1 && y % 2 == 1 then 1 else 0
    case BOr => if x % 2 == 1 || y % 2 == 1 then 1 else 0
    case _ => if x % 2 != y % 2 then 1 else 0
  }

  function Bitwise(op: BinOp, x: nat, y: nat, width: nat): nat {
    if width == 0 then 0 else Bit(op, x, y) + 2 * Bitwise(op, x / 2, y / 2, width - 1)
  }

  /** Division faults on a zero divisor and on a quotient that does not fit. */
  predicate Faults(op: BinOp, a: Word, b: Word) {
    (op.Div? || op.Mod?) && (b == 0 || !InWord(TruncDiv(a, b)))
  }

  function Compute(op: BinOp, a: Word, b: Word): Word
    requires !Faults(op, a, b)
  {
    match op
    case Add => Wrap(a + b)
    case Sub => Wrap(a - b)
    case Mul => Wrap(a * b)
    case Div => TruncDiv(a, b)
    case Mod => Wrap(a - b * TruncDiv(a, b))
    case BAnd => Wrap(Bitwise(op, Unsigned(a), Unsigned(b), 64))
    case BOr => Wrap(Bitwise(op, Unsigned(a), Unsigned(b), 64))
    case BXor => Wrap(Bitwise(op, Unsigned(a), Unsigned(b), 64))
    case Eq => Truth(a == b)
    case Ne => Truth(a != b)
    case Lt => Truth(a < b)
    case Le => Truth(a <= b)
    case Gt => Truth(a > b)
    case Ge => Truth(a >= b)
  }

  function Negate(a: Word): Word {
    Wrap(0 - a)
  }

  function Complement(a: Word): Word {
    -1 - a
  }

  lemma QuotientBound(a: nat, b: nat)
    requires b > 0
    ensures a / b <= a
    ensures b >= 2 && a > 0 ==> a / b < a
  {
    var q := a / b;
    assert a == b * q + a % b;
    if q > 0 {
      Grows(b, q);
    }
  }

  lemma Grows(b: int, q: int)
    requires b > 0 && q > 0
    ensures b * q >= q
    ensures b >= 2 ==> b * q >= 2 * q
  {
    assert b * q == (b - 1) * q + q;
    assert (b - 1) * q >= 0;
    if b >= 2 {
      assert b * q == (b - 2) * q + 2 * q;
      assert (b - 2) * q >= 0;
    }
  }

  /** A signed 64-bit division faults on exactly two kinds of operands. */
  lemma FaultsExactly(op: BinOp, a: Word, b: Word)
    requires op.Div? || op.Mod?
    ensures Faults(op, a, b) <==> b == 0 || (a == -HALF && b == -1)
  {
    if b != 0 {
      QuotientBound(Abs(a), Abs(b));
      if Abs(b) == 1 {
        assert Abs(a) / Abs(b) == Abs(a);
      }
    }
  }
}
