/** What the operators on machine words compute, said without the functions that define them:
    quotients and remainders by their equation, the rest modulo 2^64 or bit by bit. */
module Arithmetic {
  import opened Basics
  import opened Words

  // ----- division -----

  lemma AbsQuotient(a: int, b: int)
    requires b != 0
    ensures var q, r := Abs(a) / Abs(b), Abs(a) % Abs(b);
      Abs(a) == Abs(b) * q + r && 0 <= r < Abs(b) && q >= 0
  {
    NonNegativeQuotient(Abs(a), Abs(b));
  }

  lemma NonNegativeQuotient(a: nat, b: nat)
    requires b > 0
    ensures a / b >= 0
  {
  }

  /** The quotient rounds towards zero, and the remainder has the sign of the dividend. */
  lemma DivisionExactly(a: Word, b: Word)
    requires !Faults(Div, a, b)
    ensures b != 0 && !Faults(Mod, a, b)
    ensures var q, r := Compute(Div, a, b), Compute(Mod, a, b);
      a == b * q + r && Abs(r) < Abs(b) && (r == 0 || ((r < 0) == (a < 0)))
  {
    AbsQuotient(a, b);
    var n := Abs(a) / Abs(b);
    var q := TruncDiv(a, b);
    assert b * q == (if a < 0 then -(Abs(b) * n) else Abs(b) * n) by {
      if b < 0 {
        assert b * q == Abs(b) * -q;
      }
      assert Abs(b) * -n == -(Abs(b) * n);
    }
    WrapInside(a - b * q);
  }

  lemma WrapInside(v: int)
    requires InWord(v)
    ensures Wrap(v) == v
  {
  }

  /** There is only one such quotient and remainder. */
  lemma QuotientUnique(a: int, b: int, q: int, r: int, p: int, s: int)
    requires a == b * q + r && Abs(r) < Abs(b) && (r == 0 || ((r < 0) == (a < 0)))
    requires a == b * p + s && Abs(s) < Abs(b) && (s == 0 || ((s < 0) == (a < 0)))
    ensures q == p && r == s
  {
    var e := if b > 0 then q - p else p - q;
    assert Abs(b) * e == s - r;
    Stretched(Abs(b), e);
  }

  // ----- modulo 2^64 -----

  lemma WrapExactly(x: int)
    ensures InWord(Wrap(x)) && (Wrap(x) - x) % FULL == 0
  {
  }

  /** Sums, differences, products and negation wrap around. */
  lemma RingExactly(a: Word, b: Word)
    ensures (Compute(Add, a, b) - (a + b)) % FULL == 0
    ensures (Compute(Sub, a, b) - (a - b)) % FULL == 0
    ensures (Compute(Mul, a, b) - a * b) % FULL == 0
    ensures (Negate(a) + a) % FULL == 0
  {
    WrapExactly(a + b);
    WrapExactly(a - b);
    WrapExactly(a * b);
    WrapExactly(0 - a);
  }

  // ----- bit by bit -----

  predicate BitOf(u: nat, k: nat) {
    if k == 0 then u % 2 == 1 else BitOf(u / 2, k - 1)
  }

  predicate Combines(op: BinOp, x: bool, y: bool) {
    match op
    case BAnd => x && y
    case BOr => x || y
    case _ => x != y
  }

  lemma {:induction false} BitwiseBits(op: BinOp, x: nat, y: nat, width: nat, k: nat)
    requires k < width && (op.BAnd? || op.BOr? || op.BXor?)
    ensures BitOf(Bitwise(op, x, y, width), k) == Combines(op, BitOf(x, k), BitOf(y, k))
    decreases width
  {
    var rest := Bitwise(op, x / 2, y / 2, width - 1);
    var bit := Bit(op, x, y);
    assert (bit + 2 * rest) / 2 == rest && (bit + 2 * rest) % 2 == bit;
    if k > 0 {
      BitwiseBits(op, x / 2, y / 2, width - 1, k - 1);
    }
  }

  lemma {:induction false} BitwiseBelow(op: BinOp, x: nat, y: nat, width: nat)
    ensures Bitwise(op, x, y, width) < Pow2(width)
    decreases width
  {
    if width > 0 {
      BitwiseBelow(op, x / 2, y / 2, width - 1);
    }
  }

  lemma {:induction false} Pow2Sum(j: nat, k: nat)
    ensures Pow2(j + k) == Pow2(j) * Pow2(k)
    decreases j
  {
    if j > 0 {
      Pow2Sum(j - 1, k);
      assert Pow2(j) * Pow2(k) == 2 * (Pow2(j - 1) * Pow2(k));
    }
  }

  lemma Pow2Full()
    ensures Pow2(64) == FULL
  {
    assert Pow2(4) == 16;
    Pow2Sum(4, 4);
    Pow2Sum(8, 8);
    Pow2Sum(16, 16);
    Pow2Sum(32, 32);
  }

  lemma UnsignedWrap(u: nat)
    requires u < FULL
    ensures Unsigned(Wrap(u)) == u
  {
  }

  /** Each bit of a bitwise operation depends on that bit of the operands only. */
  lemma BitsExactly(op: BinOp, a: Word, b: Word, k: nat)
    requires (op.BAnd? || op.BOr? || op.BXor?) && k < 64
    ensures BitOf(Unsigned(Compute(op, a, b)), k) == Combines(op, BitOf(Unsigned(a), k), BitOf(Unsigned(b), k))
  {
    var u := Bitwise(op, Unsigned(a), Unsigned(b), 64);
    BitwiseBelow(op, Unsigned(a), Unsigned(b), 64);
    Pow2Full();
    UnsignedWrap(u);
    BitwiseBits(op, Unsigned(a), Unsigned(b), 64, k);
    hide Bitwise, BitOf, Pow2;
  }

  lemma {:induction false} FlippedBits(u: nat, v: nat, width: nat, k: nat)
    requires u + v == Pow2(width) - 1 && k < width
    ensures BitOf(v, k) == !BitOf(u, k)
    decreases width
  {
    assert u / 2 + v / 2 == Pow2(width - 1) - 1 && u % 2 + v % 2 == 1;
    if k > 0 {
      FlippedBits(u / 2, v / 2, width - 1, k - 1);
    }
  }

  lemma ComplementExactly(a: Word, k: nat)
    requires k < 64
    ensures BitOf(Unsigned(Complement(a)), k) == !BitOf(Unsigned(a), k)
  {
    Pow2Full();
    hide Pow2, BitOf;
    FlippedBits(Unsigned(a), Unsigned(Complement(a)), 64, k);
  }
}
