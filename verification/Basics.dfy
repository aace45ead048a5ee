/** What several parts need of numbers and sequences. */
module Basics {
  function Max(a: nat, b: nat): nat {
    if a > b then a else b
  }

  function Pow2(k: nat): (r: nat)
    ensures r > 0
  {
    if k == 0 then 1 else 2 * Pow2(k - 1)
  }

  lemma NotNegative(a: int, b: int)
    requires a >= 0 && b >= 0
    ensures a * b >= 0
  {
  }

  /** A multiple of d other than zero is at least as far from zero as d. */
  lemma Stretched(d: nat, e: int)
    requires d > 0
    ensures e >= 1 ==> d * e >= d
    ensures e <= -1 ==> d * e + d <= 0
  {
    if e >= 1 {
      NotNegative(d, e - 1);
      assert d * e == d + d * (e - 1);
    } else if e <= -1 {
      NotNegative(d, -e - 1);
      assert d * -e == d + d * (-e - 1);
    }
  }

  lemma Assoc<T>(a: seq<T>, b: seq<T>, c: seq<T>)
    ensures (a + b) + c == a + (b + c)
  {
  }
}
