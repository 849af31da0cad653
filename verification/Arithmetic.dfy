/** Powers of two and floor division by them. */
module Arithmetic {

  function Pow2(e: nat): (p: nat)
    ensures p >= 1
  {
    if e == 0 then 1 else 2 * Pow2(e - 1)
  }

  /** `x >> e`. */
  function ShiftRight(x: nat, e: nat): (y: nat)
    ensures y <= x
  {
    if e == 0 then x else ShiftRight(x / 2, e - 1)
  }

  /** Floor division of naturals. */
  function Quotient(x: nat, d: nat): nat
    requires d > 0
  {
    x / d
  }

  lemma QuotientBounds(x: nat, d: nat)
    requires d > 0
    ensures d * Quotient(x, d) <= x < d * Quotient(x, d) + d
  {
    assert x == d * (x / d) + x % d;
  }

  lemma {:induction false} MultiplesApart(d: nat, a: nat, b: nat)
    ensures a < b ==> d * a + d <= d * b
    decreases b
  {
    if a < b {
      assert d * b == d * (b - 1) + d;
      MultiplesApart(d, a, b - 1);
    }
  }

  lemma QuotientUnique(x: nat, d: nat, q: nat)
    requires d > 0
    requires d * q <= x < d * q + d
    ensures Quotient(x, d) == q
  {
    QuotientBounds(x, d);
    MultiplesApart(d, Quotient(x, d), q);
    MultiplesApart(d, q, Quotient(x, d));
  }

  lemma QuotientMonotone(x: nat, y: nat, d: nat)
    requires d > 0 && x <= y
    ensures Quotient(x, d) <= Quotient(y, d)
  {
    QuotientBounds(x, d);
    QuotientBounds(y, d);
    MultiplesApart(d, Quotient(y, d), Quotient(x, d));
  }

  lemma QuotientPositive(x: nat, d: nat)
    requires 0 < d <= x
    ensures Quotient(x, d) > 0
  {
    QuotientMonotone(d, x, d);
    QuotientUnique(d, d, 1);
  }

  lemma QuotientOfHalf(x: nat, d: nat, q: nat)
    requires d > 0 && d * q <= x / 2 < d * q + d
    ensures Quotient(x, 2 * d) == q
  {
    assert 2 * (d * q) == (2 * d) * q;
    QuotientUnique(x, 2 * d, q);
  }

  /** Shifting is floor division by a power of two. */
  lemma {:induction false} ShiftIsQuotient(x: nat, e: nat)
    ensures ShiftRight(x, e) == Quotient(x, Pow2(e))
  {
    if e > 0 {
      ShiftIsQuotient(x / 2, e - 1);
      QuotientBounds(x / 2, Pow2(e - 1));
      QuotientOfHalf(x, Pow2(e - 1), ShiftRight(x / 2, e - 1));
    }
  }

  lemma {:induction false} Pow2Add(a: nat, b: nat)
    ensures Pow2(a + b) == Pow2(a) * Pow2(b)
  {
    if b > 0 {
      Pow2Add(a, b - 1);
      assert Pow2(a) * (2 * Pow2(b - 1)) == 2 * (Pow2(a) * Pow2(b - 1));
    }
  }

  lemma Pow2Values()
    ensures Pow2(8) == 256
    ensures Pow2(16) == 0x1_0000
    ensures Pow2(32) == 0x1_0000_0000
  {
    Pow2Add(4, 4);
    Pow2Add(8, 8);
    Pow2Add(16, 16);
  }

  lemma {:induction false} Pow2Monotone(a: nat, b: nat)
    requires a <= b
    ensures Pow2(a) <= Pow2(b)
  {
    if a < b {
      Pow2Monotone(a, b - 1);
    }
  }

  lemma {:induction false} ShiftToZero(x: nat, e: nat)
    requires x < Pow2(e)
    ensures ShiftRight(x, e) == 0
  {
    if e > 0 {
      ShiftToZero(x / 2, e - 1);
    }
  }
}
