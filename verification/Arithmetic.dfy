/** Small arithmetic shared by the models. */
module Arithmetic {
  function Least(a: nat, b: nat): nat {
    if a <= b then a else b
  }

  function Pow2(n: nat): (p: nat)
    ensures p >= 1
  {
    if n == 0 then 1 else 2 * Pow2(n - 1)
  }

  lemma {:induction false} NextMultiple(d: nat, a: nat, b: nat)
    ensures a < b ==> d * a + d <= d * b
    decreases b
  {
    if b > 0 {
      NextMultiple(d, a, b - 1);
      assert d * b == d * (b - 1) + d;
    }
  }

  lemma {:induction false} QuotientIs(x: nat, d: nat, q: nat)
    requires d > 0 && d * q <= x < d * q + d
    ensures x / d == q
  {
    var k := x / d;
    assert x == d * k + x % d;
    NextMultiple(d, k, q);
    NextMultiple(d, q, k);
  }

  /** Having the same quotient is lying in the same run of `d` numbers. */
  lemma {:induction false} SameQuotient(x: nat, y: nat, d: nat)
    requires d > 0
    ensures x / d == y / d <==> y / d * d <= x < y / d * d + d
  {
    var q := y / d;
    assert q * d == d * q;
    if d * q <= x < d * q + d {
      QuotientIs(x, d, q);
    }
  }

  /** Halving first and then dividing is dividing by twice as much. */
  lemma {:induction false} HalfThenDivide(x: nat, d: nat)
    requires d > 0
    ensures x / 2 / d == x / (2 * d)
  {
    var h := x / 2;
    var q := h / d;
    assert d * q <= h < d * q + d;
    assert 2 * d * q == 2 * (d * q);
    QuotientIs(x, 2 * d, q);
  }

  lemma {:induction false} HalveRemainder(x: nat, d: nat)
    requires d > 0
    ensures x % (2 * d) / 2 == x / 2 % d
    ensures x % (2 * d) % 2 == x % 2
  {
    var q := x / (2 * d);
    HalfThenDivide(x, d);
    assert x == 2 * d * q + x % (2 * d);
    assert 2 * d * q == 2 * (d * q);
  }

  lemma {:induction false} Pow2Add(m: nat, n: nat)
    ensures Pow2(m + n) == Pow2(m) * Pow2(n)
    decreases m
  {
    if m > 0 {
      Pow2Add(m - 1, n);
    }
  }
}
