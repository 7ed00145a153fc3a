/** Small arithmetic shared by the models. */
module Numbers {
  function Min(a: int, b: int): int {
    if a < b then a else b
  }

  function Max(a: int, b: int): int {
    if a > b then a else b
  }

  function Abs(r: real): real {
    if r < 0.0 then -r else r
  }

  function Pow2(n: nat): nat {
    if n == 0 then 1 else 2 * Pow2(n - 1)
  }

  /** A product, to be hidden where only its bounds matter. */
  function Times(p: real, q: real): real {
    p * q
  }

  lemma {:induction false} Pow2Positive(n: nat)
    ensures Pow2(n) >= 1
  {
    if n > 0 {
      Pow2Positive(n - 1);
    }
  }

  lemma Positive(p: real, q: real)
    requires p > 0.0 && q > 0.0
    ensures p * q > 0.0
  {
  }

  lemma NonNegative(p: real, q: real)
    requires p >= 0.0 && q >= 0.0
    ensures p * q >= 0.0
  {
  }

  lemma Scale(f: real, p: real, q: real)
    requires f >= 0.0 && p <= q
    ensures f * p <= f * q
  {
  }

  /** A quotient by a positive number compares with 0 and 1 as its numerator does with 0 and the denominator. */
  lemma Quotient(n: real, d: real)
    requires d > 0.0
    ensures (n / d) * d == n
    ensures (n <= 0.0 ==> n / d <= 0.0) && (n >= 0.0 ==> n / d >= 0.0)
    ensures (n <= d ==> n / d <= 1.0) && (n >= d ==> n / d >= 1.0)
  {
    var q := n / d;
    assert q * d == n;
    if q > 1.0 {
      Positive(q - 1.0, d);
      assert (q - 1.0) * d == n - d;
    } else if q < 1.0 {
      Positive(1.0 - q, d);
      assert (1.0 - q) * d == d - n;
    }
  }
}
