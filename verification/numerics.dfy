/** Real-valued arithmetic shared by the pricing model: integer powers,
    sums of sequences, absolute value and the maximum of two values.
    Every quantity of the pricing engine is modelled over `real`, so these
    are the exact mathematical counterparts of the floating-point operations
    of `price_rate_and_payment`. */
module Numerics {

  /** `x ** n` for a natural exponent, as repeated multiplication. */
  function Pow(x: real, n: nat): real
    decreases n
  {
    if n == 0 then 1.0 else x * Pow(x, n - 1)
  }

  function Abs(x: real): (a: real)
    ensures a >= 0.0
    ensures a == x || a == -x
  {
    if x < 0.0 then -x else x
  }

  function Max(a: real, b: real): (m: real)
    ensures m >= a && m >= b
    ensures m == a || m == b
  {
    if a >= b then a else b
  }

  /** The sum of a sequence, added from the front. */
  function Sum(s: seq<real>): real
    decreases |s|
  {
    if |s| == 0 then 0.0 else s[0] + Sum(s[1..])
  }

  /** A power of a base of at least one is at least one. */
  lemma {:induction false} PowAtLeastOne(x: real, n: nat)
    requires x >= 1.0
    ensures Pow(x, n) >= 1.0
    decreases n
  {
    if n > 0 {
      PowAtLeastOne(x, n - 1);
      assert x * Pow(x, n - 1) >= Pow(x, n - 1);
    }
  }

  /** A power of a positive base is positive. */
  lemma {:induction false} PowPositive(x: real, n: nat)
    requires x > 0.0
    ensures Pow(x, n) > 0.0
    decreases n
  {
    if n > 0 {
      PowPositive(x, n - 1);
    }
  }

  /** A positive power of a base above one is above one. */
  lemma {:induction false} PowAboveOne(x: real, n: nat)
    requires x > 1.0 && n > 0
    ensures Pow(x, n) > 1.0
    decreases n
  {
    PowAtLeastOne(x, n - 1);
    assert x * Pow(x, n - 1) > Pow(x, n - 1);
  }

  /** A positive power of a base strictly between zero and one stays below one. */
  lemma {:induction false} PowBelowOne(x: real, n: nat)
    requires 0.0 < x < 1.0 && n > 0
    ensures 0.0 < Pow(x, n) < 1.0
    decreases n
  {
    if n > 1 {
      PowBelowOne(x, n - 1);
      assert x * Pow(x, n - 1) < Pow(x, n - 1);
    }
  }

  /** Bernoulli's inequality for a non-negative increment:
      `(1 + r) ** n >= 1 + n * r`. */
  lemma {:induction false} Bernoulli(r: real, n: nat)
    requires r >= 0.0
    ensures Pow(1.0 + r, n) >= 1.0 + (n as real) * r
    decreases n
  {
    if n > 0 {
      Bernoulli(r, n - 1);
      var p := Pow(1.0 + r, n - 1);
      assert Pow(1.0 + r, n) == p + r * p;
      var m := (n - 1) as real;
      assert p >= 1.0 + m * r;
      assert r * p >= r * (1.0 + m * r) >= r;
      assert (n as real) * r == m * r + r;
      assert p + r * p >= 1.0 + m * r + r;
    } else {
      assert Pow(1.0 + r, n) == 1.0;
    }
  }

  /** For a base of at least one, a larger exponent gives a larger power. */
  lemma {:induction false} PowMonotoneInExponent(x: real, k: nat, n: nat)
    requires x >= 1.0 && k <= n
    ensures 1.0 <= Pow(x, k) <= Pow(x, n)
    decreases n - k
  {
    if k < n {
      PowMonotoneInExponent(x, k, n - 1);
      var q := Pow(x, n - 1);
      ScaleByAtLeastOne(q, x);
      assert Pow(x, n) == x * q;
    } else {
      PowAtLeastOne(x, k);
    }
  }

  /** Scaling a non-negative number by at least one never lowers it. */
  lemma ScaleByAtLeastOne(p: real, q: real)
    requires p >= 0.0 && q >= 1.0
    ensures p * q >= p
  {
  }

  /** Powers of non-negative bases keep the order of the bases. */
  lemma {:induction false} PowMonotoneInBase(x: real, y: real, n: nat)
    requires 0.0 <= x <= y
    ensures 0.0 <= Pow(x, n) <= Pow(y, n)
    decreases n
  {
    if n > 0 {
      PowMonotoneInBase(x, y, n - 1);
      ProductMonotone(x, Pow(x, n - 1), y, Pow(y, n - 1));
    }
  }

  /** Products of non-negative numbers keep the order of their factors. */
  lemma ProductMonotone(a: real, b: real, c: real, d: real)
    requires 0.0 <= a <= c && 0.0 <= b <= d
    ensures 0.0 <= a * b <= c * d
  {
  }

  /** Dividing a non-negative number by at least one never raises it. */
  lemma DivideByAtLeastOne(x: real, d: real)
    requires x >= 0.0 && d >= 1.0
    ensures 0.0 <= x / d <= x
  {
    var q := x / d;
    assert q * d == x;
    ScaleByAtLeastOne(q, d);
  }
}
