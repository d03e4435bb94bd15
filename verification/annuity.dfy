/** The French-system constant payment (`annuity_payment`) and the
    balance recurrence it is designed to clear. */
module Annuity {
  import opened Numerics

  /** Rates whose magnitude is below this threshold take the straight-line
      branch of the payment formula. */
  const Eps: real := 0.000000000000001

  /** The payment formula neither divides by a zero term count nor by a
      vanishing `(1 + r) ** n - 1`. */
  predicate PaymentDefined(r: real, n: nat)
  {
    n > 0 && (Abs(r) < Eps || Pow(1.0 + r, n) != 1.0)
  }

  /** The constant monthly payment that repays `principal` over `n` months at
      monthly rate `r`; a rate indistinguishable from zero repays in equal
      principal parts. */
  function Payment(principal: real, r: real, n: nat): (a: real)
    requires PaymentDefined(r, n)
    ensures Abs(r) < Eps ==> a * (n as real) == principal
    ensures Abs(r) >= Eps ==> a * (Pow(1.0 + r, n) - 1.0) == principal * r * Pow(1.0 + r, n)
    ensures principal > 0.0 && r >= Eps ==> a > principal * r
  {
    if Abs(r) < Eps then
      principal / (n as real)
    else
      var x := Pow(1.0 + r, n);
      assert principal > 0.0 && r >= Eps ==> principal * (r * x) / (x - 1.0) > principal * r by {
        if principal > 0.0 && r >= Eps {
          PowAboveOne(1.0 + r, n);
          PaymentCoversInterest(principal, r, x);
        }
      }
      principal * (r * x) / (x - 1.0)
  }

  /** For a positive principal and rate the annuity quotient exceeds the
      first month's interest; `x` stands for `(1 + r) ** n`. */
  lemma PaymentCoversInterest(principal: real, r: real, x: real)
    requires principal > 0.0 && r > 0.0 && x > 1.0
    ensures principal * (r * x) / (x - 1.0) > principal * r
  {
    var a := principal * (r * x) / (x - 1.0);
    var d := a - principal * r;
    assert d * (x - 1.0) == principal * r;
  }

  /** Every rate above -1 keeps the formula defined for a positive term; in
      particular every rate the solver tries (all of them non-negative). */
  lemma PaymentDefinedAboveMinusOne(r: real, n: nat)
    requires n > 0 && r > -1.0
    ensures PaymentDefined(r, n)
  {
    if Abs(r) >= Eps {
      if r > 0.0 {
        PowAboveOne(1.0 + r, n);
      } else {
        PowBelowOne(1.0 + r, n);
      }
    }
  }

  /** One month of amortization: the part of the payment `a` left after the
      month's interest `b * r` repays principal. */
  function Amortize(b: real, r: real, a: real): real
  {
    b - (a - b * r)
  }

  /** The balance after `k` months of amortization, with no clamping. */
  function Roll(b: real, r: real, a: real, k: nat): real
    decreases k
  {
    if k == 0 then b else Roll(Amortize(b, r, a), r, a, k - 1)
  }

  /** Closed form of the balance recurrence, scaled by the rate:
      `r * B_k == r * b * (1 + r) ** k - a * ((1 + r) ** k - 1)`. */
  lemma {:induction false} RollClosedForm(b: real, r: real, a: real, k: nat)
    ensures r * Roll(b, r, a, k) == r * b * Pow(1.0 + r, k) - a * (Pow(1.0 + r, k) - 1.0)
    decreases k
  {
    if k > 0 {
      var b' := Amortize(b, r, a);
      RollClosedForm(b', r, a, k - 1);
      var q := Pow(1.0 + r, k - 1);
      assert Pow(1.0 + r, k) == (1.0 + r) * q;
      assert r * b' * q == r * b * ((1.0 + r) * q) - r * a * q;
    }
  }

  /** At rate zero the balance falls by the payment each month. */
  lemma {:induction false} RollAtZeroRate(b: real, a: real, k: nat)
    ensures Roll(b, 0.0, a, k) == b - (k as real) * a
    decreases k
  {
    if k > 0 {
      RollAtZeroRate(Amortize(b, 0.0, a), a, k - 1);
    }
  }

  /** The payment clears the loan: rolling the principal forward for the
      whole term at the payment's own rate leaves exactly nothing owed.
      A rate strictly between zero and the threshold is excluded: there the
      straight-line payment ignores interest that is in fact charged. */
  lemma PaymentAmortizes(principal: real, r: real, n: nat)
    requires PaymentDefined(r, n)
    requires r == 0.0 || Abs(r) >= Eps
    ensures Roll(principal, r, Payment(principal, r, n), n) == 0.0
  {
    var a := Payment(principal, r, n);
    if r == 0.0 {
      RollAtZeroRate(principal, a, n);
    } else {
      RollClosedForm(principal, r, a, n);
      var x := Pow(1.0 + r, n);
      assert a * (x - 1.0) == principal * r * x;
      assert r * Roll(principal, r, a, n) == 0.0;
    }
  }

  /** Rolling `k + 1` months is rolling `k` months and amortizing once more. */
  lemma {:induction false} RollStep(b: real, r: real, a: real, k: nat)
    ensures Roll(b, r, a, k + 1) == Amortize(Roll(b, r, a, k), r, a)
    decreases k
  {
    if k > 0 {
      RollStep(Amortize(b, r, a), r, a, k - 1);
    }
  }

  /** A non-negative principal at a non-negative rate has a non-negative
      payment. */
  lemma PaymentNonNegative(principal: real, r: real, n: nat)
    requires PaymentDefined(r, n) && principal >= 0.0 && r >= 0.0
    ensures Payment(principal, r, n) >= 0.0
  {
    var a := Payment(principal, r, n);
    if Abs(r) >= Eps {
      var x := Pow(1.0 + r, n);
      PowAboveOne(1.0 + r, n);
      NonNegativeRatio(a, x - 1.0, principal * r * x);
    } else {
      NonNegativeRatio(a, n as real, principal);
    }
  }

  /** A value that a positive factor scales to a non-negative product is
      itself non-negative. */
  lemma NonNegativeRatio(a: real, d: real, p: real)
    requires d > 0.0 && a * d == p && p >= 0.0
    ensures a >= 0.0
  {
  }

  /** Under the payment's own rate the balance never drops below zero before
      the term ends (zero rate, or a rate at or above the threshold). */
  lemma RollStaysNonNegative(principal: real, r: real, n: nat, k: nat)
    requires PaymentDefined(r, n) && principal >= 0.0 && k <= n
    requires r == 0.0 || r >= Eps
    ensures Roll(principal, r, Payment(principal, r, n), k) >= 0.0
  {
    var a := Payment(principal, r, n);
    if r == 0.0 {
      PaymentNonNegative(principal, r, n);
      RollNonNegativeAtZeroRate(principal, a, n, k);
    } else {
      RollNonNegativeAtPositiveRate(principal, r, a, n, k);
    }
  }

  /** `RollStaysNonNegative` for a positive rate, for any payment `a`
      satisfying the annuity equation. */
  lemma RollNonNegativeAtPositiveRate(principal: real, r: real, a: real, n: nat, k: nat)
    requires principal >= 0.0 && r > 0.0 && 0 < n && k <= n
    requires a * (Pow(1.0 + r, n) - 1.0) == principal * r * Pow(1.0 + r, n)
    ensures Roll(principal, r, a, k) >= 0.0
  {
    var b := Roll(principal, r, a, k);
    var xn := Pow(1.0 + r, n);
    var xk := Pow(1.0 + r, k);
    assert r * b == r * principal * xk - a * (xk - 1.0) by {
      RollClosedForm(principal, r, a, k);
    }
    assert xn > 1.0 && 1.0 <= xk <= xn by {
      PowAboveOne(1.0 + r, n);
      PowMonotoneInExponent(1.0 + r, k, n);
    }
    BalanceSign(principal, r, a, b, xn, xk);
  }

  /** `RollStaysNonNegative` at rate zero: equal non-negative parts `a`
      making up `principal` over `n` months. */
  lemma RollNonNegativeAtZeroRate(principal: real, a: real, n: nat, k: nat)
    requires a >= 0.0 && a * (n as real) == principal && k <= n
    ensures Roll(principal, 0.0, a, k) >= 0.0
  {
    RollAtZeroRate(principal, a, k);
    assert principal - (k as real) * a == ((n - k) as real) * a;
  }

  /** The algebra behind `RollStaysNonNegative` for a positive rate, with
      `xn` and `xk` standing for `(1 + r) ** n` and `(1 + r) ** k`:
      `(xn - 1) * r * b == r * P * (xn - xk)`. */
  lemma BalanceSign(principal: real, r: real, a: real, b: real, xn: real, xk: real)
    requires principal >= 0.0 && r > 0.0 && xn > 1.0 && 1.0 <= xk <= xn
    requires r * b == r * principal * xk - a * (xk - 1.0)
    requires a * (xn - 1.0) == principal * r * xn
    ensures b >= 0.0
  {
    var d := xn - 1.0;
    assert d * (r * b) == d * (r * principal * xk) - (a * d) * (xk - 1.0);
    assert (a * d) * (xk - 1.0) == principal * r * (xn * (xk - 1.0));
    assert d * (r * b) == principal * r * (xn - xk);
    NonNegativeRatio(b, d * r, principal * r * (xn - xk));
  }
}
