/** Root finding by bisection with a doubling search for the upper end of
    the bracket (`find_rate_bisection`). The function searched is any total
    function on the reals; evaluation has no side effects, so the value at
    the lower end that `find_rate_bisection` carries along is recomputable
    and is kept in the bracket only to mirror the loop's state. */
module Bisection {
  import opened Numerics
  import opened Outcomes

  /** Number of halving steps the search is allowed. */
  const MaxSteps: nat := 200

  /** The halving loop's state: the interval and the function's value at its
      lower end. */
  datatype Bracket = Bracket(low: real, fLow: real, high: real)

  /** `x * 2 ** k`, doubling `k` times. */
  function Doubled(x: real, k: nat): real
    decreases k
  {
    if k == 0 then x else 2.0 * Doubled(x, k - 1)
  }

  /** `x / 2 ** k`, halving `k` times. */
  function Halved(x: real, k: nat): real
    decreases k
  {
    if k == 0 then x else Halved(x, k - 1) / 2.0
  }

  function Mid(b: Bracket): real
  {
    0.5 * (b.low + b.high)
  }

  function Width(b: Bracket): real
  {
    b.high - b.low
  }

  /** `a` and `b` are both strictly positive or both strictly negative: the
      test `a * b > 0` of `find_rate_bisection`. */
  predicate SameSign(a: real, b: real)
  {
    a * b > 0.0
  }

  /** `b` is an ordered interval whose ends do not have the same strict
      sign under `f`, with `fLow` the true value at the lower end. */
  predicate Brackets(f: real -> real, b: Bracket)
  {
    b.low <= b.high && b.fLow == f(b.low) && !SameSign(b.fLow, f(b.high))
  }

  /** If `a` has the strict sign of `b`, and `b` and `c` do not share a
      strict sign, then neither do `a` and `c`. */
  lemma SignTransfer(a: real, b: real, c: real)
    requires SameSign(a, b) && !SameSign(b, c)
    ensures !SameSign(a, c)
  {
  }

  /** One halving: keep the half whose ends still change sign. */
  function Step(f: real -> real, b: Bracket): (b': Bracket)
    ensures Width(b') == Width(b) / 2.0
    ensures b.low <= b.high ==> b.low <= b'.low <= Mid(b) <= b'.high <= b.high
    ensures b'.low == Mid(b) || b'.high == Mid(b)
    ensures Brackets(f, b) ==> Brackets(f, b')
  {
    var mid := Mid(b);
    var fMid := f(mid);
    if SameSign(fMid, b.fLow) then
      assert Brackets(f, b) ==> !SameSign(fMid, f(b.high)) by {
        if Brackets(f, b) {
          SignTransfer(fMid, b.fLow, f(b.high));
        }
      }
      Bracket(mid, fMid, b.high)
    else
      Bracket(b.low, b.fLow, mid)
  }

  /** The bracket after `k` halvings that did not stop early. */
  function Halve(f: real -> real, b: Bracket, k: nat): Bracket
    decreases k
  {
    if k == 0 then b else Halve(f, Step(f, b), k - 1)
  }

  /** Every halving keeps a sign-changing bracket inside the original one and
      the width after `k` halvings is the original width halved `k` times. */
  lemma {:induction false} HalvingKeepsBracket(f: real -> real, b: Bracket, k: nat)
    requires Brackets(f, b)
    ensures Brackets(f, Halve(f, b, k))
    ensures b.low <= Halve(f, b, k).low && Halve(f, b, k).high <= b.high
    ensures Width(Halve(f, b, k)) == Halved(Width(b), k)
    decreases k
  {
    if k > 0 {
      var s := Step(f, b);
      HalvingKeepsBracket(f, s, k - 1);
      HalvedShift(Width(b), k - 1);
    }
  }

  /** Halving once and then `k` more times is halving `k + 1` times. */
  lemma {:induction false} HalvedShift(x: real, k: nat)
    ensures Halved(x / 2.0, k) == Halved(x, k + 1)
    decreases k
  {
    if k > 0 {
      HalvedShift(x, k - 1);
    }
  }

  /** Doubling once and then `k` more times is doubling `k + 1` times. */
  lemma {:induction false} DoubledShift(x: real, k: nat)
    ensures Doubled(2.0 * x, k) == Doubled(x, k + 1)
    decreases k
  {
    if k > 0 {
      DoubledShift(x, k - 1);
    }
  }

  /** Doubling a non-negative value never decreases it. */
  lemma {:induction false} DoubledGrows(x: real, k: nat)
    ensures x >= 0.0 ==> Doubled(x, k) >= x
    decreases k
  {
    if k > 0 {
      DoubledGrows(x, k - 1);
    }
  }

  /** `r` is the midpoint after `k` halvings for some `k < steps`, no
      earlier midpoint has a value within `tol` of zero, and `r`'s value is
      within `tol` of zero unless it is the last midpoint allowed. */
  ghost predicate FirstWithinTol(f: real -> real, b: Bracket, steps: nat, tol: real, r: real)
  {
    exists k :: 0 <= k < steps && r == Mid(Halve(f, b, k))
      && (Abs(f(r)) < tol || k == steps - 1)
      && forall j :: 0 <= j < k ==> Abs(f(Mid(Halve(f, b, j)))) >= tol
  }

  /** A midpoint found after one more halving is found first from the
      original bracket too, when the original midpoint missed. */
  lemma FirstWithinTolStep(f: real -> real, b: Bracket, steps: nat, tol: real, r: real)
    requires steps >= 2 && Abs(f(Mid(b))) >= tol
    requires FirstWithinTol(f, Step(f, b), steps - 1, tol, r)
    ensures FirstWithinTol(f, b, steps, tol, r)
  {
    var s := Step(f, b);
    var k :| 0 <= k < steps - 1 && r == Mid(Halve(f, s, k))
      && (Abs(f(r)) < tol || k == steps - 2)
      && forall j :: 0 <= j < k ==> Abs(f(Mid(Halve(f, s, j)))) >= tol;
    assert Halve(f, b, k + 1) == Halve(f, s, k);
    forall j | 0 <= j < k + 1
      ensures Abs(f(Mid(Halve(f, b, j)))) >= tol
    {
      if j > 0 {
        assert Halve(f, b, j) == Halve(f, s, j - 1);
      }
    }
  }

  /** The halving loop: stop at the first midpoint whose value is within
      `tol` of zero, or return the last midpoint when the steps run out. */
  function Bisect(f: real -> real, b: Bracket, steps: nat, tol: real): (r: real)
    requires steps >= 1
    ensures b.low <= b.high ==> b.low <= r <= b.high
    ensures Abs(f(r)) < tol || r == Mid(Halve(f, b, steps - 1))
    ensures FirstWithinTol(f, b, steps, tol, r)
    decreases steps
  {
    var mid := Mid(b);
    if Abs(f(mid)) < tol || steps == 1 then
      assert Halve(f, b, 0) == b;
      mid
    else
      var r := Bisect(f, Step(f, b), steps - 1, tol);
      FirstWithinTolStep(f, b, steps, tol, r);
      r
  }

  /** `h` is `high` doubled `k` times for some `k <= budget`, every earlier
      upper end has the strict sign of `fLow`, and `h` does not unless the
      budget ran out. */
  ghost predicate FirstSignChange(f: real -> real, fLow: real, high: real, budget: nat, h: real)
  {
    exists k :: 0 <= k <= budget && h == Doubled(high, k)
      && (k < budget ==> !SameSign(fLow, f(h)))
      && forall j :: 0 <= j < k ==> SameSign(fLow, f(Doubled(high, j)))
  }

  /** An upper end reached by doubling once more from `2 * high` is reached
      first from `high` too, when `high` showed no sign change. */
  lemma FirstSignChangeStep(f: real -> real, fLow: real, high: real, budget: nat, h: real)
    requires budget >= 1 && SameSign(fLow, f(high))
    requires FirstSignChange(f, fLow, 2.0 * high, budget - 1, h)
    ensures FirstSignChange(f, fLow, high, budget, h)
  {
    var twice := 2.0 * high;
    var k :| 0 <= k <= budget - 1 && h == Doubled(twice, k)
      && (k < budget - 1 ==> !SameSign(fLow, f(h)))
      && forall j :: 0 <= j < k ==> SameSign(fLow, f(Doubled(twice, j)));
    DoubledShift(high, k);
    forall j | 0 <= j < k + 1
      ensures SameSign(fLow, f(Doubled(high, j)))
    {
      if j > 0 {
        DoubledShift(high, j - 1);
      }
    }
  }

  /** A doubling search that stopped without a sign change tried every end
      of its budget, and none of them changed sign. */
  lemma NoSignChangeFound(f: real -> real, fLow: real, high: real, budget: nat, h: real)
    requires FirstSignChange(f, fLow, high, budget, h) && SameSign(fLow, f(h))
    ensures forall j :: 0 <= j <= budget ==> SameSign(fLow, f(Doubled(high, j)))
  {
    var k :| 0 <= k <= budget && h == Doubled(high, k)
      && (k < budget ==> !SameSign(fLow, f(h)))
      && forall j :: 0 <= j < k ==> SameSign(fLow, f(Doubled(high, j)));
    assert k == budget;
  }

  /** The doubling search: double `high` while both ends share a strict sign,
      at most `budget` times, and return the last upper end tried. */
  function Expand(f: real -> real, fLow: real, high: real, budget: nat): (h: real)
    ensures !SameSign(fLow, f(high)) ==> h == high
    ensures SameSign(fLow, f(h)) ==> h == Doubled(high, budget)
    ensures high >= 0.0 ==> high <= h <= Doubled(high, budget)
    ensures FirstSignChange(f, fLow, high, budget, h)
    decreases budget
  {
    if SameSign(fLow, f(high)) && budget > 0 then
      DoubledShift(high, budget - 1);
      var h := Expand(f, fLow, 2.0 * high, budget - 1);
      FirstSignChangeStep(f, fLow, high, budget, h);
      h
    else
      DoubledGrows(high, budget);
      assert Doubled(high, 0) == high;
      high
  }

  /** `find_rate_bisection`: `low` itself when its value is within `tol` of
      zero; otherwise `None` when no sign change is found within the doubling
      budget, and the bisection result on the bracket found when one is. */
  function FindRate(f: real -> real, low: real, high: real, maxAttempts: nat, tol: real): (r: Option<real>)
    ensures Abs(f(low)) < tol ==> r == Some(low)
    ensures Abs(f(low)) >= tol ==>
      (r.None? <==> SameSign(f(low), f(Expand(f, f(low), high, maxAttempts))))
    ensures r.None? ==> SameSign(f(low), f(Doubled(high, maxAttempts)))
    ensures r.None? ==>
      Abs(f(low)) >= tol && forall j :: 0 <= j <= maxAttempts ==> SameSign(f(low), f(Doubled(high, j)))
    ensures low <= high && !SameSign(f(low), f(high)) ==> r.Some?
    ensures 0.0 <= low <= high && r.Some? ==> low <= r.value <= Doubled(high, maxAttempts)
  {
    var fLow := f(low);
    if Abs(fLow) < tol then
      DoubledGrows(high, maxAttempts);
      Some(low)
    else
      var top := Expand(f, fLow, high, maxAttempts);
      if SameSign(fLow, f(top)) then
        NoSignChangeFound(f, fLow, high, maxAttempts, top);
        None
      else
        Some(Bisect(f, Bracket(low, fLow, top), MaxSteps, tol))
  }

  /** A rate found after the first test failed, and whose own value is not
      within `tol` of zero, lies in a sign-changing bracket nested in
      `[low, top]` and halved `MaxSteps - 1` times. */
  lemma FoundRateIsBracketed(f: real -> real, low: real, high: real, maxAttempts: nat, tol: real)
    requires 0.0 <= low <= high && Abs(f(low)) >= tol
    requires FindRate(f, low, high, maxAttempts, tol).Some?
    requires Abs(f(FindRate(f, low, high, maxAttempts, tol).value)) >= tol
    ensures var r := FindRate(f, low, high, maxAttempts, tol).value;
      var top := Expand(f, f(low), high, maxAttempts);
      var first := Bracket(low, f(low), top);
      var last := Halve(f, first, MaxSteps - 1);
      && Brackets(f, last) && last.low <= r <= last.high
      && low <= last.low && last.high <= top
      && Width(last) == Halved(Width(first), MaxSteps - 1)
  {
    var top := Expand(f, f(low), high, maxAttempts);
    var b := Bracket(low, f(low), top);
    assert FindRate(f, low, high, maxAttempts, tol).value == Bisect(f, b, MaxSteps, tol);
    BisectStaysBracketed(f, b, MaxSteps, tol);
  }

  /** When the halving loop does not stop at a value within `tol` of zero,
      it ends on the midpoint of a sign-changing bracket nested in the first
      one and halved `steps - 1` times. */
  lemma BisectStaysBracketed(f: real -> real, b: Bracket, steps: nat, tol: real)
    requires Brackets(f, b) && steps >= 1
    requires Abs(f(Bisect(f, b, steps, tol))) >= tol
    ensures Brackets(f, Halve(f, b, steps - 1))
    ensures Halve(f, b, steps - 1).low <= Bisect(f, b, steps, tol) <= Halve(f, b, steps - 1).high
    ensures b.low <= Halve(f, b, steps - 1).low && Halve(f, b, steps - 1).high <= b.high
    ensures Width(Halve(f, b, steps - 1)) == Halved(Width(b), steps - 1)
  {
    HalvingKeepsBracket(f, b, steps - 1);
  }
}
