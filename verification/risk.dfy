/** Expected loss of each applicant from the three model predictions
    (probability of default, exposure at default, loss given default): each
    prediction is clipped to `[0, 1]`, the expected loss is their product and
    its amount in euros is that product times the principal. The predictors
    themselves are not modelled; their outputs are the inputs here. */
module RiskEstimate {
  import opened Outcomes
  import Pricing

  /** The model outputs for one applicant, before clipping. */
  datatype Prediction = Prediction(principal: real, pd: real, ead: real, lgd: real)

  /** One row of the expected-loss table. */
  datatype LossEstimate = LossEstimate(
    principal: real,
    pd: real,
    ead: real,
    lgd: real,
    expectedLoss: real,
    expectedLossEuro: real)

  /** `x` limited to the interval `[0, 1]`. */
  function Clip01(x: real): (c: real)
    ensures 0.0 <= c <= 1.0
    ensures 0.0 <= x <= 1.0 ==> c == x
    ensures x < 0.0 ==> c == 0.0
    ensures x > 1.0 ==> c == 1.0
  {
    if x < 0.0 then 0.0 else if x > 1.0 then 1.0 else x
  }

  /** Clipping twice is clipping once. */
  lemma ClipIdempotent(x: real)
    ensures Clip01(Clip01(x)) == Clip01(x)
  {
  }

  /** Clipping keeps the order of its arguments. */
  lemma ClipMonotone(x: real, y: real)
    requires x <= y
    ensures Clip01(x) <= Clip01(y)
  {
  }

  /** The expected-loss row of one applicant. The loss rate is a probability
      no larger than any of its three factors, and the amount in euros lies
      between zero and the principal. */
  function Estimate(p: Prediction): (e: LossEstimate)
    ensures e.principal == p.principal
    ensures e.pd == Clip01(p.pd) && e.ead == Clip01(p.ead) && e.lgd == Clip01(p.lgd)
    ensures e.expectedLoss == e.pd * e.ead * e.lgd
    ensures 0.0 <= e.expectedLoss <= e.pd && e.expectedLoss <= e.ead && e.expectedLoss <= e.lgd
    ensures e.expectedLossEuro == p.principal * e.expectedLoss
    ensures p.principal >= 0.0 ==> 0.0 <= e.expectedLossEuro <= p.principal
  {
    var pd := Clip01(p.pd);
    var ead := Clip01(p.ead);
    var lgd := Clip01(p.lgd);
    var el := LossRate(pd, ead, lgd);
    LossEstimate(p.principal, pd, ead, lgd, el, LossAmount(p.principal, el))
  }

  /** The expected loss in euros for loss rate `el`: never negative and
      never more than a non-negative principal. */
  function LossAmount(principal: real, el: real): (amount: real)
    requires 0.0 <= el <= 1.0
    ensures amount == principal * el
    ensures principal >= 0.0 ==> 0.0 <= amount <= principal
  {
    UnitScale(principal, el);
    principal * el
  }

  /** The expected-loss rate `pd * ead * lgd` of clipped predictions: a
      probability no larger than any of its factors. */
  function LossRate(pd: real, ead: real, lgd: real): (el: real)
    requires 0.0 <= pd <= 1.0 && 0.0 <= ead <= 1.0 && 0.0 <= lgd <= 1.0
    ensures 0.0 <= el <= pd && el <= ead && el <= lgd
  {
    UnitProductBound(pd, ead, lgd);
    pd * ead * lgd
  }

  /** A product of three values in `[0, 1]` is in `[0, 1]` and bounded by each
      factor. */
  lemma UnitProductBound(a: real, b: real, c: real)
    requires 0.0 <= a <= 1.0 && 0.0 <= b <= 1.0 && 0.0 <= c <= 1.0
    ensures 0.0 <= a * b * c <= a && a * b * c <= b && a * b * c <= c
  {
    assert 0.0 <= a * b <= a && a * b <= b;
    assert a * b * c <= a * b;
    assert a * b * c <= c;
  }

  /** Scaling a non-negative amount by a value in `[0, 1]` does not exceed
      it. */
  lemma UnitScale(amount: real, fraction: real)
    requires 0.0 <= fraction <= 1.0
    ensures amount >= 0.0 ==> 0.0 <= amount * fraction <= amount
  {
  }

  /** The expected-loss table of several applicants, row by row. */
  function EstimateAll(ps: seq<Prediction>): (es: seq<LossEstimate>)
    ensures |es| == |ps|
    ensures forall i :: 0 <= i < |ps| ==> es[i] == Estimate(ps[i])
  {
    seq(|ps|, i requires 0 <= i < |ps| => Estimate(ps[i]))
  }

  /** Estimating applicants in two batches gives the two tables one after
      the other: each row depends on its own applicant only. */
  lemma EstimateAllSplits(ps: seq<Prediction>, qs: seq<Prediction>)
    ensures EstimateAll(ps + qs) == EstimateAll(ps) + EstimateAll(qs)
  {
  }

  /** The pricing inputs for applicant `p`: the loan terms of `terms`, with
      the applicant's principal and the row's loss rate as the expected-loss
      rate, and no expected-loss total. */
  function PricingFor(p: Prediction, terms: Pricing.PricingInputs): (inp: Pricing.PricingInputs)
  {
    terms.(principal := p.principal, elRate := Some(Estimate(p).expectedLoss), elTotal := None)
  }

  /** Pricing an applicant with the row's loss rate over the row's own
      principal configures a cost model whose expected-loss total is the
      row's amount in euros: never negative and never more than a
      non-negative principal. */
  lemma LossRateFeedsPricing(p: Prediction, terms: Pricing.PricingInputs)
    requires terms.months > 0
    requires terms.useFundingAsDiscount ==> terms.fundingMonthly > -1.0
    ensures Pricing.Configure(PricingFor(p, terms)).Ok?
    ensures Pricing.Configure(PricingFor(p, terms)).value.elTotal == Estimate(p).expectedLossEuro
    ensures p.principal >= 0.0 ==> 0.0 <= Pricing.Configure(PricingFor(p, terms)).value.elTotal <= p.principal
  {
    var e := Estimate(p);
    var inp := PricingFor(p, terms);
    var el := Pricing.ResolveExpectedLoss(inp.principal, inp.elRate, inp.elTotal);
    assert el.Ok? && el.value == e.expectedLossEuro by {
      assert e.expectedLoss * p.principal == e.expectedLossEuro;
    }
    assert Pricing.Configure(inp).value.elTotal == el.value;
  }
}
