/** The pricing entry point (`price_rate_and_payment`): resolve the expected
    loss, configure the cost model, find a monthly rate at which the loan's
    NPV to the lender changes sign (or zero when it is already non-negative
    there), and build the amortization table and the effective annual rate
    at that rate. */
module Pricing {
  import opened Numerics
  import opened Outcomes
  import opened Annuity
  import opened Bisection
  import opened Cashflow
  import opened Schedule
  import opened CashflowTotals

  /** The caller's inputs. `fundingMonthly` stands for
      `(1 + euribor_annual) ** (1 / 12) - 1`, which is only consulted when
      funding is used as the discount rate. */
  datatype PricingInputs = PricingInputs(
    principal: real,
    months: nat,
    elRate: Option<real>,
    elTotal: Option<real>,
    fundingMonthly: real,
    useFundingAsDiscount: bool,
    kPct: real,
    rCapital: real,
    capitalAmount: Option<real>,
    opCostRate: Option<real>,
    opCostAmount: Option<real>,
    marginRate: Option<real>,
    marginAmount: Option<real>)

  datatype PricingError =
    | MissingExpectedLoss  // neither an expected-loss rate nor a total was given
    | ZeroTerm             // a term of zero months divides by zero in the payment formula
    | NoFeasibleRate       // no sign change of the NPV was found by either search

  /** What `price_rate_and_payment` returns (the effective annual rate and
      the final payment), together with the monthly rate and the table it
      builds on the way. */
  datatype Quote = Quote(monthlyRate: real, ear: real, payment: real, table: seq<Row>)

  /** Tolerance on the NPV at which the solver accepts a rate. */
  const Tol: real := 0.000000000001

  /** The absolute expected loss: the total when given, whatever the rate;
      else the rate times the principal; else an error. */
  function ResolveExpectedLoss(principal: real, elRate: Option<real>, elTotal: Option<real>): (r: Result<real, PricingError>)
    ensures r.Err? <==> elRate.None? && elTotal.None?
    ensures r.Err? ==> r.error == MissingExpectedLoss
  {
    if elTotal.Some? then Ok(elTotal.value)
    else if elRate.Some? then Ok(elRate.value * principal)
    else Err(MissingExpectedLoss)
  }

  /** A given total takes precedence: the rate is then ignored. */
  lemma TotalOverridesRate(principal: real, rate1: Option<real>, rate2: Option<real>, total: real)
    ensures ResolveExpectedLoss(principal, rate1, Some(total)) == ResolveExpectedLoss(principal, rate2, Some(total))
    ensures ResolveExpectedLoss(principal, rate1, Some(total)) == Ok(total)
  {
  }

  /** Giving the rate is the same as giving the rate times the principal as
      the total. */
  lemma RateIsTotalOverPrincipal(principal: real, rate: real, other: Option<real>)
    ensures ResolveExpectedLoss(principal, Some(rate), None)
         == ResolveExpectedLoss(principal, other, Some(rate * principal))
  {
    var fromRate := ResolveExpectedLoss(principal, Some(rate), None);
    var fromTotal := ResolveExpectedLoss(principal, other, Some(rate * principal));
    assert fromRate.Ok? && fromTotal.Ok? && fromRate.value == fromTotal.value;
  }

  /** The cost model the NPV is computed from; the expected-loss check comes
      before anything else, and a zero term fails at the first NPV
      evaluation. */
  function Configure(inp: PricingInputs): (r: Result<CostModel, PricingError>)
    requires inp.useFundingAsDiscount ==> inp.fundingMonthly > -1.0
    ensures r.Ok? <==> (inp.elRate.Some? || inp.elTotal.Some?) && inp.months > 0
    ensures inp.elRate.None? && inp.elTotal.None? ==> r == Err(MissingExpectedLoss)
    ensures r.Ok? ==> WellFormed(r.value) && r.value.principal == inp.principal && r.value.months == inp.months
    ensures r.Ok? ==> Ok(r.value.elTotal) == ResolveExpectedLoss(inp.principal, inp.elRate, inp.elTotal)
    ensures r.Ok? ==> r.value.fundingMonthly == (if inp.useFundingAsDiscount then inp.fundingMonthly else 0.0)
    ensures r.Ok? ==> r.value.capital == CapitalAllocation(inp.capitalAmount, inp.kPct, inp.rCapital)
    ensures r.Ok? ==> r.value.operating == AmountOrRate(inp.opCostAmount, inp.opCostRate)
    ensures r.Ok? ==> r.value.margin == AmountOrRate(inp.marginAmount, inp.marginRate)
  {
    var el := ResolveExpectedLoss(inp.principal, inp.elRate, inp.elTotal);
    if el.Err? then Err(el.error)
    else if inp.months == 0 then Err(ZeroTerm)
    else
      Ok(CostModel(
        inp.principal,
        inp.months,
        el.value,
        if inp.useFundingAsDiscount then inp.fundingMonthly else 0.0,
        CapitalAllocation(inp.capitalAmount, inp.kPct, inp.rCapital),
        AmountOrRate(inp.opCostAmount, inp.opCostRate),
        AmountOrRate(inp.marginAmount, inp.marginRate)))
  }

  /** The NPV as a total function of the rate, for the root finder. Every
      rate the solver tries is non-negative; below -1 the annuity is not
      defined and the value zero is a placeholder never consulted. */
  function NpvOrZero(m: CostModel, r: real): real
    requires WellFormed(m)
  {
    if r > -1.0 then
      PaymentDefinedAboveMinusOne(r, m.months);
      Npv(m, r)
    else 0.0
  }

  function Objective(m: CostModel): real -> real
    requires WellFormed(m)
  {
    r => NpvOrZero(m, r)
  }

  /** The objective is the NPV at every rate the annuity accepts above -1. */
  lemma ObjectiveIsNpv(m: CostModel, r: real)
    requires WellFormed(m) && r > -1.0
    ensures PaymentDefined(r, m.months)
    ensures Objective(m)(r) == Npv(m, r)
  {
    PaymentDefinedAboveMinusOne(r, m.months);
  }

  /** The two searches: first from `[0, 0.5]` with 100 doublings, then from
      `[0, 5]` with 200. A sign change between 0 and 0.5 is always found;
      when nothing is found, the value at zero is not within tolerance and
      every upper end either search tried has the sign of the value at
      zero. */
  function Search(m: CostModel): (s: Option<real>)
    requires WellFormed(m)
    ensures s.Some? ==> s.value >= 0.0
    ensures !SameSign(Objective(m)(0.0), Objective(m)(0.5)) ==> s.Some?
    ensures s.None? ==> Abs(Objective(m)(0.0)) >= Tol
    ensures s.None? ==>
      forall j :: 0 <= j <= 100 ==> SameSign(Objective(m)(0.0), Objective(m)(Doubled(0.5, j)))
    ensures s.None? ==>
      forall j :: 0 <= j <= 200 ==> SameSign(Objective(m)(0.0), Objective(m)(Doubled(5.0, j)))
  {
    var first := FindRate(Objective(m), 0.0, 0.5, 100, Tol);
    if first.Some? then first else FindRate(Objective(m), 0.0, 5.0, 200, Tol)
  }

  /** The monthly rate: zero when the loan already pays for itself at rate
      zero, else the first search's result, else the second's, else an
      error. Every rate returned is non-negative, and the error is raised
      only when the NPV is still negative at the highest rate each search
      reached. */
  function SolveRate(m: CostModel): (r: Result<real, PricingError>)
    requires WellFormed(m)
    ensures PaymentDefined(0.0, m.months)
    ensures Npv(m, 0.0) >= 0.0 ==> r == Ok(0.0)
    ensures r.Ok? ==> 0.0 <= r.value && PaymentDefined(r.value, m.months)
    ensures r.Err? ==> r.error == NoFeasibleRate
    ensures Npv(m, 0.0) < 0.0 ==> (r.Err? <==> Search(m).None?)
    ensures Npv(m, 0.0) < 0.0 && Search(m).Some? ==> r == Ok(Search(m).value)
    ensures r.Err? ==> Npv(m, 0.0) < 0.0 && Abs(Npv(m, 0.0)) >= Tol
    ensures r.Err? ==> NegativeAlong(m, 0.5, 100) && NegativeAlong(m, 5.0, 200)
  {
    ObjectiveIsNpv(m, 0.0);
    if Npv(m, 0.0) >= 0.0 then Ok(0.0)
    else
      var found := Search(m);
      if found.Some? then
        ObjectiveIsNpv(m, found.value);
        Ok(found.value)
      else
        SearchFailure(m);
        Err(NoFeasibleRate)
  }

  /** The NPV is defined and negative at every upper end `Doubled(high, j)`
      with `j <= budget` that a doubling search from `high` can try. */
  predicate NegativeAlong(m: CostModel, high: real, budget: nat)
    requires WellFormed(m)
  {
    forall j :: 0 <= j <= budget ==> PaymentDefined(Doubled(high, j), m.months) && Npv(m, Doubled(high, j)) < 0.0
  }

  /** When both searches fail, the NPV at zero is negative and not within
      tolerance, and so is the NPV at every upper end either search tried. */
  lemma SearchFailure(m: CostModel)
    requires WellFormed(m) && Search(m).None?
    requires PaymentDefined(0.0, m.months) && Npv(m, 0.0) < 0.0
    ensures Abs(Npv(m, 0.0)) >= Tol
    ensures NegativeAlong(m, 0.5, 100) && NegativeAlong(m, 5.0, 200)
  {
    ObjectiveIsNpv(m, 0.0);
    NegativeAlongSearch(m, 0.5, 100);
    NegativeAlongSearch(m, 5.0, 200);
  }

  /** Every upper end of a failed search shares the negative sign of the
      value at zero, so the NPV is negative there. */
  lemma NegativeAlongSearch(m: CostModel, high: real, budget: nat)
    requires WellFormed(m) && high >= 0.0 && Objective(m)(0.0) < 0.0
    requires forall j :: 0 <= j <= budget ==> SameSign(Objective(m)(0.0), Objective(m)(Doubled(high, j)))
    ensures NegativeAlong(m, high, budget)
  {
    forall j | 0 <= j <= budget
      ensures PaymentDefined(Doubled(high, j), m.months) && Npv(m, Doubled(high, j)) < 0.0
    {
      DoubledGrows(high, j);
      ObjectiveIsNpv(m, Doubled(high, j));
      assert SameSign(Objective(m)(0.0), Objective(m)(Doubled(high, j)));
    }
  }

  /** The upper end and doubling budget of the search that produced the
      rate: the first when it succeeded, else the second. */
  function SearchStart(m: CostModel): (real, nat)
    requires WellFormed(m)
  {
    if FindRate(Objective(m), 0.0, 0.5, 100, Tol).Some? then (0.5, 100) else (5.0, 200)
  }

  /** Where that search's doubling stopped. */
  function SearchTop(m: CostModel): real
    requires WellFormed(m)
  {
    var f := Objective(m);
    Expand(f, f(0.0), SearchStart(m).0, SearchStart(m).1)
  }

  /** The bracket of that search after its last halving. */
  function FinalBracket(m: CostModel): Bracket
    requires WellFormed(m)
  {
    var f := Objective(m);
    Halve(f, Bracket(0.0, f(0.0), SearchTop(m)), MaxSteps - 1)
  }

  /** A solved rate that does not bring the NPV within the tolerance of zero
      lies in a non-negative bracket on whose ends the NPV does not share a
      strict sign, and whose width is the search interval halved
      `MaxSteps - 1` times: the rate is as close to a break-even rate as
      the halving allows. */
  lemma SolvedRateIsBracketed(m: CostModel)
    requires WellFormed(m) && SolveRate(m).Ok? && Npv(m, 0.0) < 0.0
    requires Abs(Npv(m, SolveRate(m).value)) >= Tol
    ensures var b := FinalBracket(m);
      && 0.0 <= b.low <= SolveRate(m).value <= b.high
      && PaymentDefined(b.low, m.months) && PaymentDefined(b.high, m.months)
      && !SameSign(Npv(m, b.low), Npv(m, b.high))
      && Width(b) == Halved(SearchTop(m), MaxSteps - 1)
  {
    var f := Objective(m);
    var (high, attempts) := SearchStart(m);
    var r := SolveRate(m).value;
    ObjectiveIsNpv(m, 0.0);
    ObjectiveIsNpv(m, r);
    assert FindRate(f, 0.0, high, attempts, Tol) == Some(r);
    FoundRateIsBracketed(f, 0.0, high, attempts, Tol);
    var b := FinalBracket(m);
    ObjectiveIsNpv(m, b.low);
    ObjectiveIsNpv(m, b.high);
  }

  /** The effective annual rate in percent, `((1 + r) ** 12 - 1) * 100`. */
  function EffectiveAnnualRate(r: real): (ear: real)
    ensures r == 0.0 ==> ear == 0.0
    ensures r >= 0.0 ==> ear >= 1200.0 * r
  {
    assert r >= 0.0 ==> Pow(1.0 + r, 12) >= 1.0 + 12.0 * r by {
      if r >= 0.0 {
        Bernoulli(r, 12);
      }
    }
    (Pow(1.0 + r, 12) - 1.0) * 100.0
  }

  /** A higher non-negative monthly rate never gives a lower effective
      annual rate. */
  lemma EffectiveAnnualRateMonotone(r1: real, r2: real)
    requires 0.0 <= r1 <= r2
    ensures EffectiveAnnualRate(r1) <= EffectiveAnnualRate(r2)
  {
    PowMonotoneInBase(1.0 + r1, 1.0 + r2, 12);
  }

  /** An expected loss, capital, operating and margin charges that are all
      zero, or not given where that means no charge, and no discounting. */
  predicate CostFreeInputs(inp: PricingInputs)
  {
    && (if inp.elTotal.Some? then inp.elTotal.value == 0.0 else inp.elRate == Some(0.0))
    && (inp.useFundingAsDiscount ==> inp.fundingMonthly == 0.0)
    && (if inp.capitalAmount.Some? then inp.capitalAmount.value == 0.0 else inp.kPct * inp.rCapital == 0.0)
    && NoAmountNorRate(inp.opCostAmount, inp.opCostRate)
    && NoAmountNorRate(inp.marginAmount, inp.marginRate)
  }

  /** An amount-or-rate cost that charges nothing. */
  predicate NoAmountNorRate(amount: Option<real>, annualRate: Option<real>)
  {
    if amount.Some? then amount.value == 0.0 else annualRate.None? || annualRate.value == 0.0
  }

  /** Cost-free inputs over a positive term configure a cost-free model, and
      the solver then settles on rate zero: the loan is viable without any
      interest. */
  lemma CostFreeIsViable(inp: PricingInputs)
    requires inp.useFundingAsDiscount ==> inp.fundingMonthly > -1.0
    requires inp.months > 0 && CostFreeInputs(inp)
    ensures Configure(inp).Ok? && CostFree(Configure(inp).value)
    ensures Npv(Configure(inp).value, 0.0) == 0.0
    ensures SolveRate(Configure(inp).value) == Ok(0.0)
  {
    var m := Configure(inp).value;
    assert m.elTotal == 0.0;
    assert ChargesNothing(m.capital) by {
      if inp.capitalAmount.None? {
        assert m.capital == OnBalance(inp.kPct * inp.rCapital / 12.0);
      }
    }
    assert ChargesNothing(m.operating) && ChargesNothing(m.margin);
    CostFreeBreaksEven(m);
  }

  /** The quote's table ends where the NPV simulation's clamped balance
      recurrence, run under the annuity payment at the quote's rate, ends
      after `months` months; and a payment carried out of the table that
      differs from that annuity payment only ever comes with nothing left
      owed. This holds in the band of rates between zero and the threshold
      too, where the straight-line payment leaves a balance behind. */
  predicate EndsAsSimulated(q: Quote, principal: real, months: nat)
  {
    && PaymentDefined(q.monthlyRate, months) && |q.table| == months
    && var a := Payment(principal, q.monthlyRate, months);
       && q.table[months - 1].endBalance == BalanceAfter(principal, q.monthlyRate, a, months)
       && (q.payment != a ==> q.table[months - 1].endBalance == 0.0)
  }

  /** What a quote promises about itself, for `principal` over `months`
      months: its EAR is that of its monthly rate, and its table has one
      row per month, numbered from one and consistent at that rate, starts
      at the principal, has each row start where the previous one ended,
      repays the principal less the final balance, and carries its last
      payment out as the quote's payment. */
  predicate WellBuilt(q: Quote, principal: real, months: nat)
  {
    && q.ear == EffectiveAnnualRate(q.monthlyRate)
    && months > 0 && |q.table| == months
    && q.payment == q.table[months - 1].payment
    && (forall i :: 0 <= i < months ==> q.table[i].period == i + 1 && Consistent(q.table[i], q.monthlyRate))
    && q.table[0].startBalance == principal && Chained(q.table)
    && Repaid(q.table) == principal - q.table[months - 1].endBalance
  }

  /** `months` payments of `payment` add up to `principal`. */
  predicate EqualParts(payment: real, principal: real, months: nat)
  {
    payment * (months as real) == principal
  }

  /** At rate zero the payment is the principal in equal parts. */
  lemma EqualPartsAtZero(principal: real, months: nat)
    requires PaymentDefined(0.0, months)
    ensures EqualParts(Payment(principal, 0.0, months), principal, months)
  {
  }

  /** The quote at a non-negative monthly rate `rate`: the amortization
      table, the payment carried out of its last month and the EAR. For a
      non-negative principal the table's start balances are the NPV
      simulation's, and at rate zero or at or above the threshold the
      payment is the annuity and the loan ends fully repaid; at rate zero
      that is the principal in `months` equal parts. */
  method BuildQuote(principal: real, rate: real, months: nat) returns (q: Quote)
    requires rate >= 0.0 && PaymentDefined(rate, months)
    ensures q.monthlyRate == rate && WellBuilt(q, principal, months)
    ensures q.ear >= 1200.0 * rate
    ensures principal >= 0.0 ==>
      forall i :: 0 <= i < months ==>
        q.table[i].startBalance == StartBalances(principal, rate, Payment(principal, rate, months), months)[i]
    ensures principal >= 0.0 && (rate == 0.0 || rate >= Eps) ==>
      && q.payment == Payment(principal, rate, months)
      && q.table[months - 1].endBalance == 0.0
    ensures principal >= 0.0 && rate == 0.0 ==> EqualParts(q.payment, principal, months)
    ensures principal >= 0.0 ==> EndsAsSimulated(q, principal, months)
  {
    var rows, payment := AmortizationTable(principal, rate, months);
    var ear := EffectiveAnnualRate(rate);
    q := Quote(rate, ear, payment, rows);
    if rate == 0.0 {
      EqualPartsAtZero(principal, months);
    }
  }

  /** `price_rate_and_payment`: configure, solve for the rate, build the
      table at that rate and report the effective annual rate and the
      payment carried out of the last month. */
  method PriceRateAndPayment(inp: PricingInputs) returns (res: Result<Quote, PricingError>)
    requires inp.useFundingAsDiscount ==> inp.fundingMonthly > -1.0
    ensures inp.elRate.None? && inp.elTotal.None? ==> res == Err(MissingExpectedLoss)
    ensures (inp.elRate.Some? || inp.elTotal.Some?) && inp.months == 0 ==> res == Err(ZeroTerm)
    ensures res.Err? ==> Configure(inp).Err? || SolveRate(Configure(inp).value).Err?
    ensures Configure(inp).Ok? && SolveRate(Configure(inp).value).Err? ==> res == Err(NoFeasibleRate)
    ensures res.Ok? ==> Configure(inp).Ok? && SolveRate(Configure(inp).value) == Ok(res.value.monthlyRate)
    ensures res.Ok? ==>
      && res.value.monthlyRate >= 0.0
      && res.value.ear >= 1200.0 * res.value.monthlyRate
      && WellBuilt(res.value, inp.principal, inp.months)
    ensures res.Ok? && inp.principal >= 0.0 ==>
      forall i :: 0 <= i < inp.months ==>
        res.value.table[i].startBalance == LoanBalances(Configure(inp).value, res.value.monthlyRate)[i]
    ensures res.Ok? && inp.principal >= 0.0 && (res.value.monthlyRate == 0.0 || res.value.monthlyRate >= Eps) ==>
      && res.value.payment == Payment(inp.principal, res.value.monthlyRate, inp.months)
      && res.value.table[inp.months - 1].endBalance == 0.0
    ensures res.Ok? && inp.principal >= 0.0 ==> EndsAsSimulated(res.value, inp.principal, inp.months)
    ensures inp.months > 0 && CostFreeInputs(inp) ==>
      && res.Ok? && res.value.monthlyRate == 0.0 && res.value.ear == 0.0
      && (inp.principal >= 0.0 ==> EqualParts(res.value.payment, inp.principal, inp.months))
  {
    var costFree := inp.months > 0 && CostFreeInputs(inp);
    if costFree {
      CostFreeIsViable(inp);
    }
    var cfg := Configure(inp);
    if cfg.Err? {
      return Err(cfg.error);
    }
    var m := cfg.value;
    var solved := SolveRate(m);
    if solved.Err? {
      return Err(solved.error);
    }
    var q := BuildQuote(inp.principal, solved.value, inp.months);
    assert LoanBalances(m, solved.value)
        == StartBalances(inp.principal, solved.value, Payment(inp.principal, solved.value, inp.months), inp.months);
    return Ok(q);
  }
}
