/** The lender's net present value of a loan at a trial monthly rate
    (`npv_for_monthly_rate`): simulate the start-of-month balances, charge
    each cost category either in proportion to the balance or as a rate on
    it, and discount the net monthly cashflows at the funding rate. */
module Cashflow {
  import opened Numerics
  import opened Outcomes
  import opened Annuity

  /** How one cost category is charged month by month. */
  datatype Allocation =
    | Proportional(total: real)     // an absolute amount spread in proportion to the balance
    | OnBalance(monthlyRate: real)  // a rate charged on the month's start balance
    | NoCharge

  /** Everything the NPV depends on besides the trial rate, once the
      expected loss has been resolved to an absolute amount and the funding
      rate to a monthly discount rate (zero when discounting is off). */
  datatype CostModel = CostModel(
    principal: real,
    months: nat,
    elTotal: real,
    fundingMonthly: real,
    capital: Allocation,
    operating: Allocation,
    margin: Allocation)

  /** A positive term, and a discount base `1 + fundingMonthly` that is
      positive, as `(1 + euribor) ** (1 / 12)` is for any real rate. */
  predicate WellFormed(m: CostModel)
  {
    m.months > 0 && m.fundingMonthly > -1.0
  }

  /** Operating cost and margin: an absolute amount when one is given, else
      an annual rate charged monthly when one is given, else nothing. */
  function AmountOrRate(amount: Option<real>, annualRate: Option<real>): Allocation
  {
    if amount.Some? then Proportional(amount.value)
    else if annualRate.Some? then OnBalance(annualRate.value / 12.0)
    else NoCharge
  }

  /** Capital cost: an absolute amount when one is given, else the capital
      share of the balance times the annual cost of capital, charged
      monthly. */
  function CapitalAllocation(capitalAmount: Option<real>, kPct: real, rCapital: real): Allocation
  {
    if capitalAmount.Some? then Proportional(capitalAmount.value)
    else OnBalance(kPct * rCapital / 12.0)
  }

  /** The start-of-month balances over `n` months from `balance`, paying `a`
      a month at rate `r`; a balance that would turn negative is held at
      zero. */
  function StartBalances(balance: real, r: real, a: real, n: nat): (s: seq<real>)
    ensures |s| == n
    ensures n > 0 ==> s[0] == balance
    decreases n
  {
    if n == 0 then []
    else [balance] + StartBalances(Max(Amortize(balance, r, a), 0.0), r, a, n - 1)
  }

  /** Each month after the first starts from the previous month's balance
      amortized by one payment and held at zero, so never below zero. */
  lemma {:induction false} StartBalancesStep(balance: real, r: real, a: real, n: nat)
    ensures forall i :: 0 < i < n ==>
      StartBalances(balance, r, a, n)[i] == Max(Amortize(StartBalances(balance, r, a, n)[i - 1], r, a), 0.0)
      && StartBalances(balance, r, a, n)[i] >= 0.0
    decreases n
  {
    if n > 0 {
      var next := Max(Amortize(balance, r, a), 0.0);
      var rest := StartBalances(next, r, a, n - 1);
      StartBalancesStep(next, r, a, n - 1);
      var s := StartBalances(balance, r, a, n);
      assert s == [balance] + rest;
      forall i | 0 < i < n
        ensures s[i] == Max(Amortize(s[i - 1], r, a), 0.0) && s[i] >= 0.0
      {
        assert s[i] == rest[i - 1];
        if i > 1 {
          assert s[i - 1] == rest[i - 2];
          assert rest[i - 1] == Max(Amortize(rest[i - 2], r, a), 0.0);
        } else {
          assert rest[0] == next;
        }
      }
    }
  }

  /** The start balance of month `k`, counting from zero: `k` clamped
      amortization steps from `balance`. */
  function BalanceAfter(balance: real, r: real, a: real, k: nat): real
    decreases k
  {
    if k == 0 then balance else BalanceAfter(Max(Amortize(balance, r, a), 0.0), r, a, k - 1)
  }

  /** The simulated balances are the clamped recurrence, month by month. */
  lemma {:induction false} StartBalanceAt(balance: real, r: real, a: real, n: nat, i: nat)
    requires i < n
    ensures StartBalances(balance, r, a, n)[i] == BalanceAfter(balance, r, a, i)
    decreases i
  {
    if i > 0 {
      StartBalanceAt(Max(Amortize(balance, r, a), 0.0), r, a, n - 1, i - 1);
    }
  }

  /** One more clamped step extends the recurrence by one month. */
  lemma {:induction false} BalanceAfterStep(balance: real, r: real, a: real, k: nat)
    ensures BalanceAfter(balance, r, a, k + 1) == Max(Amortize(BalanceAfter(balance, r, a, k), r, a), 0.0)
    decreases k
  {
    if k > 0 {
      BalanceAfterStep(Max(Amortize(balance, r, a), 0.0), r, a, k - 1);
    }
  }

  /** The denominator of the proportional allocation: the sum of the
      balances, or one when they sum to zero. */
  function AllocationBase(balances: seq<real>): (base: real)
    ensures base != 0.0
  {
    if Sum(balances) == 0.0 then 1.0 else Sum(balances)
  }

  /** The charge for one month with start balance `balance`. */
  function Charge(alloc: Allocation, balance: real, base: real): real
    requires base != 0.0
  {
    match alloc
    case Proportional(total) => total * (balance / base)
    case OnBalance(monthlyRate) => balance * monthlyRate
    case NoCharge => 0.0
  }

  /** The month-by-month charges of one cost category. */
  function Charges(alloc: Allocation, balances: seq<real>, base: real): (c: seq<real>)
    requires base != 0.0
    ensures |c| == |balances|
  {
    seq(|balances|, i requires 0 <= i < |balances| => Charge(alloc, balances[i], base))
  }

  /** Spreading an amount in proportion to the balances hands out exactly
      that amount, scaled by how the base compares with the balances' sum. */
  lemma {:induction false} ProportionalScaled(total: real, balances: seq<real>, base: real)
    requires base != 0.0
    ensures Sum(Charges(Proportional(total), balances, base)) * base == total * Sum(balances)
    decreases |balances|
  {
    if |balances| > 0 {
      var c := Charges(Proportional(total), balances, base);
      ProportionalScaled(total, balances[1..], base);
      assert c[1..] == Charges(Proportional(total), balances[1..], base);
      assert c[0] == total * (balances[0] / base);
    }
  }

  /** Whenever the balances do not sum to zero, the monthly shares of an
      absolute amount add up to exactly that amount. */
  lemma ProportionalChargesSum(total: real, balances: seq<real>)
    requires Sum(balances) != 0.0
    ensures Sum(Charges(Proportional(total), balances, AllocationBase(balances))) == total
  {
    var base := AllocationBase(balances);
    ProportionalScaled(total, balances, base);
    var s := Sum(Charges(Proportional(total), balances, base));
    assert s * base == total * base;
  }

  /** A cost category's monthly charges: the amount spread over the months
      when an amount is given (whatever the rate), the annual rate over
      twelve on each balance when only a rate is given, and zero otherwise. */
  lemma AmountOrRateCharges(amount: Option<real>, annualRate: Option<real>, balances: seq<real>)
    ensures var c := Charges(AmountOrRate(amount, annualRate), balances, AllocationBase(balances));
      && (amount.Some? && Sum(balances) != 0.0 ==> Sum(c) == amount.value)
      && (amount.None? && annualRate.Some? ==>
            forall i :: 0 <= i < |c| ==> c[i] == balances[i] * (annualRate.value / 12.0))
      && (amount.None? && annualRate.None? ==> forall i :: 0 <= i < |c| ==> c[i] == 0.0)
  {
    var base := AllocationBase(balances);
    var c := Charges(AmountOrRate(amount, annualRate), balances, base);
    if amount.Some? && Sum(balances) != 0.0 {
      ProportionalChargesSum(amount.value, balances);
    }
  }

  /** Capital cost's monthly charges: a given amount is spread over the
      months to its exact total, and otherwise each month is charged the
      balance times the capital share times the cost of capital over
      twelve. */
  lemma CapitalAllocationCharges(capitalAmount: Option<real>, kPct: real, rCapital: real, balances: seq<real>)
    ensures var c := Charges(CapitalAllocation(capitalAmount, kPct, rCapital), balances, AllocationBase(balances));
      && (capitalAmount.Some? && Sum(balances) != 0.0 ==> Sum(c) == capitalAmount.value)
      && (capitalAmount.None? ==> forall i :: 0 <= i < |c| ==> c[i] == balances[i] * (kPct * rCapital / 12.0))
  {
    if capitalAmount.Some? && Sum(balances) != 0.0 {
      ProportionalChargesSum(capitalAmount.value, balances);
    }
  }

  /** One month's net cashflow to the lender. */
  function NetCashflows(a: real, el: seq<real>, cap: seq<real>, op: seq<real>, mg: seq<real>): (nets: seq<real>)
    requires |cap| == |el| && |op| == |el| && |mg| == |el|
    ensures |nets| == |el|
    decreases |el|
  {
    if |el| == 0 then []
    else [a - el[0] - cap[0] - op[0] - mg[0]] + NetCashflows(a, el[1..], cap[1..], op[1..], mg[1..])
  }

  /** A cashflow received at the end of month `period`, in present value;
      no discounting at all when the funding rate is zero. */
  function Discount(net: real, fundingMonthly: real, period: nat): real
    requires fundingMonthly > -1.0
  {
    if fundingMonthly != 0.0 then
      PowPositive(1.0 + fundingMonthly, period);
      net / Pow(1.0 + fundingMonthly, period)
    else net
  }

  /** Discounting for `period` months undoes `period` months of growth at
      the funding rate; at a non-negative rate it never raises a
      non-negative cashflow, nor makes it negative. */
  lemma DiscountUndoesGrowth(net: real, fundingMonthly: real, period: nat)
    requires fundingMonthly > -1.0
    ensures fundingMonthly != 0.0 ==> Discount(net, fundingMonthly, period) * Pow(1.0 + fundingMonthly, period) == net
    ensures fundingMonthly == 0.0 ==> Discount(net, fundingMonthly, period) == net
    ensures fundingMonthly >= 0.0 && net >= 0.0 ==> 0.0 <= Discount(net, fundingMonthly, period) <= net
  {
    if fundingMonthly != 0.0 {
      PowPositive(1.0 + fundingMonthly, period);
      if fundingMonthly > 0.0 && net >= 0.0 {
        PowAtLeastOne(1.0 + fundingMonthly, period);
        DivideByAtLeastOne(net, Pow(1.0 + fundingMonthly, period));
      }
    }
  }

  /** The present value of consecutive monthly cashflows, the first one
      received at the end of month `first`. */
  function PresentValue(nets: seq<real>, fundingMonthly: real, first: nat): real
    requires fundingMonthly > -1.0
    decreases |nets|
  {
    if |nets| == 0 then 0.0
    else Discount(nets[0], fundingMonthly, first) + PresentValue(nets[1..], fundingMonthly, first + 1)
  }

  /** The present value is the sum of each month's cashflow discounted for
      its own period: the cashflow at index `t` is received at the end of
      month `first + t`. */
  lemma {:induction false} PresentValueTerms(nets: seq<real>, fundingMonthly: real, first: nat)
    requires fundingMonthly > -1.0
    ensures PresentValue(nets, fundingMonthly, first)
         == Sum(seq(|nets|, t requires 0 <= t < |nets| => Discount(nets[t], fundingMonthly, first + t)))
    decreases |nets|
  {
    if |nets| > 0 {
      var terms := seq(|nets|, t requires 0 <= t < |nets| => Discount(nets[t], fundingMonthly, first + t));
      var rest := nets[1..];
      PresentValueTerms(rest, fundingMonthly, first + 1);
      assert terms[1..] == seq(|rest|, t requires 0 <= t < |rest| => Discount(rest[t], fundingMonthly, first + 1 + t));
    }
  }

  /** Without a funding rate the present value is the plain sum. */
  lemma {:induction false} PresentValueUndiscounted(nets: seq<real>, first: nat)
    ensures PresentValue(nets, 0.0, first) == Sum(nets)
    decreases |nets|
  {
    if |nets| > 0 {
      PresentValueUndiscounted(nets[1..], first + 1);
    }
  }

  /** With a non-negative funding rate, discounting never raises the value
      of non-negative cashflows. */
  lemma {:induction false} PresentValueAtMostSum(nets: seq<real>, fundingMonthly: real, first: nat)
    requires fundingMonthly >= 0.0
    requires forall t :: 0 <= t < |nets| ==> nets[t] >= 0.0
    ensures 0.0 <= PresentValue(nets, fundingMonthly, first) <= Sum(nets)
    decreases |nets|
  {
    if |nets| > 0 {
      PresentValueAtMostSum(nets[1..], fundingMonthly, first + 1);
      DiscountUndoesGrowth(nets[0], fundingMonthly, first);
    }
  }

  /** The loan's monthly net cashflows for payment `a`, start balances
      `balances` and proportional-allocation base `base`: the payment less
      the four cost categories' charges. */
  function CashflowsFor(m: CostModel, a: real, balances: seq<real>, base: real): (nets: seq<real>)
    requires base != 0.0
    ensures |nets| == |balances|
  {
    NetCashflows(a,
      Charges(Proportional(m.elTotal), balances, base),
      Charges(m.capital, balances, base),
      Charges(m.operating, balances, base),
      Charges(m.margin, balances, base))
  }

  /** The start-of-month balances of the loan at monthly rate `r`. */
  function LoanBalances(m: CostModel, r: real): (s: seq<real>)
    requires WellFormed(m) && PaymentDefined(r, m.months)
    ensures |s| == m.months && s[0] == m.principal
  {
    StartBalances(m.principal, r, Payment(m.principal, r, m.months), m.months)
  }

  /** The total charged over the term for one cost category. */
  function TotalCharged(alloc: Allocation, balances: seq<real>): real
  {
    Sum(Charges(alloc, balances, AllocationBase(balances)))
  }

  /** The cashflows of the loan at monthly rate `r`. */
  function LoanCashflows(m: CostModel, r: real): (nets: seq<real>)
    requires WellFormed(m) && PaymentDefined(r, m.months)
    ensures |nets| == m.months
  {
    var balances := LoanBalances(m, r);
    CashflowsFor(m, Payment(m.principal, r, m.months), balances, AllocationBase(balances))
  }

  /** The net present value of the loan to the lender at monthly rate `r`:
      the principal paid out now against the discounted net cashflows. */
  function Npv(m: CostModel, r: real): real
    requires WellFormed(m) && PaymentDefined(r, m.months)
  {
    -m.principal + PresentValue(LoanCashflows(m, r), m.fundingMonthly, 1)
  }

  /** Without a funding rate the NPV is the plain sum of the loan's net
      cashflows less the principal; with a non-negative one and non-negative
      cashflows, it lies between minus the principal and that. */
  lemma NpvBounds(m: CostModel, r: real)
    requires WellFormed(m) && PaymentDefined(r, m.months)
    ensures m.fundingMonthly == 0.0 ==> Npv(m, r) == -m.principal + Sum(LoanCashflows(m, r))
    ensures m.fundingMonthly >= 0.0 && (forall t :: 0 <= t < m.months ==> LoanCashflows(m, r)[t] >= 0.0) ==>
      -m.principal <= Npv(m, r) <= -m.principal + Sum(LoanCashflows(m, r))
  {
    var nets := LoanCashflows(m, r);
    PresentValueUndiscounted(nets, 1);
    if m.fundingMonthly >= 0.0 && (forall t :: 0 <= t < m.months ==> nets[t] >= 0.0) {
      PresentValueAtMostSum(nets, m.fundingMonthly, 1);
    }
  }

  /** Subtracting the charges month by month subtracts their totals. */
  lemma {:induction false} SumNetCashflows(a: real, el: seq<real>, cap: seq<real>, op: seq<real>, mg: seq<real>)
    requires |cap| == |el| && |op| == |el| && |mg| == |el|
    ensures Sum(NetCashflows(a, el, cap, op, mg))
         == (|el| as real) * a - Sum(el) - Sum(cap) - Sum(op) - Sum(mg)
    decreases |el|
  {
    if |el| > 0 {
      var nets := NetCashflows(a, el, cap, op, mg);
      SumNetCashflows(a, el[1..], cap[1..], op[1..], mg[1..]);
      assert nets[1..] == NetCashflows(a, el[1..], cap[1..], op[1..], mg[1..]);
      assert nets[0] == a - el[0] - cap[0] - op[0] - mg[0];
    }
  }
}
