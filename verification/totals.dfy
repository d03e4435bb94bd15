/** Totals of the loan's cashflows when they are not discounted: what the
    lender receives over the term, net of every cost category. */
module CashflowTotals {
  import opened Numerics
  import opened Annuity
  import opened Cashflow

  /** Once the expected-loss charges are known to total `elTotal`, the
      undiscounted cashflows total what the borrower pays less that loss
      and the other charges. */
  lemma CashflowsTotal(m: CostModel, a: real, balances: seq<real>, base: real)
    requires base != 0.0
    requires Sum(Charges(Proportional(m.elTotal), balances, base)) == m.elTotal
    ensures Sum(CashflowsFor(m, a, balances, base))
         == (|balances| as real) * a - m.elTotal - Sum(Charges(m.capital, balances, base))
            - Sum(Charges(m.operating, balances, base)) - Sum(Charges(m.margin, balances, base))
  {
    var el := Charges(Proportional(m.elTotal), balances, base);
    var cap := Charges(m.capital, balances, base);
    var op := Charges(m.operating, balances, base);
    var mg := Charges(m.margin, balances, base);
    assert CashflowsFor(m, a, balances, base) == NetCashflows(a, el, cap, op, mg);
    var paid := (|balances| as real) * a;
    assert paid == (|el| as real) * a;
    SumNetCashflows(a, el, cap, op, mg);
  }

  /** Without discounting, the cashflows built on balances that do not sum
      to zero are worth exactly their total, in which the expected loss
      appears once, in full. */
  lemma UndiscountedValue(m: CostModel, a: real, balances: seq<real>)
    requires Sum(balances) != 0.0
    ensures PresentValue(CashflowsFor(m, a, balances, AllocationBase(balances)), 0.0, 1)
         == (|balances| as real) * a - m.elTotal - TotalCharged(m.capital, balances)
            - TotalCharged(m.operating, balances) - TotalCharged(m.margin, balances)
  {
    var base := AllocationBase(balances);
    ProportionalChargesSum(m.elTotal, balances);
    PresentValueUndiscounted(CashflowsFor(m, a, balances, base), 1);
    CashflowsTotal(m, a, balances, base);
  }

  /** Without discounting, the NPV is what the borrower pays over the term
      less the principal, the whole expected loss and the other charges;
      the expected loss enters exactly once, however it is spread over the
      months. */
  lemma UndiscountedNpvBreakdown(m: CostModel, r: real)
    requires WellFormed(m) && PaymentDefined(r, m.months) && m.fundingMonthly == 0.0
    requires Sum(LoanBalances(m, r)) != 0.0
    ensures Npv(m, r)
         == -m.principal + (m.months as real) * Payment(m.principal, r, m.months) - m.elTotal
            - TotalCharged(m.capital, LoanBalances(m, r)) - TotalCharged(m.operating, LoanBalances(m, r))
            - TotalCharged(m.margin, LoanBalances(m, r))
  {
    BreakdownAt(m, r, Payment(m.principal, r, m.months), LoanBalances(m, r));
  }

  /** The breakdown with the payment and the balances passed in by name, so
      that the proof works on them as plain values. */
  lemma BreakdownAt(m: CostModel, r: real, a: real, balances: seq<real>)
    requires WellFormed(m) && PaymentDefined(r, m.months) && m.fundingMonthly == 0.0
    requires a == Payment(m.principal, r, m.months) && balances == LoanBalances(m, r)
    requires Sum(balances) != 0.0
    ensures Npv(m, r)
         == -m.principal + (m.months as real) * a - m.elTotal
            - TotalCharged(m.capital, balances) - TotalCharged(m.operating, balances) - TotalCharged(m.margin, balances)
  {
    var nets := CashflowsFor(m, a, balances, AllocationBase(balances));
    assert Npv(m, r) == -m.principal + PresentValue(nets, 0.0, 1) by {
      assert LoanCashflows(m, r) == nets;
    }
    assert (|balances| as real) * a == (m.months as real) * a;
    UndiscountedValue(m, a, balances);
  }

  /** A cost category that charges nothing in any month. */
  predicate ChargesNothing(alloc: Allocation)
  {
    alloc == NoCharge || alloc == Proportional(0.0) || alloc == OnBalance(0.0)
  }

  /** No expected loss, no other charge and no discounting. */
  predicate CostFree(m: CostModel)
  {
    && m.elTotal == 0.0 && m.fundingMonthly == 0.0
    && ChargesNothing(m.capital) && ChargesNothing(m.operating) && ChargesNothing(m.margin)
  }

  /** A category that charges nothing totals zero over any balances. */
  lemma {:induction false} NothingCharged(alloc: Allocation, balances: seq<real>, base: real)
    requires base != 0.0 && ChargesNothing(alloc)
    ensures Sum(Charges(alloc, balances, base)) == 0.0
    decreases |balances|
  {
    if |balances| > 0 {
      var c := Charges(alloc, balances, base);
      NothingCharged(alloc, balances[1..], base);
      assert c[1..] == Charges(alloc, balances[1..], base);
      assert c[0] == 0.0;
    }
  }

  /** With no costs, the cashflows total exactly what the borrower pays. */
  lemma CostFreeCashflowsTotal(m: CostModel, a: real, balances: seq<real>, base: real)
    requires base != 0.0 && CostFree(m)
    ensures Sum(CashflowsFor(m, a, balances, base)) == (|balances| as real) * a
  {
    NothingCharged(Proportional(m.elTotal), balances, base);
    NothingCharged(m.capital, balances, base);
    NothingCharged(m.operating, balances, base);
    NothingCharged(m.margin, balances, base);
    CashflowsTotal(m, a, balances, base);
  }

  /** With no costs and no discounting the loan breaks even at rate zero:
      the borrower repays exactly the principal and the lender keeps
      nothing. */
  lemma CostFreeBreaksEven(m: CostModel)
    requires WellFormed(m) && CostFree(m)
    ensures PaymentDefined(0.0, m.months)
    ensures Npv(m, 0.0) == 0.0
  {
    var a := Payment(m.principal, 0.0, m.months);
    var balances := LoanBalances(m, 0.0);
    var nets := CashflowsFor(m, a, balances, AllocationBase(balances));
    assert Npv(m, 0.0) == -m.principal + PresentValue(nets, 0.0, 1) by {
      assert LoanCashflows(m, 0.0) == nets;
    }
    assert Sum(nets) == m.principal by {
      CostFreeCashflowsTotal(m, a, balances, AllocationBase(balances));
      assert (|balances| as real) * a == a * (m.months as real) == m.principal;
    }
    PresentValueUndiscounted(nets, 1);
  }
}
