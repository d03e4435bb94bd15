# Loan pricing core of RiskScoringApp, modelled in Dafny

RiskScoringApp estimates a consumer loan applicant's expected loss and prices
the loan. Three fitted models predict the probability of default (PD), the
exposure at default (EAD) and the loss given default (LGD). Each prediction is
clipped to `[0, 1]`. The expected loss rate is `PD * EAD * LGD`, and the
expected loss in euros is that rate times the principal.

The pricing engine (`price_rate_and_payment`) then looks for a monthly rate
at which the loan's net present value (NPV) to the lender changes sign, or
uses zero when the NPV there is already non-negative, once four charges are
covered:

- the expected loss;
- the cost of capital;
- operating costs;
- a target margin.

The NPV at a trial rate comes from a month-by-month simulation. It uses the
French-system constant payment (`annuity_payment`). Each cost is allocated in
proportion to the start-of-month balance when given as an amount, or charged
as a rate on that balance. The net cashflows are discounted at the funding
rate. The rate is found by bisection with a doubling search for the upper end
(`find_rate_bisection`). The engine then builds the amortization table at
that rate and reports the effective annual rate (EAR) and the payment.

All quantities are exact reals. The modules follow the source's structure:

- `Numerics`: powers, sums, `Abs` and `Max`.
- `Outcomes`: `Option` and `Result`.
- `Annuity`: the payment formula and the balance recurrence it clears.
- `Bisection`: `find_rate_bisection` over any total function of the reals.
- `Cashflow`: the NPV simulation, its balances, the cost allocations and discounting.
- `CashflowTotals`: what the undiscounted cashflows add up to.
- `Schedule`: the amortization table, with the payment carried from month to month.
- `Pricing`: input validation, the solver driver, the EAR and the entry point.
- `RiskEstimate`: clipping and the expected-loss table.

## Model

| member | source | states |
|---|---|---|
| Annuity.Payment | Utils/FunctionLibraryV1.py:43-47 | At a rate below the threshold in magnitude, `n` payments add up to the principal. Otherwise the payment solves the annuity equation `a * ((1+r)^n - 1) == P * r * (1+r)^n`. For a positive principal and a rate at or above the threshold, it exceeds the first month's interest. |
| Annuity.PaymentDefinedAboveMinusOne | Utils/FunctionLibraryV1.py:45-47 | For any positive term, the formula never divides by zero at a rate above -1. This covers every rate the solver tries. |
| Annuity.PaymentAmortizes | Utils/FunctionLibraryV1.py:43-47 | Rolling the principal forward `n` months at the payment's own rate leaves exactly zero owed, at rate zero and at every rate at or above the threshold. |
| Annuity.PaymentNonNegative | Utils/FunctionLibraryV1.py:43-47 | A non-negative principal at a non-negative rate has a non-negative payment. |
| Annuity.RollStaysNonNegative | Utils/FunctionLibraryV1.py:43-47 | For a non-negative principal, at rate zero or at a rate at or above the `1e-15` threshold, the unclamped balance under the annuity payment never goes below zero during the term. |
| Annuity.RollClosedForm | Utils/FunctionLibraryV1.py:110-112 | Closed form of the balance recurrence: `r * B_k == r * P * (1+r)^k - a * ((1+r)^k - 1)`. |
| Annuity.RollAtZeroRate | Utils/FunctionLibraryV1.py:110-112 | At rate zero the balance falls by one payment a month. |
| Bisection.Step | Utils/FunctionLibraryV1.py:63-70 | One halving halves the width and keeps the new interval inside the old one, with the midpoint as one of its ends. It preserves the invariant that the ends do not share a strict sign. |
| Bisection.HalvingKeepsBracket | Utils/FunctionLibraryV1.py:62-70 | After `k` halvings the interval still changes sign, is nested in the original, and has the original width halved `k` times. |
| Bisection.Bisect | Utils/FunctionLibraryV1.py:62-71 | The result lies in the starting interval. It is the midpoint after `k` halvings for some `k < steps`, and no earlier midpoint had a value within the tolerance: the loop stops at the first such midpoint. Its own value is within the tolerance unless it is the last midpoint allowed. |
| Bisection.BisectStaysBracketed | Utils/FunctionLibraryV1.py:62-71 | A result not within the tolerance is the midpoint of a nested, sign-changing interval of the halved width. |
| Bisection.Expand | Utils/FunctionLibraryV1.py:54-59 | The result is `high` doubled `k` times for some `k <= budget`. Every earlier end shares the strict sign of the lower end's value, and the result does not unless the budget ran out: doubling stops at the first sign change. The end is kept when the ends already differ in sign. From a non-negative `high` the end never shrinks and stays within `high` doubled `budget` times. |
| Bisection.FindRate | Utils/FunctionLibraryV1.py:49-71 | Returns `low` when its value is within the tolerance. It returns `None` exactly when the doubling found no sign change. Then the value at `low` is not within the tolerance, and every end tried, `high` doubled `j` times for each `j <= maxAttempts`, shares its strict sign. It always finds a rate when `[low, high]` already changes sign. A rate found from a non-negative start lies between `low` and the largest end tried. |
| Bisection.FoundRateIsBracketed | Utils/FunctionLibraryV1.py:62-71 | Such a rate, if not within the tolerance, lies in a sign-changing interval nested in `[low, top]` of width `(top - low) / 2^199`. |
| Cashflow.StartBalances | Utils/FunctionLibraryV1.py:106-112 | One start balance per month, the first being the principal. |
| Cashflow.StartBalancesStep | Utils/FunctionLibraryV1.py:108-112 | Each later balance is the previous one amortized by one payment and held at zero, so it is never negative. |
| Cashflow.StartBalanceAt | Utils/FunctionLibraryV1.py:108-112 | Month `i`'s balance is `i` clamped steps from the principal. |
| Cashflow.BalanceAfterStep | Utils/FunctionLibraryV1.py:112 | The clamped recurrence extends by one step at its end. |
| Cashflow.AllocationBase | Utils/FunctionLibraryV1.py:113 | The allocation denominator is never zero: the balances' sum, or one when that sum is zero. |
| Cashflow.ProportionalScaled | Utils/FunctionLibraryV1.py:116 | The proportional shares times the base add up to the amount times the balances' sum. |
| Cashflow.ProportionalChargesSum | Utils/FunctionLibraryV1.py:113-116 | When the balances do not sum to zero, the monthly shares of an amount add up to exactly that amount. |
| Cashflow.CapitalAllocationCharges | Utils/FunctionLibraryV1.py:119-123 | Capital cost as allocated by `Cashflow.CapitalAllocation`: a given amount is spread to its exact total; without one, each month is charged the balance times `K_pct * r_capital / 12`. |
| Cashflow.AmountOrRateCharges | Utils/FunctionLibraryV1.py:126-139 | Operating cost and margin as allocated by `Cashflow.AmountOrRate`: a given amount wins over a rate and is spread to its exact total. With only a rate, each month is charged the balance times rate/12. With neither, every month is charged zero. |
| Cashflow.DiscountUndoesGrowth | Utils/FunctionLibraryV1.py:145-148 | `Cashflow.Discount`: with a non-zero funding rate the discounted value times `(1 + f)^period` gives back the cashflow; with a zero rate the cashflow is kept. At a non-negative rate a non-negative cashflow is worth between zero and itself. |
| Cashflow.PresentValueTerms | Utils/FunctionLibraryV1.py:142-148 | `Cashflow.PresentValue` is the sum over months `t` of the cashflow at index `t` discounted for period `first + t`, as the loop discounts month `t` for period `t + 1`. |
| Cashflow.PresentValueUndiscounted | Utils/FunctionLibraryV1.py:142-148 | With a funding rate of zero the discounted value is the plain sum. |
| Cashflow.PresentValueAtMostSum | Utils/FunctionLibraryV1.py:143-146 | At a non-negative funding rate, non-negative cashflows are worth between zero and their sum. |
| Cashflow.SumNetCashflows | Utils/FunctionLibraryV1.py:143-144 | Summed over the months, each net cashflow term contributes its own total: `n * A` less the total of each charge. |
| Cashflow.NpvBounds | Utils/FunctionLibraryV1.py:101-149 | `Cashflow.Npv`: without discounting, the NPV is the plain sum of the loan's net cashflows less the principal. At a non-negative funding rate with non-negative cashflows, it lies between minus the principal and that. `Cashflow.PresentValueTerms` gives the discounted sum term by term. |
| CashflowTotals.CashflowsTotal | Utils/FunctionLibraryV1.py:116-148 | The same identity for the loan's four cost categories. |
| CashflowTotals.UndiscountedValue | Utils/FunctionLibraryV1.py:113-148 | Without discounting, the cashflows are worth what the borrower pays less the whole expected loss and the other charges. |
| CashflowTotals.UndiscountedNpvBreakdown | Utils/FunctionLibraryV1.py:101-149 | Without discounting, the NPV is `-P + n * A - EL_total` less the other charges' totals. The expected loss enters exactly once. |
| CashflowTotals.NothingCharged | Utils/FunctionLibraryV1.py:113-139 | A cost category given as a zero amount, a zero rate or nothing at all totals zero over any balances. |
| CashflowTotals.CostFreeCashflowsTotal | Utils/FunctionLibraryV1.py:113-144 | With no expected loss and no other charge, the net cashflows total exactly `n * A`. |
| CashflowTotals.CostFreeBreaksEven | Utils/FunctionLibraryV1.py:101-149 | With no expected loss, no other charge and no discounting, the NPV at rate zero is exactly zero: the straight-line payments return the principal and nothing more. |
| Schedule.NextRow | Utils/FunctionLibraryV1.py:166-181 | A table row is consistent: interest on the start balance, payment = interest + repayment, repayment at most the balance, and end = start - repayment. Its end balance is the clamped step of the NPV simulation. The payment is kept unless it would overpay, and then exactly the balance is repaid. |
| Schedule.NextRowTracksBalances | Utils/FunctionLibraryV1.py:162-181 | The table's balances follow the simulation's clamped recurrence with the original payment, even after the carried payment has been lowered. |
| Schedule.NextRowOnSchedule | Utils/FunctionLibraryV1.py:168-171 | Under the annuity payment at rate zero, or at or above the threshold, no month overpays. The payment is carried unchanged. |
| Schedule.RepaidTelescopes | Utils/FunctionLibraryV1.py:165-181 | Over chained rows, the repayments add up to the first start balance minus the last end balance. |
| Schedule.AmortizationTable | Utils/FunctionLibraryV1.py:162-185 | The table has one consistent row per month, periods `1..n`, and starts at the principal. Each row starts where the previous ended. The returned payment is the last row's. Repayments total the principal less the final balance. For `P, r >= 0`, the start balances equal the NPV simulation's. For `P >= 0` at rate zero or at or above the threshold, every payment is the annuity and the loan ends fully repaid. For `P, r >= 0`, including the band between zero and the threshold, the last row ends where the simulation's clamped recurrence ends under the annuity payment. A returned payment that differs from the annuity only comes with a final balance of zero. |
| Pricing.ResolveExpectedLoss | Utils/FunctionLibraryV1.py:93-96 | Fails, with the missing-loss error, exactly when neither a rate nor a total is given. |
| Pricing.TotalOverridesRate | Utils/FunctionLibraryV1.py:93-96 | A given total is used as is and any rate is ignored. |
| Pricing.RateIsTotalOverPrincipal | Utils/FunctionLibraryV1.py:93-96 | Giving the rate is the same as giving the rate times the principal as the total. |
| Pricing.Configure | Utils/FunctionLibraryV1.py:93-99 | Succeeds exactly when an expected loss is given and the term is positive. The missing-loss error takes precedence. The model is well formed and carries the resolved loss. The discount rate is the funding rate when enabled, else zero. Capital cost is allocated by `Cashflow.CapitalAllocation`, operating cost and margin by `Cashflow.AmountOrRate`; `Cashflow.CapitalAllocationCharges` and `Cashflow.AmountOrRateCharges` state what those allocations charge. |
| Pricing.ObjectiveIsNpv | Utils/FunctionLibraryV1.py:101-149 | The function handed to the root finder equals the NPV at every rate above -1. |
| Pricing.SolveRate | Utils/FunctionLibraryV1.py:151-159 | Rate zero when the NPV at zero is non-negative. Otherwise the error is raised exactly when `Pricing.Search` finds nothing, and a found rate is returned. Any rate returned is non-negative. On error the NPV at zero is negative and not within the tolerance, and the NPV is negative at every upper end either search tried (`Pricing.NegativeAlong`). |
| Pricing.Search | Utils/FunctionLibraryV1.py:155-157 | Any rate found is non-negative. A sign change between 0 and 0.5 is always found. When nothing is found, the value at zero is not within the tolerance, and every end tried (`0.5 * 2^j` for `j <= 100`, `5 * 2^j` for `j <= 200`) shares its strict sign. |
| Pricing.SearchFailure | Utils/FunctionLibraryV1.py:155-159 | When both searches fail and the NPV at zero is negative, it is not within the tolerance, and the NPV is negative at `0.5 * 2^j` for every `j <= 100` and at `5 * 2^j` for every `j <= 200`. |
| Pricing.NegativeAlongSearch | Utils/FunctionLibraryV1.py:54-59 | If every end a doubling search tried shares the sign of a negative value at zero, the NPV is defined and negative at each of those ends. |
| Pricing.SolvedRateIsBracketed | Utils/FunctionLibraryV1.py:151-159 | A solved rate whose NPV is not within the tolerance lies in a non-negative interval. The NPV does not share a strict sign at its two ends, and its width is the search interval halved 199 times. |
| Pricing.CostFreeIsViable | Utils/FunctionLibraryV1.py:93-153 | Inputs with a zero expected loss, no capital, operating or margin charge and no discounting, over a positive term, configure a cost-free model whose NPV at zero is zero, so the solver settles on rate zero. |
| Pricing.EffectiveAnnualRate | Utils/FunctionLibraryV1.py:183 | Zero at rate zero, and at least `1200 * r` for a non-negative monthly rate (compounding never loses to simple interest). |
| Pricing.EffectiveAnnualRateMonotone | Utils/FunctionLibraryV1.py:183 | A higher non-negative monthly rate never gives a lower EAR. |
| Pricing.BuildQuote | Utils/FunctionLibraryV1.py:161-185 | At a non-negative rate the quote carries that rate and its EAR (at least `1200 * rate`). The table has one consistent row per month, periods `1..n`, and starts at the principal. Each row starts where the previous ended. Repayments total the principal less the final balance, and the payment is the last row's. For `P >= 0`, the start balances are the NPV simulation's. At rate zero or at or above the threshold, the payment is the annuity and the loan ends repaid. At rate zero, `n` payments add up to the principal. For `P >= 0` the quote `EndsAsSimulated`: its last row ends where the simulation's clamped recurrence ends under the annuity payment, in every band of rates. A payment differing from that annuity comes only with nothing left owed. |
| Pricing.PriceRateAndPayment | Utils/FunctionLibraryV1.py:73-185 | Errors come from validation or from the solver, with the missing loss first and a zero term next. A configuration the solver cannot bracket yields `NoFeasibleRate`. On success the quote carries the solved rate and its EAR (at least `1200 * rate`). The table has one consistent row per month at that rate, with periods `1..n`. It starts at the principal and each row starts where the previous one ended. Repayments total the principal less the final balance. For a non-negative principal, the start balances are those the NPV was simulated on. The payment is the one carried out of the last month. For a non-negative principal at rate zero or at or above the threshold, it is the annuity and the table ends at zero. For a non-negative principal the quote `EndsAsSimulated` at every solved rate, so the table's last balance is the simulation's. Cost-free inputs over a positive term give rate zero, an EAR of zero and, for a non-negative principal, the payment `P / n`. |
| RiskEstimate.Clip01 | Utils/Execution_Code.py:50-52 | The result is in `[0, 1]`. It is the identity on `[0, 1]`, 0 below and 1 above. |
| RiskEstimate.ClipIdempotent | Utils/Execution_Code.py:50-52 | Clipping twice is clipping once. |
| RiskEstimate.ClipMonotone | Utils/Execution_Code.py:50-52 | Clipping keeps order. |
| RiskEstimate.LossRate | Utils/Execution_Code.py:62 | The product of the clipped predictions is a probability no larger than any factor. |
| RiskEstimate.LossAmount | Utils/Execution_Code.py:63 | The euro loss lies between zero and a non-negative principal. |
| RiskEstimate.Estimate | Utils/Execution_Code.py:50-63 | The row holds the clipped predictions and `EL = pd * ead * lgd`, no larger than any factor. The euro figure is `principal * EL`, bounded by the principal. |
| RiskEstimate.EstimateAllSplits | Utils/Execution_Code.py:55-63 | Estimating two batches gives the concatenation of the two tables. |
| RiskEstimate.LossRateFeedsPricing | App.py:175-183 | Inputs built from a row, with its principal and its loss rate as the expected-loss rate, configure an expected-loss total equal to the row's euro figure whatever the other loan terms. That total lies between zero and a non-negative principal. |

## Left out

- The web interface (`App.py`), loading the pickled models, the predictors and `data_quality` are left out. The predictions are inputs.
- Floating point is left out: every quantity is an exact real. Rounding, overflow, NaN and infinities are not modelled.
  - Overflow changes the infeasible case. Python's float `**` raises `OverflowError` once `(1 + r) ** n` exceeds the float range; `(1 + 0.5 * 2**30) ** 36` already does. For a 36-month loan the doubling search therefore raises `OverflowError` after about 30 doublings and never reaches the `ValueError` at `Utils/FunctionLibraryV1.py:159`. The model has no such limit: every doubling is evaluated, and the infeasible case always ends in `NoFeasibleRate` (`Pricing.SolveRate`, `Pricing.SearchFailure`).
  - The `1e-15` threshold of the payment formula is kept. For rates strictly between zero and the threshold, the straight-line payment ignores interest that exact arithmetic does charge. The lemmas about clearing the loan therefore exclude that band. In the band, the table's last balance is still tied to the simulation's clamped recurrence under the annuity payment (`Schedule.AmortizationTable`, `Pricing.EndsAsSimulated`).
- The fractional power `(1 + euribor) ** (1/12) - 1` is left out because Dafny has no real roots. It is an input, `fundingMonthly`, required to exceed -1 when funding is used for discounting. That holds for every `euribor > -1`. The source yields a complex or undefined rate below that.
- A negative term is not modelled: the term is a natural number. A zero term is the `ZeroTerm` error, which is the source's division by zero in the payment.
- `verbose` and the commented-out printing are left out.
- The keyword defaults of `price_rate_and_payment` (`euribor_annual=0.02`, `K_pct=0.08`, `r_capital=0.10`, `use_funding_as_discount=True`) are not modelled. Every caller of the model passes these inputs explicitly.
- RiskEstimate.LossRateFeedsPricing: prices the row's own principal (`RiskEstimate.PricingFor`). The application prices the raw `principal` (`App.py:181`), while the expected-loss row carries the principal rounded to a whole number by `data_quality` (`Utils/FunctionLibraryV1.py:18-26`). The two differ for a fractional principal, and that rounding is not modelled.
- The source returns only the EAR and the payment. The model's quote also carries the monthly rate and the table the source builds and discards.
- The balance simulation of the NPV clamps the balance at zero, as the code does at `Utils/FunctionLibraryV1.py:112`.
- Monotonicity of the NPV in the rate is not proved. The solver's result is therefore characterized by its bracket, not as the lowest break-even rate.
- The expected-loss table is computed per applicant and then mapped over a sequence. The column-wise DataFrame arithmetic is left out.
- Pricing.SolveRate: states that the rate covers the costs only through the bracket of `Pricing.SolvedRateIsBracketed`, not as the lowest such rate, because NPV monotonicity is left out.
- Annuity.PaymentAmortizes: excludes rates strictly between zero and the `1e-15` threshold, where the straight-line payment does not clear the loan in exact arithmetic.
- CashflowTotals.UndiscountedNpvBreakdown: requires the balances not to sum to zero. When they do, the source divides by one instead and the proportional charges vanish.
