/** The amortization table built at the rate the solver settles on: one row
    per month, with the payment carried from month to month and lowered to
    the outstanding balance plus interest when it would overpay. */
module Schedule {
  import opened Numerics
  import opened Annuity
  import opened Cashflow

  /** One month of the table. */
  datatype Row = Row(
    period: nat,
    startBalance: real,
    payment: real,
    interest: real,
    principalRepayment: real,
    endBalance: real)

  /** The figures of a row agree at monthly rate `rate`: the interest is
      charged on the start balance, the payment is interest plus repayment,
      no more than the start balance is repaid, and what is repaid leaves the
      balance. */
  predicate Consistent(row: Row, rate: real)
  {
    && row.interest == row.startBalance * rate
    && row.payment == row.interest + row.principalRepayment
    && row.principalRepayment <= row.startBalance
    && row.endBalance == row.startBalance - row.principalRepayment
  }

  /** One month of the table for start balance `balance` and carried payment
      `a`. The end balance is the clamped step of the NPV simulation; the
      payment is kept unless it would repay more than is owed, in which case
      exactly the balance is repaid. */
  function NextRow(period: nat, balance: real, rate: real, a: real): (row: Row)
    ensures row.period == period && row.startBalance == balance
    ensures Consistent(row, rate)
    ensures row.endBalance == Max(Amortize(balance, rate, a), 0.0)
    ensures a - balance * rate <= balance ==> row.payment == a
    ensures a - balance * rate > balance ==> row.principalRepayment == balance && row.endBalance == 0.0
  {
    var interest := balance * rate;
    var repay := a - interest;
    if repay > balance then
      Row(period, balance, interest + balance, interest, balance, Max(balance - balance, 0.0))
    else
      Row(period, balance, a, interest, repay, Max(balance - repay, 0.0))
  }

  /** The start balances of a table follow the clamped recurrence of the NPV
      simulation with the original payment `a0`, even after the carried
      payment has been lowered: by then nothing is owed any more. */
  lemma NextRowTracksBalances(principal: real, rate: real, a0: real, k: nat, balance: real, a: real)
    requires rate >= 0.0 && a0 >= 0.0 && a >= 0.0 && balance >= 0.0
    requires balance == BalanceAfter(principal, rate, a0, k)
    requires a != a0 ==> balance == 0.0
    ensures var row := NextRow(k + 1, balance, rate, a);
      && row.endBalance == BalanceAfter(principal, rate, a0, k + 1)
      && row.endBalance >= 0.0 && row.payment >= 0.0
      && (row.payment != a0 ==> row.endBalance == 0.0)
  {
    BalanceAfterStep(principal, rate, a0, k);
    var row := NextRow(k + 1, balance, rate, a);
    if a - balance * rate > balance {
      assert row.payment == balance * rate + balance;
    }
  }

  /** While the payment is the annuity for a zero rate or a rate at or above
      the threshold, a month never overpays: the payment is kept and the
      balance follows the unclamped recurrence. */
  lemma NextRowOnSchedule(principal: real, rate: real, n: nat, k: nat)
    requires PaymentDefined(rate, n) && principal >= 0.0 && (rate == 0.0 || rate >= Eps) && k < n
    ensures var a0 := Payment(principal, rate, n);
      var row := NextRow(k + 1, Roll(principal, rate, a0, k), rate, a0);
      row.payment == a0 && row.endBalance == Roll(principal, rate, a0, k + 1)
  {
    var a0 := Payment(principal, rate, n);
    RollStep(principal, rate, a0, k);
    RollStaysNonNegative(principal, rate, n, k + 1);
  }

  /** The total principal repaid over the rows. */
  function Repaid(rows: seq<Row>): real
    decreases |rows|
  {
    if |rows| == 0 then 0.0 else rows[0].principalRepayment + Repaid(rows[1..])
  }

  /** Each row starts where the previous one ended. */
  predicate Chained(rows: seq<Row>)
  {
    forall i :: 0 < i < |rows| ==> rows[i].startBalance == rows[i - 1].endBalance
  }

  /** Over chained, consistent rows the repayments add up to the fall of the
      balance from the first start to the last end. */
  lemma {:induction false} RepaidTelescopes(rows: seq<Row>, rate: real)
    requires |rows| > 0 && Chained(rows)
    requires forall i :: 0 <= i < |rows| ==> Consistent(rows[i], rate)
    ensures Repaid(rows) == rows[0].startBalance - rows[|rows| - 1].endBalance
    decreases |rows|
  {
    assert Consistent(rows[0], rate);
    if |rows| > 1 {
      var rest := rows[1..];
      assert forall i :: 0 < i < |rest| ==> rest[i].startBalance == rest[i - 1].endBalance by {
        forall i | 0 < i < |rest| ensures rest[i].startBalance == rest[i - 1].endBalance {
          assert rest[i] == rows[i + 1] && rest[i - 1] == rows[i];
        }
      }
      assert forall i :: 0 <= i < |rest| ==> Consistent(rest[i], rate) by {
        forall i | 0 <= i < |rest| ensures Consistent(rest[i], rate) {
          assert rest[i] == rows[i + 1];
        }
      }
      RepaidTelescopes(rest, rate);
      assert rest[0] == rows[1];
      assert rest[|rest| - 1] == rows[|rows| - 1];
    }
  }

  /** The amortization table at monthly rate `rate`, and the payment carried
      out of its last month. */
  method AmortizationTable(principal: real, rate: real, months: nat) returns (rows: seq<Row>, payment: real)
    requires PaymentDefined(rate, months)
    ensures |rows| == months
    ensures forall i :: 0 <= i < months ==> rows[i].period == i + 1 && Consistent(rows[i], rate)
    ensures rows[0].startBalance == principal && Chained(rows)
    ensures payment == rows[months - 1].payment
    ensures Repaid(rows) == principal - rows[months - 1].endBalance
    ensures principal >= 0.0 && rate >= 0.0 ==>
      forall i :: 0 <= i < months ==>
        rows[i].startBalance == StartBalances(principal, rate, Payment(principal, rate, months), months)[i]
    ensures principal >= 0.0 && (rate == 0.0 || rate >= Eps) ==>
      && payment == Payment(principal, rate, months)
      && rows[months - 1].endBalance == 0.0
      && forall i :: 0 <= i < months ==> rows[i].payment == Payment(principal, rate, months)
    ensures principal >= 0.0 && rate >= 0.0 ==>
      && rows[months - 1].endBalance == BalanceAfter(principal, rate, Payment(principal, rate, months), months)
      && (payment != Payment(principal, rate, months) ==> rows[months - 1].endBalance == 0.0)
  {
    var a0 := Payment(principal, rate, months);
    var tracked := principal >= 0.0 && rate >= 0.0;
    var onSchedule := principal >= 0.0 && (rate == 0.0 || rate >= Eps);
    if tracked {
      PaymentNonNegative(principal, rate, months);
    }
    var balance := principal;
    var a := a0;
    rows := [];
    var k := 0;
    while k < months
      invariant 0 <= k <= months && |rows| == k
      invariant forall i :: 0 <= i < k ==> rows[i].period == i + 1 && Consistent(rows[i], rate)
      invariant k > 0 ==> rows[0].startBalance == principal
      invariant Chained(rows)
      invariant k == 0 ==> balance == principal && a == a0
      invariant k > 0 ==> balance == rows[k - 1].endBalance && a == rows[k - 1].payment
      invariant tracked ==>
        && a0 >= 0.0 && a >= 0.0 && balance >= 0.0
        && balance == BalanceAfter(principal, rate, a0, k)
        && (a != a0 ==> balance == 0.0)
        && forall i :: 0 <= i < k ==> rows[i].startBalance == BalanceAfter(principal, rate, a0, i)
      invariant onSchedule ==>
        && balance == Roll(principal, rate, a0, k) && a == a0
        && forall i :: 0 <= i < k ==> rows[i].payment == a0
    {
      var row := NextRow(k + 1, balance, rate, a);
      if tracked {
        NextRowTracksBalances(principal, rate, a0, k, balance, a);
      }
      if onSchedule {
        NextRowOnSchedule(principal, rate, months, k);
      }
      rows := rows + [row];
      balance := row.endBalance;
      a := row.payment;
      k := k + 1;
    }
    payment := a;
    RepaidTelescopes(rows, rate);
    if tracked {
      forall i | 0 <= i < months
        ensures rows[i].startBalance == StartBalances(principal, rate, a0, months)[i]
      {
        StartBalanceAt(principal, rate, a0, months, i);
      }
    }
    if onSchedule {
      PaymentAmortizes(principal, rate, months);
    }
  }
}
