/** How far the payment schedule of `generatePaymentSchedule` drifts from
    exact amortization.  Each row rounds its interest to cents, so the debt
    the schedule carries is bounded by the exact balance of a loan repaid
    with half a cent less each month; with the payment `calculateCredit`
    computes, the debt left after the last row is small. */
module ScheduleDrift {
  import opened Common
  import opened Decimal
  import opened AnnuityMath
  import opened Calendar
  import opened CreditCalculation

  /** One row: the next debt is at most one exact month of the current
      debt repaid with c, for any c up to the payment less the interest
      rounding error h. */
  lemma RowStep(debt: real, i: real, pay: real, h: real, c: real,
                interest: real, principal: real, next: real)
    requires debt >= 0.0 && interest - debt * i <= h && c <= pay - h
    requires principal == Max(0.0, pay - interest) && next == Max(0.0, debt - principal)
    ensures 0.0 <= next <= Max(0.0, debt * (1.0 + i) - c)
  {
    assert debt * (1.0 + i) == debt + debt * i;
  }

  /** One exact month is monotone in the debt, once clamped at zero. */
  lemma UpperStep(d: real, w: real, i: real, c: real)
    requires 0.0 <= d <= Max(0.0, w) && i >= 0.0 && c >= 0.0
    ensures Max(0.0, d * (1.0 + i) - c) <= Max(0.0, w * (1.0 + i) - c)
  {
    if w >= 0.0 {
      ProductNonnegative(w - d, 1.0 + i);
      assert w * (1.0 + i) - d * (1.0 + i) == (w - d) * (1.0 + i);
    }
  }

  /** One row keeps the debt between zero and the clamped exact balance:
      from a debt d below the balance b to the next debt below the next
      balance b * (1 + i) - c. */
  lemma DebtStep(d: real, b: real, bNext: real, i: real, pay: real, h: real, c: real,
                 interest: real, principal: real, next: real)
    requires 0.0 <= d <= Max(0.0, b) && i >= 0.0 && 0.0 <= c <= pay - h
    requires interest - d * i <= h && bNext == b * (1.0 + i) - c
    requires principal == Max(0.0, pay - interest) && next == Max(0.0, d - principal)
    ensures 0.0 <= next <= Max(0.0, bNext)
  {
    RowStep(d, i, pay, h, c, interest, principal, next);
    UpperStep(d, b, i, c);
  }

  /** The arithmetic a row keeps: its interest exceeds the exact interest
      on the debt before it by at most half a cent, its principal and the
      next debt follow from the payment and that interest. */
  predicate RowWithinRounding(s: seq<PaymentScheduleElement>, k: nat, totalAmount: real,
                              monthlyRate: real, monthlyPayment: real)
    requires k < |s|
  {
    && s[k].interestPayment - DebtBefore(s, k, totalAmount) * monthlyRate <= HalfUlp(2)
    && s[k].principalPayment == Max(0.0, monthlyPayment - s[k].interestPayment)
    && s[k].remainingDebt == Max(0.0, DebtBefore(s, k, totalAmount) - s[k].principalPayment)
  }

  /** Every row `generatePaymentSchedule` writes keeps that arithmetic. */
  lemma RowRounding(s: seq<PaymentScheduleElement>, k: nat, totalAmount: real,
                    monthlyRate: real, monthlyPayment: real, today: Date)
    requires ValidDate(today) && k < |s|
    requires RowFollows(s, k, totalAmount, monthlyRate, monthlyPayment, today)
    ensures RowWithinRounding(s, k, totalAmount, monthlyRate, monthlyPayment)
  {
    RoundHalfUpBounds(DebtBefore(s, k, totalAmount) * monthlyRate, 2);
  }

  /** Every debt the schedule carries lies between zero and the exact
      balance of the loan repaid with c a month (or zero, once that balance
      is negative), for any c from zero up to the payment less half a
      cent. */
  lemma {:induction false} DebtBelowBalance(s: seq<PaymentScheduleElement>, k: nat, totalAmount: real,
                                            monthlyRate: real, monthlyPayment: real, c: real)
    requires k <= |s|
    requires forall m :: 0 <= m < |s| ==> RowWithinRounding(s, m, totalAmount, monthlyRate, monthlyPayment)
    requires totalAmount >= 0.0 && monthlyRate >= 0.0 && 0.0 <= c <= monthlyPayment - HalfUlp(2)
    ensures 0.0 <= DebtBefore(s, k, totalAmount) <= Max(0.0, Balance(totalAmount, monthlyRate, c, k))
  {
    BalanceSucc(totalAmount, monthlyRate, c, 0);
    if k > 0 {
      DebtBelowBalance(s, k - 1, totalAmount, monthlyRate, monthlyPayment, c);
      BalanceSucc(totalAmount, monthlyRate, c, k - 1);
      assert RowWithinRounding(s, k - 1, totalAmount, monthlyRate, monthlyPayment);
      DebtStep(DebtBefore(s, k - 1, totalAmount), Balance(totalAmount, monthlyRate, c, k - 1),
               Balance(totalAmount, monthlyRate, c, k), monthlyRate, monthlyPayment, HalfUlp(2), c,
               s[k - 1].interestPayment, s[k - 1].principalPayment, s[k - 1].remainingDebt);
    }
  }

  /** A positive amount with two decimals is at least one cent. */
  lemma AtLeastOneCent(x: real)
    requires HasScale(x, 2) && x > 0.0
    ensures x >= 0.01
  {
    assert HasScale(x * 10.0, 1);
    assert IsWhole(x * 10.0 * 10.0);
    var k := (x * 10.0 * 10.0).Floor;
    assert k as real == x * 100.0;
    assert k >= 1;
  }

  /** The exact annuity times (1 + i)^n - 1 is the principal's interest
      grown over n months. */
  lemma AnnuityTimesDenominator(p: real, i: real, q: real, a: real)
    requires q > 1.0 && a == p * (i + i / (q - 1.0))
    ensures a * (q - 1.0) == p * i * q
  {
    var d := q - 1.0;
    assert i / d * d == i;
    assert a * d == p * (i * d + i);
  }

  /** The balance after n months with payment c, times the rate, is the
      annuity's excess over c grown over the term: the closed form with
      the annuity identity substituted. */
  lemma ExcessTimesDenominator(p: real, i: real, n: nat, c: real)
    requires i > 0.0 && n >= 1
    ensures Pow(1.0 + i, n) > 1.0
    ensures Balance(p, i, c, n) * i == (ExactAnnuity(p, i, n) - c) * (Pow(1.0 + i, n) - 1.0)
  {
    BalanceClosedForm(p, i, c, n);
    AnnuityTimesDenominator(p, i, Pow(1.0 + i, n), ExactAnnuity(p, i, n));
    assert (ExactAnnuity(p, i, n) - c) * (Pow(1.0 + i, n) - 1.0)
        == ExactAnnuity(p, i, n) * (Pow(1.0 + i, n) - 1.0) - c * (Pow(1.0 + i, n) - 1.0);
  }

  /** A debt between zero and the clamped balance, times the rate, stays
      below any bound the balance times the rate stays below. */
  lemma DebtTimesRate(debt: real, balance: real, i: real, bound: real)
    requires 0.0 <= debt <= Max(0.0, balance) && i > 0.0 && bound >= 0.0
    requires balance * i <= bound
    ensures debt * i <= bound
  {
    if balance > 0.0 {
      ScaleMonotone(debt, balance, i);
    }
  }

  /** Multiplying by a non-negative factor keeps the order. */
  lemma ScaleMonotone(x: real, y: real, z: real)
    requires x <= y && z >= 0.0
    ensures x * z <= y * z
  {
    ProductNonnegative(y - x, z);
    assert y * z - x * z == (y - x) * z;
  }

  /** A payment of at least a cent covers the half-cent interest error. */
  lemma CentCoversRounding(x: real)
    requires HasScale(x, 2) && x > 0.0
    ensures x >= HalfUlp(2)
  {
    AtLeastOneCent(x);
    HalfUlpValues();
  }

  /** A non-empty schedule has one row per month of the term, and its last
      debt lies below the clamped exact balance after the whole term. */
  lemma LastDebtBelowBalance(s: seq<PaymentScheduleElement>, totalAmount: real, term: Int32,
                             finalRate: real, monthlyPayment: real, today: Date)
    requires ValidDate(today) && finalRate > 0.0 && totalAmount >= 0.0
    requires HasScale(monthlyPayment, 2) && monthlyPayment >= 0.0
    requires IsPaymentSchedule(s, totalAmount, term, finalRate, monthlyPayment, today)
    requires s != []
    ensures |s| == term as nat
    ensures 0.0 <= s[|s| - 1].remainingDebt
    ensures s[|s| - 1].remainingDebt
         <= Max(0.0, Balance(totalAmount, MonthlyRate(finalRate), monthlyPayment - HalfUlp(2), term as nat))
  {
    CentCoversRounding(monthlyPayment);
    forall m | 0 <= m < |s|
      ensures RowWithinRounding(s, m, totalAmount, MonthlyRate(finalRate), monthlyPayment)
    {
      RowRounding(s, m, totalAmount, MonthlyRate(finalRate), monthlyPayment, today);
    }
    DebtBelowBalance(s, |s|, totalAmount, MonthlyRate(finalRate), monthlyPayment, monthlyPayment - HalfUlp(2));
  }

  /** The per-month tolerance the schedule may drift by: the half-cent
      interest rounding and the half-cent payment rounding, plus the
      principal times the half unit of the eight-digit quotient. */
  function DriftTolerance(p: real): (t: real)
    ensures p >= 0.0 ==> t > 0.0
  {
    ProductNonnegative(p, HalfUlp(8));
    2.0 * HalfUlp(2) + p * HalfUlp(8)
  }

  /** Repaid with half a cent less than a payment that falls short of the
      exact annuity by less than half a cent plus p * h8, the exact balance
      after n months, times the rate, is at most the drift tolerance grown
      over the term. */
  lemma BalanceDrift(p: real, i: real, n: nat, pay: real)
    requires i > 0.0 && n >= 1 && p >= 0.0
    requires ExactAnnuity(p, i, n) - HalfUlp(2) - p * HalfUlp(8) < pay
    ensures Pow(1.0 + i, n) > 1.0
    ensures Balance(p, i, pay - HalfUlp(2), n) * i <= DriftTolerance(p) * (Pow(1.0 + i, n) - 1.0)
  {
    ExcessTimesDenominator(p, i, n, pay - HalfUlp(2));
    ScaleMonotone(ExactAnnuity(p, i, n) - (pay - HalfUlp(2)), DriftTolerance(p), Pow(1.0 + i, n) - 1.0);
  }

  /** For any two-decimal payment that falls short of the exact annuity
      by less than half a cent plus S * h8, the debt left after the last
      row, times the monthly rate, is at most the drift tolerance grown
      over the term. */
  lemma ScheduleDebtDrift(s: seq<PaymentScheduleElement>, totalAmount: real, term: Int32,
                          finalRate: real, monthlyPayment: real, today: Date)
    requires ValidDate(today)
    requires 1 <= term <= MAX_POW_EXPONENT && finalRate > 0.0 && totalAmount >= 0.0
    requires HasScale(monthlyPayment, 2) && monthlyPayment >= 0.0
    requires ExactAnnuity(totalAmount, MonthlyRate(finalRate), term as nat) - HalfUlp(2) - totalAmount * HalfUlp(8)
             < monthlyPayment
    requires IsPaymentSchedule(s, totalAmount, term, finalRate, monthlyPayment, today)
    ensures s != [] ==> |s| == term as nat
    ensures s != [] ==>
              s[|s| - 1].remainingDebt * MonthlyRate(finalRate)
              <= DriftTolerance(totalAmount) * (Pow(1.0 + MonthlyRate(finalRate), term as nat) - 1.0)
  {
    if s != [] {
      LastDebtBelowBalance(s, totalAmount, term, finalRate, monthlyPayment, today);
      BalanceDrift(totalAmount, MonthlyRate(finalRate), term as nat, monthlyPayment);
      ProductNonnegative(DriftTolerance(totalAmount), Pow(1.0 + MonthlyRate(finalRate), term as nat) - 1.0);
      DebtTimesRate(s[|s| - 1].remainingDebt,
                    Balance(totalAmount, MonthlyRate(finalRate), monthlyPayment - HalfUlp(2), term as nat),
                    MonthlyRate(finalRate),
                    DriftTolerance(totalAmount) * (Pow(1.0 + MonthlyRate(finalRate), term as nat) - 1.0));
    }
  }

  /** With the payment `calculateCredit` computes, the debt left after the
      last row, times the monthly rate, is at most
      (one cent + S * 5e-9) * ((1 + i)^n - 1): the schedule ends within
      that rounding drift of the exact amortization, which ends at zero. */
  lemma FinalDebtBound(s: seq<PaymentScheduleElement>, totalAmount: real, term: Int32,
                       finalRate: real, monthlyPayment: real, today: Date)
    requires ValidDate(today)
    requires 1 <= term <= MAX_POW_EXPONENT && finalRate > 0.0 && totalAmount >= 0.0
    requires CalculateMonthlyPayment(totalAmount, term, finalRate) == Ok(monthlyPayment)
    requires IsPaymentSchedule(s, totalAmount, term, finalRate, monthlyPayment, today)
    ensures s != [] ==> |s| == term as nat
    ensures s != [] ==>
              s[|s| - 1].remainingDebt * MonthlyRate(finalRate)
              <= DriftTolerance(totalAmount) * (Pow(1.0 + MonthlyRate(finalRate), term as nat) - 1.0)
  {
    MonthlyPaymentNearAnnuity(totalAmount, term, finalRate);
    ScheduleDebtDrift(s, totalAmount, term, finalRate, monthlyPayment, today);
  }
}
