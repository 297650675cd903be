/** CreditCalculationServiceImpl: the final credit terms for a scored
    applicant (adjusted amount and rate, annuity payment, the simplified
    PSK figure and the month-by-month payment schedule). */
module CreditCalculation {
  import opened Common
  import opened Decimal
  import opened AnnuityMath
  import opened Calendar

  const BASE_RATE: real := 15.0
  /** The insurance surcharge of this service (the offer service uses 100000). */
  const INSURANCE_COST: real := 1000.0
  const INSURANCE_RATE_DISCOUNT: real := 3.0
  const SALARY_CLIENT_RATE_DISCOUNT: real := 1.0

  /** The fields of ScoringDataDto the calculation reads; `None` is `null`.
      The applicant's identity fields only feed validation. */
  datatype ScoringData = ScoringData(
    amount: Option<real>,
    term: Int32,
    isInsuranceEnabled: Option<bool>,
    isSalaryClient: Option<bool>)

  datatype PaymentScheduleElement = PaymentScheduleElement(
    paymentDate: Date,
    paymentAmount: real,
    interestPayment: real,
    principalPayment: real,
    remainingDebt: real)

  /** CreditDto. */
  datatype Credit = Credit(
    amount: real,
    term: Int32,
    monthlyPayment: real,
    rate: real,
    psk: real,
    isInsuranceEnabled: Option<bool>,
    isSalaryClient: Option<bool>,
    paymentSchedule: seq<PaymentScheduleElement>)

  // ---------------------------------------------------------------------
  // Monthly payment

  /** `calculateMonthlyPayment`: S * (i + i / ((1 + i)^n - 1)), the inner
      quotient rounded to 8 places and the payment to 2; 0.00 for a
      non-positive term; straight-line S / n for a non-positive rate or a
      zero denominator.  Throws when `pow` rejects the exponent range. */
  function CalculateMonthlyPayment(totalAmount: real, term: Int32, finalRate: real): (r: Result<real>)
    ensures r.Err? <==> term > MAX_POW_EXPONENT && finalRate > 0.0
    ensures r.Ok? ==> HasScale(r.value, 2)
    ensures term <= 0 ==> r == Ok(0.0)
    ensures term > 0 && finalRate <= 0.0 ==> r == Ok(RoundHalfUp(totalAmount / term as real, 2))
    ensures totalAmount >= 0.0 && r.Ok? ==> r.value >= 0.0
  {
    if term <= 0 then
      RoundHalfUpHasScale(0.0, 2);
      RoundHalfUpBounds(0.0, 2);
      Ok(RoundHalfUp(0.0, 2))
    else
      var i := MonthlyRate(finalRate);
      QuotientSign(totalAmount, term as real);
      if i <= 0.0 then DivideToScale(totalAmount, term as real, 2)
      else
        match PowChecked(1.0 + i, term)
        case Err(e) => Err(e)
        case Ok(powTerm) =>
          var denominator := powTerm - 1.0;
          if denominator == 0.0 then DivideToScale(totalAmount, term as real, 2)
          else
            PowAtLeastOne(1.0 + i, term);
            Ok(AnnuityPayment(totalAmount, i, denominator))
  }

  /** The annuity branch of `calculateMonthlyPayment`: i / denominator to
      8 places, plus i, times the amount, to 2 places. */
  function AnnuityPayment(totalAmount: real, i: real, denominator: real): (pay: real)
    requires i > 0.0 && denominator > 0.0
    ensures HasScale(pay, 2)
    ensures totalAmount >= 0.0 ==> pay >= 0.0
    ensures totalAmount >= 0.0 ==>
              var exact := totalAmount * (i + i / denominator);
              exact - HalfUlp(2) - totalAmount * HalfUlp(8) < pay <= exact + HalfUlp(2) + totalAmount * HalfUlp(8)
  {
    var quotient := i / denominator;
    QuotientSign(i, denominator);
    var iOverDenominator := RoundHalfUp(quotient, 8);
    RoundHalfUpBounds(quotient, 8);
    var annuityPart := i + iOverDenominator;
    ProductNonnegative(totalAmount, annuityPart);
    var pay := RoundHalfUp(totalAmount * annuityPart, 2);
    RoundHalfUpBounds(totalAmount * annuityPart, 2);
    RoundHalfUpHasScale(totalAmount * annuityPart, 2);
    if totalAmount >= 0.0 then
      TwoRoundings(totalAmount, i, quotient, iOverDenominator, pay, HalfUlp(8), HalfUlp(2));
      pay
    else pay
  }

  /** For a positive rate and a term `pow` accepts, (1 + i)^n - 1 > 0, so
      the zero-denominator fallback is never taken. */
  lemma DenominatorPositive(term: Int32, finalRate: real)
    requires 1 <= term <= MAX_POW_EXPONENT && finalRate > 0.0
    ensures Pow(1.0 + MonthlyRate(finalRate), term) - 1.0 > 0.0
  {
    PowAtLeastOne(1.0 + MonthlyRate(finalRate), term);
  }

  /** The payment is the exact annuity up to the two roundings: half a
      cent from the final rounding plus the amount times half a unit of
      the 8th place from the inner one. */
  lemma MonthlyPaymentNearAnnuity(totalAmount: real, term: Int32, finalRate: real)
    requires 1 <= term <= MAX_POW_EXPONENT && finalRate > 0.0 && totalAmount >= 0.0
    ensures CalculateMonthlyPayment(totalAmount, term, finalRate).Ok?
    ensures var pay := CalculateMonthlyPayment(totalAmount, term, finalRate).value;
            var exact := ExactAnnuity(totalAmount, MonthlyRate(finalRate), term);
            exact - HalfUlp(2) - totalAmount * HalfUlp(8) < pay <= exact + HalfUlp(2) + totalAmount * HalfUlp(8)
  {
    var i := MonthlyRate(finalRate);
    ExactAnnuityNear(totalAmount, i, term);
    AnnuityBranch(totalAmount, term, finalRate);
  }

  /** The annuity branch, on the monthly rate, against the exact annuity. */
  lemma ExactAnnuityNear(p: real, i: real, n: nat)
    requires p >= 0.0 && i > 0.0 && n >= 1
    ensures Pow(1.0 + i, n) > 1.0
    ensures var pay := AnnuityPayment(p, i, Pow(1.0 + i, n) - 1.0);
            var exact := ExactAnnuity(p, i, n);
            exact - HalfUlp(2) - p * HalfUlp(8) < pay <= exact + HalfUlp(2) + p * HalfUlp(8)
  {
    PowAtLeastOne(1.0 + i, n);
    var d := Pow(1.0 + i, n) - 1.0;
    assert ExactAnnuity(p, i, n) == p * (i + i / d);
  }

  /** With a positive rate and an accepted term the annuity branch is taken. */
  lemma AnnuityBranch(totalAmount: real, term: Int32, finalRate: real)
    requires 1 <= term <= MAX_POW_EXPONENT && finalRate > 0.0
    ensures Pow(1.0 + MonthlyRate(finalRate), term) - 1.0 > 0.0
    ensures CalculateMonthlyPayment(totalAmount, term, finalRate)
         == Ok(AnnuityPayment(totalAmount, MonthlyRate(finalRate), Pow(1.0 + MonthlyRate(finalRate), term) - 1.0))
  {
    DenominatorPositive(term, finalRate);
  }

  /** Error propagation for pay = round2(p * (i + round8(f))). */
  lemma TwoRoundings(p: real, i: real, f: real, inner: real, pay: real, h8: real, h2: real)
    requires p >= 0.0 && -h8 < inner - f <= h8 && -h2 < pay - p * (i + inner) <= h2
    ensures p * (i + f) - h2 - p * h8 < pay <= p * (i + f) + h2 + p * h8
  {
    var e := inner - f;
    assert p * (i + inner) == p * (i + f) + p * e;
    ScaledError(p, e, h8);
  }

  lemma ScaledError(p: real, e: real, h: real)
    requires p >= 0.0 && -h < e <= h
    ensures -(p * h) <= p * e <= p * h
  {
    assert p * (h - e) >= 0.0;
    assert p * (e + h) >= 0.0;
  }

  /** A loan whose first month's interest is at least half a cent gets a
      positive payment (the tests' examples rely on this). */
  lemma MonthlyPaymentPositive(totalAmount: real, term: Int32, finalRate: real)
    requires 1 <= term <= MAX_POW_EXPONENT && finalRate > 0.0
    requires totalAmount * MonthlyRate(finalRate) >= HalfUlp(2)
    ensures CalculateMonthlyPayment(totalAmount, term, finalRate).Ok?
    ensures CalculateMonthlyPayment(totalAmount, term, finalRate).value > 0.0
  {
    var i := MonthlyRate(finalRate);
    AnnuityBranch(totalAmount, term, finalRate);
    AnnuityPaymentPositive(totalAmount, i, Pow(1.0 + i, term) - 1.0);
  }

  lemma AnnuityPaymentPositive(p: real, i: real, d: real)
    requires i > 0.0 && d > 0.0 && p * i >= HalfUlp(2)
    ensures AnnuityPayment(p, i, d) > 0.0
  {
    var inner := RoundHalfUp(i / d, 8);
    QuotientSign(i, d);
    RoundHalfUpBounds(i / d, 8);
    assert p > 0.0;
    assert p * (i + inner) >= p * i;
  }

  // ---------------------------------------------------------------------
  // PSK

  /** `calculatePSK`: the simplified figure rate * 1.2 rounded to cents;
      the amount and the term are accepted and ignored. */
  function CalculatePsk(totalAmount: real, term: Int32, finalRate: real): (psk: real)
    ensures HasScale(psk, 2)
    ensures finalRate >= 0.0 ==> psk >= 0.0 && -HalfUlp(2) < psk - finalRate * 1.2 <= HalfUlp(2)
    ensures HasScale(finalRate, 1) ==> psk == finalRate * 1.2
  {
    PskExact(finalRate);
    RoundHalfUpHasScale(finalRate * 1.2, 2);
    RoundHalfUpBounds(finalRate * 1.2, 2);
    RoundHalfUp(finalRate * 1.2, 2)
  }

  /** The PSK depends on the rate alone. */
  lemma PskIgnoresAmountAndTerm(amount1: real, term1: Int32, amount2: real, term2: Int32, finalRate: real)
    ensures CalculatePsk(amount1, term1, finalRate) == CalculatePsk(amount2, term2, finalRate)
  {
  }

  /** A rate with one decimal gives a PSK that needs no rounding. */
  lemma PskExact(finalRate: real)
    ensures HasScale(finalRate, 1) ==> RoundHalfUp(finalRate * 1.2, 2) == finalRate * 1.2
  {
    if HasScale(finalRate, 1) {
      PskHasScale(finalRate);
      RoundHalfUpExact(finalRate * 1.2, 2);
    }
  }

  /** rate * 1.2 has two decimals when the rate has one. */
  lemma PskHasScale(finalRate: real)
    requires HasScale(finalRate, 1)
    ensures HasScale(finalRate * 1.2, 2)
  {
    var k := (finalRate * 10.0).Floor;
    assert finalRate * 10.0 == k as real;
    var psk := finalRate * 1.2;
    assert psk * 10.0 * 10.0 == (12 * k) as real;
    IntegerIsWhole(12 * k);
    assert HasScale(psk * 10.0, 1);
  }

  // ---------------------------------------------------------------------
  // Payment schedule

  /** Number of rows: none for a zero payment or a non-positive term. */
  function ScheduleLength(term: Int32, monthlyPayment: real): nat {
    if monthlyPayment == 0.0 || term <= 0 then 0 else term
  }

  /** The remaining debt before row k: the amount for the first row, the
      previous row's remaining debt after that. */
  function DebtBefore(s: seq<PaymentScheduleElement>, k: nat, totalAmount: real): real
    requires k <= |s|
  {
    if k == 0 then totalAmount else s[k - 1].remainingDebt
  }

  /** A month's interest on the debt, rounded half-up to cents. */
  function MonthlyInterest(debt: real, monthlyRate: real): real {
    RoundHalfUp(debt * monthlyRate, 2)
  }

  /** Row k (0-based) is month k + 1: interest on the debt before it
      rounded to cents, principal the rest of the fixed payment (at least
      zero), debt reduced by the principal (at least zero). */
  predicate RowFollows(s: seq<PaymentScheduleElement>, k: nat, totalAmount: real,
                       monthlyRate: real, monthlyPayment: real, today: Date)
    requires k < |s| && ValidDate(today)
  {
    var debt := DebtBefore(s, k, totalAmount);
    var row := s[k];
    && row.paymentDate == PlusMonths(today, k + 1)
    && row.paymentAmount == monthlyPayment
    && row.interestPayment == MonthlyInterest(debt, monthlyRate)
    && row.principalPayment == Max(0.0, monthlyPayment - row.interestPayment)
    && row.remainingDebt == Max(0.0, debt - row.principalPayment)
  }

  /** What `generatePaymentSchedule` returns for these arguments. */
  predicate IsPaymentSchedule(s: seq<PaymentScheduleElement>, totalAmount: real, term: Int32,
                              finalRate: real, monthlyPayment: real, today: Date)
    requires ValidDate(today)
  {
    && |s| == ScheduleLength(term, monthlyPayment)
    && forall k :: 0 <= k < |s| ==> RowFollows(s, k, totalAmount, MonthlyRate(finalRate), monthlyPayment, today)
  }

  /** `generatePaymentSchedule`: one row per month with a running debt. */
  method GeneratePaymentSchedule(totalAmount: real, term: Int32, finalRate: real,
                                 monthlyPayment: real, today: Date)
      returns (schedule: seq<PaymentScheduleElement>)
    requires ValidDate(today)
    ensures IsPaymentSchedule(schedule, totalAmount, term, finalRate, monthlyPayment, today)
  {
    schedule := [];
    if monthlyPayment == 0.0 || term <= 0 {
      return;
    }
    var monthlyRate := MonthlyRate(finalRate);
    var debtRemaining := totalAmount;
    var i := 1;
    while i <= term
      invariant 1 <= i <= term + 1
      invariant |schedule| == i - 1
      invariant debtRemaining == DebtBefore(schedule, i - 1, totalAmount)
      invariant forall k :: 0 <= k < |schedule| ==> RowFollows(schedule, k, totalAmount, monthlyRate, monthlyPayment, today)
    {
      var interestPayment := MonthlyInterest(debtRemaining, monthlyRate);
      var principalPayment := Max(0.0, monthlyPayment - interestPayment);
      debtRemaining := Max(0.0, debtRemaining - principalPayment);
      var element := PaymentScheduleElement(PlusMonths(today, i), monthlyPayment,
                                            interestPayment, principalPayment, debtRemaining);
      ghost var before := schedule;
      schedule := schedule + [element];
      forall k | 0 <= k < |schedule|
        ensures RowFollows(schedule, k, totalAmount, monthlyRate, monthlyPayment, today)
      {
        if k < |before| {
          RowFollowsAfterAppend(before, element, k, totalAmount, monthlyRate, monthlyPayment, today);
        }
      }
      i := i + 1;
    }
  }

  /** Appending a row leaves the earlier rows' rules intact. */
  lemma RowFollowsAfterAppend(s: seq<PaymentScheduleElement>, row: PaymentScheduleElement, k: nat,
                              totalAmount: real, monthlyRate: real, monthlyPayment: real, today: Date)
    requires ValidDate(today) && k < |s|
    requires RowFollows(s, k, totalAmount, monthlyRate, monthlyPayment, today)
    ensures RowFollows(s + [row], k, totalAmount, monthlyRate, monthlyPayment, today)
  {
    assert (s + [row])[k] == s[k];
    assert DebtBefore(s + [row], k, totalAmount) == DebtBefore(s, k, totalAmount);
  }

  /** The schedule's debt invariants: every row's principal is non-negative,
      its remaining debt is non-negative, never above the initial amount
      (or zero when that is negative), and never grows from row to row;
      and a row whose interest fits in the payment splits it exactly. */
  lemma ScheduleDebtInvariants(s: seq<PaymentScheduleElement>, totalAmount: real, term: Int32,
                               finalRate: real, monthlyPayment: real, today: Date)
    requires ValidDate(today)
    requires IsPaymentSchedule(s, totalAmount, term, finalRate, monthlyPayment, today)
    ensures forall k :: 0 <= k < |s| ==> s[k].principalPayment >= 0.0
    ensures forall k :: 0 <= k < |s| ==> 0.0 <= s[k].remainingDebt <= Max(0.0, totalAmount)
    ensures forall j, k :: 0 <= j <= k < |s| ==> s[k].remainingDebt <= s[j].remainingDebt
    ensures forall k :: 0 <= k < |s| && s[k].interestPayment <= monthlyPayment ==>
              s[k].interestPayment + s[k].principalPayment == s[k].paymentAmount
  {
    var i := MonthlyRate(finalRate);
    forall k | 0 <= k < |s|
      ensures s[k].principalPayment >= 0.0
      ensures s[k].interestPayment <= monthlyPayment ==>
                s[k].interestPayment + s[k].principalPayment == s[k].paymentAmount
      ensures 0.0 <= s[k].remainingDebt <= Max(0.0, totalAmount)
    {
      assert RowFollows(s, k, totalAmount, i, monthlyPayment, today);
      DebtBoundedAt(s, k, totalAmount, i, monthlyPayment, today);
    }
    forall j, k | 0 <= j <= k < |s|
      ensures s[k].remainingDebt <= s[j].remainingDebt
    {
      DebtNonIncreasing(s, j, k, totalAmount, i, monthlyPayment, today);
    }
  }

  lemma {:induction false} DebtBoundedAt(s: seq<PaymentScheduleElement>, k: nat, totalAmount: real,
                                         monthlyRate: real, monthlyPayment: real, today: Date)
    requires ValidDate(today) && k < |s|
    requires forall m :: 0 <= m < |s| ==> RowFollows(s, m, totalAmount, monthlyRate, monthlyPayment, today)
    ensures 0.0 <= s[k].remainingDebt <= Max(0.0, totalAmount)
  {
    assert RowFollows(s, k, totalAmount, monthlyRate, monthlyPayment, today);
    if k > 0 {
      DebtBoundedAt(s, k - 1, totalAmount, monthlyRate, monthlyPayment, today);
    }
  }

  lemma {:induction false} DebtNonIncreasing(s: seq<PaymentScheduleElement>, j: nat, k: nat, totalAmount: real,
                                             monthlyRate: real, monthlyPayment: real, today: Date)
    requires ValidDate(today) && j <= k < |s|
    requires forall m :: 0 <= m < |s| ==> RowFollows(s, m, totalAmount, monthlyRate, monthlyPayment, today)
    ensures s[k].remainingDebt <= s[j].remainingDebt
  {
    if j < k {
      DebtNonIncreasing(s, j, k - 1, totalAmount, monthlyRate, monthlyPayment, today);
      assert RowFollows(s, k - 1, totalAmount, monthlyRate, monthlyPayment, today);
      assert RowFollows(s, k, totalAmount, monthlyRate, monthlyPayment, today);
    }
  }

  /** The row rules determine the schedule: two schedules for the same
      arguments are equal. */
  lemma ScheduleUnique(s: seq<PaymentScheduleElement>, t: seq<PaymentScheduleElement>, totalAmount: real,
                       term: Int32, finalRate: real, monthlyPayment: real, today: Date)
    requires ValidDate(today)
    requires IsPaymentSchedule(s, totalAmount, term, finalRate, monthlyPayment, today)
    requires IsPaymentSchedule(t, totalAmount, term, finalRate, monthlyPayment, today)
    ensures s == t
  {
    var i := MonthlyRate(finalRate);
    forall k | 0 <= k < |s| ensures s[k] == t[k] {
      RowsAgree(s, t, k, totalAmount, i, monthlyPayment, today);
    }
  }

  lemma {:induction false} RowsAgree(s: seq<PaymentScheduleElement>, t: seq<PaymentScheduleElement>, k: nat,
                                     totalAmount: real, monthlyRate: real, monthlyPayment: real, today: Date)
    requires ValidDate(today) && k < |s| == |t|
    requires forall m :: 0 <= m < |s| ==> RowFollows(s, m, totalAmount, monthlyRate, monthlyPayment, today)
    requires forall m :: 0 <= m < |t| ==> RowFollows(t, m, totalAmount, monthlyRate, monthlyPayment, today)
    ensures s[k] == t[k]
  {
    if k > 0 {
      RowsAgree(s, t, k - 1, totalAmount, monthlyRate, monthlyPayment, today);
    }
    assert DebtBefore(s, k, totalAmount) == DebtBefore(t, k, totalAmount);
    RowDeterminedByDebt(s, t, k, totalAmount, monthlyRate, monthlyPayment, today);
  }

  /** A row is a function of the debt before it. */
  lemma RowDeterminedByDebt(s: seq<PaymentScheduleElement>, t: seq<PaymentScheduleElement>, k: nat,
                            totalAmount: real, monthlyRate: real, monthlyPayment: real, today: Date)
    requires ValidDate(today) && k < |s| && k < |t|
    requires RowFollows(s, k, totalAmount, monthlyRate, monthlyPayment, today)
    requires RowFollows(t, k, totalAmount, monthlyRate, monthlyPayment, today)
    requires DebtBefore(s, k, totalAmount) == DebtBefore(t, k, totalAmount)
    ensures s[k] == t[k]
  {
  }

  // ---------------------------------------------------------------------
  // calculateCredit

  /** The amount after the null fallback and the insurance surcharge. */
  function AdjustedAmount(data: ScoringData): real {
    (if data.amount.Some? then data.amount.value else 0.0)
    + (if data.isInsuranceEnabled == Some(true) then INSURANCE_COST else 0.0)
  }

  /** The rate after the insurance and salary-client discounts. */
  function AdjustedRate(data: ScoringData): (rate: real)
    ensures rate == 15.0 || rate == 14.0 || rate == 12.0 || rate == 11.0
    ensures rate == 11.0 <==> data.isInsuranceEnabled == Some(true) && data.isSalaryClient == Some(true)
    ensures rate == 15.0 <==> data.isInsuranceEnabled != Some(true) && data.isSalaryClient != Some(true)
  {
    BASE_RATE
    - (if data.isInsuranceEnabled == Some(true) then INSURANCE_RATE_DISCOUNT else 0.0)
    - (if data.isSalaryClient == Some(true) then SALARY_CLIENT_RATE_DISCOUNT else 0.0)
  }

  /** The CreditDto `calculateCredit` builds for `data`: adjusted amount and
      rate, the payment computed once and handed unchanged to the schedule,
      the PSK, and the caller's flags and term echoed back. */
  predicate IsCreditFor(c: Credit, data: ScoringData, today: Date)
    requires ValidDate(today)
  {
    && c.amount == AdjustedAmount(data)
    && c.rate == AdjustedRate(data)
    && c.term == data.term
    && CalculateMonthlyPayment(c.amount, c.term, c.rate) == Ok(c.monthlyPayment)
    && c.psk == CalculatePsk(c.amount, c.term, c.rate)
    && c.isInsuranceEnabled == data.isInsuranceEnabled
    && c.isSalaryClient == data.isSalaryClient
    && IsPaymentSchedule(c.paymentSchedule, c.amount, c.term, c.rate, c.monthlyPayment, today)
  }

  /** `calculateCredit`.  It fails when `BigDecimal.pow` rejects a term
      above 999999999 by its exponent-range check. */
  method CalculateCredit(data: ScoringData, today: Date) returns (r: Result<Credit>)
    requires ValidDate(today)
    ensures r.Err? <==> data.term > MAX_POW_EXPONENT
    ensures r.Ok? ==> IsCreditFor(r.value, data, today)
  {
    var totalAmount := if data.amount.Some? then data.amount.value else 0.0;
    var finalRate := BASE_RATE;
    if data.isInsuranceEnabled == Some(true) {
      totalAmount := totalAmount + INSURANCE_COST;
      finalRate := finalRate - INSURANCE_RATE_DISCOUNT;
    }
    if data.isSalaryClient == Some(true) {
      finalRate := finalRate - SALARY_CLIENT_RATE_DISCOUNT;
    }
    var monthlyPayment := CalculateMonthlyPayment(totalAmount, data.term, finalRate);
    if monthlyPayment.Err? {
      return Err(monthlyPayment.error);
    }
    var psk := CalculatePsk(totalAmount, data.term, finalRate);
    var schedule := GeneratePaymentSchedule(totalAmount, data.term, finalRate, monthlyPayment.value, today);
    r := Ok(Credit(totalAmount, data.term, monthlyPayment.value, finalRate, psk,
                   data.isInsuranceEnabled, data.isSalaryClient, schedule));
  }

  // ---------------------------------------------------------------------
  // The service's documented examples

  /** 50000 for 12 months with insurance and salary: 51000 at 11.0%, a
      positive payment and PSK, and 12 rows. */
  lemma ExampleInsuranceAndSalary(c: Credit, today: Date)
    requires ValidDate(today)
    requires IsCreditFor(c, ScoringData(Some(50000.0), 12, Some(true), Some(true)), today)
    ensures c.amount == 51000.0 && c.rate == 11.0 && c.psk == 13.2
    ensures c.monthlyPayment > 0.0 && |c.paymentSchedule| == 12
  {
    assert c.amount == 51000.0 && c.rate == 11.0;
    ExamplePaymentPositive(c);
    PskAtElevenPercent(51000.0, 12);
  }

  /** The examples' amounts and rates give a positive payment. */
  lemma ExamplePaymentPositive(c: Credit)
    requires 1 <= c.term <= MAX_POW_EXPONENT && c.amount >= 50000.0 && c.rate >= 11.0
    requires CalculateMonthlyPayment(c.amount, c.term, c.rate) == Ok(c.monthlyPayment)
    ensures c.monthlyPayment > 0.0
  {
    HalfUlpValues();
    assert c.amount * MonthlyRate(c.rate) >= 50000.0 * MonthlyRate(c.rate) >= HalfUlp(2);
    MonthlyPaymentPositive(c.amount, c.term, c.rate);
  }

  lemma PskAtElevenPercent(totalAmount: real, term: Int32)
    ensures CalculatePsk(totalAmount, term, 11.0) == 13.2
  {
    assert 11.0 * 10.0 == 110.0;
    assert HasScale(11.0, 1);
  }

  /** 49000 for 10 months with insurance only: 50000 at 12.0%, 10 rows. */
  lemma ExampleInsuranceOnly(c: Credit, today: Date)
    requires ValidDate(today)
    requires IsCreditFor(c, ScoringData(Some(49000.0), 10, Some(true), Some(false)), today)
    ensures c.amount == 50000.0 && c.rate == 12.0
    ensures c.monthlyPayment > 0.0 && |c.paymentSchedule| == 10
  {
    assert c.amount == 50000.0 && c.rate == 12.0;
    ExamplePaymentPositive(c);
  }

  /** A null amount without insurance is taken as zero: the payment is
      0.00 and the schedule is empty, whatever the term. */
  lemma ExampleNullAmount(c: Credit, term: Int32, salary: Option<bool>, today: Date)
    requires ValidDate(today)
    requires IsCreditFor(c, ScoringData(None, term, None, salary), today)
    ensures c.amount == 0.0 && c.monthlyPayment == 0.0 && c.paymentSchedule == []
  {
    assert c.amount == 0.0 && c.rate > 0.0;
    if term > 0 {
      AnnuityBranch(0.0, term, c.rate);
      var i := MonthlyRate(c.rate);
      AnnuityPaymentOfNothing(i, Pow(1.0 + i, term) - 1.0);
    }
  }

  lemma AnnuityPaymentOfNothing(i: real, d: real)
    requires i > 0.0 && d > 0.0
    ensures AnnuityPayment(0.0, i, d) == 0.0
  {
    RoundHalfUpBounds(0.0, 2);
  }

  /** A zero term gives a zero payment and an empty schedule, whatever the
      amount and flags. */
  lemma ExampleZeroTerm(c: Credit, amount: Option<real>, insurance: Option<bool>,
                        salary: Option<bool>, today: Date)
    requires ValidDate(today)
    requires IsCreditFor(c, ScoringData(amount, 0, insurance, salary), today)
    ensures c.monthlyPayment == 0.0 && c.paymentSchedule == []
  {
  }
}
