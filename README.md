# Loan calculator: a verified model of the credit arithmetic

The Neoflex bank calculator service computes, for a loan applicant, two kinds of figures:

- **Preliminary offers** (`CalculatorServiceImpl`). For a requested amount and term it
  builds four `LoanOfferDto`s, one per combination of "insurance enabled" and "salary
  client". Each offer gets:
  - the base rate of 15 %, with 3 points off for insurance and 1 point off for a salary client;
  - the amount, plus 100000 when insurance is enabled;
  - an annuity payment that is rounded once, to cents.

  The offers are sorted ascending by (rate, total amount) and the list is then reversed.
- **The final credit** (`CreditCalculationServiceImpl`). For a scored applicant it builds
  one `CreditDto`:
  - the same rate discounts, and a 1000 insurance surcharge;
  - an annuity payment whose inner quotient is rounded to 8 places and whose result is
    rounded to cents;
  - the simplified PSK figure `rate * 1.2`;
  - a month-by-month payment schedule with a running remaining debt.

The model represents `BigDecimal` values as exact Dafny `real`s. `setScale(n, HALF_UP)`
and `divide(d, n, HALF_UP)` are written out as rounding functions. `BigDecimal.pow` and
`divide` raise `ArithmeticException`; the model returns that as an `Err` result.
`LocalDate.plusMonths` is modelled with its end-of-month clamping.

The model is built from the following parts:

- `Decimal` (decimal.dfy): rounding, scale, checked power and checked division.
- `AnnuityMath` (annuity.dfy): the exact annuity `S*i*(1+i)^n/((1+i)^n-1)` that both
  services approximate. The proof shows that this exact annuity repays the loan to
  exactly zero after n months. Each service's rounded payment is then proved to be
  within a stated distance of it.
- `Calendar` (calendar.dfy): ISO dates and `plusMonths`.
- `CreditCalculation` (credit_calculation.dfy): `calculateCredit`,
  `calculateMonthlyPayment`, `calculatePSK` and `generatePaymentSchedule`. The
  schedule is an imperative loop proved against a row-by-row specification.
- `Calculator` (calculator.dfy): `createOffer`, the private `calculateMonthlyPayment`
  and `salaryCalculation`. The stream's sort is a specified insertion sort.
  `Collections.reverse` is an in-place reversal of an array.
- `ScheduleDrift` (schedule_drift.dfy): the rounded schedule does not end at exactly
  zero. Every row rounds its interest to cents, so the schedule's debt stays below the
  exact balance of a loan repaid with half a cent less each month. With the payment
  `calculateMonthlyPayment` computes, the last remaining debt times the monthly rate is
  at most (1 cent + S·5·10⁻⁹)·((1+i)^n − 1).
- `PaymentComparison` (comparison.dfy): the two services' payments for the same inputs
  agree to within a cent plus the amount times 5·10⁻⁹.

A comment in the credit-service tests says the insurance surcharge is "+10000". The code
adds 1000, and the test's own assertion (50000 becomes 51000) agrees with the code. The
model follows the code.

## Model

| member | source | states |
|---|---|---|
| Decimal.PowChecked | NeoflexBankProject/src/main/java/org/example/neoflexbankproject/service/impl/CreditCalculationServiceImpl.java:113 | `pow`'s exponent-range check: a negative exponent or one above 999999999 gives an invalid-exponent error, and every other exponent succeeds in the model |
| Decimal.PowAtLeastOne | NeoflexBankProject/src/main/java/org/example/neoflexbankproject/service/impl/CreditCalculationServiceImpl.java:112-115 | (1+i)^n is at least 1, and above 1 when i > 0 and n ≥ 1, so the denominator (1+i)^n − 1 is non-negative, and positive for a real term |
| Decimal.RoundHalfUpBounds | NeoflexBankProject/src/main/java/org/example/neoflexbankproject/service/impl/CreditCalculationServiceImpl.java:128 | HALF_UP rounding to n places keeps the sign and moves the value by at most half a unit in the last place; a tie rounds away from zero (strict on the side towards zero) |
| Decimal.RoundHalfUpHasScale | NeoflexBankProject/src/main/java/org/example/neoflexbankproject/service/impl/CreditCalculationServiceImpl.java:139 | a value rounded to n places has at most n decimals |
| Decimal.RoundHalfUpExact | NeoflexBankProject/src/main/java/org/example/neoflexbankproject/service/impl/CreditCalculationServiceImpl.java:138-139 | rounding a value that already has at most n decimals leaves it unchanged |
| Decimal.DivideToScale | NeoflexBankProject/src/main/java/org/example/neoflexbankproject/service/impl/CreditCalculationServiceImpl.java:107 | `divide(b, n, HALF_UP)` fails exactly when b is zero (division by zero). Otherwise the result has n decimals and keeps the sign of a/b. It lies within half a unit of a/b, with a tie rounded away from zero: −½ulp < r − a/b ≤ ½ulp when a/b ≥ 0, and −½ulp ≤ r − a/b < ½ulp when a/b ≤ 0 |
| AnnuityMath.MonthlyRate | NeoflexBankProject/src/main/java/org/example/neoflexbankproject/service/impl/CreditCalculationServiceImpl.java:102 | the monthly rate times 1200 is the annual percentage |
| AnnuityMath.ExactAnnuity | NeoflexBankProject/src/main/java/org/example/neoflexbankproject/service/impl/CreditCalculationServiceImpl.java:84-92 | the annuity S·i·q/(q−1) equals the documented form S·(i + i/(q−1)); it exceeds the first month's interest S·i for a positive principal and is zero for a zero one |
| AnnuityMath.AnnuitySplit | NeoflexBankProject/src/main/java/org/example/neoflexbankproject/service/impl/CalculatorServiceImpl.java:96-98 | the offer service's form S·r·q/(q−1) equals the credit service's form S·(r + r/(q−1)) |
| AnnuityMath.BalanceClosedForm | NeoflexBankProject/src/main/java/org/example/neoflexbankproject/service/impl/CreditCalculationServiceImpl.java:166-170 | after k exact monthly steps (add interest, subtract the payment) the balance B_k satisfies B_k·i = S·i·(1+i)^k − a·((1+i)^k − 1) |
| AnnuityMath.AnnuityAmortizes | NeoflexBankProject/src/main/java/org/example/neoflexbankproject/service/impl/CreditCalculationServiceImpl.java:84-92 | paying the exact annuity for n months leaves exactly zero debt |
| Calendar.PlusMonths | NeoflexBankProject/src/main/java/org/example/neoflexbankproject/service/impl/CreditCalculationServiceImpl.java:173 | `plusMonths(n)` gives a valid date exactly n months later; its day is the original day, or that month's last day when the original does not exist there |
| Calendar.PlusMonthsStrictlyIncreasing | NeoflexBankProject/src/main/java/org/example/neoflexbankproject/service/impl/CreditCalculationServiceImpl.java:167-173 | rows for months i < j fall in strictly later months, so no two payment dates coincide |
| Calendar.PlusMonthsKeepsCommonDay | NeoflexBankProject/src/main/java/org/example/neoflexbankproject/service/impl/CreditCalculationServiceImpl.java:173 | a day of month from 1 to 28 is kept unchanged |
| CreditCalculation.CalculateMonthlyPayment | NeoflexBankProject/src/main/java/org/example/neoflexbankproject/service/impl/CreditCalculationServiceImpl.java:93-131 | with a positive rate, a term above 999999999 fails `pow`'s exponent-range check, and every other input succeeds in the model. A term ≤ 0 gives 0.00; a rate ≤ 0 gives S/n rounded to cents. Every result has two decimals and is non-negative for a non-negative amount |
| CreditCalculation.AnnuityPayment | NeoflexBankProject/src/main/java/org/example/neoflexbankproject/service/impl/CreditCalculationServiceImpl.java:122-128 | the annuity branch has two decimals, is non-negative for a non-negative amount, and lies within half a cent plus S·5·10⁻⁹ of S·(i + i/d) |
| CreditCalculation.DenominatorPositive | NeoflexBankProject/src/main/java/org/example/neoflexbankproject/service/impl/CreditCalculationServiceImpl.java:115-120 | for a positive rate and an accepted term the denominator is positive, so the zero-denominator fallback is never taken |
| CreditCalculation.AnnuityBranch | NeoflexBankProject/src/main/java/org/example/neoflexbankproject/service/impl/CreditCalculationServiceImpl.java:102-128 | for a positive rate and an accepted term the payment is the annuity branch |
| CreditCalculation.MonthlyPaymentNearAnnuity | NeoflexBankProject/src/main/java/org/example/neoflexbankproject/service/impl/CreditCalculationServiceImpl.java:84-131 | the credit payment is within half a cent plus S·5·10⁻⁹ of the exact annuity that repays the loan |
| CreditCalculation.ExactAnnuityNear | NeoflexBankProject/src/main/java/org/example/neoflexbankproject/service/impl/CreditCalculationServiceImpl.java:112-128 | the same bound, stated on the monthly rate |
| CreditCalculation.TwoRoundings | NeoflexBankProject/src/main/java/org/example/neoflexbankproject/service/impl/CreditCalculationServiceImpl.java:123-128 | the error of round2(S·(i + round8(f))) is at most half a cent plus S times the inner rounding error |
| CreditCalculation.MonthlyPaymentPositive | NeoflexBankProject/src/main/java/org/example/neoflexbankproject/service/impl/CreditCalculationServiceImpl.java:122-128 | when the first month's interest is at least half a cent, the payment is positive |
| CreditCalculation.AnnuityPaymentPositive | NeoflexBankProject/src/main/java/org/example/neoflexbankproject/service/impl/CreditCalculationServiceImpl.java:122-128 | the annuity branch is positive when S·i is at least half a cent |
| CreditCalculation.AnnuityPaymentOfNothing | NeoflexBankProject/src/main/java/org/example/neoflexbankproject/service/impl/CreditCalculationServiceImpl.java:122-128 | the annuity branch of a zero amount is zero |
| CreditCalculation.CalculatePsk | NeoflexBankProject/src/main/java/org/example/neoflexbankproject/service/impl/CreditCalculationServiceImpl.java:136-142 | the PSK has two decimals and lies within half a cent of rate·1.2, and is non-negative for a non-negative rate; it is exactly rate·1.2 when the rate has one decimal |
| CreditCalculation.PskIgnoresAmountAndTerm | NeoflexBankProject/src/main/java/org/example/neoflexbankproject/service/impl/CreditCalculationServiceImpl.java:136-142 | the PSK does not depend on the amount or the term |
| CreditCalculation.PskExact | NeoflexBankProject/src/main/java/org/example/neoflexbankproject/service/impl/CreditCalculationServiceImpl.java:138-139 | a one-decimal rate times 1.2 needs no rounding to cents |
| CreditCalculation.PskHasScale | NeoflexBankProject/src/main/java/org/example/neoflexbankproject/service/impl/CreditCalculationServiceImpl.java:138 | a one-decimal rate times 1.2 has two decimals |
| CreditCalculation.PskAtElevenPercent | NeoflexBankProject/src/main/java/org/example/neoflexbankproject/service/impl/CreditCalculationServiceImpl.java:136-142 | at 11 % the PSK is 13.20 |
| CreditCalculation.GeneratePaymentSchedule | NeoflexBankProject/src/main/java/org/example/neoflexbankproject/service/impl/CreditCalculationServiceImpl.java:148-184 | empty for a zero payment or a term ≤ 0; otherwise one row per month. Row k is dated k+1 months after today and pays the fixed payment. Its interest is the cent-rounded interest on the previous debt, its principal is max(0, payment − interest), and its debt is max(0, previous debt − principal) |
| CreditCalculation.RowFollowsAfterAppend | NeoflexBankProject/src/main/java/org/example/neoflexbankproject/service/impl/CreditCalculationServiceImpl.java:180 | appending a row does not change whether earlier rows follow the rules |
| CreditCalculation.ScheduleDebtInvariants | NeoflexBankProject/src/main/java/org/example/neoflexbankproject/service/impl/CreditCalculationServiceImpl.java:166-182 | every schedule has principals ≥ 0, and remaining debts between 0 and max(0, amount) that never grow from row to row. Where the interest fits in the payment, interest plus principal equals the payment |
| CreditCalculation.DebtBoundedAt | NeoflexBankProject/src/main/java/org/example/neoflexbankproject/service/impl/CreditCalculationServiceImpl.java:169-170 | each row's remaining debt lies between 0 and max(0, amount) |
| CreditCalculation.DebtNonIncreasing | NeoflexBankProject/src/main/java/org/example/neoflexbankproject/service/impl/CreditCalculationServiceImpl.java:169-170 | a later row's remaining debt is at most an earlier row's |
| CreditCalculation.ScheduleUnique | NeoflexBankProject/src/main/java/org/example/neoflexbankproject/service/impl/CreditCalculationServiceImpl.java:148-184 | the row rules determine the schedule: two schedules for the same arguments are equal |
| CreditCalculation.RowsAgree | NeoflexBankProject/src/main/java/org/example/neoflexbankproject/service/impl/CreditCalculationServiceImpl.java:166-182 | two rule-following schedules of equal length agree row by row |
| CreditCalculation.RowDeterminedByDebt | NeoflexBankProject/src/main/java/org/example/neoflexbankproject/service/impl/CreditCalculationServiceImpl.java:168-178 | a row is determined by the debt before it |
| CreditCalculation.AdjustedRate | NeoflexBankProject/src/main/java/org/example/neoflexbankproject/service/impl/CreditCalculationServiceImpl.java:41-54 | the rate is 15, 14, 12 or 11. It is 11 exactly when both flags are TRUE, and 15 exactly when neither is (a null flag counts as not TRUE) |
| CreditCalculation.CalculateCredit | NeoflexBankProject/src/main/java/org/example/neoflexbankproject/service/impl/CreditCalculationServiceImpl.java:30-82 | a term above 999999999 fails `pow`'s exponent-range check, and every other input succeeds in the model. Otherwise the credit has: the amount (null as 0) plus 1000 for insurance; the discounted rate; the payment computed once and passed to the schedule; the PSK; and the caller's term and flags |
| CreditCalculation.ExampleInsuranceAndSalary | NeoflexBankProject/src/test/java/org/example/neoflexbankproject/CreditCalculationServiceImplTest.java:36-58 | 50000 for 12 months with both flags gives amount 51000, rate 11.0, a positive payment, PSK 13.20 and 12 rows |
| CreditCalculation.ExamplePaymentPositive | NeoflexBankProject/src/test/java/org/example/neoflexbankproject/CreditCalculationServiceImplTest.java:55 | amounts of at least 50000 at rates of at least 11 % give a positive payment |
| CreditCalculation.ExampleInsuranceOnly | NeoflexBankProject/src/test/java/org/example/neoflexbankproject/CreditCalculationServiceImplTest.java:119-139 | 49000 for 10 months with insurance only gives 50000 at 12.0, a positive payment and 10 rows |
| CreditCalculation.ExampleNullAmount | NeoflexBankProject/src/main/java/org/example/neoflexbankproject/service/impl/CreditCalculationServiceImpl.java:35-39 | a null amount without insurance becomes 0, giving a 0.00 payment and an empty schedule for any term |
| CreditCalculation.ExampleZeroTerm | NeoflexBankProject/src/test/java/org/example/neoflexbankproject/CreditCalculationServiceImplTest.java:145-164 | a zero term gives a 0.00 payment and an empty schedule, whatever the amount and flags |
| Calculator.OfferMonthlyPayment | NeoflexBankProject/src/main/java/org/example/neoflexbankproject/service/impl/CalculatorServiceImpl.java:90-105 | for a positive rate, a term outside 1..999999999 fails (division by zero for term 0, `pow`'s exponent-range check otherwise) and every other term succeeds in the model; for a rate ≤ 0 only term 0 fails. Results have two decimals, are non-negative for a non-negative amount and a positive term, and a rate ≤ 0 gives S/n rounded to cents |
| Calculator.AnnuityQuotient | NeoflexBankProject/src/main/java/org/example/neoflexbankproject/service/impl/CalculatorServiceImpl.java:95-98 | the division fails exactly when (1+r)^n is 1 (division by zero). Otherwise the result has two decimals. For r > 0 and g > 1 it equals S·(r + r/(g−1)) rounded half-up to cents; for S ≥ 0 it is non-negative and −½ cent < result − S·(r + r/(g−1)) ≤ ½ cent |
| Calculator.QuotientSplit | NeoflexBankProject/src/main/java/org/example/neoflexbankproject/service/impl/CalculatorServiceImpl.java:96-98 | S·g·r/(g−1) = S·(r + r/(g−1)) |
| Calculator.OfferPaymentNearAnnuity | NeoflexBankProject/src/main/java/org/example/neoflexbankproject/service/impl/CalculatorServiceImpl.java:90-105 | for a positive rate and an accepted term the offer payment is the exact annuity rounded half-up to cents, once; for S ≥ 0 it lies in (exact − ½ cent, exact + ½ cent] |
| Calculator.QuotientNearAnnuity | NeoflexBankProject/src/main/java/org/example/neoflexbankproject/service/impl/CalculatorServiceImpl.java:94-99 | on the monthly rate: the annuity branch is the exact annuity rounded half-up to cents |
| Calculator.OfferRate | NeoflexBankProject/src/main/java/org/example/neoflexbankproject/service/impl/CalculatorServiceImpl.java:58-70 | the offer rate is 15, 14, 12 or 11. It is at most 12 exactly with insurance, and 14 or 11 exactly for a salary client |
| Calculator.CreateOffer | NeoflexBankProject/src/main/java/org/example/neoflexbankproject/service/impl/CalculatorServiceImpl.java:55-88 | a term outside 1..999999999 fails (division by zero for term 0, `pow`'s exponent-range check otherwise), and every other term succeeds in the model. Otherwise the offer has the id, the requested amount, that amount plus 100000 with insurance, the term, the discounted rate, its payment and the flags |
| Calculator.Insert | NeoflexBankProject/src/main/java/org/example/neoflexbankproject/service/impl/CalculatorServiceImpl.java:44 | inserting into a list ascending by (rate, total amount) keeps it ascending and adds exactly the inserted offer |
| Calculator.AscendingCons | NeoflexBankProject/src/main/java/org/example/neoflexbankproject/service/impl/CalculatorServiceImpl.java:44 | an offer ranked no later than all of an ascending list can be put in front |
| Calculator.RankedBelowAll | NeoflexBankProject/src/main/java/org/example/neoflexbankproject/service/impl/CalculatorServiceImpl.java:44 | being ranked no later than every element carries over to a rearrangement |
| Calculator.SortOffers | NeoflexBankProject/src/main/java/org/example/neoflexbankproject/service/impl/CalculatorServiceImpl.java:44 | the sort returns an ascending permutation of its input (stability is not stated) |
| Calculator.Reversed | NeoflexBankProject/src/main/java/org/example/neoflexbankproject/service/impl/CalculatorServiceImpl.java:46 | element k of the result is element n−1−k of the input |
| Calculator.ReversedAscending | NeoflexBankProject/src/main/java/org/example/neoflexbankproject/service/impl/CalculatorServiceImpl.java:44-46 | reversing an ascending ranking gives a descending one |
| Calculator.ReversedTwice | NeoflexBankProject/src/main/java/org/example/neoflexbankproject/service/impl/CalculatorServiceImpl.java:46 | reversing twice gives back the list |
| Calculator.ReversedCons | NeoflexBankProject/src/main/java/org/example/neoflexbankproject/service/impl/CalculatorServiceImpl.java:46 | the reverse of x::t is reverse(t) followed by x |
| Calculator.InsertLast | NeoflexBankProject/src/main/java/org/example/neoflexbankproject/service/impl/CalculatorServiceImpl.java:44 | an offer ranked after every element is inserted at the end |
| Calculator.SortStrictlyFalling | NeoflexBankProject/src/main/java/org/example/neoflexbankproject/service/impl/CalculatorServiceImpl.java:42-44 | offers with strictly falling rates are sorted into their reverse |
| Calculator.RankingRestoresCreationOrder | NeoflexBankProject/src/main/java/org/example/neoflexbankproject/service/impl/CalculatorServiceImpl.java:42-49 | for offers created with strictly falling rates, sorting and then reversing returns the creation order, which is descending |
| Calculator.FallingParts | NeoflexBankProject/src/main/java/org/example/neoflexbankproject/service/impl/CalculatorServiceImpl.java:44 | the tail of a strictly falling list falls strictly, and its head ranks after every element of the reversed tail |
| Calculator.Reverse | NeoflexBankProject/src/main/java/org/example/neoflexbankproject/service/impl/CalculatorServiceImpl.java:46 | `Collections.reverse` leaves the array holding the reverse of its old contents |
| Calculator.CreateOffers | NeoflexBankProject/src/main/java/org/example/neoflexbankproject/service/impl/CalculatorServiceImpl.java:32-43 | one offer per flag combination, in the order (F,F), (F,T), (T,F), (T,T), with strictly falling rates 15, 14, 12, 11; the same failure cases as one offer |
| Calculator.SalaryCalculation | NeoflexBankProject/src/main/java/org/example/neoflexbankproject/service/impl/CalculatorServiceImpl.java:29-53 | the same failure cases as one offer. Otherwise there are four offers sharing the statement id, one per flag combination, in descending (rate, total amount) order: 15 %, 14 %, 12 %, 11 % |
| AnnuityMath.BalanceSucc | NeoflexBankProject/src/main/java/org/example/neoflexbankproject/service/impl/CreditCalculationServiceImpl.java:166-170 | the exact balance starts at the amount, and each month adds the interest and subtracts the payment: B_0 = S, B_{k+1} = B_k·(1+i) − a |
| ScheduleDrift.DebtStep | NeoflexBankProject/src/main/java/org/example/neoflexbankproject/service/impl/CreditCalculationServiceImpl.java:168-170 | one row keeps the debt between 0 and the clamped exact balance: if the debt starts in [0, max(0, B)], the row's interest exceeds the exact interest by at most h, and the exact loan is repaid with c from 0 to payment − h, then the next debt lies in [0, max(0, B·(1+i) − c)] |
| ScheduleDrift.RowRounding | NeoflexBankProject/src/main/java/org/example/neoflexbankproject/service/impl/CreditCalculationServiceImpl.java:168-170 | every row's interest is at most half a cent above the exact interest on the debt before it; its principal and next debt follow from the payment and that interest |
| ScheduleDrift.DebtBelowBalance | NeoflexBankProject/src/main/java/org/example/neoflexbankproject/service/impl/CreditCalculationServiceImpl.java:166-182 | every debt the schedule carries lies between 0 and max(0, B_k), the exact balance after k months of the loan repaid with any c from 0 to payment − ½ cent |
| ScheduleDrift.LastDebtBelowBalance | NeoflexBankProject/src/main/java/org/example/neoflexbankproject/service/impl/CreditCalculationServiceImpl.java:157-182 | a non-empty schedule has one row per month of the term, and its last debt lies between 0 and the clamped exact balance after the whole term |
| ScheduleDrift.ExcessTimesDenominator | NeoflexBankProject/src/main/java/org/example/neoflexbankproject/service/impl/CreditCalculationServiceImpl.java:84-92 | the exact balance after n months repaid with c, times i, is (a − c)·((1+i)^n − 1), where a is the exact annuity |
| ScheduleDrift.BalanceDrift | NeoflexBankProject/src/main/java/org/example/neoflexbankproject/service/impl/CreditCalculationServiceImpl.java:84-92 | repaid with payment − ½ cent, where the payment exceeds exact − ½ cent − S·5·10⁻⁹, the exact balance after n months times i is at most (1 cent + S·5·10⁻⁹)·((1+i)^n − 1) |
| ScheduleDrift.ScheduleDebtDrift | NeoflexBankProject/src/main/java/org/example/neoflexbankproject/service/impl/CreditCalculationServiceImpl.java:157-182 | for a positive rate, a term in 1..999999999, S ≥ 0 and any non-negative two-decimal payment above exact − ½ cent − S·5·10⁻⁹, a non-empty schedule has term rows and its last debt d satisfies d·i ≤ (1 cent + S·5·10⁻⁹)·((1+i)^n − 1) |
| ScheduleDrift.FinalDebtBound | NeoflexBankProject/src/main/java/org/example/neoflexbankproject/service/impl/CreditCalculationServiceImpl.java:56-66 | for a positive rate, a term in 1..999999999 and S ≥ 0, with the payment `calculateMonthlyPayment` computes, a non-empty schedule has term rows and its last remaining debt d satisfies d·i ≤ (1 cent + S·5·10⁻⁹)·((1+i)^n − 1). The schedule ends within that rounding drift of zero, where the exact annuity ends at exactly zero |
| PaymentComparison.PaymentsAgree | NeoflexBankProject/src/main/java/org/example/neoflexbankproject/service/impl/CalculatorServiceImpl.java:90-105 | for the same amount, accepted term and positive rate, both services' payments succeed and differ by at most a cent plus S·5·10⁻⁹ |

## Left out

- The `double` intermediates. Both services compute the monthly rate as `finalRate / 100 / 12` in binary floating point and convert it with `BigDecimal.valueOf`. The model uses the exact rational rate / 1200, so it does not capture the last-digit differences that the double introduces.
- `BigDecimal` scale and trailing zeros (for example "11.0" versus "11"). Only numeric values are modelled, which is what `compareTo` compares.
- Decimal.PowChecked: the model's error set is only `BigDecimal.pow`'s exponent-range check (0..999999999). The real `pow` also throws `ArithmeticException` (scale overflow, `BigInteger` overflow) for exponents from roughly 10^7–10^8 up, depending on the digits of the rate derived from a `double`; the model returns a value there. The failure conditions stated for the payments, the credit and the offers inherit this gap.
- Calculator.SortOffers: stability of `Stream.sorted` is not stated. The four offers have distinct rates, so their order is fully determined anyway.
- CreditCalculation.ScheduleDebtInvariants: the schedule's last remaining debt is not proved to be zero, and it need not be, because each row rounds its interest. ScheduleDrift.FinalDebtBound bounds it instead.
- Decimal.RoundHalfUpHasScale: states "at most n decimals", not that the `BigDecimal` scale is exactly n, since scale is not modelled.
- Logging (`log.debug` and `log.warn`) is left out. It has no effect on results.
- `LocalDate.now()` becomes a `today` parameter. The source calls it once per row, so a schedule built across midnight could mix two dates; the model does not capture that.
- The `DateTimeException` that `plusMonths` raises outside `LocalDate`'s year range is not modelled. Years are unbounded integers.
- Java `int` overflow of the schedule's loop counter for a term of 2147483647 is not modelled. That `for` loop would never end; the model's loop runs term times.
- The running time and memory of `BigDecimal.pow` for very large terms are not modelled.
- Null fields of `LoanStatementRequestDto` are not modelled. In the offers path a null amount would throw `NullPointerException`; the model's request always carries an amount.
- `UUID.randomUUID()` becomes the `statementId` parameter.
- The HTTP controller, bean validation (minimum amount and term), exception advice, Swagger configuration and the applicant's identity fields are outside this model. Validation bounds are not required by any member, because the services themselves do not check them.
