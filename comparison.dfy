/** The two services compute the same annuity with different rounding:
    for the same amount, term and rate their payments agree to within a
    cent plus the amount times 5 * 10^-9. */
module PaymentComparison {
  import opened Common
  import opened Decimal
  import opened AnnuityMath
  import CreditCalculation
  import Calculator

  lemma PaymentsAgree(totalAmount: real, term: Int32, finalRate: real)
    requires 1 <= term <= MAX_POW_EXPONENT && finalRate > 0.0 && totalAmount >= 0.0
    ensures CreditCalculation.CalculateMonthlyPayment(totalAmount, term, finalRate).Ok?
    ensures Calculator.OfferMonthlyPayment(totalAmount, term, finalRate).Ok?
    ensures var credit := CreditCalculation.CalculateMonthlyPayment(totalAmount, term, finalRate).value;
            var offer := Calculator.OfferMonthlyPayment(totalAmount, term, finalRate).value;
            -0.01 - totalAmount * 0.000000005 < credit - offer <= 0.01 + totalAmount * 0.000000005
  {
    CreditCalculation.MonthlyPaymentNearAnnuity(totalAmount, term, finalRate);
    Calculator.OfferPaymentNearAnnuity(totalAmount, term, finalRate);
    var credit := CreditCalculation.CalculateMonthlyPayment(totalAmount, term, finalRate).value;
    var offer := Calculator.OfferMonthlyPayment(totalAmount, term, finalRate).value;
    var exact := ExactAnnuity(totalAmount, MonthlyRate(finalRate), term);
    CentAndScaleBounds(totalAmount);
    BothNear(credit, offer, exact, totalAmount * HalfUlp(8));
  }

  /** Two values near the same point are near each other. */
  lemma BothNear(credit: real, offer: real, exact: real, d: real)
    requires exact - 0.005 - d < credit <= exact + 0.005 + d
    requires -0.005 <= offer - exact <= 0.005
    ensures -0.01 - d < credit - offer <= 0.01 + d
  {
  }

  lemma CentAndScaleBounds(p: real)
    ensures HalfUlp(2) == 0.005
    ensures p * HalfUlp(8) == p * 0.000000005
  {
    HalfUlpValues();
  }
}
