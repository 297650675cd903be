/** The exact annuity both services approximate:
    P = S * i * (1 + i)^n / ((1 + i)^n - 1), with i the monthly rate.
    It serves as the reference the two rounded implementations are
    measured against, and its defining property (the loan is repaid to
    exactly zero after n payments) is proved here. */
module AnnuityMath {
  import opened Decimal

  /** `finalRate / 100 / 12`: an annual percentage turned into a monthly
      fraction (exactly; the services go through a `double`). */
  function MonthlyRate(annualRatePercent: real): (i: real)
    ensures i * 1200.0 == annualRatePercent
  {
    annualRatePercent / 100.0 / 12.0
  }

  /** The exact annuity payment for principal p, monthly rate i, n months. */
  function ExactAnnuity(p: real, i: real, n: nat): (a: real)
    requires i > 0.0 && n >= 1
    ensures p > 0.0 ==> a > p * i
    ensures p == 0.0 ==> a == 0.0
    ensures Pow(1.0 + i, n) > 1.0 && a == p * (i + i / (Pow(1.0 + i, n) - 1.0))
  {
    var q := Pow(1.0 + i, n);
    PowAtLeastOne(1.0 + i, n);
    AnnuitySplit(p, i, q);
    p * i * q / (q - 1.0)
  }

  /** i * q / (q - 1) == i + i / (q - 1): the two ways the services write
      the annuity factor. */
  lemma AnnuitySplit(p: real, i: real, q: real)
    requires i > 0.0 && q > 1.0
    ensures p * i * q / (q - 1.0) == p * (i + i / (q - 1.0))
    ensures p > 0.0 ==> p * i * q / (q - 1.0) > p * i
  {
    var d := q - 1.0;
    assert i * q == i * d + i;
    assert i * q / d == i + i / d;
    assert p * i * q / d == p * (i * q / d);
    if p > 0.0 {
      assert i / d > 0.0;
      assert p * (i / d) > 0.0;
    }
  }

  /** The balance left, in exact arithmetic, after k monthly payments of a
      on a loan of p at monthly rate i: each month interest is added and
      the payment subtracted. */
  function Balance(p: real, i: real, a: real, k: nat): real {
    BalanceSteps(p, i, a, k)
  }

  /** Balance, month by month; wrapped by Balance so that a balance inside
      arithmetic is one term wherever it occurs. */
  function BalanceSteps(p: real, i: real, a: real, k: nat): real {
    if k == 0 then p else BalanceSteps(p, i, a, k - 1) * (1.0 + i) - a
  }

  /** The balance starts at the principal and moves one month at a time. */
  lemma BalanceSucc(p: real, i: real, a: real, k: nat)
    ensures Balance(p, i, a, 0) == p
    ensures Balance(p, i, a, k + 1) == Balance(p, i, a, k) * (1.0 + i) - a
  {
  }

  /** Closed form of the balance: B_k * i == p * i * (1+i)^k - a * ((1+i)^k - 1). */
  lemma {:induction false} BalanceClosedForm(p: real, i: real, a: real, k: nat)
    ensures Balance(p, i, a, k) * i == p * i * Pow(1.0 + i, k) - a * (Pow(1.0 + i, k) - 1.0)
  {
    if k > 0 {
      BalanceClosedForm(p, i, a, k - 1);
      PowSucc(1.0 + i, k - 1);
      BalanceStep(p, i, a, Balance(p, i, a, k - 1), Balance(p, i, a, k),
                  Pow(1.0 + i, k - 1), Pow(1.0 + i, k));
    }
  }

  /** One month of the closed form, as polynomial arithmetic: from the
      balance b after k - 1 months to the balance next after k. */
  lemma BalanceStep(p: real, i: real, a: real, b: real, next: real, q: real, qNext: real)
    requires b * i == p * i * q - a * (q - 1.0)
    requires next == b * (1.0 + i) - a && qNext == (1.0 + i) * q
    ensures next * i == p * i * qNext - a * (qNext - 1.0)
  {
    calc {
      next * i;
      (1.0 + i) * (b * i) - a * i;
      (1.0 + i) * (p * i * q - a * (q - 1.0)) - a * i;
      p * i * qNext - a * (qNext - 1.0);
    }
  }

  /** The annuity pays the loan off exactly: after n payments of
      ExactAnnuity(p, i, n) the balance is zero. */
  lemma AnnuityAmortizes(p: real, i: real, n: nat)
    requires i > 0.0 && n >= 1
    ensures Balance(p, i, ExactAnnuity(p, i, n), n) == 0.0
  {
    var q := Pow(1.0 + i, n);
    PowAtLeastOne(1.0 + i, n);
    var a := ExactAnnuity(p, i, n);
    BalanceClosedForm(p, i, a, n);
    assert a * (q - 1.0) == p * i * q;
    assert Balance(p, i, a, n) * i == 0.0;
  }
}
