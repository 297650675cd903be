/** CalculatorServiceImpl: the four preliminary loan offers for a loan
    statement, one per (insurance, salary client) combination, each with
    its adjusted rate and amount and a once-rounded annuity payment,
    ranked by (rate, total amount) ascending and then reversed. */
module Calculator {
  import opened Common
  import opened Decimal
  import opened AnnuityMath

  const BASE_RATE: real := 15.0
  /** The insurance surcharge of this service (the credit service uses 1000). */
  const INSURANCE_COST: real := 100000.0
  const INSURANCE_RATE_DISCOUNT: real := 3.0
  const SALARY_CLIENT_RATE_DISCOUNT: real := 1.0

  /** A `java.util.UUID`: its two 64-bit halves. */
  datatype Uuid = Uuid(mostSigBits: int, leastSigBits: int)

  /** The fields of LoanStatementRequestDto the offers are computed from. */
  datatype LoanStatementRequest = LoanStatementRequest(amount: real, term: Int32)

  /** LoanOfferDto. */
  datatype LoanOffer = LoanOffer(
    statementId: Uuid,
    requestedAmount: real,
    totalAmount: real,
    term: Int32,
    monthlyPayment: real,
    rate: real,
    isInsuranceEnabled: bool,
    isSalaryClient: bool)

  // ---------------------------------------------------------------------
  // Monthly payment

  /** The private `calculateMonthlyPayment`: for a positive monthly rate r,
      S * (1 + r)^n * r divided by (1 + r)^n - 1 to 2 places; otherwise S / n
      to 2 places.  There is no guard on the term: `pow` rejects a negative
      term and a zero term divides by zero on either branch. */
  function OfferMonthlyPayment(totalAmount: real, term: Int32, finalRate: real): (r: Result<real>)
    ensures finalRate > 0.0 ==> (r.Err? <==> !(1 <= term <= MAX_POW_EXPONENT))
    ensures finalRate <= 0.0 ==> (r.Err? <==> term == 0)
    ensures r.Err? ==> (r.error == DivisionByZero <==> term == 0)
    ensures r.Ok? ==> HasScale(r.value, 2)
    ensures totalAmount >= 0.0 && term > 0 && r.Ok? ==> r.value >= 0.0
    ensures finalRate <= 0.0 && term != 0 ==> r == Ok(RoundHalfUp(totalAmount / term as real, 2))
  {
    var monthlyRate := MonthlyRate(finalRate);
    if monthlyRate > 0.0 then
      match PowChecked(1.0 + monthlyRate, term)
      case Err(e) => Err(e)
      case Ok(growth) =>
        PowAtLeastOne(1.0 + monthlyRate, term);
        AnnuityQuotient(totalAmount, monthlyRate, growth)
    else if term > 0 then
      QuotientSign(totalAmount, term as real);
      DivideToScale(totalAmount, term as real, 2)
    else
      DivideToScale(totalAmount, term as real, 2)
  }

  /** The annuity branch: numerator S * g * r, denominator g - 1 where
      g = (1 + r)^n, divided to 2 places.  With g > 1 this is the exact
      annuity S * (r + r / (g - 1)) rounded half-up once. */
  function AnnuityQuotient(totalAmount: real, monthlyRate: real, growth: real): (r: Result<real>)
    requires growth >= 1.0
    ensures growth == 1.0 <==> r.Err?
    ensures r.Err? ==> r.error == DivisionByZero
    ensures r.Ok? ==> HasScale(r.value, 2)
    ensures monthlyRate > 0.0 && growth > 1.0 ==>
              r == Ok(RoundHalfUp(totalAmount * (monthlyRate + monthlyRate / (growth - 1.0)), 2))
    ensures monthlyRate > 0.0 && growth > 1.0 && totalAmount >= 0.0 ==>
              r.value >= 0.0 &&
              -HalfUlp(2) < r.value - totalAmount * (monthlyRate + monthlyRate / (growth - 1.0)) <= HalfUlp(2)
  {
    var numerator := totalAmount * growth * monthlyRate;
    var denominator := growth - 1.0;
    QuotientSplit(totalAmount, monthlyRate, growth);
    if monthlyRate > 0.0 && growth > 1.0 && totalAmount >= 0.0 then
      NumeratorNonnegative(totalAmount, growth, monthlyRate);
      QuotientSign(numerator, denominator);
      DivideToScale(numerator, denominator, 2)
    else
      DivideToScale(numerator, denominator, 2)
  }

  lemma NumeratorNonnegative(p: real, g: real, r: real)
    requires p >= 0.0 && g > 0.0 && r > 0.0
    ensures p * g * r >= 0.0
  {
    ProductNonnegative(p, g);
    ProductNonnegative(p * g, r);
  }

  /** S * g * r / (g - 1) == S * (r + r / (g - 1)). */
  lemma QuotientSplit(p: real, i: real, q: real)
    ensures i > 0.0 && q > 1.0 ==> p * q * i / (q - 1.0) == p * (i + i / (q - 1.0))
  {
    if i > 0.0 && q > 1.0 {
      AnnuitySplit(p, i, q);
      assert p * q * i == p * i * q;
    }
  }

  /** With a positive rate and a term `pow` accepts, the offer payment is
      the exact annuity rounded half-up to cents, once: within half a
      cent of it, ties rounded up. */
  lemma OfferPaymentNearAnnuity(totalAmount: real, term: Int32, finalRate: real)
    requires 1 <= term <= MAX_POW_EXPONENT && finalRate > 0.0
    ensures OfferMonthlyPayment(totalAmount, term, finalRate)
         == Ok(RoundHalfUp(ExactAnnuity(totalAmount, MonthlyRate(finalRate), term), 2))
    ensures var pay := OfferMonthlyPayment(totalAmount, term, finalRate).value;
            var exact := ExactAnnuity(totalAmount, MonthlyRate(finalRate), term);
            totalAmount >= 0.0 ==> -HalfUlp(2) < pay - exact <= HalfUlp(2)
  {
    var i := MonthlyRate(finalRate);
    QuotientNearAnnuity(totalAmount, i, term);
    assert PowChecked(1.0 + i, term) == Ok(Pow(1.0 + i, term));
    RoundHalfUpBounds(ExactAnnuity(totalAmount, i, term), 2);
  }

  /** The annuity branch, on the monthly rate, is the exact annuity rounded
      half-up to cents. */
  lemma QuotientNearAnnuity(p: real, i: real, n: nat)
    requires i > 0.0 && n >= 1
    ensures Pow(1.0 + i, n) > 1.0
    ensures AnnuityQuotient(p, i, Pow(1.0 + i, n)) == Ok(RoundHalfUp(ExactAnnuity(p, i, n), 2))
  {
    var q := Pow(1.0 + i, n);
    PowAtLeastOne(1.0 + i, n);
    assert ExactAnnuity(p, i, n) == p * (i + i / (q - 1.0));
  }

  // ---------------------------------------------------------------------
  // One offer

  /** The rate of an offer: the base rate, 3 points off for insurance and
      1 point off for a salary client. */
  function OfferRate(isInsuranceEnabled: bool, isSalaryClient: bool): (rate: real)
    ensures rate == 15.0 || rate == 14.0 || rate == 12.0 || rate == 11.0
    ensures rate > 0.0
    ensures isInsuranceEnabled <==> rate <= 12.0
    ensures isSalaryClient <==> (rate == 14.0 || rate == 11.0)
  {
    BASE_RATE
      - (if isInsuranceEnabled then INSURANCE_RATE_DISCOUNT else 0.0)
      - (if isSalaryClient then SALARY_CLIENT_RATE_DISCOUNT else 0.0)
  }

  /** `o` is the offer `createOffer` builds for `request` with these flags. */
  predicate IsOffer(o: LoanOffer, request: LoanStatementRequest, statementId: Uuid,
                    isInsuranceEnabled: bool, isSalaryClient: bool)
  {
    && o.statementId == statementId
    && o.requestedAmount == request.amount
    && o.totalAmount == request.amount + (if isInsuranceEnabled then INSURANCE_COST else 0.0)
    && o.term == request.term
    && o.rate == OfferRate(isInsuranceEnabled, isSalaryClient)
    && OfferMonthlyPayment(o.totalAmount, o.term, o.rate) == Ok(o.monthlyPayment)
    && o.isInsuranceEnabled == isInsuranceEnabled
    && o.isSalaryClient == isSalaryClient
  }

  /** `createOffer`: adjust the rate and the amount step by step, then
      compute the payment.  Fails when the term is outside 1..999999999,
      as the payment does: the exponent range `pow` checks, plus the
      zero divisor of a zero term. */
  method CreateOffer(request: LoanStatementRequest, statementId: Uuid,
                     isInsuranceEnabled: bool, isSalaryClient: bool)
    returns (r: Result<LoanOffer>)
    ensures r.Err? <==> !(1 <= request.term <= MAX_POW_EXPONENT)
    ensures r.Err? ==> (r.error == DivisionByZero <==> request.term == 0)
    ensures r.Ok? ==> IsOffer(r.value, request, statementId, isInsuranceEnabled, isSalaryClient)
  {
    var finalRate := BASE_RATE;
    var totalAmount := request.amount;
    if isInsuranceEnabled {
      totalAmount := totalAmount + INSURANCE_COST;
      finalRate := finalRate - INSURANCE_RATE_DISCOUNT;
    }
    if isSalaryClient {
      finalRate := finalRate - SALARY_CLIENT_RATE_DISCOUNT;
    }
    assert finalRate == OfferRate(isInsuranceEnabled, isSalaryClient);
    var monthlyPayment := OfferMonthlyPayment(totalAmount, request.term, finalRate);
    if monthlyPayment.Err? {
      return Err(monthlyPayment.error);
    }
    r := Ok(LoanOffer(statementId, request.amount, totalAmount, request.term,
                      monthlyPayment.value, finalRate, isInsuranceEnabled, isSalaryClient));
  }

  // ---------------------------------------------------------------------
  // Ranking

  /** `Comparator.comparing(rate).thenComparing(totalAmount)`: a is ranked
      no later than b. */
  predicate OfferLeq(a: LoanOffer, b: LoanOffer) {
    a.rate < b.rate || (a.rate == b.rate && a.totalAmount <= b.totalAmount)
  }

  predicate Ascending(s: seq<LoanOffer>) {
    forall i, j :: 0 <= i < j < |s| ==> OfferLeq(s[i], s[j])
  }

  predicate Descending(s: seq<LoanOffer>) {
    forall i, j :: 0 <= i < j < |s| ==> OfferLeq(s[j], s[i])
  }

  /** Places x in front of the first element it ranks no later than, so
      that it stays ahead of the offers it ties with. */
  function Insert(x: LoanOffer, s: seq<LoanOffer>): (r: seq<LoanOffer>)
    requires Ascending(s)
    ensures Ascending(r)
    ensures multiset(r) == multiset(s) + multiset{x}
  {
    if s == [] || OfferLeq(x, s[0]) then
      AscendingCons(x, s);
      [x] + s
    else
      var rest := Insert(x, s[1..]);
      assert s == [s[0]] + s[1..];
      RankedBelowAll(s[0], x, s[1..], rest);
      AscendingCons(s[0], rest);
      [s[0]] + rest
  }

  /** Putting an offer ranked no later than all of an ascending list in
      front of it keeps it ascending. */
  lemma AscendingCons(y: LoanOffer, t: seq<LoanOffer>)
    requires Ascending(t)
    requires forall k :: 0 <= k < |t| ==> OfferLeq(y, t[k])
    ensures Ascending([y] + t)
  {
    var u := [y] + t;
    forall i, j | 0 <= i < j < |u|
      ensures OfferLeq(u[i], u[j])
    {
      assert u[j] == t[j - 1];
      if i > 0 {
        assert u[i] == t[i - 1];
      }
    }
  }

  /** An offer ranked no later than x and than every element of t is
      ranked no later than any element of a rearrangement of t with x. */
  lemma RankedBelowAll(y: LoanOffer, x: LoanOffer, t: seq<LoanOffer>, u: seq<LoanOffer>)
    requires multiset(u) == multiset(t) + multiset{x}
    requires forall k :: 0 <= k < |t| ==> OfferLeq(y, t[k])
    requires OfferLeq(y, x)
    ensures forall k :: 0 <= k < |u| ==> OfferLeq(y, u[k])
  {
    forall k | 0 <= k < |u|
      ensures OfferLeq(y, u[k])
    {
      assert u[k] in multiset(u);
      if u[k] != x {
        assert u[k] in multiset(t);
        var j :| 0 <= j < |t| && t[j] == u[k];
      }
    }
  }

  /** `Stream.sorted` with the ranking comparator, as an insertion sort:
      the result is ascending and a permutation of the input.  Whether
      equally ranked offers keep their input order is not stated. */
  function SortOffers(s: seq<LoanOffer>): (r: seq<LoanOffer>)
    ensures Ascending(r)
    ensures multiset(r) == multiset(s)
    ensures |r| == |s|
  {
    if s == [] then []
    else
      var rest := SortOffers(s[1..]);
      assert s == [s[0]] + s[1..];
      Insert(s[0], rest)
  }

  /** s in reverse order. */
  function Reversed(s: seq<LoanOffer>): (r: seq<LoanOffer>)
    ensures |r| == |s|
    ensures forall k :: 0 <= k < |s| ==> r[k] == s[|s| - 1 - k]
  {
    seq(|s|, k requires 0 <= k < |s| => s[|s| - 1 - k])
  }

  /** Reversing an ascending ranking gives a descending one. */
  lemma ReversedAscending(s: seq<LoanOffer>)
    requires Ascending(s)
    ensures Descending(Reversed(s))
  {
    var r := Reversed(s);
    forall i, j | 0 <= i < j < |r|
      ensures OfferLeq(r[j], r[i])
    {
      assert r[j] == s[|s| - 1 - j] && r[i] == s[|s| - 1 - i];
    }
  }

  lemma ReversedTwice(s: seq<LoanOffer>)
    ensures Reversed(Reversed(s)) == s
  {
    var r := Reversed(Reversed(s));
    assert forall k | 0 <= k < |s| :: r[k] == s[k];
  }

  lemma ReversedCons(s: seq<LoanOffer>)
    requires s != []
    ensures Reversed(s) == Reversed(s[1..]) + [s[0]]
  {
    var r, t := Reversed(s), Reversed(s[1..]) + [s[0]];
    forall k | 0 <= k < |s|
      ensures r[k] == t[k]
    {
      if k < |s| - 1 {
        assert t[k] == s[1..][|s| - 2 - k];
      }
    }
  }

  /** An offer ranked strictly after every element of an ascending list
      is inserted at its end. */
  lemma {:induction false} InsertLast(x: LoanOffer, s: seq<LoanOffer>)
    requires Ascending(s)
    requires forall k :: 0 <= k < |s| ==> !OfferLeq(x, s[k])
    ensures Insert(x, s) == s + [x]
  {
    if s != [] {
      InsertLast(x, s[1..]);
      assert s == [s[0]] + s[1..];
    }
  }

  /** Offers listed with strictly falling rates: sorting them reverses
      them. */
  lemma {:induction false} SortStrictlyFalling(s: seq<LoanOffer>)
    requires StrictlyFalling(s)
    ensures SortOffers(s) == Reversed(s)
  {
    if s != [] {
      var tail := s[1..];
      FallingParts(s);
      SortStrictlyFalling(tail);
      InsertLast(s[0], Reversed(tail));
      assert SortOffers(s) == Insert(s[0], SortOffers(tail));
      ReversedCons(s);
    }
  }

  /** Offers created with strictly falling rates come out of the sort and
      the reversal in the order they were created, which is descending. */
  lemma RankingRestoresCreationOrder(s: seq<LoanOffer>)
    requires StrictlyFalling(s)
    ensures Reversed(SortOffers(s)) == s
    ensures Descending(s)
  {
    SortStrictlyFalling(s);
    ReversedTwice(s);
    ReversedAscending(SortOffers(s));
  }

  /** Rates fall strictly along s. */
  predicate StrictlyFalling(s: seq<LoanOffer>) {
    forall i, j :: 0 <= i < j < |s| ==> s[j].rate < s[i].rate
  }

  /** The tail of a strictly falling list falls strictly, and the head is
      ranked after everything in the reversed tail. */
  lemma FallingParts(s: seq<LoanOffer>)
    requires s != [] && StrictlyFalling(s)
    ensures StrictlyFalling(s[1..])
    ensures forall k :: 0 <= k < |s| - 1 ==> !OfferLeq(s[0], Reversed(s[1..])[k])
  {
    var tail := s[1..];
    forall i, j | 0 <= i < j < |tail|
      ensures tail[j].rate < tail[i].rate
    {
      assert tail[i] == s[i + 1] && tail[j] == s[j + 1];
    }
    var rest := Reversed(tail);
    forall k | 0 <= k < |s| - 1
      ensures !OfferLeq(s[0], rest[k])
    {
      var j := |s| - 1 - k;
      assert rest[k] == tail[j - 1] == s[j];
    }
  }


  /** `Collections.reverse` on the collected list: swaps the two ends
      inwards. */
  method Reverse(a: array<LoanOffer>)
    modifies a
    ensures a[..] == Reversed(old(a[..]))
  {
    ghost var s := a[..];
    var lo, hi := 0, a.Length - 1;
    while lo < hi
      invariant 0 <= lo && hi == |s| - 1 - lo && lo <= |s| - lo
      invariant forall k :: 0 <= k < lo || hi < k < |s| ==> a[k] == s[|s| - 1 - k]
      invariant forall k :: lo <= k <= hi ==> a[k] == s[k]
    {
      a[lo], a[hi] := a[hi], a[lo];
      lo, hi := lo + 1, hi - 1;
    }
    forall k | 0 <= k < |s|
      ensures a[k] == s[|s| - 1 - k]
    {
      if lo <= k <= hi {
        assert k == |s| - 1 - k;
      }
    }
    assert a[..] == Reversed(s);
  }

  // ---------------------------------------------------------------------
  // The four offers

  /** The (insurance, salary client) combinations, in the order offers are
      created. */
  const FLAGS: seq<(bool, bool)> := [(false, false), (false, true), (true, false), (true, true)]

  /** `offers` is what `salaryCalculation` returns for `request`: one
      offer per combination, in the order of FLAGS, all sharing the
      statement id, ranked from the highest rate down. */
  predicate IsOfferList(offers: seq<LoanOffer>, request: LoanStatementRequest, statementId: Uuid) {
    && |offers| == |FLAGS|
    && (forall k :: 0 <= k < |offers| ==> IsOffer(offers[k], request, statementId, FLAGS[k].0, FLAGS[k].1))
    && Descending(offers)
  }

  /** The `map` stage of `salaryCalculation`: one offer per combination,
      in the order of FLAGS.  Their rates fall strictly (15, 14, 12, 11). */
  method CreateOffers(request: LoanStatementRequest, statementId: Uuid)
    returns (r: Result<seq<LoanOffer>>)
    ensures r.Err? <==> !(1 <= request.term <= MAX_POW_EXPONENT)
    ensures r.Err? ==> (r.error == DivisionByZero <==> request.term == 0)
    ensures r.Ok? ==> |r.value| == |FLAGS|
    ensures r.Ok? ==> forall k :: 0 <= k < |r.value| ==>
                        IsOffer(r.value[k], request, statementId, FLAGS[k].0, FLAGS[k].1)
    ensures r.Ok? ==> StrictlyFalling(r.value)
  {
    var created: seq<LoanOffer> := [];
    for k := 0 to |FLAGS|
      invariant |created| == k
      invariant k > 0 ==> 1 <= request.term <= MAX_POW_EXPONENT
      invariant forall j :: 0 <= j < k ==> IsOffer(created[j], request, statementId, FLAGS[j].0, FLAGS[j].1)
    {
      var offer := CreateOffer(request, statementId, FLAGS[k].0, FLAGS[k].1);
      if offer.Err? {
        return Err(offer.error);
      }
      created := created + [offer.value];
    }
    assert created[0].rate == 15.0 && created[1].rate == 14.0;
    assert created[2].rate == 12.0 && created[3].rate == 11.0;
    r := Ok(created);
  }

  /** `salaryCalculation`: create the four offers, sort them ascending by
      (rate, total amount), reverse the list.  The statement id that
      `UUID.randomUUID()` draws is a parameter. */
  method SalaryCalculation(request: LoanStatementRequest, statementId: Uuid)
    returns (r: Result<seq<LoanOffer>>)
    ensures r.Err? <==> !(1 <= request.term <= MAX_POW_EXPONENT)
    ensures r.Err? ==> (r.error == DivisionByZero <==> request.term == 0)
    ensures r.Ok? ==> IsOfferList(r.value, request, statementId)
  {
    var created := CreateOffers(request, statementId);
    if created.Err? {
      return Err(created.error);
    }
    var sorted := SortOffers(created.value);
    var list := new LoanOffer[|sorted|](k requires 0 <= k < |sorted| => sorted[k]);
    assert list[..] == sorted;
    Reverse(list);
    RankingRestoresCreationOrder(created.value);
    assert list[..] == created.value;
    r := Ok(list[..]);
  }
}
