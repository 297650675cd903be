/** The `java.math.BigDecimal` arithmetic the services rely on, over exact
    rationals: powers, `setScale(places, HALF_UP)` and
    `divide(divisor, places, HALF_UP)`.  Scale (trailing zeros) is not
    tracked, only numeric value, which is what `compareTo` looks at. */
module Decimal {
  import opened Common

  /** `BigDecimal.pow` accepts exponents 0 through 999999999 only. */
  const MAX_POW_EXPONENT: int := 999_999_999

  /** x^n, by repeated multiplication. */
  function PowSteps(x: real, n: nat): real {
    if n == 0 then 1.0 else x * PowSteps(x, n - 1)
  }

  /** x^n, as one non-recursive term so that equal powers are recognised
      as equal wherever they occur. */
  function Pow(x: real, n: nat): real {
    PowSteps(x, n)
  }

  lemma PowSucc(x: real, n: nat)
    ensures Pow(x, n + 1) == x * Pow(x, n)
  {
  }

  /** A power of a base of at least one is at least one, and is above one
      when both the base and the exponent are. */
  lemma {:induction false} PowAtLeastOne(x: real, n: nat)
    requires x >= 1.0
    ensures Pow(x, n) >= 1.0
    ensures x > 1.0 && n >= 1 ==> Pow(x, n) > 1.0
  {
    if n > 0 {
      PowAtLeastOne(x, n - 1);
      var p := Pow(x, n - 1);
      PowSucc(x, n - 1);
      assert x * p - p == (x - 1.0) * p;
      assert (x - 1.0) * p >= 0.0;
      assert x > 1.0 ==> (x - 1.0) * p > 0.0;
    }
  }

  /** Half a unit in the last of `places` fraction digits: 0.5, 0.05, ... */
  function HalfUlp(places: nat): (h: real)
    ensures h > 0.0
  {
    HalfUlpSteps(places)
  }

  function HalfUlpSteps(places: nat): (h: real)
    ensures h > 0.0
  {
    if places == 0 then 0.5 else HalfUlpSteps(places - 1) / 10.0
  }

  lemma HalfUlpValues()
    ensures HalfUlp(1) == 0.05
    ensures HalfUlp(2) == 0.005
    ensures HalfUlp(8) == 0.000000005
  {
    assert HalfUlp(3) == 0.0005;
    assert HalfUlp(4) == 0.00005;
    assert HalfUlp(5) == 0.000005;
    assert HalfUlp(6) == 0.0000005;
    assert HalfUlp(7) == 0.00000005;
  }

  /** x has at most `places` fraction digits: shifted left by that many
      digits it is a whole number. */
  predicate HasScale(x: real, places: nat)
    decreases places
  {
    if places == 0 then IsWhole(x) else HasScale(x * 10.0, places - 1)
  }

  predicate IsWhole(y: real) {
    y.Floor as real == y
  }

  /** `x.setScale(places, RoundingMode.HALF_UP)`: the multiple of 10^-places
      nearest to x, ties away from zero.  As one non-recursive term, so
      that a rounding nested inside arithmetic is recognised wherever it
      occurs. */
  function RoundHalfUp(x: real, places: nat): real {
    RoundHalfUpSteps(x, places)
  }

  /** One digit is shifted left per place, the value is rounded to a whole
      number, and shifted back. */
  function RoundHalfUpSteps(x: real, places: nat): real
    decreases places
  {
    if places == 0 then RoundToWhole(x) else RoundHalfUpSteps(x * 10.0, places - 1) / 10.0
  }

  /** HALF_UP to a whole number: add a half to the magnitude and cut the
      fraction. */
  function RoundToWhole(x: real): real
  {
    if x >= 0.0 then (x + 0.5).Floor as real else -((-x + 0.5).Floor as real)
  }

  /** Rounding moves a value by at most half a unit in the last place,
      towards the nearer multiple, and keeps its sign. */
  lemma {:induction false} RoundHalfUpBounds(x: real, places: nat)
    ensures var r := RoundHalfUp(x, places);
            (x >= 0.0 ==> r >= 0.0 && -HalfUlp(places) < r - x <= HalfUlp(places)) &&
            (x <= 0.0 ==> r <= 0.0 && -HalfUlp(places) <= r - x < HalfUlp(places))
    decreases places
  {
    if places > 0 {
      RoundHalfUpBounds(x * 10.0, places - 1);
    }
  }

  /** A rounded value has the scale it was rounded to. */
  lemma {:induction false} RoundHalfUpHasScale(x: real, places: nat)
    ensures HasScale(RoundHalfUp(x, places), places)
    decreases places
  {
    if places == 0 {
      var k := if x >= 0.0 then (x + 0.5).Floor else -((-x + 0.5).Floor);
      assert RoundToWhole(x) == k as real;
    } else {
      var shifted := RoundHalfUp(x * 10.0, places - 1);
      RoundHalfUpHasScale(x * 10.0, places - 1);
      assert shifted / 10.0 * 10.0 == shifted;
    }
  }

  /** Rounding leaves a value that already has the scale unchanged. */
  lemma {:induction false} RoundHalfUpExact(x: real, places: nat)
    requires HasScale(x, places)
    ensures RoundHalfUp(x, places) == x
    decreases places
  {
    if places == 0 {
      var k := x.Floor;
      WholeRoundsToItself(k);
      WholeRoundsToItself(-k);
    } else {
      RoundHalfUpExact(x * 10.0, places - 1);
      assert RoundHalfUp(x, places) == RoundHalfUp(x * 10.0, places - 1) / 10.0;
    }
  }

  lemma IntegerIsWhole(m: int)
    ensures IsWhole(m as real)
  {
  }

  lemma WholeRoundsToItself(k: int)
    ensures (k as real + 0.5).Floor == k
  {
  }

  /** `BigDecimal.pow(n)`, with its exponent-range check: exponents 0
      through 999999999 are accepted.  The scale and magnitude overflows
      the real `pow` can also raise are not modelled. */
  function PowChecked(x: real, n: int): (r: Result<real>)
    ensures r.Err? <==> n < 0 || n > MAX_POW_EXPONENT
    ensures r.Err? ==> r.error == InvalidPowExponent
  {
    if n < 0 || n > MAX_POW_EXPONENT then Err(InvalidPowExponent) else Ok(Pow(x, n))
  }

  /** `a.divide(b, places, RoundingMode.HALF_UP)`: the exact quotient, rounded. */
  function DivideToScale(a: real, b: real, places: nat): (r: Result<real>)
    ensures r.Err? <==> b == 0.0
    ensures r.Err? ==> r.error == DivisionByZero
    ensures r.Ok? ==> HasScale(r.value, places)
    ensures r.Ok? && a / b >= 0.0 ==>
              r.value >= 0.0 && -HalfUlp(places) < r.value - a / b <= HalfUlp(places)
    ensures r.Ok? && a / b <= 0.0 ==>
              r.value <= 0.0 && -HalfUlp(places) <= r.value - a / b < HalfUlp(places)
  {
    if b == 0.0 then Err(DivisionByZero)
    else
      RoundHalfUpHasScale(a / b, places);
      RoundHalfUpBounds(a / b, places);
      Ok(RoundHalfUp(a / b, places))
  }

  /** Sign rules for a quotient by a positive divisor. */
  lemma QuotientSign(a: real, b: real)
    requires b > 0.0
    ensures a >= 0.0 ==> a / b >= 0.0
    ensures a > 0.0 ==> a / b > 0.0
  {
  }

  lemma ProductNonnegative(a: real, b: real)
    requires b >= 0.0
    ensures a >= 0.0 ==> a * b >= 0.0
  {
  }
}
