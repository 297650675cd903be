/** The part of `java.time.LocalDate` the payment schedule uses: ISO
    calendar dates and `plusMonths`, which keeps the day of month when it
    exists in the target month and otherwise clamps it to that month's
    last day. */
module Calendar {

  datatype Date = Date(year: int, month: int, day: int)

  /** ISO proleptic leap-year rule. */
  predicate IsLeapYear(year: int) {
    year % 4 == 0 && (year % 100 != 0 || year % 400 == 0)
  }

  function LengthOfMonth(year: int, month: int): int {
    if month == 2 then (if IsLeapYear(year) then 29 else 28)
    else if month == 4 || month == 6 || month == 9 || month == 11 then 30
    else 31
  }

  predicate ValidDate(d: Date) {
    1 <= d.month <= 12 && 1 <= d.day <= LengthOfMonth(d.year, d.month)
  }

  /** Months elapsed since January of year 0. */
  function MonthIndex(d: Date): int {
    d.year * 12 + (d.month - 1)
  }

  /** `d.plusMonths(n)`. */
  function PlusMonths(d: Date, n: int): (r: Date)
    requires ValidDate(d)
    ensures ValidDate(r)
    ensures MonthIndex(r) == MonthIndex(d) + n
    ensures r.day <= d.day
    ensures r.day == d.day || r.day == LengthOfMonth(r.year, r.month)
  {
    if n == 0 then d
    else
      var months := MonthIndex(d) + n;
      var year := months / 12;
      var month := months % 12 + 1;
      var last := LengthOfMonth(year, month);
      Date(year, month, if d.day <= last then d.day else last)
  }

  /** Adding whole months never lands on the same or an earlier month:
      dates built from increasing offsets are strictly increasing. */
  lemma PlusMonthsStrictlyIncreasing(d: Date, m: int, n: int)
    requires ValidDate(d) && m < n
    ensures MonthIndex(PlusMonths(d, m)) < MonthIndex(PlusMonths(d, n))
    ensures PlusMonths(d, m) != PlusMonths(d, n)
  {
  }

  /** A day of month that every month has (1 to 28) is kept as it is. */
  lemma PlusMonthsKeepsCommonDay(d: Date, n: int)
    requires ValidDate(d) && d.day <= 28
    ensures PlusMonths(d, n).day == d.day
  {
  }
}
