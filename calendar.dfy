/**
 * The proleptic Gregorian calendar Go's `time` package uses (with a year 0 and negative
 * years), as a bijection between civil dates and day numbers counted from 1970-01-01.
 */
module Calendar {

  /** Days from 0001-01-01 to 1970-01-01. */
  const DaysToUnixEpoch := 719162

  /** A civil date; `day` may lie outside the month where Go normalises it (time.Date). */
  datatype Date = Date(year: int, month: int, day: int)

  predicate IsLeap(year: int) {
    year % 4 == 0 && (year % 100 != 0 || year % 400 == 0)
  }

  function DaysInYear(year: int): int {
    if IsLeap(year) then 366 else 365
  }

  function DaysInMonth(year: int, month: int): (n: int)
    requires 1 <= month <= 12
    ensures 28 <= n <= 31
  {
    if month == 2 then (if IsLeap(year) then 29 else 28)
    else if month == 4 || month == 6 || month == 9 || month == 11 then 30
    else 31
  }

  /** Days in the months of `year` before `month`. */
  function DaysBeforeMonth(year: int, month: int): (n: int)
    requires 1 <= month <= 13
    ensures 0 <= n <= 31 * (month - 1)
  {
    if month == 1 then 0 else DaysBeforeMonth(year, month - 1) + DaysInMonth(year, month - 1)
  }

  lemma DaysBeforeMonthTotal(year: int)
    ensures DaysBeforeMonth(year, 13) == DaysInYear(year)
  {
    var feb := DaysInMonth(year, 2);
    assert DaysBeforeMonth(year, 2) == 31;
    assert DaysBeforeMonth(year, 3) == 31 + feb;
    assert DaysBeforeMonth(year, 4) == 62 + feb;
    assert DaysBeforeMonth(year, 5) == 92 + feb;
    assert DaysBeforeMonth(year, 6) == 123 + feb;
    assert DaysBeforeMonth(year, 7) == 153 + feb;
    assert DaysBeforeMonth(year, 8) == 184 + feb;
    assert DaysBeforeMonth(year, 9) == 215 + feb;
    assert DaysBeforeMonth(year, 10) == 245 + feb;
    assert DaysBeforeMonth(year, 11) == 276 + feb;
    assert DaysBeforeMonth(year, 12) == 306 + feb;
    assert DaysBeforeMonth(year, 13) == 337 + feb;
  }

  predicate Valid(d: Date) {
    1 <= d.month <= 12 && 1 <= d.day <= DaysInMonth(d.year, d.month)
  }

  /** Days from 0001-01-01 to January 1 of `year` (negative before year 1). */
  function DaysBeforeYear(year: int): int {
    var p := year - 1;
    365 * p + p / 4 - p / 100 + p / 400
  }

  /** The day number (days since 1970-01-01) of a date; an out-of-month day counts on. */
  function DaysFromCivil(d: Date): int
    requires 1 <= d.month <= 12
  {
    DaysBeforeYear(d.year) + DaysBeforeMonth(d.year, d.month) + d.day - 1 - DaysToUnixEpoch
  }

  /** The month and day of the zero-based day `doy` of `year`, searching from `month` on. */
  function MonthDayFrom(year: int, doy: int, month: int): (d: Date)
    requires 1 <= month <= 12
    requires DaysBeforeMonth(year, month) <= doy < DaysInYear(year)
    ensures d.year == year && Valid(d)
    ensures DaysBeforeMonth(year, d.month) + d.day - 1 == doy
    decreases 12 - month
  {
    if month == 12 || doy < DaysBeforeMonth(year, month + 1) then
      DaysBeforeMonthTotal(year);
      Date(year, month, doy - DaysBeforeMonth(year, month) + 1)
    else
      MonthDayFrom(year, doy, month + 1)
  }

  /**
   * Splitting the years since 0001 into 400-year eras, 100-year centuries, 4-year groups
   * and single years: where the leap years fall and how many days precede the year.
   */
  lemma YearSplit(era: int, c: int, q: int, r: int, doy: int)
    requires 0 <= c <= 3 && 0 <= q <= 24 && 0 <= r <= 3 && 0 <= doy <= 365
    requires r < 3 ==> doy < 365
    requires doy == 365 ==> q < 24 || c == 3
    ensures var year := 1 + 400 * era + 100 * c + 4 * q + r;
            && 0 <= doy < DaysInYear(year)
            && DaysBeforeYear(year) == 146097 * era + 36524 * c + 1461 * q + 365 * r
  {
    YearSplitDays(era, c, q, r);
    if doy == 365 {
      YearSplitLeap(era, c, q, r);
    }
  }

  lemma YearSplitDays(era: int, c: int, q: int, r: int)
    requires 0 <= c <= 3 && 0 <= q <= 24 && 0 <= r <= 3
    ensures DaysBeforeYear(1 + 400 * era + 100 * c + 4 * q + r) == 146097 * era + 36524 * c + 1461 * q + 365 * r
  {
    var k := 400 * era + 100 * c + 4 * q + r;
    assert k / 4 == 100 * era + 25 * c + q;
    assert k / 100 == 4 * era + c;
    assert k / 400 == era;
  }

  /** The last year of a 4-year group is a leap year, except at the end of a century other than the fourth. */
  lemma YearSplitLeap(era: int, c: int, q: int, r: int)
    requires 0 <= c <= 3 && 0 <= q <= 24 && r == 3
    requires q < 24 || c == 3
    ensures IsLeap(1 + 400 * era + 100 * c + 4 * q + r)
  {
    var year := 1 + 400 * era + 100 * c + 4 * q + r;
    if q < 24 {
      assert year == 100 * (4 * era + c) + 4 * (q + 1);
      assert year % 4 == 0 && year % 100 == 4 * (q + 1);
    } else {
      assert year == 400 * (era + 1);
    }
  }

  /** The civil date of a day number: valid, and mapped back to the same day number. */
  function CivilFromDays(n: int): (d: Date)
    ensures Valid(d)
    ensures DaysFromCivil(d) == n
  {
    var a := n + DaysToUnixEpoch;
    var era := a / 146097;
    var e := a % 146097;
    var c := if e / 36524 == 4 then 3 else e / 36524;
    var dc := e - 36524 * c;
    assert c < 3 ==> dc <= 36523;
    var q := dc / 1461;
    var dq := dc - 1461 * q;
    assert q == 24 && c < 3 ==> dq <= 1459;
    var r := if dq / 365 == 4 then 3 else dq / 365;
    var doy := dq - 365 * r;
    YearSplit(era, c, q, r, doy);
    MonthDayFrom(1 + 400 * era + 100 * c + 4 * q + r, doy, 1)
  }

  /** A valid date is the civil date of its own day number, so dates and days correspond one to one. */
  lemma {:induction false} CivilFromDaysOfValid(d: Date)
    requires Valid(d)
    ensures CivilFromDays(DaysFromCivil(d)) == d
  {
    var d' := CivilFromDays(DaysFromCivil(d));
    DaysFromCivilInjective(d, d');
  }

  /** Dividing by a positive `k`, the quotient steps up exactly where the successor is a multiple of `k`. */
  lemma QuotientStep(p: int, k: int)
    requires k > 0
    ensures (p + 1) / k == p / k + (if (p + 1) % k == 0 then 1 else 0)
  {
    var q, r := p / k, p % k;
    assert p == k * q + r && 0 <= r < k;
    if r == k - 1 {
      assert p + 1 == k * (q + 1) + 0;
      DivModUnique(p + 1, k, q + 1, 0);
    } else {
      assert p + 1 == k * q + (r + 1);
      DivModUnique(p + 1, k, q, r + 1);
    }
  }

  lemma DivModUnique(x: int, k: int, q: int, r: int)
    requires k > 0 && 0 <= r < k && x == k * q + r
    ensures x / k == q && x % k == r
  {
    var q', r' := x / k, x % k;
    assert x == k * q' + r' && 0 <= r' < k;
    if q' < q {
      assert k * q >= k * (q' + 1) by { MulMonotone(k, q' + 1, q); }
    } else if q < q' {
      assert k * q' >= k * (q + 1) by { MulMonotone(k, q + 1, q'); }
    }
  }

  lemma MulMonotone(k: int, a: int, b: int)
    requires k > 0 && a <= b
    ensures k * a <= k * b
  {
    assert k * b - k * a == k * (b - a);
  }

  lemma DaysBeforeYearStep(year: int)
    ensures DaysBeforeYear(year + 1) == DaysBeforeYear(year) + DaysInYear(year)
  {
    var p := year - 1;
    QuotientStep(p, 4);
    QuotientStep(p, 100);
    QuotientStep(p, 400);
  }

  lemma {:induction false} DaysBeforeYearMonotone(y1: int, y2: int)
    requires y1 < y2
    ensures DaysBeforeYear(y1) + DaysInYear(y1) <= DaysBeforeYear(y2)
    decreases y2 - y1
  {
    DaysBeforeYearStep(y1);
    if y1 + 1 < y2 {
      DaysBeforeYearMonotone(y1 + 1, y2);
    }
  }

  lemma {:induction false} DaysBeforeMonthMonotone(year: int, m1: int, m2: int)
    requires 1 <= m1 < m2 <= 13
    ensures DaysBeforeMonth(year, m1) + DaysInMonth(year, m1) <= DaysBeforeMonth(year, m2)
    decreases m2 - m1
  {
    if m1 + 1 < m2 {
      DaysBeforeMonthMonotone(year, m1 + 1, m2);
    }
  }

  /** The zero-based position of a valid date within its year. */
  lemma DayOfYearBounds(d: Date)
    requires Valid(d)
    ensures 0 <= DaysBeforeMonth(d.year, d.month) + d.day - 1 < DaysInYear(d.year)
  {
    DaysBeforeMonthTotal(d.year);
    if d.month < 12 {
      DaysBeforeMonthMonotone(d.year, d.month, 13);
    }
  }

  lemma DaysFromCivilInjective(d1: Date, d2: Date)
    requires Valid(d1) && Valid(d2)
    requires DaysFromCivil(d1) == DaysFromCivil(d2)
    ensures d1 == d2
  {
    DayOfYearBounds(d1);
    DayOfYearBounds(d2);
    if d1.year < d2.year {
      DaysBeforeYearMonotone(d1.year, d2.year);
    } else if d2.year < d1.year {
      DaysBeforeYearMonotone(d2.year, d1.year);
    } else if d1.month < d2.month {
      DaysBeforeMonthMonotone(d1.year, d1.month, d2.month);
    } else if d2.month < d1.month {
      DaysBeforeMonthMonotone(d1.year, d2.month, d1.month);
    }
  }
}
