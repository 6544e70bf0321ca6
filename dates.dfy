// Calendar dates of the proleptic Gregorian calendar, as pandas timestamps
// normalised to midnight: day numbers, day and month arithmetic
// (`timedelta` days and `relativedelta(months=...)`), and the order of dates.
module Dates {

  datatype Date = Date(year: int, month: int, day: int)

  predicate IsLeap(y: int) { y % 4 == 0 && (y % 100 != 0 || y % 400 == 0) }

  function DaysInMonth(y: int, m: int): (n: int)
    requires 1 <= m <= 12
    ensures 28 <= n <= 31
  {
    if m == 2 then (if IsLeap(y) then 29 else 28)
    else if m == 4 || m == 6 || m == 9 || m == 11 then 30
    else 31
  }

  predicate Valid(d: Date) {
    1 <= d.month <= 12 && 1 <= d.day <= DaysInMonth(d.year, d.month)
  }

  /** Days of the year before the first of month `m`. */
  function DaysBeforeMonth(y: int, m: int): int
    requires 1 <= m <= 12
  {
    var t := [0, 31, 59, 90, 120, 151, 181, 212, 243, 273, 304, 334];
    t[m - 1] + (if m > 2 && IsLeap(y) then 1 else 0)
  }

  /** Days from 0001-01-01 to January 1st of year `y`. */
  function DaysBeforeYear(y: int): int {
    var p := y - 1;
    365 * p + p / 4 - p / 100 + p / 400
  }

  /** Day number of a date (0001-01-01 is day 0). */
  function DayNumber(d: Date): int
    requires 1 <= d.month <= 12
  {
    DaysBeforeYear(d.year) + DaysBeforeMonth(d.year, d.month) + d.day - 1
  }

  lemma YearLength(y: int)
    ensures DaysBeforeYear(y + 1) == DaysBeforeYear(y) + (if IsLeap(y) then 366 else 365)
  {
    QuotientStep4(y);
    QuotientStep100(y);
    QuotientStep400(y);
  }

  /** Going from y - 1 to y, the quotient by 4 (100, 400) grows exactly at a multiple. */
  lemma QuotientStep4(y: int)
    ensures y / 4 == (y - 1) / 4 + (if y % 4 == 0 then 1 else 0)
  {
  }

  lemma QuotientStep100(y: int)
    ensures y / 100 == (y - 1) / 100 + (if y % 100 == 0 then 1 else 0)
  {
  }

  lemma QuotientStep400(y: int)
    ensures y / 400 == (y - 1) / 400 + (if y % 400 == 0 then 1 else 0)
  {
  }

  lemma MonthLength(y: int, m: int)
    requires 1 <= m < 12
    ensures DaysBeforeMonth(y, m + 1) == DaysBeforeMonth(y, m) + DaysInMonth(y, m)
  {
  }

  /** The first day of the month after the month of `d`. */
  function NextMonthStart(d: Date): (r: Date)
    requires Valid(d)
    ensures Valid(r) && r.day == 1
    ensures DayNumber(r) == DayNumber(d) + DaysInMonth(d.year, d.month) - d.day + 1
  {
    if d.month == 12 then
      YearLength(d.year);
      Date(d.year + 1, 1, 1)
    else
      MonthLength(d.year, d.month);
      Date(d.year, d.month + 1, 1)
  }

  /** `d + timedelta(days=n)`. */
  function AddDays(d: Date, n: nat): (r: Date)
    requires Valid(d)
    ensures Valid(r) && DayNumber(r) == DayNumber(d) + n
    decreases n
  {
    var dim := DaysInMonth(d.year, d.month);
    if d.day + n <= dim then Date(d.year, d.month, d.day + n)
    else AddDays(NextMonthStart(d), n - (dim - d.day + 1))
  }

  // ------------------------------------------------------------------ order

  /** Chronological order of timestamps, lexicographic on (year, month, day). */
  predicate Before(a: Date, b: Date) {
    a.year < b.year || (a.year == b.year && (a.month < b.month || (a.month == b.month && a.day < b.day)))
  }

  predicate AtMost(a: Date, b: Date) { a == b || Before(a, b) }

  lemma DayNumberWithinYear(d: Date)
    requires Valid(d)
    ensures DaysBeforeYear(d.year) <= DayNumber(d) < DaysBeforeYear(d.year + 1)
  {
    YearLength(d.year);
  }

  lemma {:induction false} DaysBeforeYearIncreasing(a: int, b: int)
    requires a < b
    ensures DaysBeforeYear(a + 1) <= DaysBeforeYear(b)
    decreases b - a
  {
    if a + 1 < b {
      DaysBeforeYearIncreasing(a, b - 1);
      YearLength(b - 1);
    }
  }

  lemma MonthsIncreasing(y: int, m1: int, m2: int)
    requires 1 <= m1 < m2 <= 12
    ensures DaysBeforeMonth(y, m1) + DaysInMonth(y, m1) <= DaysBeforeMonth(y, m2)
  {
  }

  /** The order of dates is the order of their day numbers. */
  lemma BeforeIsDayNumberOrder(a: Date, b: Date)
    requires Valid(a) && Valid(b)
    ensures Before(a, b) <==> DayNumber(a) < DayNumber(b)
  {
    DayNumberWithinYear(a);
    DayNumberWithinYear(b);
    if a.year < b.year {
      DaysBeforeYearIncreasing(a.year, b.year);
    } else if b.year < a.year {
      DaysBeforeYearIncreasing(b.year, a.year);
    } else if a.month < b.month {
      MonthsIncreasing(a.year, a.month, b.month);
    } else if b.month < a.month {
      MonthsIncreasing(a.year, b.month, a.month);
    }
  }

  lemma DayNumberInjective(a: Date, b: Date)
    requires Valid(a) && Valid(b) && DayNumber(a) == DayNumber(b)
    ensures a == b
  {
    BeforeIsDayNumberOrder(a, b);
    BeforeIsDayNumberOrder(b, a);
  }

  // ----------------------------------------------------------------- months

  /** Months elapsed since January of year 0. */
  function MonthIndex(y: int, m: int): int { y * 12 + m - 1 }

  function Min(a: int, b: int): int { if a <= b then a else b }

  /**
   * `d + relativedelta(months=k)`: the same day `k` months later, clamped to
   * the last day of the target month.
   */
  function AddMonths(d: Date, k: nat): (r: Date)
    requires Valid(d)
    ensures Valid(r)
    ensures MonthIndex(r.year, r.month) == MonthIndex(d.year, d.month) + k
    ensures r.day <= d.day && (d.day <= DaysInMonth(r.year, r.month) ==> r.day == d.day)
    ensures r.day == d.day || r.day == DaysInMonth(r.year, r.month)
  {
    var mi := MonthIndex(d.year, d.month) + k;
    var y, m := mi / 12, mi % 12 + 1;
    Date(y, m, Min(d.day, DaysInMonth(y, m)))
  }

  lemma AddMonthsZero(d: Date)
    requires Valid(d)
    ensures AddMonths(d, 0) == d
  {
  }

  /** The first day of month `m` of year `y`, `pd.Timestamp(y, m, 1)`. */
  function FirstDay(y: int, m: int): (r: Date)
    requires 1 <= m <= 12
    ensures Valid(r)
  {
    Date(y, m, 1)
  }

  /** A valid date lies before the first of a month iff its month comes earlier. */
  lemma BeforeFirstDay(d: Date, y: int, m: int)
    requires Valid(d) && 1 <= m <= 12
    ensures Before(d, FirstDay(y, m)) <==> MonthIndex(d.year, d.month) < MonthIndex(y, m)
  {
  }

  /** Python's `datetime(1899, 12, 30)`: day 0 of spreadsheet date serials. */
  const SerialEpoch: Date := Date(1899, 12, 30)
}
