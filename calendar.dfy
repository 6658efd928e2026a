/**
 * Civil (proleptic Gregorian) calendar dates and UTC date-times: the part of the
 * JavaScript `Date` object that `getPreviousDay` and `formatPayload` depend on,
 * with the process time zone taken to be UTC.
 */
module Calendar {

  /** A calendar date: year, month 1..12, day of month 1-based. */
  datatype Date = Date(year: int, month: int, day: int)

  /** A UTC date-time at millisecond resolution. */
  datatype DateTime = DateTime(date: Date, hour: int, minute: int, second: int, millis: int)

  /** Gregorian leap-year rule: every fourth year, except centuries not divisible by 400. */
  predicate IsLeapYear(y: int) {
    y % 4 == 0 && (y % 100 != 0 || y % 400 == 0)
  }

  /** The length of month `m` of year `y` in the Gregorian calendar. */
  function DaysInMonth(y: int, m: int): (n: int)
    requires 1 <= m <= 12
    ensures 28 <= n <= 31
    ensures m == 2 ==> n == (if IsLeapYear(y) then 29 else 28)
    ensures m != 2 ==> (n == 30 <==> m in {4, 6, 9, 11})
  {
    if m == 2 then (if IsLeapYear(y) then 29 else 28)
    else if m == 4 || m == 6 || m == 9 || m == 11 then 30
    else 31
  }

  /**
   * The months add up to 366 days in a leap year and 365 otherwise; with the
   * bounds above this leaves 31 days for every month other than February,
   * April, June, September and November.
   */
  lemma YearLength(y: int)
    ensures DaysInMonth(y, 1) + DaysInMonth(y, 2) + DaysInMonth(y, 3) + DaysInMonth(y, 4)
      + DaysInMonth(y, 5) + DaysInMonth(y, 6) + DaysInMonth(y, 7) + DaysInMonth(y, 8)
      + DaysInMonth(y, 9) + DaysInMonth(y, 10) + DaysInMonth(y, 11) + DaysInMonth(y, 12)
      == if IsLeapYear(y) then 366 else 365
  {
  }

  predicate ValidDate(d: Date) {
    1 <= d.month <= 12 && 1 <= d.day <= DaysInMonth(d.year, d.month)
  }

  predicate ValidDateTime(t: DateTime) {
    ValidDate(t.date) && 0 <= t.hour < 24 && 0 <= t.minute < 60
    && 0 <= t.second < 60 && 0 <= t.millis < 1000
  }

  /** Chronological order on dates (lexicographic on year, month, day). */
  predicate Before(a: Date, b: Date) {
    a.year < b.year
    || (a.year == b.year && a.month < b.month)
    || (a.year == b.year && a.month == b.month && a.day < b.day)
  }

  /**
   * `Date.prototype.setDate(n)` for the day numbers `getDate() - 1` can produce:
   * day 0 of a month is the last day of the month before it, and day 0 of
   * January is 31 December of the previous year.
   */
  function SetDate(year: int, month: int, n: int): (r: Date)
    requires 1 <= month <= 12 && 0 <= n <= DaysInMonth(year, month)
    ensures ValidDate(r)
    ensures n >= 1 ==> r == Date(year, month, n)
    ensures n == 0 ==> r.day == DaysInMonth(r.year, r.month) && NextDate(r) == Date(year, month, 1)
  {
    if n >= 1 then Date(year, month, n)
    else if month == 1 then Date(year - 1, 12, 31)
    else Date(year, month - 1, DaysInMonth(year, month - 1))
  }

  /** The calendar day before `d`, as `setDate(getDate() - 1)` computes it. */
  function PreviousDate(d: Date): (r: Date)
    requires ValidDate(d)
    ensures ValidDate(r) && Before(r, d)
  {
    SetDate(d.year, d.month, d.day - 1)
  }

  /** The calendar day after `d`: the partner of PreviousDate. */
  function NextDate(d: Date): (r: Date)
    requires ValidDate(d)
    ensures ValidDate(r) && Before(d, r)
  {
    if d.day < DaysInMonth(d.year, d.month) then Date(d.year, d.month, d.day + 1)
    else if d.month < 12 then Date(d.year, d.month + 1, 1)
    else Date(d.year + 1, 1, 1)
  }

  /** The day before `d` is the latest valid date strictly before `d`: no valid date lies between them. */
  lemma PreviousDateIsLatestBefore(d: Date, x: Date)
    requires ValidDate(d) && ValidDate(x) && Before(x, d)
    ensures x == PreviousDate(d) || Before(x, PreviousDate(d))
  {
  }

  /** The day after `d` is the earliest valid date strictly after `d`. */
  lemma NextDateIsEarliestAfter(d: Date, x: Date)
    requires ValidDate(d) && ValidDate(x) && Before(d, x)
    ensures x == NextDate(d) || Before(NextDate(d), x)
  {
  }

  /** Stepping back a day undoes stepping forward a day. */
  lemma PreviousOfNext(d: Date)
    requires ValidDate(d)
    ensures PreviousDate(NextDate(d)) == d
  {
  }

  /** Stepping forward a day undoes stepping back a day. */
  lemma NextOfPrevious(d: Date)
    requires ValidDate(d)
    ensures NextDate(PreviousDate(d)) == d
  {
  }

  /** Before is transitive. */
  lemma BeforeTransitive(a: Date, b: Date, c: Date)
    requires Before(a, b) && Before(b, c)
    ensures Before(a, c)
  {
  }

  /** 1 March steps back to 29 February in a leap year and to 28 February otherwise. */
  lemma MarchFirstRollsBack(y: int)
    ensures PreviousDate(Date(y, 3, 1)) == Date(y, 2, if IsLeapYear(y) then 29 else 28)
  {
  }

  /** 1 January steps back to 31 December of the previous year. */
  lemma NewYearRollsBack(y: int)
    ensures PreviousDate(Date(y, 1, 1)) == Date(y - 1, 12, 31)
  {
  }

  /** The first day of any month other than January steps back to the last day of the month before. */
  lemma MonthStartRollsBack(y: int, m: int)
    requires 2 <= m <= 12
    ensures PreviousDate(Date(y, m, 1)) == Date(y, m - 1, DaysInMonth(y, m - 1))
  {
  }
}
