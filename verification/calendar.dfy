/**
  Calendar dates at day granularity, in the proleptic Gregorian calendar, with the
  three date-fns operations the leave engine relies on: `differenceInDays`,
  `differenceInYears` and `addYears`, and the ordering `isBefore`.

  Every date the engine handles is a local midnight, so a JavaScript `Date` is
  determined by its (year, month, day) triple and comparing two of them is
  comparing their day numbers.
*/
module Calendar {

  datatype Date = Date(year: int, month: int, day: int)

  predicate IsLeapYear(y: int) {
    (y % 4 == 0 && y % 100 != 0) || y % 400 == 0
  }

  function DaysInMonth(y: int, m: int): (n: int)
    ensures 28 <= n <= 31
  {
    if m == 2 then (if IsLeapYear(y) then 29 else 28)
    else if m == 4 || m == 6 || m == 9 || m == 11 then 30
    else 31
  }

  /** A date that exists in the calendar (what date-fns' `parseISO` accepts). */
  predicate ValidDate(d: Date) {
    1 <= d.month <= 12 && 1 <= d.day <= DaysInMonth(d.year, d.month)
  }

  /** February 29th: the one day whose anniversaries `addYears` must move. */
  predicate IsLeapDay(d: Date) {
    d.month == 2 && d.day == 29
  }

  function YearLength(y: int): int {
    if IsLeapYear(y) then 366 else 365
  }

  /**
    Days from 0001-01-01 to January 1st of year `y`: the lengths of the years in
    between, summed (negative before year 1).
  */
  function DaysBeforeYear(y: int): int
    decreases if y >= 1 then y - 1 else 1 - y
  {
    if y == 1 then 0
    else if y > 1 then DaysBeforeYear(y - 1) + YearLength(y - 1)
    else DaysBeforeYear(y + 1) - YearLength(y)
  }

  /** Days from January 1st of year `y` to the first day of month `m` (m = 13: the next year). */
  function DaysBeforeMonth(y: int, m: int): int
    requires 1 <= m <= 13
  {
    var common :=
      if m == 1 then 0 else if m == 2 then 31 else if m == 3 then 59
      else if m == 4 then 90 else if m == 5 then 120 else if m == 6 then 151
      else if m == 7 then 181 else if m == 8 then 212 else if m == 9 then 243
      else if m == 10 then 273 else if m == 11 then 304 else if m == 12 then 334
      else 365;
    common + (if m > 2 && IsLeapYear(y) then 1 else 0)
  }

  /** Consecutive integers for consecutive days; 0001-01-01 is day 0. */
  function DayNumber(d: Date): int
    requires ValidDate(d)
  {
    DaysBeforeYear(d.year) + DaysBeforeMonth(d.year, d.month) + d.day - 1
  }

  /**
    date-fns `isBefore` on two local midnights: the calendar order, year first
    (`BeforeMatchesDayNumber` shows it is the order of the underlying timestamps).
  */
  predicate Before(a: Date, b: Date) {
    a.year < b.year
    || (a.year == b.year && (a.month < b.month || (a.month == b.month && a.day < b.day)))
  }

  /** date-fns `differenceInDays(later, earlier)`: whole days between two local midnights. */
  function DifferenceInDays(later: Date, earlier: Date): int
    requires ValidDate(later) && ValidDate(earlier)
  {
    DayNumber(later) - DayNumber(earlier)
  }

  /**
    date-fns `addYears` (implemented by `addMonths`): move the year and clamp the
    day to the length of the target month, so Feb 29 becomes Feb 28 in a common year.
  */
  function AddYears(d: Date, n: int): (r: Date)
    requires ValidDate(d)
    ensures ValidDate(r)
    ensures r.year == d.year + n && r.month == d.month
    ensures !IsLeapDay(d) ==> r.day == d.day
    ensures IsLeapDay(d) ==> r.day == (if IsLeapYear(d.year + n) then 29 else 28)
  {
    var last := DaysInMonth(d.year + n, d.month);
    Date(d.year + n, d.month, if d.day <= last then d.day else last)
  }

  /** Three-way comparison, as date-fns `compareAsc`. */
  function CompareAsc(a: Date, b: Date): int
    requires ValidDate(a) && ValidDate(b)
  {
    if Before(a, b) then -1 else if Before(b, a) then 1 else 0
  }

  /**
    Three-way comparison of the month and day only: date-fns moves both dates to
    the leap year 1584 before comparing them, which keeps every (month, day) pair.
  */
  function CompareMonthDay(a: Date, b: Date): int {
    if a.month < b.month || (a.month == b.month && a.day < b.day) then -1
    else if a.month == b.month && a.day == b.day then 0
    else 1
  }

  /**
    date-fns `differenceInYears(left, right)`: the calendar-year difference, less one
    when the last calendar year is not complete; the sign follows `compareAsc`, so
    the count truncates toward zero when `left` is earlier than `right`.
  */
  function DifferenceInYears(left: Date, right: Date): int
    requires ValidDate(left) && ValidDate(right)
  {
    var sign := CompareAsc(left, right);
    var difference := if left.year >= right.year then left.year - right.year else right.year - left.year;
    var lastYearNotFull := CompareMonthDay(left, right) == -sign;
    sign * (difference - (if lastYearNotFull then 1 else 0))
  }

  // ---------------------------------------------------------------------------
  // Day numbers agree with the calendar order.
  // ---------------------------------------------------------------------------

  /** Consecutive New Years lie one year length apart. */
  lemma DaysBeforeNextYear(y: int)
    ensures DaysBeforeYear(y + 1) == DaysBeforeYear(y) + YearLength(y)
  {
  }

  /** New Years are at least 365 days apart per year in between. */
  lemma {:induction false} DaysBeforeYearGrows(y1: int, y2: int)
    requires y1 <= y2
    ensures DaysBeforeYear(y1) + 365 * (y2 - y1) <= DaysBeforeYear(y2)
    decreases y2 - y1
  {
    if y1 < y2 {
      DaysBeforeYearGrows(y1, y2 - 1);
      DaysBeforeNextYear(y2 - 1);
    }
  }

  /** Every day of year `y` has a day number in [New Year of y, New Year of y+1). */
  lemma DayNumberWithinYear(d: Date)
    requires ValidDate(d)
    ensures DaysBeforeYear(d.year) <= DayNumber(d) < DaysBeforeYear(d.year + 1)
  {
  }

  /** The calendar order is the order of day numbers, so of the timestamps `isBefore` compares. */
  lemma BeforeMatchesDayNumber(a: Date, b: Date)
    requires ValidDate(a) && ValidDate(b)
    ensures Before(a, b) <==> DayNumber(a) < DayNumber(b)
  {
    DayNumberWithinYear(a);
    DayNumberWithinYear(b);
    if a.year < b.year {
      DaysBeforeYearGrows(a.year + 1, b.year);
    } else if b.year < a.year {
      DaysBeforeYearGrows(b.year + 1, a.year);
    } else if a.month < b.month {
      assert DaysBeforeMonth(a.year, a.month + 1) <= DaysBeforeMonth(a.year, b.month);
    } else if b.month < a.month {
      assert DaysBeforeMonth(a.year, b.month + 1) <= DaysBeforeMonth(a.year, a.month);
    }
  }

  /** Two valid dates with the same day number are the same date. */
  lemma DayNumberInjective(a: Date, b: Date)
    requires ValidDate(a) && ValidDate(b)
    ensures DayNumber(a) == DayNumber(b) <==> a == b
  {
    BeforeMatchesDayNumber(a, b);
    BeforeMatchesDayNumber(b, a);
  }

  // ---------------------------------------------------------------------------
  // Completed years and anniversaries.
  // ---------------------------------------------------------------------------

  /**
    For a hire date not on Feb 29 and a reference date on or after it, the year
    count brackets the reference date between two anniversaries:
    addYears(hire, n) <= today < addYears(hire, n + 1).
  */
  lemma CompletedYearsBracket(hire: Date, today: Date)
    requires ValidDate(hire) && ValidDate(today) && !IsLeapDay(hire)
    requires !Before(today, hire)
    ensures var n := DifferenceInYears(today, hire);
      && n >= 0
      && !Before(today, AddYears(hire, n))
      && Before(today, AddYears(hire, n + 1))
  {
  }

  /** No later anniversary has been reached: the year count is the largest such n. */
  lemma CompletedYearsIsLargest(hire: Date, today: Date, k: int)
    requires ValidDate(hire) && ValidDate(today) && !IsLeapDay(hire)
    requires !Before(today, hire)
    requires !Before(today, AddYears(hire, k))
    ensures k <= DifferenceInYears(today, hire)
  {
  }
}
