/**
  The proleptic Gregorian calendar that stands in for Foundation's
  `Calendar(identifier: .gregorian)`: the leap-year rule of ISO 8601:2004
  section 3.2.1, month lengths, the lenient reading of out-of-range month
  numbers that `DateComponents` gets from the calendar, and a running day
  number from which day counts and weekdays are derived.

  Years are astronomical (year 0 precedes year 1); months run 1..12.
 */
module GregorianCalendar {

  /** A calendar day as the components year, month and day of month. */
  datatype CivilDate = CivilDate(year: int, month: int, day: int)

  /** A month of a year, with the month in 1..12 once normalised. */
  datatype YearMonth = YearMonth(year: int, month: int)

  /** Leap years: divisible by 4, except centuries not divisible by 400. */
  predicate IsLeapYear(year: int) {
    year % 4 == 0 && (year % 100 != 0 || year % 400 == 0)
  }

  /** The number of days of a month (the reference table). */
  function MonthLength(month: int, year: int): int
    requires 1 <= month <= 12
  {
    if month == 2 then (if IsLeapYear(year) then 29 else 28)
    else if month == 4 || month == 6 || month == 9 || month == 11 then 30
    else 31
  }

  /**
    The month that the components (month, year) denote when `month` may lie
    outside 1..12: month 0 is December of the year before, month 13 is
    January of the year after, and so on.
   */
  function Normalize(month: int, year: int): (ym: YearMonth)
    ensures 1 <= ym.month <= 12
    ensures ym.year * 12 + ym.month == year * 12 + month
  {
    YearMonth(year + (month - 1) / 12, (month - 1) % 12 + 1)
  }

  /** The number of days of the month that the components (month, year) denote. */
  function DaysInMonth(month: int, year: int): (n: int)
    ensures 28 <= n <= 31
  {
    var ym := Normalize(month, year);
    MonthLength(ym.month, ym.year)
  }

  /** Days in the years before `year`, counted from year 1. */
  function DaysBeforeYear(year: int): int {
    365 * (year - 1) + (year - 1) / 4 - (year - 1) / 100 + (year - 1) / 400
  }

  /** Days in the months of `year` before `month` (cumulative table). */
  function DaysBeforeMonth(month: int, year: int): int
    requires 1 <= month <= 12
  {
    var common :=
      [0, 31, 59, 90, 120, 151, 181, 212, 243, 273, 304, 334][month - 1];
    if month > 2 && IsLeapYear(year) then common + 1 else common
  }

  /**
    The running day number of a date: 1 January of year 1 is day 1. The day
    of month may lie outside the month; it then counts on into the following
    months (or back into the preceding ones), as a lenient calendar does.
   */
  function DayNumber(date: CivilDate): int
    requires 1 <= date.month <= 12
  {
    DaysBeforeYear(date.year) + DaysBeforeMonth(date.month, date.year) + date.day
  }

  /**
    The weekday of a date as Foundation numbers it in the Gregorian
    calendar: Sunday is 1, Monday 2, ..., Saturday 7 (day 1 was a Monday).
   */
  function WeekdayNumber(date: CivilDate): (weekday: int)
    requires 1 <= date.month <= 12
    ensures 1 <= weekday <= 7
  {
    DayNumber(date) % 7 + 1
  }

  /** Two dates whose weekdays are known: 1 January 2000 (a Saturday) and 15 October 2026 (a Thursday). */
  lemma KnownWeekdays()
    ensures WeekdayNumber(CivilDate(2000, 1, 1)) == 7
    ensures WeekdayNumber(CivilDate(2026, 10, 15)) == 5
  {
  }

  /** The weekday advances by one each day, Saturday (7) wrapping to Sunday (1). */
  lemma NextWeekday(date: CivilDate)
    requires 1 <= date.month <= 12
    ensures WeekdayNumber(date.(day := date.day + 1)) == WeekdayNumber(date) % 7 + 1
  {
    var x := DayNumber(date);
    NextDayNumber(date);
    ModSeven(x, 1);
  }

  /** Seven days later it is the same weekday. */
  lemma WeekOfWeekdays(date: CivilDate)
    requires 1 <= date.month <= 12
    ensures WeekdayNumber(date.(day := date.day + 7)) == WeekdayNumber(date)
  {
    var x := DayNumber(date);
    assert DayNumber(date.(day := date.day + 7)) == x + 7;
    ModSeven(x, 7);
  }

  lemma ModSeven(x: int, n: int)
    ensures (x + n) % 7 == (x % 7 + n) % 7
  {
  }

  /** `n` days after a date, the weekday has advanced by `n`, counted modulo 7. */
  lemma WeekdayAfter(date: CivilDate, n: int)
    requires 1 <= date.month <= 12
    ensures WeekdayNumber(date.(day := date.day + n)) - 1 == (WeekdayNumber(date) - 1 + n) % 7
  {
    var x := DayNumber(date);
    assert DayNumber(date.(day := date.day + n)) == x + n;
    ModSeven(x, n);
  }

  /** Stepping from `year - 1` to `year` raises `year / d` by one exactly at multiples of `d`. */
  lemma FloorStep4(year: int)
    ensures year / 4 - (year - 1) / 4 == if year % 4 == 0 then 1 else 0
  {
    var q, r := (year - 1) / 4, (year - 1) % 4;
    assert year == 4 * q + r + 1;
    if r == 3 {
      assert year == 4 * (q + 1) + 0;
    } else {
      assert year == 4 * q + (r + 1);
    }
  }

  lemma FloorStep100(year: int)
    ensures year / 100 - (year - 1) / 100 == if year % 100 == 0 then 1 else 0
  {
    var q, r := (year - 1) / 100, (year - 1) % 100;
    assert year == 100 * q + r + 1;
    if r == 99 {
      assert year == 100 * (q + 1) + 0;
    } else {
      assert year == 100 * q + (r + 1);
    }
  }

  lemma FloorStep400(year: int)
    ensures year / 400 - (year - 1) / 400 == if year % 400 == 0 then 1 else 0
  {
    var q, r := (year - 1) / 400, (year - 1) % 400;
    assert year == 400 * q + r + 1;
    if r == 399 {
      assert year == 400 * (q + 1) + 0;
    } else {
      assert year == 400 * q + (r + 1);
    }
  }

  lemma CenturyDivisibility(year: int)
    ensures year % 400 == 0 ==> year % 100 == 0
    ensures year % 100 == 0 ==> year % 4 == 0
  {
    var m, r := year / 100, year % 100;
    var p, s := year / 4, year % 4;
    if year % 400 == 0 {
      var q := year / 400;
      assert year == 400 * q;
      var t := 4 * q - m;
      assert 100 * t == r;
    }
    if year % 100 == 0 {
      assert year == 100 * m;
      var t := 25 * m - p;
      assert 4 * t == s;
    }
  }

  /** A year has 366 days exactly when it is a leap year, 365 otherwise. */
  lemma YearLength(year: int)
    ensures DaysBeforeYear(year + 1) - DaysBeforeYear(year)
            == if IsLeapYear(year) then 366 else 365
  {
    FloorStep4(year);
    FloorStep100(year);
    FloorStep400(year);
    CenturyDivisibility(year);
  }

  /**
    The day after the last day of a month is the first day of the next
    month: the cumulative table and the year length agree with the
    month-length table.
   */
  lemma MonthLengthBetweenFirsts(ym: YearMonth)
    requires 1 <= ym.month <= 12
    ensures var next := Normalize(ym.month + 1, ym.year);
            DayNumber(CivilDate(next.year, next.month, 1))
            == DayNumber(CivilDate(ym.year, ym.month, 1)) + MonthLength(ym.month, ym.year)
  {
    var next := Normalize(ym.month + 1, ym.year);
    if ym.month == 12 {
      assert next == YearMonth(ym.year + 1, 1);
      YearLength(ym.year);
    } else {
      assert next == YearMonth(ym.year, ym.month + 1);
    }
  }

  /** Consecutive days have consecutive day numbers, also across month ends. */
  lemma NextDayNumber(date: CivilDate)
    requires 1 <= date.month <= 12
    ensures DayNumber(date.(day := date.day + 1)) == DayNumber(date) + 1
  {
  }

  /** Two days of the same month have the same day number only if they are the same day. */
  lemma DayNumberInjective(a: CivilDate, b: CivilDate)
    requires 1 <= a.month <= 12 && a.year == b.year && a.month == b.month
    ensures DayNumber(a) == DayNumber(b) <==> a.day == b.day
  {
  }
}
