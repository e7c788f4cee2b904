/**
  The previous/next month buttons of the calendar header. The calendar shows
  a month as a pair of a 0-based month index and a year; the buttons step
  that pair and select which of the three date pages the view scrolls to
  (0 for the page on the left, 2 for the page on the right).
 */
module MonthNavigation {

  /** A shown month: `month` is a 0-based index (0 is January). */
  datatype MonthYear = MonthYear(month: int, year: int)

  predicate ValidMonthYear(my: MonthYear) {
    0 <= my.month <= 11
  }

  /** The number of months from January of year 0 to the shown month. */
  function MonthOrdinal(my: MonthYear): int {
    my.year * 12 + my.month
  }

  /** The pair computed by the "previous" button: index 0 wraps to 11 of the year before. */
  function PreviousMonth(my: MonthYear): (prev: MonthYear)
    ensures ValidMonthYear(my) ==> ValidMonthYear(prev) && MonthOrdinal(prev) == MonthOrdinal(my) - 1
  {
    var newIndex := my.month - 1;
    var isPreviousYear := newIndex < 0;
    var monthIndex := if isPreviousYear then 11 else newIndex;
    var updatedYear := if isPreviousYear then my.year - 1 else my.year;
    MonthYear(monthIndex, updatedYear)
  }

  /** The pair computed by the "next" button: index 11 wraps to 0 of the year after. */
  function NextMonth(my: MonthYear): (next: MonthYear)
    ensures ValidMonthYear(my) ==> ValidMonthYear(next) && MonthOrdinal(next) == MonthOrdinal(my) + 1
  {
    var newIndex := my.month + 1;
    var isNewYear := newIndex > 11;
    var monthIndex := if isNewYear then 0 else newIndex;
    var updatedYear := if isNewYear then my.year + 1 else my.year;
    MonthYear(monthIndex, updatedYear)
  }

  /** A valid month is determined by its ordinal. */
  lemma MonthOrdinalInjective(a: MonthYear, b: MonthYear)
    requires ValidMonthYear(a) && ValidMonthYear(b)
    requires MonthOrdinal(a) == MonthOrdinal(b)
    ensures a == b
  {
  }

  /** Going back one month and then forward one month returns to the start, and vice versa. */
  lemma StepsUndoEachOther(my: MonthYear)
    requires ValidMonthYear(my)
    ensures NextMonth(PreviousMonth(my)) == my
    ensures PreviousMonth(NextMonth(my)) == my
  {
    MonthOrdinalInjective(NextMonth(PreviousMonth(my)), my);
    MonthOrdinalInjective(PreviousMonth(NextMonth(my)), my);
  }

  /** The wrap-around cases at the ends of a year, and the plain cases inside it. */
  lemma StepCases(my: MonthYear)
    requires ValidMonthYear(my)
    ensures my.month == 0 ==> PreviousMonth(my) == MonthYear(11, my.year - 1)
    ensures my.month > 0 ==> PreviousMonth(my) == MonthYear(my.month - 1, my.year)
    ensures my.month == 11 ==> NextMonth(my) == MonthYear(0, my.year + 1)
    ensures my.month < 11 ==> NextMonth(my) == MonthYear(my.month + 1, my.year)
  {
  }

  /**
    The calendar view's navigation state: the shown month (the model's
    month/year pair) and the date page the view scrolls to (1 is the centre).
   */
  class CustomCalendar {
    var monthYear: MonthYear
    var activeDatesPage: int

    constructor(monthYear: MonthYear)
      ensures this.monthYear == monthYear && activeDatesPage == 1
    {
      this.monthYear := monthYear;
      activeDatesPage := 1;
    }

    /** The "previous" button: shows the preceding month and scrolls to the left page. */
    method ShowPreviousMonth()
      modifies this
      ensures monthYear == PreviousMonth(old(monthYear))
      ensures activeDatesPage == 0
    {
      monthYear := PreviousMonth(monthYear);
      activeDatesPage := 0;
    }

    /** The "next" button: shows the following month and scrolls to the right page. */
    method ShowNextMonth()
      modifies this
      ensures monthYear == NextMonth(old(monthYear))
      ensures activeDatesPage == 2
    {
      monthYear := NextMonth(monthYear);
      activeDatesPage := 2;
    }
  }
}
