/**
  The month grid of the custom calendar: the cells of a month (leading
  placeholders so that day 1 sits under its weekday, then one cell per day)
  and their arrangement into rows of seven.
 */
module CalendarGrid {
  import opened Wrappers
  import opened Identifiers
  import opened GregorianCalendar

  // ---------------------------------------------------------------------
  // Weekdays

  /** The weekdays, numbered as Foundation's Gregorian calendar numbers them. */
  datatype Weekday = Sunday | Monday | Tuesday | Wednesday | Thursday | Friday | Saturday

  /** The raw value: Sunday is 1, Saturday is 7. */
  function RawValue(w: Weekday): (raw: int)
    ensures 1 <= raw <= 7
  {
    match w
    case Sunday => 1
    case Monday => 2
    case Tuesday => 3
    case Wednesday => 4
    case Thursday => 5
    case Friday => 6
    case Saturday => 7
  }

  /** `Weekday(rawValue:)`: defined exactly for 1..7, and inverse to `RawValue`. */
  function WeekdayFromRawValue(raw: int): (w: Option<Weekday>)
    ensures w.Some? <==> 1 <= raw <= 7
    ensures w.Some? ==> RawValue(w.value) == raw
  {
    if raw == 1 then Some(Sunday)
    else if raw == 2 then Some(Monday)
    else if raw == 3 then Some(Tuesday)
    else if raw == 4 then Some(Wednesday)
    else if raw == 5 then Some(Thursday)
    else if raw == 6 then Some(Friday)
    else if raw == 7 then Some(Saturday)
    else None
  }

  lemma RawValueInjective(a: Weekday, b: Weekday)
    ensures RawValue(a) == RawValue(b) <==> a == b
  {
  }

  lemma RawValueRoundTrip(w: Weekday)
    ensures WeekdayFromRawValue(RawValue(w)) == Some(w)
  {
  }

  /** The English name of a weekday: a capitalised word ending in "day". */
  function WeekdayDescription(w: Weekday): (name: string)
    ensures |name| >= 6 && name[|name| - 3..] == "day"
    ensures 'A' <= name[0] <= 'Z'
  {
    match w
    case Sunday => "Sunday"
    case Monday => "Monday"
    case Tuesday => "Tuesday"
    case Wednesday => "Wednesday"
    case Thursday => "Thursday"
    case Friday => "Friday"
    case Saturday => "Saturday"
  }

  /** No two weekdays share a name. */
  lemma WeekdayDescriptionsDistinct(a: Weekday, b: Weekday)
    ensures WeekdayDescription(a) == WeekdayDescription(b) <==> a == b
  {
  }

  /**
    `startOfDayInCurrentWeek`: the weekday of the given day of the month
    (month, year). Components outside their ranges are read leniently: the
    month is normalised and the day counts on across month ends.
   */
  function StartOfDayInCurrentWeek(day: int := 1, month: int, year: int): (w: Weekday)
    ensures var ym := Normalize(month, year);
            RawValue(w) == WeekdayNumber(CivilDate(ym.year, ym.month, day))
  {
    var ym := Normalize(month, year);
    var weekday := WeekdayNumber(CivilDate(ym.year, ym.month, day));
    WeekdayFromRawValue(weekday).value
  }

  /** The day after a day falls on the next weekday; a week later it is the same weekday. */
  lemma {:induction false} WeekdayProgression(day: int, month: int, year: int)
    ensures RawValue(StartOfDayInCurrentWeek(day + 1, month, year))
            == RawValue(StartOfDayInCurrentWeek(day, month, year)) % 7 + 1
    ensures StartOfDayInCurrentWeek(day + 7, month, year)
            == StartOfDayInCurrentWeek(day, month, year)
  {
    var ym := Normalize(month, year);
    var date := CivilDate(ym.year, ym.month, day);
    NextWeekday(date);
    WeekOfWeekdays(date);
    RawValueInjective(StartOfDayInCurrentWeek(day + 7, month, year), StartOfDayInCurrentWeek(day, month, year));
  }

  // ---------------------------------------------------------------------
  // Cells and rows

  /** The highlight state of a row of the grid. */
  datatype RowState = Default | Rejected | Warning

  /**
    A cell of the grid. A placeholder has no date and number -1; a day cell
    has the date it shows and its day of month.
   */
  datatype DayModel = DayModel(id: Uuid, date: Option<CivilDate>, number: int, isSelected: bool)

  /** `DayModel(number: -1)`: a blank cell with a fresh identifier. */
  function Placeholder(id: Uuid): (blank: DayModel)
    ensures blank.id == id && blank.date.None? && blank.number == -1 && !blank.isSelected
  {
    DayModel(id, None, -1, false)
  }

  /** `setSelected`: the same cell with the given selection flag. */
  function SetSelected(day: DayModel, isSelected: bool): (r: DayModel)
    ensures r.id == day.id && r.date == day.date && r.number == day.number && r.isSelected == isSelected
  {
    DayModel(day.id, day.date, day.number, isSelected)
  }

  /** A row of the grid. */
  datatype DayRowModel = DayRowModel(rows: seq<DayModel>, state: RowState)

  /** The selected cells of a row, in order (the `filter` of `isRowActive`). */
  function SelectedCells(cells: seq<DayModel>): (selected: seq<DayModel>)
    ensures |selected| <= |cells|
    ensures forall c :: c in selected ==> c in cells && c.isSelected
    ensures selected == [] <==> forall k :: 0 <= k < |cells| ==> !cells[k].isSelected
  {
    if cells == [] then []
    else (if cells[0].isSelected then [cells[0]] else []) + SelectedCells(cells[1..])
  }

  /** `isRowActive`: some cell of the row is selected. */
  function IsRowActive(row: DayRowModel): (active: bool)
    ensures active <==> exists k :: 0 <= k < |row.rows| && row.rows[k].isSelected
  {
    SelectedCells(row.rows) != []
  }

  // ---------------------------------------------------------------------
  // The cells of a month

  /**
    `dateRange`: the upper end n of the day range 1...n of a month, computed
    as the number of days from the first of the month to the first of the
    next month. It is the length of the month in the Gregorian table.
   */
  function DateRange(month: int, year: int): (n: int)
    ensures n == DaysInMonth(month, year)
    ensures 28 <= n <= 31
  {
    var start := Normalize(month, year);
    var end := Normalize(month + 1, year);
    MonthLengthBetweenFirsts(start);
    assert end == Normalize(start.month + 1, start.year);
    DayNumber(CivilDate(end.year, end.month, 1)) - DayNumber(CivilDate(start.year, start.month, 1))
  }

  /** February has 29 days exactly in leap years, and 28 otherwise. */
  lemma FebruaryLength(year: int)
    ensures DateRange(2, year) == 29 <==> IsLeapYear(year)
    ensures DateRange(2, year) == 28 <==> !IsLeapYear(year)
  {
  }

  /**
    The number of placeholders in front of day 1: the weekday number of the
    first of the month minus one, which is at most 6 (Saturday).
   */
  function FirstWeekdayOffset(month: int, year: int): (offset: nat)
    ensures offset <= 6
  {
    var ym := Normalize(month, year);
    WeekdayNumber(CivilDate(ym.year, ym.month, 1)) - 1
  }

  /**
    The cells of a month `ym` of `n` days whose first day stands `offset`
    columns in, the k-th created with identifier `newId(k)`: the
    placeholders, then one cell per day, selected when its date is today.
   */
  function MonthCells(offset: nat, n: nat, ym: YearMonth, today: CivilDate, newId: IdSource): seq<DayModel> {
    seq(offset + n, (k: int) requires 0 <= k < offset + n =>
      if k < offset then Placeholder(newId(k))
      else
        var date := CivilDate(ym.year, ym.month, k - offset + 1);
        DayModel(newId(k), Some(date), k - offset + 1, date == today))
  }

  /**
    The cells `generateDays` produces for the month (month, year): its
    length is taken from the month-length table, which `DateRange` agrees
    with.
   */
  function MonthDays(month: int, year: int, today: CivilDate, newId: IdSource): seq<DayModel> {
    MonthCells(FirstWeekdayOffset(month, year), DaysInMonth(month, year), Normalize(month, year), today, newId)
  }

  /**
    `generateDays`: appends a placeholder per weekday before the first of
    the month, then a cell per day of `dateRange`, selected when its date is
    today.
   */
  method GenerateDays(month: int, year: int, today: CivilDate, newId: IdSource)
    returns (days: seq<DayModel>)
    ensures days == MonthDays(month, year, today, newId)
  {
    var start := Normalize(month, year);
    var range := DateRange(month, year);
    var dayStartInWeek := WeekdayNumber(CivilDate(start.year, start.month, 1));
    ghost var cells := MonthDays(month, year, today, newId);

    days := [];
    for w := 1 to dayStartInWeek
      invariant |days| == w - 1
      invariant forall k :: 0 <= k < |days| ==> days[k] == cells[k]
    {
      days := days + [Placeholder(newId(|days|))];
    }

    for i := 1 to range + 1
      invariant |days| == dayStartInWeek - 1 + i - 1
      invariant forall k :: 0 <= k < |days| ==> days[k] == cells[k]
    {
      var date := CivilDate(start.year, start.month, i);
      var isSelected := date == today;
      days := days + [DayModel(newId(|days|), Some(date), i, isSelected)];
    }
  }

  lemma CellsLayout(offset: nat, n: nat, ym: YearMonth, today: CivilDate, newId: IdSource)
    ensures var days := MonthCells(offset, n, ym, today, newId);
            && |days| == offset + n
            && (forall k :: 0 <= k < offset ==>
                  days[k].number == -1 && days[k].date.None? && !days[k].isSelected)
            && (forall k :: offset <= k < |days| ==>
                  && days[k].number == k - offset + 1
                  && days[k].date == Some(CivilDate(ym.year, ym.month, days[k].number))
                  && (days[k].isSelected <==> days[k].date == Some(today)))
            && (forall k :: 0 <= k < |days| ==> days[k].id == newId(k))
  {
    var days := MonthCells(offset, n, ym, today, newId);
    forall k | 0 <= k < offset
      ensures days[k] == Placeholder(newId(k))
    {
    }
  }

  /**
    The layout of the cells of a month: between 0 and 6 placeholders (number
    -1, no date, not selected), then the days 1..n of the month in ascending
    order, each dated in its month and selected exactly when it is today.
   */
  lemma MonthDaysLayout(month: int, year: int, today: CivilDate, newId: IdSource)
    ensures var days := MonthDays(month, year, today, newId);
            var offset := FirstWeekdayOffset(month, year);
            var ym := Normalize(month, year);
            && 0 <= offset <= 6
            && |days| == offset + DaysInMonth(month, year) <= 37
            && (forall k :: 0 <= k < offset ==>
                  days[k].number == -1 && days[k].date.None? && !days[k].isSelected)
            && (forall k :: offset <= k < |days| ==>
                  && days[k].number == k - offset + 1
                  && days[k].date == Some(CivilDate(ym.year, ym.month, days[k].number))
                  && (days[k].isSelected <==> days[k].date == Some(today)))
            && (forall k :: 0 <= k < |days| ==> days[k].id == newId(k))
  {
    CellsLayout(FirstWeekdayOffset(month, year), DaysInMonth(month, year), Normalize(month, year), today, newId);
  }

  /** The k-th cell of a month, read off the comprehension. */
  lemma CellAt(offset: nat, n: nat, ym: YearMonth, today: CivilDate, newId: IdSource, k: int)
    requires 0 <= k < offset + n
    ensures var days := MonthCells(offset, n, ym, today, newId);
            && |days| == offset + n
            && (k < offset ==> days[k] == Placeholder(newId(k)))
            && (k >= offset ==>
                  days[k] == DayModel(newId(k), Some(CivilDate(ym.year, ym.month, k - offset + 1)), k - offset + 1,
                                      CivilDate(ym.year, ym.month, k - offset + 1) == today))
  {
  }

  /** Some cell of `days` shows `date`. */
  predicate Shows(days: seq<DayModel>, date: CivilDate) {
    exists k :: 0 <= k < |days| && days[k].date == Some(date)
  }

  lemma CellsCoverDays(offset: nat, n: nat, ym: YearMonth, today: CivilDate, newId: IdSource)
    ensures forall d :: 1 <= d <= n ==> Shows(MonthCells(offset, n, ym, today, newId), CivilDate(ym.year, ym.month, d))
  {
    var days := MonthCells(offset, n, ym, today, newId);
    forall d | 1 <= d <= n
      ensures Shows(days, CivilDate(ym.year, ym.month, d))
    {
      var k := offset + d - 1;
      CellAt(offset, n, ym, today, newId, k);
      assert 0 <= k < |days| && days[k].date == Some(CivilDate(ym.year, ym.month, d));
    }
  }

  lemma CellsDatesDistinct(offset: nat, n: nat, ym: YearMonth, today: CivilDate, newId: IdSource)
    ensures var days := MonthCells(offset, n, ym, today, newId);
            forall a, b :: (0 <= a < |days| && 0 <= b < |days| && days[a].date.Some?
              && days[a].date == days[b].date) ==> a == b
  {
    var days := MonthCells(offset, n, ym, today, newId);
    forall a, b | 0 <= a < |days| && 0 <= b < |days| && days[a].date.Some? && days[a].date == days[b].date
      ensures a == b
    {
      CellAt(offset, n, ym, today, newId, a);
      CellAt(offset, n, ym, today, newId, b);
    }
  }

  lemma CellsAscending(offset: nat, n: nat, ym: YearMonth, today: CivilDate, newId: IdSource)
    ensures var days := MonthCells(offset, n, ym, today, newId);
            forall a, b :: 0 <= a < b < |days| && days[a].date.Some? ==>
              days[b].date.Some? && days[a].number < days[b].number
  {
    var days := MonthCells(offset, n, ym, today, newId);
    forall a, b | 0 <= a < b < |days| && days[a].date.Some?
      ensures days[b].date.Some? && days[a].number < days[b].number
    {
      CellAt(offset, n, ym, today, newId, a);
      CellAt(offset, n, ym, today, newId, b);
    }
  }

  lemma CellsCoverMonth(offset: nat, n: nat, ym: YearMonth, today: CivilDate, newId: IdSource)
    ensures var days := MonthCells(offset, n, ym, today, newId);
            && (forall d :: 1 <= d <= n ==> Shows(days, CivilDate(ym.year, ym.month, d)))
            && (forall a, b :: (0 <= a < |days| && 0 <= b < |days| && days[a].date.Some?
                  && days[a].date == days[b].date) ==> a == b)
            && (forall a, b :: 0 <= a < b < |days| && days[a].date.Some? ==>
                  days[b].date.Some? && days[a].number < days[b].number)
  {
    CellsCoverDays(offset, n, ym, today, newId);
    CellsDatesDistinct(offset, n, ym, today, newId);
    CellsAscending(offset, n, ym, today, newId);
  }

  lemma CellsSelectToday(offset: nat, n: nat, ym: YearMonth, today: CivilDate, newId: IdSource)
    ensures var days := MonthCells(offset, n, ym, today, newId);
            && (forall a, b :: (0 <= a < |days| && 0 <= b < |days|
                  && days[a].isSelected && days[b].isSelected) ==> a == b)
            && ((exists k :: 0 <= k < |days| && days[k].isSelected) <==>
                  today.year == ym.year && today.month == ym.month && 1 <= today.day <= n)
  {
    var days := MonthCells(offset, n, ym, today, newId);
    CellsLayout(offset, n, ym, today, newId);
    if today.year == ym.year && today.month == ym.month && 1 <= today.day <= n {
      assert days[offset + today.day - 1].isSelected;
    }
  }

  /**
    Every day of the month has exactly one cell, and the dated cells appear
    in strictly ascending order of their day.
   */
  lemma MonthDaysCoverMonth(month: int, year: int, today: CivilDate, newId: IdSource)
    ensures var days := MonthDays(month, year, today, newId);
            var ym := Normalize(month, year);
            && (forall d :: 1 <= d <= DaysInMonth(month, year) ==> Shows(days, CivilDate(ym.year, ym.month, d)))
            && (forall a, b :: (0 <= a < |days| && 0 <= b < |days| && days[a].date.Some?
                  && days[a].date == days[b].date) ==> a == b)
            && (forall a, b :: 0 <= a < b < |days| && days[a].date.Some? ==>
                  days[b].date.Some? && days[a].number < days[b].number)
  {
    var offset, n, ym := FirstWeekdayOffset(month, year), DaysInMonth(month, year), Normalize(month, year);
    assert MonthDays(month, year, today, newId) == MonthCells(offset, n, ym, today, newId);
    CellsCoverMonth(offset, n, ym, today, newId);
  }

  /** At most one cell is selected, and one is exactly when today lies in the month. */
  lemma MonthDaysSelectToday(month: int, year: int, today: CivilDate, newId: IdSource)
    ensures var days := MonthDays(month, year, today, newId);
            var ym := Normalize(month, year);
            && (forall a, b :: (0 <= a < |days| && 0 <= b < |days|
                  && days[a].isSelected && days[b].isSelected) ==> a == b)
            && ((exists k :: 0 <= k < |days| && days[k].isSelected) <==>
                  today.year == ym.year && today.month == ym.month
                  && 1 <= today.day <= DaysInMonth(month, year))
  {
    CellsSelectToday(FirstWeekdayOffset(month, year), DaysInMonth(month, year), Normalize(month, year), today, newId);
  }

  /**
    Day `d` of the month stands in column (offset + d - 1) mod 7 of a
    Sunday-first week, where offset is the column of day 1: the column of
    its weekday.
   */
  lemma WeekdayColumn(month: int, year: int, d: int)
    ensures RawValue(StartOfDayInCurrentWeek(d, month, year)) - 1 == (FirstWeekdayOffset(month, year) + d - 1) % 7
  {
    var ym := Normalize(month, year);
    var first := CivilDate(ym.year, ym.month, 1);
    WeekdayAfter(first, d - 1);
    assert first.(day := 1 + (d - 1)) == CivilDate(ym.year, ym.month, d);
  }

  // ---------------------------------------------------------------------
  // Rows of seven

  /** `count` placeholders whose identifiers are `newId(base)`, `newId(base + 1)`, ... */
  function Padding(newId: IdSource, base: nat, count: nat): (pad: seq<DayModel>)
    ensures |pad| == count
  {
    seq(count, (j: int) requires 0 <= j < count => Placeholder(newId(base + j)))
  }

  /** The placeholders that complete the last row of `n` cells. */
  function PadCount(n: nat): nat {
    (7 - n % 7) % 7
  }

  /**
    The rows `collectDaysPerRow` forms from `days`, with at most `rowsLeft`
    rows: seven cells at a time; a last, shorter run is filled up with
    placeholders whose identifiers start at `newId(base)`.
   */
  function Chunk(days: seq<DayModel>, newId: IdSource, base: nat, rowsLeft: nat): seq<DayRowModel>
    decreases rowsLeft
  {
    if rowsLeft == 0 || |days| == 0 then []
    else if |days| >= 7 then
      [DayRowModel(days[..7], Default)] + Chunk(days[7..], newId, base, rowsLeft - 1)
    else
      [DayRowModel(days + Padding(newId, base, 7 - |days|), Default)]
  }

  /** The cells of a list of rows, row after row. */
  function Flatten(rows: seq<DayRowModel>): seq<DayModel> {
    if rows == [] then [] else rows[0].rows + Flatten(rows[1..])
  }

  /** Every row has seven cells. */
  ghost predicate FullRows(rows: seq<DayRowModel>) {
    forall i :: 0 <= i < |rows| ==> |rows[i].rows| == 7
  }

  /** The rows formed from the cells of a month of shape (offset, n). */
  function CellsGrid(offset: nat, n: nat, ym: YearMonth, today: CivilDate, newId: IdSource): seq<DayRowModel> {
    Chunk(MonthCells(offset, n, ym, today, newId), newId, offset + n, 6)
  }

  /** The grid of a month: the cells of `MonthDays` in at most six rows. */
  function MonthGrid(month: int, year: int, today: CivilDate, newId: IdSource): seq<DayRowModel> {
    CellsGrid(FirstWeekdayOffset(month, year), DaysInMonth(month, year), Normalize(month, year), today, newId)
  }

  lemma {:induction false} ChunkShape(days: seq<DayModel>, newId: IdSource, base: nat, rowsLeft: nat)
    ensures var rows := Chunk(days, newId, base, rowsLeft);
            && |rows| <= rowsLeft
            && FullRows(rows)
            && (forall i :: 0 <= i < |rows| ==> rows[i].state == Default)
            && (|days| <= 7 * rowsLeft ==> |rows| == (|days| + 6) / 7)
    decreases rowsLeft
  {
    if rowsLeft > 0 && |days| >= 7 {
      ChunkShape(days[7..], newId, base, rowsLeft - 1);
    }
  }

  lemma PadCountShift(n: nat)
    requires n >= 7
    ensures PadCount(n) == PadCount(n - 7)
  {
    assert n % 7 == (n - 7) % 7;
  }

  lemma PadCountShort(n: nat)
    requires 1 <= n < 7
    ensures PadCount(n) == 7 - n
  {
  }

  lemma {:induction false} ChunkFlatten(days: seq<DayModel>, newId: IdSource, base: nat, rowsLeft: nat)
    requires |days| <= 7 * rowsLeft
    ensures Flatten(Chunk(days, newId, base, rowsLeft)) == days + Padding(newId, base, PadCount(|days|))
    decreases rowsLeft
  {
    var rows := Chunk(days, newId, base, rowsLeft);
    if |days| == 0 {
      assert Padding(newId, base, PadCount(0)) == [];
    } else if |days| >= 7 {
      var tail := Chunk(days[7..], newId, base, rowsLeft - 1);
      var pad := Padding(newId, base, PadCount(|days|));
      assert rows == [DayRowModel(days[..7], Default)] + tail;
      assert rows[1..] == tail;
      ChunkFlatten(days[7..], newId, base, rowsLeft - 1);
      PadCountShift(|days|);
      assert Flatten(tail) == days[7..] + pad;
      assert Flatten(rows) == days[..7] + (days[7..] + pad);
      assert days[..7] + (days[7..] + pad) == (days[..7] + days[7..]) + pad;
      assert days[..7] + days[7..] == days;
    } else {
      PadCountShort(|days|);
      assert rows == [DayRowModel(days + Padding(newId, base, 7 - |days|), Default)];
      assert rows[1..] == [];
    }
  }

  /** The rows of a month shape: four to six full rows in the default state. */
  lemma CellsGridShape(offset: nat, n: nat, ym: YearMonth, today: CivilDate, newId: IdSource)
    requires offset <= 6 && 28 <= n <= 31
    ensures var grid := CellsGrid(offset, n, ym, today, newId);
            && 4 <= |grid| <= 6
            && FullRows(grid)
            && (forall i :: 0 <= i < |grid| ==> grid[i].state == Default)
  {
    var days := MonthCells(offset, n, ym, today, newId);
    assert |days| == offset + n;
    ChunkShape(days, newId, offset + n, 6);
  }

  /** The rows of a month shape read in order: its cells, then the padding. */
  lemma CellsGridFlatten(offset: nat, n: nat, ym: YearMonth, today: CivilDate, newId: IdSource)
    requires offset <= 6 && 28 <= n <= 31
    ensures var days := MonthCells(offset, n, ym, today, newId);
            var cells := Flatten(CellsGrid(offset, n, ym, today, newId));
            && PadCount(|days|) < 7
            && cells == days + Padding(newId, |days|, PadCount(|days|))
            && (forall j :: |days| <= j < |cells| ==> cells[j] == Placeholder(newId(j)))
  {
    var days := MonthCells(offset, n, ym, today, newId);
    var pad := Padding(newId, |days|, PadCount(|days|));
    assert |days| == offset + n;
    ChunkFlatten(days, newId, offset + n, 6);
    forall j | |days| <= j < |days| + |pad|
      ensures (days + pad)[j] == Placeholder(newId(j))
    {
      assert (days + pad)[j] == pad[j - |days|];
    }
  }

  /**
    The cell at row `i`, column `c` of the rows formed from `days` is the
    (7i + c)-th cell, or past the end of `days` a placeholder numbered on
    from `base`.
   */
  lemma {:induction false} ChunkCell(days: seq<DayModel>, newId: IdSource, base: nat, rowsLeft: nat, i: int, c: int)
    requires 0 <= i < |Chunk(days, newId, base, rowsLeft)|
    requires 0 <= c < |Chunk(days, newId, base, rowsLeft)[i].rows|
    ensures 0 <= c < 7
    ensures 7 * i + c < |days| ==> Chunk(days, newId, base, rowsLeft)[i].rows[c] == days[7 * i + c]
    ensures 7 * i + c >= |days| ==>
              Chunk(days, newId, base, rowsLeft)[i].rows[c] == Placeholder(newId(base + 7 * i + c - |days|))
    decreases rowsLeft
  {
    var rows := Chunk(days, newId, base, rowsLeft);
    if |days| >= 7 {
      var tail := Chunk(days[7..], newId, base, rowsLeft - 1);
      assert rows == [DayRowModel(days[..7], Default)] + tail;
      if i > 0 {
        assert rows[i] == tail[i - 1];
        ChunkCell(days[7..], newId, base, rowsLeft - 1, i - 1, c);
      }
    } else {
      assert rows == [DayRowModel(days + Padding(newId, base, 7 - |days|), Default)];
    }
  }

  /** The cell at row `i`, column `c` of the rows of a month shape. */
  lemma CellsGridCell(offset: nat, n: nat, ym: YearMonth, today: CivilDate, newId: IdSource, i: int, c: int)
    requires 0 <= i < |CellsGrid(offset, n, ym, today, newId)|
    requires 0 <= c < |CellsGrid(offset, n, ym, today, newId)[i].rows|
    ensures var cell := CellsGrid(offset, n, ym, today, newId)[i].rows[c];
            && 0 <= c < 7
            && cell.id == newId(7 * i + c)
            && (7 * i + c < offset + n ==> cell == MonthCells(offset, n, ym, today, newId)[7 * i + c])
            && (7 * i + c < offset ==> cell == Placeholder(newId(7 * i + c)))
            && (offset <= 7 * i + c < offset + n ==>
                  cell == DayModel(newId(7 * i + c), Some(CivilDate(ym.year, ym.month, 7 * i + c - offset + 1)),
                                   7 * i + c - offset + 1, CivilDate(ym.year, ym.month, 7 * i + c - offset + 1) == today))
            && (7 * i + c >= offset + n ==> cell == Placeholder(newId(7 * i + c)))
  {
    var days := MonthCells(offset, n, ym, today, newId);
    assert |days| == offset + n;
    ChunkCell(days, newId, offset + n, 6, i, c);
    if 7 * i + c < offset + n {
      CellAt(offset, n, ym, today, newId, 7 * i + c);
    }
  }

  /**
    `collectDaysPerRow` gives between four and six rows, each of seven
    cells and in the default state.
   */
  lemma MonthGridShape(month: int, year: int, today: CivilDate, newId: IdSource)
    ensures var grid := MonthGrid(month, year, today, newId);
            && 4 <= |grid| <= 6
            && FullRows(grid)
            && (forall i :: 0 <= i < |grid| ==> grid[i].state == Default)
  {
    CellsGridShape(FirstWeekdayOffset(month, year), DaysInMonth(month, year), Normalize(month, year), today, newId);
  }

  /**
    Reading the grid row by row gives the cells of `generateDays` in their
    order, followed by fewer than seven placeholders: nothing is dropped.
   */
  lemma MonthGridFlatten(month: int, year: int, today: CivilDate, newId: IdSource)
    ensures var days := MonthDays(month, year, today, newId);
            var cells := Flatten(MonthGrid(month, year, today, newId));
            && PadCount(|days|) < 7
            && cells == days + Padding(newId, |days|, PadCount(|days|))
            && (forall j :: |days| <= j < |cells| ==> cells[j] == Placeholder(newId(j)))
  {
    var offset, n, ym := FirstWeekdayOffset(month, year), DaysInMonth(month, year), Normalize(month, year);
    assert MonthDays(month, year, today, newId) == MonthCells(offset, n, ym, today, newId);
    assert MonthGrid(month, year, today, newId) == CellsGrid(offset, n, ym, today, newId);
    CellsGridFlatten(offset, n, ym, today, newId);
  }

  /** The cell in row `i`, column `c` of the grid is the (7i + c)-th cell created. */
  lemma MonthGridCell(month: int, year: int, today: CivilDate, newId: IdSource, i: int, c: int)
    requires 0 <= i < |MonthGrid(month, year, today, newId)|
    requires 0 <= c < |MonthGrid(month, year, today, newId)[i].rows|
    ensures var days := MonthDays(month, year, today, newId);
            var cell := MonthGrid(month, year, today, newId)[i].rows[c];
            && cell.id == newId(7 * i + c)
            && (7 * i + c < |days| ==> cell == days[7 * i + c])
            && (7 * i + c >= |days| ==> cell == Placeholder(newId(7 * i + c)))
  {
    var offset, n, ym := FirstWeekdayOffset(month, year), DaysInMonth(month, year), Normalize(month, year);
    assert MonthDays(month, year, today, newId) == MonthCells(offset, n, ym, today, newId);
    assert MonthGrid(month, year, today, newId) == CellsGrid(offset, n, ym, today, newId);
    CellsGridCell(offset, n, ym, today, newId, i, c);
  }

  /**
    In the rows of a month shape, a dated cell in column `c` shows a day d
    of 1..n with (offset + d - 1) mod 7 == c; a blank cell is an unselected
    placeholder.
   */
  lemma CellsGridColumns(offset: nat, n: nat, ym: YearMonth, today: CivilDate, newId: IdSource, i: int, c: int)
    requires 0 <= i < |CellsGrid(offset, n, ym, today, newId)|
    requires 0 <= c < |CellsGrid(offset, n, ym, today, newId)[i].rows|
    ensures var cell := CellsGrid(offset, n, ym, today, newId)[i].rows[c];
            && (cell.date.Some? ==> 1 <= cell.number <= n && c == (offset + cell.number - 1) % 7)
            && (cell.date.None? ==> cell.number == -1 && !cell.isSelected)
  {
    var cell := CellsGrid(offset, n, ym, today, newId)[i].rows[c];
    CellsGridCell(offset, n, ym, today, newId, i, c);
    if cell.date.Some? {
      ColumnOf(i, c, offset);
    }
  }

  /**
    In the grid every day cell stands in the column of its weekday, and the
    blank cells are placeholders.
   */
  lemma MonthGridColumns(month: int, year: int, today: CivilDate, newId: IdSource, i: int, c: int)
    requires 0 <= i < |MonthGrid(month, year, today, newId)|
    requires 0 <= c < |MonthGrid(month, year, today, newId)[i].rows|
    ensures var cell := MonthGrid(month, year, today, newId)[i].rows[c];
            && (cell.date.Some? ==>
                  && 1 <= cell.number <= DaysInMonth(month, year)
                  && c == RawValue(StartOfDayInCurrentWeek(cell.number, month, year)) - 1)
            && (cell.date.None? ==> cell.number == -1 && !cell.isSelected)
  {
    var offset, n, ym := FirstWeekdayOffset(month, year), DaysInMonth(month, year), Normalize(month, year);
    var cell := CellsGrid(offset, n, ym, today, newId)[i].rows[c];
    CellsGridColumns(offset, n, ym, today, newId, i, c);
    if cell.date.Some? {
      WeekdayColumn(month, year, cell.number);
    }
  }

  /** The column of cell 7i + c is c. */
  lemma ColumnOf(i: int, c: int, offset: int)
    requires 0 <= c < 7
    ensures (offset + (7 * i + c - offset + 1) - 1) % 7 == c
  {
    assert offset + (7 * i + c - offset + 1) - 1 == 7 * i + c;
  }

  /** No identifier occurs in two cells of the grid. */
  ghost predicate UniqueIds(grid: seq<DayRowModel>) {
    forall i, c, j, d ::
      (0 <= i < |grid| && 0 <= c < |grid[i].rows| && 0 <= j < |grid| && 0 <= d < |grid[j].rows|
       && grid[i].rows[c].id == grid[j].rows[d].id) ==> i == j && c == d
  }

  /** Fresh identifiers make the cells of a generated grid pairwise distinct. */
  lemma MonthGridIdsUnique(month: int, year: int, today: CivilDate, newId: IdSource)
    requires Injective(newId)
    ensures UniqueIds(MonthGrid(month, year, today, newId))
  {
    var offset, n, ym := FirstWeekdayOffset(month, year), DaysInMonth(month, year), Normalize(month, year);
    var grid := CellsGrid(offset, n, ym, today, newId);
    forall i, c, j, d |
      0 <= i < |grid| && 0 <= c < |grid[i].rows| && 0 <= j < |grid| && 0 <= d < |grid[j].rows|
      && grid[i].rows[c].id == grid[j].rows[d].id
      ensures i == j && c == d
    {
      CellsGridCell(offset, n, ym, today, newId, i, c);
      CellsGridCell(offset, n, ym, today, newId, j, d);
    }
  }

  /**
    `collectDaysPerRow`: the cells of `generateDays` arranged in rows of
    seven.
   */
  method CollectDaysPerRow(month: int, year: int, today: CivilDate, newId: IdSource)
    returns (daysCollection: seq<DayRowModel>)
    ensures daysCollection == MonthGrid(month, year, today, newId)
  {
    var days := GenerateDays(month, year, today, newId);
    daysCollection := CollectRows(days, newId);
  }

  /**
    The loop of `collectDaysPerRow`: six times, takes up to seven of the
    cells; a non-empty row shorter than seven is filled with placeholders
    (whose identifiers follow those of the cells), and every non-empty row
    is kept in the default state.
   */
  method CollectRows(days: seq<DayModel>, newId: IdSource)
    returns (daysCollection: seq<DayRowModel>)
    ensures daysCollection == Chunk(days, newId, |days|, 6)
  {
    daysCollection := [];
    var collectionIndex := 0;

    for r := 0 to 6
      invariant 0 <= collectionIndex <= |days|
      invariant daysCollection + Chunk(days[collectionIndex..], newId, |days|, 6 - r)
                == Chunk(days, newId, |days|, 6)
    {
      ghost var rest := days[collectionIndex..];
      var daysRow;
      daysRow, collectionIndex := TakeRow(days, collectionIndex);
      if daysRow != [] {
        ChunkStep(rest, newId, |days|, 6 - r);
        if |daysRow| < 7 {
          assert daysRow == rest;
          daysRow := FillRow(daysRow, newId, |days|);
          assert days[collectionIndex..] == [];
        } else {
          assert daysRow == rest[..7];
          assert days[collectionIndex..] == rest[7..];
        }
        daysCollection := daysCollection + [DayRowModel(daysRow, Default)];
      }
    }
  }

  /** The inner loop of `collectDaysPerRow`: the next at most seven cells from `start` on. */
  method TakeRow(days: seq<DayModel>, start: int) returns (daysRow: seq<DayModel>, next: int)
    requires 0 <= start <= |days|
    ensures next == if start + 7 <= |days| then start + 7 else |days|
    ensures daysRow == days[start..next]
  {
    daysRow := [];
    next := start;
    for c := 0 to 7
      invariant next == if start + c <= |days| then start + c else |days|
      invariant daysRow == days[start..next]
    {
      if next < |days| {
        daysRow := daysRow + [days[next]];
        next := next + 1;
      }
    }
  }

  /** The fill loop of `collectDaysPerRow`: completes a short row with placeholders. */
  method FillRow(daysRow: seq<DayModel>, newId: IdSource, base: nat) returns (row: seq<DayModel>)
    requires |daysRow| < 7
    ensures row == daysRow + Padding(newId, base, 7 - |daysRow|)
  {
    row := daysRow;
    var fillCount := 7 - |daysRow|;
    for f := 0 to fillCount
      invariant row == daysRow + Padding(newId, base, f)
    {
      row := row + [Placeholder(newId(base + f))];
    }
  }

  /** One round of the row loop: the row it forms and the chunking of what is left. */
  lemma ChunkStep(rest: seq<DayModel>, newId: IdSource, base: nat, rowsLeft: nat)
    requires rest != [] && rowsLeft > 0
    ensures |rest| >= 7 ==>
              Chunk(rest, newId, base, rowsLeft)
              == [DayRowModel(rest[..7], Default)] + Chunk(rest[7..], newId, base, rowsLeft - 1)
    ensures |rest| < 7 ==>
              Chunk(rest, newId, base, rowsLeft)
              == [DayRowModel(rest + Padding(newId, base, 7 - |rest|), Default)]
                 + Chunk([], newId, base, rowsLeft - 1)
  {
  }
}
