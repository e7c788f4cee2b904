/**
  The observable calendar model: the shown date, the active month, the grid
  of the shown month and the month/year the picker displays. Selecting a
  cell and changing the month or year replace the grid.
 */
module CalendarModel {
  import opened Identifiers
  import opened GregorianCalendar
  import opened CalendarGrid
  import opened MonthYearPicker

  /** The `map` of `selectDate` over one row: a cell is selected exactly when it has the chosen id. */
  function Reselect(cells: seq<DayModel>, id: Uuid): seq<DayModel> {
    seq(|cells|, (k: int) requires 0 <= k < |cells| => SetSelected(cells[k], cells[k].id == id))
  }

  /** The grid after `selectDate` chose the cell with identifier `id`. */
  function SelectInGrid(grid: seq<DayRowModel>, id: Uuid): seq<DayRowModel> {
    seq(|grid|, (i: int) requires 0 <= i < |grid| => DayRowModel(Reselect(grid[i].rows, id), Default))
  }

  /**
    Selection keeps the shape of the grid and every cell's identifier, date
    and number; it selects exactly the cells with the chosen identifier and
    puts every row in the default state.
   */
  lemma SelectionKeepsCells(grid: seq<DayRowModel>, id: Uuid)
    ensures var selected := SelectInGrid(grid, id);
            && |selected| == |grid|
            && (forall i :: 0 <= i < |grid| ==>
                  |selected[i].rows| == |grid[i].rows| && selected[i].state == Default)
            && (forall i, k :: 0 <= i < |grid| && 0 <= k < |grid[i].rows| ==>
                  && selected[i].rows[k].id == grid[i].rows[k].id
                  && selected[i].rows[k].date == grid[i].rows[k].date
                  && selected[i].rows[k].number == grid[i].rows[k].number
                  && (selected[i].rows[k].isSelected <==> grid[i].rows[k].id == id))
  {
    var selected := SelectInGrid(grid, id);
    forall i | 0 <= i < |grid|
      ensures selected[i] == DayRowModel(Reselect(grid[i].rows, id), Default)
    {
    }
  }

  /** Selecting the same cell twice is the same as selecting it once. */
  lemma SelectionIdempotent(grid: seq<DayRowModel>, id: Uuid)
    ensures SelectInGrid(SelectInGrid(grid, id), id) == SelectInGrid(grid, id)
  {
    var once := SelectInGrid(grid, id);
    var twice := SelectInGrid(once, id);
    SelectionKeepsCells(grid, id);
    SelectionKeepsCells(once, id);
    forall i | 0 <= i < |grid|
      ensures twice[i] == once[i]
    {
      assert twice[i].rows == once[i].rows;
    }
  }

  /**
    When identifiers are unique, selection leaves at most one cell selected
    and hence at most one active row; a row is active afterwards exactly
    when the chosen identifier occurs in it.
   */
  lemma SelectionSingle(grid: seq<DayRowModel>, id: Uuid)
    requires UniqueIds(grid)
    ensures var selected := SelectInGrid(grid, id);
            && (forall i, k, j, l ::
                  (0 <= i < |selected| && 0 <= k < |selected[i].rows|
                   && 0 <= j < |selected| && 0 <= l < |selected[j].rows|
                   && selected[i].rows[k].isSelected && selected[j].rows[l].isSelected)
                  ==> i == j && k == l)
            && (forall i, j :: (0 <= i < |selected| && 0 <= j < |selected|
                  && IsRowActive(selected[i]) && IsRowActive(selected[j])) ==> i == j)
            && (forall i :: 0 <= i < |selected| ==>
                  (IsRowActive(selected[i]) <==> exists k :: 0 <= k < |grid[i].rows| && grid[i].rows[k].id == id))
  {
    var selected := SelectInGrid(grid, id);
    SelectionKeepsCells(grid, id);
    forall i, j | 0 <= i < |selected| && 0 <= j < |selected| && IsRowActive(selected[i]) && IsRowActive(selected[j])
      ensures i == j
    {
      var k :| 0 <= k < |selected[i].rows| && selected[i].rows[k].isSelected;
      var l :| 0 <= l < |selected[j].rows| && selected[j].rows[l].isSelected;
      assert grid[i].rows[k].id == grid[j].rows[l].id;
    }
    forall i | 0 <= i < |selected|
      ensures IsRowActive(selected[i]) <==> exists k :: 0 <= k < |grid[i].rows| && grid[i].rows[k].id == id
    {
      if exists k :: 0 <= k < |grid[i].rows| && grid[i].rows[k].id == id {
        var k :| 0 <= k < |grid[i].rows| && grid[i].rows[k].id == id;
        assert selected[i].rows[k].isSelected;
      }
    }
  }

  /**
    The values `init(initialDate:)` computes: the grid of the month of
    `initialDate`, whose cells draw `newId(0)`, `newId(1)`, ... (seven per
    row), then the picker entries of its month and year, which draw the
    next two identifiers.
   */
  method InitialState(initialDate: CivilDate, monthSymbols: seq<string>, today: CivilDate, newId: IdSource)
    returns (grid: seq<DayRowModel>, monthEntry: PickerData<string>, yearEntry: PickerData<int>)
    requires 1 <= initialDate.month <= 12 && |monthSymbols| == 12
    ensures grid == MonthGrid(initialDate.month, initialDate.year, today, newId)
    ensures monthEntry == PickerData(newId(7 * |grid|), initialDate.month - 1,
                                     monthSymbols[initialDate.month - 1], monthSymbols[initialDate.month - 1])
    ensures yearEntry == YearEntry(newId(7 * |grid| + 1), initialDate.year)
  {
    grid := CollectDaysPerRow(initialDate.month, initialDate.year, today, newId);
    monthEntry, yearEntry := PickerEntries(initialDate, monthSymbols, newId, 7 * |grid|);
  }

  /** The month and year picker entries of `init(initialDate:)`, drawing `newId(drawn)` and `newId(drawn + 1)`. */
  method PickerEntries(initialDate: CivilDate, monthSymbols: seq<string>, newId: IdSource, drawn: nat)
    returns (monthEntry: PickerData<string>, yearEntry: PickerData<int>)
    requires 1 <= initialDate.month <= 12 && |monthSymbols| == 12
    ensures monthEntry == PickerData(newId(drawn), initialDate.month - 1,
                                     monthSymbols[initialDate.month - 1], monthSymbols[initialDate.month - 1])
    ensures yearEntry == YearEntry(newId(drawn + 1), initialDate.year)
  {
    var monthNumber := initialDate.month;
    var monthIdx := monthNumber - 1;
    var monthName := monthSymbols[monthIdx];
    var yearNumber := initialDate.year;
    monthEntry := PickerData(newId(drawn), monthIdx, monthName, monthName);
    yearEntry := YearEntry(newId(drawn + 1), yearNumber);
  }

  /** The observable object behind the calendar view. */
  class CustomCalendarModel {
    var date: CivilDate
    var activeMonth: CivilDate
    var dates: seq<DayRowModel>
    var month: PickerData<string>
    var year: PickerData<int>

    /**
      `init(initialDate:)`: shows the month of `initialDate`, which defaults
      to `today`. The grid's cells draw the identifiers `newId(0)`,
      `newId(1)`, ... (seven per row); the picker entries for the month and
      the year draw the next two.
     */
    constructor(initialDate: CivilDate := today, monthSymbols: seq<string>, today: CivilDate, newId: IdSource)
      requires 1 <= initialDate.month <= 12 && |monthSymbols| == 12
      ensures date == initialDate && activeMonth == initialDate
      ensures dates == MonthGrid(initialDate.month, initialDate.year, today, newId)
      ensures var drawn := 7 * |MonthGrid(initialDate.month, initialDate.year, today, newId)|;
              && month == PickerData(newId(drawn), initialDate.month - 1,
                                     monthSymbols[initialDate.month - 1], monthSymbols[initialDate.month - 1])
              && year == YearEntry(newId(drawn + 1), initialDate.year)
    {
      var grid, monthEntry, yearEntry := InitialState(initialDate, monthSymbols, today, newId);
      date := initialDate;
      activeMonth := initialDate;
      dates := grid;
      month := monthEntry;
      year := yearEntry;
    }

    /** `selectDate(with:)`: selects the cells with the identifier of `sd` and no others. */
    method SelectDate(sd: DayModel)
      modifies this`dates
      ensures dates == SelectInGrid(old(dates), sd.id)
      ensures date == old(date) && activeMonth == old(activeMonth)
      ensures month == old(month) && year == old(year)
    {
      var datesTmp: seq<DayRowModel> := [];
      for i := 0 to |dates|
        invariant |datesTmp| == i
        invariant forall r :: 0 <= r < i ==> datesTmp[r] == SelectInGrid(dates, sd.id)[r]
      {
        var d := dates[i];
        var rows := Reselect(d.rows, sd.id);
        datesTmp := datesTmp + [DayRowModel(rows, Default)];
      }
      dates := datesTmp;
    }

    /** `updateActiveMonth(monthIndex:)`: shows month `monthIndex` (0-based) of the picker's year. */
    method UpdateActiveMonth(monthIndex: int, today: CivilDate, newId: IdSource)
      modifies this`dates
      ensures dates == MonthGrid(monthIndex + 1, old(year.value), today, newId)
      ensures date == old(date) && activeMonth == old(activeMonth)
      ensures month == old(month) && year == old(year)
    {
      var monthNumber := monthIndex + 1;
      var yearNumber := year.value;
      dates := CollectDaysPerRow(monthNumber, yearNumber, today, newId);
    }

    /** `updateActiveYear(year:)`: shows the picker's month in the year `newYear`. */
    method UpdateActiveYear(newYear: int, today: CivilDate, newId: IdSource)
      modifies this`dates
      ensures dates == MonthGrid(old(month.idx) + 1, newYear, today, newId)
      ensures date == old(date) && activeMonth == old(activeMonth)
      ensures month == old(month) && year == old(year)
    {
      var monthNumber := month.idx + 1;
      dates := CollectDaysPerRow(monthNumber, newYear, today, newId);
    }
  }

  /**
    With fresh identifiers, the two identifiers `init(initialDate:)` draws
    after the grid (for the month and year picker entries) differ from each
    other and from every cell's identifier.
   */
  lemma PickerIdsAfterGrid(month: int, year: int, today: CivilDate, newId: IdSource)
    requires Injective(newId)
    ensures var grid := MonthGrid(month, year, today, newId);
            && newId(7 * |grid|) != newId(7 * |grid| + 1)
            && forall i, c :: 0 <= i < |grid| && 0 <= c < |grid[i].rows| ==>
                 grid[i].rows[c].id != newId(7 * |grid|) && grid[i].rows[c].id != newId(7 * |grid| + 1)
  {
    var grid := MonthGrid(month, year, today, newId);
    forall i, c | 0 <= i < |grid| && 0 <= c < |grid[i].rows|
      ensures grid[i].rows[c].id != newId(7 * |grid|) && grid[i].rows[c].id != newId(7 * |grid| + 1)
    {
      MonthGridCell(month, year, today, newId, i, c);
      MonthGridShape(month, year, today, newId);
      assert 7 * i + c < 7 * |grid|;
    }
  }

  /**
    A freshly generated grid with fresh identifiers, once a cell is chosen,
    has at most one active row.
   */
  lemma FreshGridSelection(month: int, year: int, today: CivilDate, newId: IdSource, id: Uuid)
    requires Injective(newId)
    ensures var selected := SelectInGrid(MonthGrid(month, year, today, newId), id);
            forall i, j :: (0 <= i < |selected| && 0 <= j < |selected|
              && IsRowActive(selected[i]) && IsRowActive(selected[j])) ==> i == j
  {
    MonthGridIdsUnique(month, year, today, newId);
    SelectionSingle(MonthGrid(month, year, today, newId), id);
  }
}
