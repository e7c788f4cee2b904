# Grail calendar POC — a verified model of the calendar grid

Grail-Calendar-POC is a SwiftUI prototype of a month calendar. Its logic sits
in three places, and this project models all three in Dafny:

- **The month grid** (`CustomCalendarModel`). For a month and year it counts the
  days of the month (`dateRange`). `generateDays` reads the weekday of the
  first day from the calendar (Sunday = 1 … Saturday = 7). It emits that many
  blank cells minus one, then one dated cell per day, selecting the cell whose
  date is today. The weekday of any day of a month is also available on its
  own (`startOfDayInCurrentWeek`, whose day defaults to 1); nothing in the
  grid code calls it, and the model proves that it agrees with the columns. It cuts the cells into at most six rows of
  seven, padding the last row with blanks (`collectDaysPerRow`). Selecting a
  cell re-maps the grid so that only that cell is selected (`selectDate`).
  Changing the month or year rebuilds the grid (`updateActiveMonth`,
  `updateActiveYear`).
- **Month stepping** (`CustomCalendar`). The header's previous/next buttons step
  a (0-based month, year) pair with year wrap-around. They also choose the date
  page the view scrolls to.
- **Picker data** (`MonthYearPickerViewModel`). It builds one entry per month
  name and a window of consecutive years around the current year. Entries are
  compared field by field.

Foundation's `Calendar` is replaced by explicit proleptic Gregorian arithmetic.
The leap-year rule is that of ISO 8601:2004 section 3.2.1. Weekdays come from a
running day number (1 January of year 1 is day 1, a Monday).

`DateComponents` may hold a month outside 1..12 (`dateRange` asks for
`month + 1`). The Gregorian calendar reads such a month leniently: month 13 is
January of the next year. `Normalize` models this reading. A day beyond the end
of a month counts on into the next month; the day-number formula gives this
directly.

Modules:

| file | contents |
|---|---|
| `GregorianCalendar.dfy` | leap years, month lengths, month normalisation, day numbers, weekdays |
| `CalendarGrid.dfy` | `Weekday`, `DayModel`, `DayRowModel`, `dateRange`, `startOfDayInCurrentWeek`, `generateDays`, `collectDaysPerRow`, and their specification functions |
| `CalendarModel.dfy` | the class `CustomCalendarModel` (init, `selectDate`, `updateActiveMonth`, `updateActiveYear`) and the selection lemmas |
| `MonthNavigation.dfy` | previous/next month and the class holding the shown month and the active date page |
| `MonthYearPicker.dfy` | `PickerData`, its `==`, `generateMonths`, `generateYears`, the picker view model |
| `IntText.dfy` | `Int.description` (the year titles) and a parser that inverts it |
| `Identifiers.dfy`, `Wrappers.dfy` | identifiers and `Option` |

The loops of the source are Dafny methods with loop invariants:
`GenerateDays`, `CollectRows`, `SelectDate`, `GenerateMonths` and
`GenerateYears`. The row loop of `collectDaysPerRow` is split into its two
inner loops, `TakeRow` and `FillRow`. The two loops of `generateYears` have
the same body and are one method, `AppendYears`, called once per loop. Each method is proved equal to a
specification function (`MonthDays`, `Chunk`, `SelectInGrid`) or to an
explicit description of its output. The lemmas then state what the source promises about those functions.
Most of them are proved once for a month of any shape: a first column
`offset`, a length n and a year and month (`MonthCells`, `CellsGrid`). The
lemmas about a concrete (month, year) then use the Gregorian values.

Every `UUID()` is drawn from an identifier source `newId: nat -> Uuid`. In
`generateDays`, `collectDaysPerRow` and `init(initialDate:)` the k-th
identifier drawn is `newId(k)`. The grid's cells take `newId(0)`, `newId(1)`,
… in order, and the padding of the last row continues that numbering. A grid
of r rows thus draws 7r identifiers, and `init(initialDate:)` then draws
`newId(7r)` for the month picker entry and `newId(7r + 1)` for the year
picker entry. The picker view model is the exception: its month entries and
its year entries draw from two separate sources. Fresh identifiers are
modelled as an injective source.

## Model

| member | source | states |
|---|---|---|
| CalendarGrid.RawValue | grail-calendar-poc/CustomCalendarModel.swift:12-19 | a weekday's raw value lies in 1..7 (Sunday 1, Saturday 7) |
| CalendarGrid.WeekdayFromRawValue | grail-calendar-poc/CustomCalendarModel.swift:12-19 | `Weekday(rawValue:)` is defined exactly for 1..7 and returns the weekday with that raw value |
| CalendarGrid.RawValueInjective | grail-calendar-poc/CustomCalendarModel.swift:12-19 | two weekdays have the same raw value iff they are equal |
| CalendarGrid.RawValueRoundTrip | grail-calendar-poc/CustomCalendarModel.swift:12-19 | `Weekday(rawValue: w.rawValue)` is `w` |
| CalendarGrid.WeekdayDescription | grail-calendar-poc/CustomCalendarModel.swift:21-38 | the name of a weekday is a capitalised word ending in "day" |
| CalendarGrid.WeekdayDescriptionsDistinct | grail-calendar-poc/CustomCalendarModel.swift:21-38 | two weekdays have the same description iff they are equal |
| CalendarGrid.Placeholder | grail-calendar-poc/CustomCalendarModel.swift:75-80 | `DayModel(number: -1)` with the default arguments: the given id, no date, number -1, not selected |
| CalendarGrid.SetSelected | grail-calendar-poc/CustomCalendarModel.swift:82-84 | the copy keeps the id, date and number and carries the given selection flag |
| CalendarGrid.SelectedCells | grail-calendar-poc/CustomCalendarModel.swift:92 | the filter keeps only selected cells of the row, and is empty iff no cell is selected |
| CalendarGrid.IsRowActive | grail-calendar-poc/CustomCalendarModel.swift:91-93 | a row is active iff some cell of it is selected |
| CalendarGrid.DateRange | grail-calendar-poc/CustomCalendarModel.swift:140-152 | the days from the 1st of the month to the 1st of the next month equal the month's length in the Gregorian table, between 28 and 31 |
| CalendarGrid.FebruaryLength | grail-calendar-poc/CustomCalendarModel.swift:140-152 | February has 29 days iff the year is a Gregorian leap year, 28 otherwise |
| CalendarGrid.StartOfDayInCurrentWeek | grail-calendar-poc/CustomCalendarModel.swift:154-163 | the returned weekday's raw value is the Gregorian weekday number of the (normalised) date; the day defaults to 1 |
| CalendarGrid.WeekdayProgression | grail-calendar-poc/CustomCalendarModel.swift:154-163 | the next day has the next weekday (Saturday wraps to Sunday), and seven days later the weekday repeats |
| CalendarGrid.FirstWeekdayOffset | grail-calendar-poc/CustomCalendarModel.swift:173-179 | the number of leading blanks, the weekday number of the 1st minus one, is at most 6 |
| CalendarGrid.GenerateDays | grail-calendar-poc/CustomCalendarModel.swift:165-197 | the array built by the two loops is the cell list `MonthDays` of the month |
| CalendarGrid.CellsLayout | grail-calendar-poc/CustomCalendarModel.swift:175-194 | for any first column `offset` and length n: `offset` blanks (number -1, no date, not selected), then days 1..n dated in the month and selected iff today; the k-th cell has id `newId(k)` |
| CalendarGrid.CellAt | grail-calendar-poc/CustomCalendarModel.swift:175-194 | cell k is a blank with id `newId(k)` before the first column, and from there the cell of day k - offset + 1 with id `newId(k)`, selected iff its date is today |
| CalendarGrid.CellsCoverDays | grail-calendar-poc/CustomCalendarModel.swift:186-194 | every day 1..n of the month is shown by some cell |
| CalendarGrid.CellsDatesDistinct | grail-calendar-poc/CustomCalendarModel.swift:186-194 | no date is shown by two cells |
| CalendarGrid.CellsAscending | grail-calendar-poc/CustomCalendarModel.swift:186-194 | after a dated cell only dated cells follow, with larger day numbers |
| CalendarGrid.CellsCoverMonth | grail-calendar-poc/CustomCalendarModel.swift:186-194 | the three facts above together |
| CalendarGrid.CellsSelectToday | grail-calendar-poc/CustomCalendarModel.swift:189-192 | at most one cell is selected, and one is iff today is one of the days 1..n of the month |
| CalendarGrid.MonthDaysLayout | grail-calendar-poc/CustomCalendarModel.swift:173-194 | 0..6 blanks (number -1, no date, not selected), then days 1..n in order, each dated in its month and selected iff it is today; k-th cell has id `newId(k)` |
| CalendarGrid.MonthDaysCoverMonth | grail-calendar-poc/CustomCalendarModel.swift:181-194 | every day 1..n of the month has a cell, no date occurs twice, and dated cells are in ascending order |
| CalendarGrid.MonthDaysSelectToday | grail-calendar-poc/CustomCalendarModel.swift:189-192 | at most one cell is selected, and one is iff today lies in the month |
| CalendarGrid.WeekdayColumn | grail-calendar-poc/CustomCalendarModel.swift:154-179 | day d of a month falls on the weekday whose raw value minus one is (blanks before day 1 + d - 1) mod 7 |
| CalendarGrid.Padding | grail-calendar-poc/CustomCalendarModel.swift:220-223 | the fill loop adds exactly `fillCount` blank cells |
| CalendarGrid.ChunkShape | grail-calendar-poc/CustomCalendarModel.swift:209-228 | chunking gives no more rows than allowed, each of 7 cells in the default state, and ceil(cells/7) rows when they fit |
| CalendarGrid.ChunkFlatten | grail-calendar-poc/CustomCalendarModel.swift:209-228 | when the cells fit, reading the rows in order gives the cells followed by the padding |
| CalendarGrid.ChunkCell | grail-calendar-poc/CustomCalendarModel.swift:209-228 | the cell in row i, column c of the rows is cell 7i + c of the input, or past its end a blank whose id is numbered on from the base |
| CalendarGrid.CellsGridShape | grail-calendar-poc/CustomCalendarModel.swift:203-231 | for a first column at most 6 and a month of 28 to 31 days: 4 to 6 rows of 7 cells, all in the default state |
| CalendarGrid.CellsGridFlatten | grail-calendar-poc/CustomCalendarModel.swift:203-231 | for such a month the rows read in order are its cells followed by fewer than 7 blanks whose ids continue the cells' ids |
| CalendarGrid.CellsGridCell | grail-calendar-poc/CustomCalendarModel.swift:203-231 | the cell in row i, column c has id `newId(7i + c)` and is cell 7i + c: a leading blank, the cell of day 7i + c - offset + 1, or a padding blank |
| CalendarGrid.CellsGridColumns | grail-calendar-poc/CustomCalendarModel.swift:173-231 | a dated cell in column c shows a day d of 1..n with (offset + d - 1) mod 7 = c; an undated cell is an unselected blank |
| CalendarGrid.MonthGridShape | grail-calendar-poc/CustomCalendarModel.swift:209-228 | the grid of a month has 4 to 6 rows (never an empty row), each of 7 cells, all in the default state |
| CalendarGrid.MonthGridFlatten | grail-calendar-poc/CustomCalendarModel.swift:203-230 | the rows read in order are exactly the cells of `generateDays` followed by fewer than 7 blanks; nothing is dropped or reordered |
| CalendarGrid.MonthGridCell | grail-calendar-poc/CustomCalendarModel.swift:203-230 | the cell at row i, column c is the (7i+c)-th cell of `generateDays`, or a padding blank past its end |
| CalendarGrid.MonthGridColumns | grail-calendar-poc/CustomCalendarModel.swift:165-231 | every dated cell shows a day 1..n and stands in the column of its weekday; undated cells are unselected blanks |
| CalendarGrid.MonthGridIdsUnique | grail-calendar-poc/CustomCalendarModel.swift:165-231 | with fresh identifiers no identifier occurs twice in the grid |
| CalendarGrid.CollectDaysPerRow | grail-calendar-poc/CustomCalendarModel.swift:203-231 | the rows built are the grid `MonthGrid` of the month |
| CalendarGrid.CollectRows | grail-calendar-poc/CustomCalendarModel.swift:206-230 | the six-round row loop with its fill loop computes the chunking `Chunk` of the cells |
| CalendarGrid.TakeRow | grail-calendar-poc/CustomCalendarModel.swift:211-216 | the seven-round inner loop takes the next min(7, remaining) cells in order and moves the index past them |
| CalendarGrid.FillRow | grail-calendar-poc/CustomCalendarModel.swift:219-224 | a short row gets exactly 7 - count blanks appended, with ids `newId(base)`, `newId(base + 1)`, ... |
| CalendarModel.SelectionKeepsCells | grail-calendar-poc/CustomCalendarModel.swift:236-249 | selection keeps row count, row lengths and every cell's id, date and number; a cell is selected iff its id is the chosen id; all rows become default |
| CalendarModel.SelectionIdempotent | grail-calendar-poc/CustomCalendarModel.swift:236-249 | selecting the same cell twice equals selecting it once |
| CalendarModel.SelectionSingle | grail-calendar-poc/CustomCalendarModel.swift:236-249 | with unique ids at most one cell is selected and at most one row is active; a row is active iff it holds the chosen id |
| CalendarModel.FreshGridSelection | grail-calendar-poc/CustomCalendarModel.swift:236-249 | after a selection in a freshly generated grid at most one row is active |
| CalendarModel.InitialState | grail-calendar-poc/CustomCalendarModel.swift:121-128 | the values `init` computes: the grid of the initial date's month, then the picker entries with the two identifiers drawn after the grid's 7 × rows |
| CalendarModel.PickerEntries | grail-calendar-poc/CustomCalendarModel.swift:121-128 | the month entry has index month - 1 and the month's name as title and value; the year entry has the year as index and value and its decimal rendering as title |
| CalendarModel.PickerIdsAfterGrid | grail-calendar-poc/CustomCalendarModel.swift:117-129 | with fresh identifiers the two picker identifiers drawn after the grid differ from each other and from every cell's identifier |
| CalendarModel.CustomCalendarModel.constructor | grail-calendar-poc/CustomCalendarModel.swift:117-129 | date and active month are the initial date (by default today), the grid is that of its month, and the picker entries hold its month name and year with identifiers `newId(7r)` and `newId(7r + 1)` for a grid of r rows |
| CalendarModel.CustomCalendarModel.SelectDate | grail-calendar-poc/CustomCalendarModel.swift:236-249 | `dates` becomes the selection of the chosen id in the old grid; the other fields are unchanged |
| CalendarModel.CustomCalendarModel.UpdateActiveMonth | grail-calendar-poc/CustomCalendarModel.swift:251-255 | `dates` becomes the grid of month `monthIndex + 1` of `year.value`; the other fields are unchanged |
| CalendarModel.CustomCalendarModel.UpdateActiveYear | grail-calendar-poc/CustomCalendarModel.swift:257-260 | `dates` becomes the grid of month `month.idx + 1` of the given year; the other fields are unchanged |
| GregorianCalendar.Normalize | grail-calendar-poc/CustomCalendarModel.swift:146-149 | the normalised month is in 1..12 and denotes the same month count as (month, year) |
| GregorianCalendar.DaysInMonth | grail-calendar-poc/CustomCalendarModel.swift:140-152 | the month that (month, year) denotes has between 28 and 31 days in the Gregorian table |
| GregorianCalendar.WeekdayNumber | grail-calendar-poc/CustomCalendarModel.swift:161 | the Gregorian weekday number lies in 1..7 |
| GregorianCalendar.KnownWeekdays | grail-calendar-poc/CustomCalendarModel.swift:161 | 1 January 2000 is a Saturday (7) and 15 October 2026 a Thursday (5) |
| GregorianCalendar.NextWeekday | grail-calendar-poc/CustomCalendarModel.swift:161 | the weekday number advances by one per day, 7 wrapping to 1 |
| GregorianCalendar.WeekOfWeekdays | grail-calendar-poc/CustomCalendarModel.swift:161 | seven days later the weekday number is the same |
| GregorianCalendar.WeekdayAfter | grail-calendar-poc/CustomCalendarModel.swift:161 | n days later the weekday has advanced by n modulo 7 |
| GregorianCalendar.YearLength | grail-calendar-poc/CustomCalendarModel.swift:140-152 | a year has 366 days iff it is a leap year, otherwise 365 |
| GregorianCalendar.MonthLengthBetweenFirsts | grail-calendar-poc/CustomCalendarModel.swift:140-152 | the 1st of the next month is the 1st of the month plus the month's length |
| GregorianCalendar.NextDayNumber | grail-calendar-poc/CustomCalendarModel.swift:186-188 | consecutive days, also across a month end, have consecutive day numbers |
| GregorianCalendar.DayNumberInjective | grail-calendar-poc/CustomCalendarModel.swift:186-188 | two days of one month share a day number iff they are the same day |
| MonthNavigation.PreviousMonth | grail-calendar-poc/CustomCalendar.swift:77-81 | from a valid pair the previous pair is valid and one month earlier |
| MonthNavigation.NextMonth | grail-calendar-poc/CustomCalendar.swift:90-94 | from a valid pair the next pair is valid and one month later |
| MonthNavigation.MonthOrdinalInjective | grail-calendar-poc/CustomCalendar.swift:76-95 | a valid (month, year) pair is determined by its month count |
| MonthNavigation.StepsUndoEachOther | grail-calendar-poc/CustomCalendar.swift:76-95 | next after previous, and previous after next, return the original pair |
| MonthNavigation.StepCases | grail-calendar-poc/CustomCalendar.swift:76-95 | previous of 0 is (11, year - 1), of m > 0 is (m - 1, year); next of 11 is (0, year + 1), of m < 11 is (m + 1, year) |
| MonthNavigation.CustomCalendar.constructor | grail-calendar-poc/CustomCalendar.swift:16 | the view starts on the centre date page 1 |
| MonthNavigation.CustomCalendar.ShowPreviousMonth | grail-calendar-poc/CustomCalendar.swift:76-82 | the shown pair becomes its previous month and the active page becomes 0 |
| MonthNavigation.CustomCalendar.ShowNextMonth | grail-calendar-poc/CustomCalendar.swift:89-95 | the shown pair becomes its next month and the active page becomes 2 |
| MonthYearPicker.Equal | grail-calendar-poc/MonthYearPickerViewModel.swift:24-26 | `==` holds iff id, idx, title and value all agree |
| MonthYearPicker.GenerateMonths | grail-calendar-poc/MonthYearPickerViewModel.swift:54-60 | one entry per month symbol, in order, with idx its position and title and value the symbol |
| MonthYearPicker.GenerateYears | grail-calendar-poc/MonthYearPickerViewModel.swift:62-77 | minYear + maxYear + 1 consecutive ascending years from currentYear - minYear to currentYear + maxYear, idx = value, title the decimal rendering; currentYear occurs once, at position minYear |
| MonthYearPicker.AppendYears | grail-calendar-poc/MonthYearPickerViewModel.swift:66-74 | one loop of `generateYears`: keeps the entries so far and appends one entry per year of the range, in order, each drawing the next identifier |
| MonthYearPicker.YearWindow | grail-calendar-poc/MonthYearPickerViewModel.swift:62-77 | in a window of year entries the fields follow from the year, the window runs from currentYear - minYear to currentYear + maxYear, and currentYear sits only at position minYear |
| MonthYearPicker.MonthYearPickerViewModel.constructor | grail-calendar-poc/MonthYearPickerViewModel.swift:44-50 | stores the offsets; the month entries take their ids from one identifier source and the year window from another, entry k getting id k of its source |
| MonthYearPicker.DefaultPickerSizes | grail-calendar-poc/MonthYearPickerViewModel.swift:44-50 | with the default offsets 5 and 10 and twelve month names the picker offers 12 months and 16 years |
| IntText.Description | grail-calendar-poc/MonthYearPickerViewModel.swift:68 | `Int.description`: a non-empty string that starts with '-' exactly for negative numbers, the rest being decimal digits |
| IntText.NatDescription | grail-calendar-poc/MonthYearPickerViewModel.swift:68 | the rendering of a natural number is a non-empty digit string without a leading zero |
| IntText.NatDescriptionValue | grail-calendar-poc/MonthYearPickerViewModel.swift:68 | the digits of the rendering of n have the value n |
| IntText.DescriptionRoundTrip | grail-calendar-poc/MonthYearPickerViewModel.swift:68 | parsing `i.description` gives back i |
| IntText.DescriptionInjective | grail-calendar-poc/MonthYearPickerViewModel.swift:68 | different years have different titles |

## Left out

- SwiftUI view code: the `body` builders, buttons, fonts, animations, masks and colours of `CustomCalendar.swift`, and `RowState.stateColor`. They lay out the model; they compute nothing about it.
- Scroll paging: the `onChange`/`onPreferenceChange` handlers that reset the active page to 1 from a floating-point scroll offset. This is `CGFloat` layout.
- `DateFormatter`, locale and time zone. The calendar is the proleptic Gregorian one with astronomical years. Foundation's switch to the Julian calendar before October 1582 and its era component are not modelled.
- `Calendar.current` vs the passed calendar: `generateDays` reads the weekday from `Calendar.current`. Both are taken to be the Gregorian calendar.
- `Date()`, `Date.now` and `Calendar.current.monthSymbols` are parameters: `today`, `currentYear`, `monthSymbols`. `isDateInToday` becomes equality of the cell's date with `today`.
- `DayModel.isCurrentDate`: it compares with the wall clock to the instant, so it is not modelled.
- `DayModel.date` is the calendar day (year, month, day), not an instant. `calendar.date(from:)` always succeeds for these components, so the `if let` in `generateDays` always appends.
- `UUID()` is modelled as an identifier source `newId`. Uniqueness of generated identifiers is the precondition `Injective(newId)`.
- `currentMonthYear` is not modelled. It only formats the picker's month and year into a label.
- The empty stub `isSameDay`, the `print` calls and `PickerData.hash(into:)` are not modelled.
- Swift's `Int` is 64-bit and traps on overflow. The model uses unbounded integers, so years near the 64-bit limits are not modelled.
- `CustomCalendar.monthYear` is not defined in `CustomCalendarModel.swift`. The model keeps the shown month as a plain (0-based month, year) pair on the class `MonthNavigation.CustomCalendar`, next to `activeDatesPage`.
- `datesTempLeft`, `datesTempRight`, `generateTempCollectionPage` and `MonthYearPickerViewModel.MonthYearData` are used by the views but not defined in the model files, so they are not part of this model.
- MonthYearPicker.MonthYearPickerViewModel.constructor: the month entries and the year entries draw their identifiers from two separate sources, so the model does not state that a month entry and a year entry never share an identifier.
- MonthYearPicker.Equal: strings are compared as sequences of code points; Swift's `String ==` identifies canonically equivalent Unicode strings (a precomposed "é" and "e" followed by a combining accent), and that equivalence is not modelled.
