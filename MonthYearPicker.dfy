/**
  The data behind the month/year wheel picker: one entry per month name and
  a window of consecutive years around the current year.
 */
module MonthYearPicker {
  import opened Identifiers
  import IntText

  /** One row of a picker wheel; `id` is a fresh identifier per entry. */
  datatype PickerData<T> = PickerData(id: Uuid, idx: int, title: string, value: T)

  /** The `==` of `PickerData`: all four fields agree. */
  function Equal<T(==)>(lhs: PickerData<T>, rhs: PickerData<T>): (same: bool)
    ensures same <==> lhs == rhs
  {
    lhs.id == rhs.id && lhs.idx == rhs.idx && lhs.title == rhs.title && lhs.value == rhs.value
  }

  /**
    `generateMonths`: one entry per month symbol of the calendar, in order,
    whose index is its position and whose title and value are the symbol.
   */
  method GenerateMonths(monthSymbols: seq<string>, newId: IdSource)
    returns (data: seq<PickerData<string>>)
    ensures |data| == |monthSymbols|
    ensures forall i :: 0 <= i < |data| ==>
              data[i] == PickerData(newId(i), i, monthSymbols[i], monthSymbols[i])
  {
    data := [];
    for idx := 0 to |monthSymbols|
      invariant |data| == idx
      invariant forall i :: 0 <= i < idx ==>
                  data[i] == PickerData(newId(i), i, monthSymbols[i], monthSymbols[i])
    {
      var month := monthSymbols[idx];
      data := data + [PickerData(newId(idx), idx, month, month)];
    }
  }

  /** The entry of the year window for the year `year`. */
  function YearEntry(id: Uuid, year: int): PickerData<int> {
    PickerData(id, year, IntText.Description(year), year)
  }

  /**
    `generateYears`: the `minYear` years before `currentYear`, then
    `currentYear` itself and the `maxYear` years after it. A negative offset
    makes the Swift range construction trap, so both must be non-negative.
   */
  method GenerateYears(currentYear: int, newId: IdSource, minYear: int := 5, maxYear: int := 10)
    returns (data: seq<PickerData<int>>)
    requires minYear >= 0 && maxYear >= 0
    ensures |data| == minYear + maxYear + 1
    ensures forall k :: 0 <= k < |data| ==> data[k] == YearEntry(newId(k), currentYear - minYear + k)
    ensures forall k :: 0 <= k < |data| ==>
              data[k].value == currentYear - minYear + k && data[k].idx == data[k].value
              && data[k].title == IntText.Description(data[k].value) && data[k].id == newId(k)
    ensures data[0].value == currentYear - minYear
    ensures data[|data| - 1].value == currentYear + maxYear
    ensures data[minYear].value == currentYear
    ensures forall k :: 0 <= k < |data| && data[k].value == currentYear ==> k == minYear
  {
    data := [];
    var minYearLimit := currentYear - minYear;
    data := AppendYears(data, minYearLimit, currentYear, newId);

    var maxYearLimit := currentYear + maxYear;
    data := AppendYears(data, currentYear, maxYearLimit + 1, newId);
    YearWindow(data, currentYear, newId, minYear, maxYear);
  }

  /**
    A loop of `generateYears`: appends the entries of the years `first`
    up to, not including, `last`, each drawing the next identifier.
   */
  method AppendYears(data: seq<PickerData<int>>, first: int, last: int, newId: IdSource)
    returns (result: seq<PickerData<int>>)
    requires first <= last
    ensures |result| == |data| + (last - first)
    ensures result[..|data|] == data
    ensures forall k :: |data| <= k < |result| ==> result[k] == YearEntry(newId(k), first + (k - |data|))
  {
    result := data;
    for i := first to last
      invariant |result| == |data| + (i - first)
      invariant result[..|data|] == data
      invariant forall k :: |data| <= k < |result| ==> result[k] == YearEntry(newId(k), first + (k - |data|))
    {
      ghost var before := result;
      result := result + [YearEntry(newId(|result|), i)];
      assert result[..|data|] == before[..|data|];
    }
  }

  /** The fields of a window of year entries, and where its current year sits. */
  lemma YearWindow(data: seq<PickerData<int>>, currentYear: int, newId: IdSource, minYear: int, maxYear: int)
    requires minYear >= 0 && maxYear >= 0
    requires |data| == minYear + maxYear + 1
    requires forall k :: 0 <= k < |data| ==> data[k] == YearEntry(newId(k), currentYear - minYear + k)
    ensures forall k :: 0 <= k < |data| ==>
              data[k].value == currentYear - minYear + k && data[k].idx == data[k].value
              && data[k].title == IntText.Description(data[k].value) && data[k].id == newId(k)
    ensures data[0].value == currentYear - minYear
    ensures data[|data| - 1].value == currentYear + maxYear
    ensures data[minYear].value == currentYear
    ensures forall k :: 0 <= k < |data| && data[k].value == currentYear ==> k == minYear
  {
  }

  /**
    The view model of the picker: the month entries and the year window,
    computed once when it is created.
   */
  class MonthYearPickerViewModel {
    const minYear: int
    const maxYear: int
    const monthsData: seq<PickerData<string>>
    const yearsData: seq<PickerData<int>>

    /**
      The identifiers of the month entries are drawn from `monthIds`, those
      of the year entries from `yearIds`.
     */
    constructor(monthSymbols: seq<string>, currentYear: int, monthIds: IdSource, yearIds: IdSource,
                minYear: int := 5, maxYear: int := 10)
      requires minYear >= 0 && maxYear >= 0
      ensures this.minYear == minYear && this.maxYear == maxYear
      ensures |monthsData| == |monthSymbols|
      ensures forall i :: 0 <= i < |monthsData| ==>
                monthsData[i] == PickerData(monthIds(i), i, monthSymbols[i], monthSymbols[i])
      ensures |yearsData| == minYear + maxYear + 1
      ensures forall k :: 0 <= k < |yearsData| ==>
                yearsData[k] == YearEntry(yearIds(k), currentYear - minYear + k)
    {
      this.minYear := minYear;
      this.maxYear := maxYear;
      var months := GenerateMonths(monthSymbols, monthIds);
      var years := GenerateYears(currentYear, yearIds, minYear, maxYear);
      monthsData := months;
      yearsData := years;
    }
  }

  /**
    The picker created with its default offsets (5 years back, 10 ahead)
    over the twelve Gregorian month names offers 12 months and 16 years.
   */
  method DefaultPickerSizes(monthSymbols: seq<string>, currentYear: int, monthIds: IdSource, yearIds: IdSource)
    returns (months: nat, years: nat)
    requires |monthSymbols| == 12
    ensures months == 12 && years == 16
  {
    var picker := new MonthYearPickerViewModel(monthSymbols, currentYear, monthIds, yearIds);
    months := |picker.monthsData|;
    years := |picker.yearsData|;
  }
}
