/** The reports page's date-range picker: its month and year options, how it
    names the range it is shown, and the range each choice emits. A range
    computation that would throw (a date outside the time range) is `None`
    and makes the whole step `None`. */
module RangeSelector {
  import opened Wrappers
  import opened Strings
  import opened Numbers
  import opened Types
  import opened Calendar
  import opened DateUtils

  datatype RangeType = CurrentMonthType | Last30Days | Last90Days | CurrentYearType | CustomMonth | CustomYear

  /** The option values of the range-type select. */
  function RangeTypeName(t: RangeType): string {
    match t
    case CurrentMonthType => "current_month"
    case Last30Days => "last_30_days"
    case Last90Days => "last_90_days"
    case CurrentYearType => "current_year"
    case CustomMonth => "custom_month"
    case CustomYear => "custom_year"
  }

  /** `yearOptions`: the current year and the four before it, as text.
      Reading an option's text back with `Number` gives its year. */
  function YearOptions(now: Date): (r: seq<string>)
    ensures |r| == 5
    ensures forall i :: 0 <= i < 5 ==> r[i] == IntToString(now.year - i)
  {
    seq(5, i requires 0 <= i < 5 => IntToString(now.year - i))
  }

  /** The year options read as the five years counting down from the
      current one, the first being the current year's own text. */
  lemma YearOptionsMeaning(now: Date)
    requires now.year >= 4
    ensures YearOptions(now)[0] == CurrentYear(now)
    ensures forall i :: 0 <= i < 5 ==> ToNumber(YearOptions(now)[i]) == Some((now.year - i) as real)
  {
    YearOptionsRead(now);
  }

  lemma YearOptionsRead(now: Date)
    requires now.year >= 4
    ensures forall i :: 0 <= i < 5 ==> ToNumber(YearOptions(now)[i]) == Some((now.year - i) as real)
  {
    forall i | 0 <= i < 5
      ensures ToNumber(YearOptions(now)[i]) == Some((now.year - i) as real)
    {
      YearOptionRead(now, i);
    }
  }

  lemma YearOptionRead(now: Date, i: nat)
    requires i < 5 && now.year >= 4
    ensures ToNumber(YearOptions(now)[i]) == Some((now.year - i) as real)
  {
    var n: nat := now.year - i;
    var text := YearOptions(now)[i];
    assert text == IntToString(n);
    IntToStringValue(n);
  }

  /** `Number` reads the text of a non-negative integer as that integer. */
  lemma IntToStringValue(n: nat)
    ensures ToNumber(IntToString(n)) == Some(n as real)
  {
    NatToStringValue(n);
    ToNumberDigits(NatToString(n));
  }

  /** Some key's range is `range`, and the range of every key before it
      could be computed. */
  predicate Reaches(range: DateRange, keys: seq<string>, rangeOf: string -> Option<DateRange>) {
    exists i :: 0 <= i < |keys| && rangeOf(keys[i]) == Some(range) &&
      forall j :: 0 <= j < i ==> rangeOf(keys[j]).Some?
  }

  /** Every key's range could be computed, and none is `range`. */
  predicate MissesAll(range: DateRange, keys: seq<string>, rangeOf: string -> Option<DateRange>) {
    forall i :: 0 <= i < |keys| ==> rangeOf(keys[i]).Some? && rangeOf(keys[i]) != Some(range)
  }

  /** Whether some key's range is `range`, trying the keys in order as the
      `for … of` loop does; `None` when a range before the match throws. */
  function AnyKeyMatches(range: DateRange, keys: seq<string>, rangeOf: string -> Option<DateRange>): (r: Option<bool>)
    ensures r == Some(true) <==> Reaches(range, keys, rangeOf)
    ensures r == Some(false) <==> MissesAll(range, keys, rangeOf)
    ensures r == Some(true) ==> exists i :: 0 <= i < |keys| && rangeOf(keys[i]) == Some(range)
    ensures r == Some(false) ==> forall i :: 0 <= i < |keys| ==> rangeOf(keys[i]) != Some(range)
    decreases |keys|
  {
    if |keys| == 0 then Some(false)
    else match rangeOf(keys[0])
      case None =>
        assert !Reaches(range, keys, rangeOf);
        None
      case Some(r0) =>
        if r0 == range then
          assert rangeOf(keys[0]) == Some(range);
          Some(true)
        else
          var rest := AnyKeyMatches(range, keys[1..], rangeOf);
          assert forall i :: 1 <= i < |keys| ==> keys[i] == keys[1..][i - 1];
          ReachesTail(range, keys, rangeOf);
          rest
  }

  /** When the first key's range is computed and is not `range`, the
      search goes on in the rest. */
  lemma ReachesTail(range: DateRange, keys: seq<string>, rangeOf: string -> Option<DateRange>)
    requires |keys| > 0 && rangeOf(keys[0]).Some? && rangeOf(keys[0]) != Some(range)
    ensures Reaches(range, keys, rangeOf) <==> Reaches(range, keys[1..], rangeOf)
    ensures MissesAll(range, keys, rangeOf) <==> MissesAll(range, keys[1..], rangeOf)
  {
    assert forall i :: 1 <= i < |keys| ==> keys[i] == keys[1..][i - 1];
    if Reaches(range, keys, rangeOf) {
      var i :| 0 <= i < |keys| && rangeOf(keys[i]) == Some(range) &&
        forall j :: 0 <= j < i ==> rangeOf(keys[j]).Some?;
      assert i > 0;
      assert forall j :: 0 <= j < i - 1 ==> rangeOf(keys[1..][j]).Some? by {
        forall j | 0 <= j < i - 1 ensures rangeOf(keys[1..][j]).Some? {
          assert keys[1..][j] == keys[j + 1];
        }
      }
      assert rangeOf(keys[1..][i - 1]) == Some(range);
    }
    if Reaches(range, keys[1..], rangeOf) {
      var i :| 0 <= i < |keys[1..]| && rangeOf(keys[1..][i]) == Some(range) &&
        forall j :: 0 <= j < i ==> rangeOf(keys[1..][j]).Some?;
      assert rangeOf(keys[i + 1]) == Some(range);
      assert forall j :: 0 <= j < i + 1 ==> rangeOf(keys[j]).Some? by {
        forall j | 0 <= j < i + 1 ensures rangeOf(keys[j]).Some? {
          if j > 0 {
            assert keys[j] == keys[1..][j - 1];
          }
        }
      }
    }
  }

  /** The four preset ranges, computed up front. */
  datatype Presets = Presets(currentMonth: DateRange, last30: DateRange, last90: DateRange, currentYear: DateRange)

  function PresetsOf(now: Date): Option<Presets>
    requires ValidDate(now)
  {
    match (CurrentMonthRange(now), Last30DaysRange(now), Last90DaysRange(now), CurrentYearRange(now))
    case (Some(cm), Some(l30), Some(l90), Some(cy)) => Some(Presets(cm, l30, l90, cy))
    case _ => None
  }

  /** None of the four presets is `range`. */
  predicate NoPreset(range: DateRange, p: Presets) {
    range != p.currentMonth && range != p.last30 && range != p.last90 && range != p.currentYear
  }

  /** The decision `getCurrentRangeType` makes once the presets are known:
      the presets in priority order, then the months, then the years, and
      `custom_month` when nothing matches. */
  function Classify(range: DateRange, p: Presets, months: seq<string>, monthRange: string -> Option<DateRange>,
                    years: seq<string>, yearRange: string -> Option<DateRange>): (r: Option<RangeType>)
    ensures r == Some(CurrentMonthType) <==> range == p.currentMonth
    ensures r == Some(Last30Days) <==> range != p.currentMonth && range == p.last30
    ensures r == Some(Last90Days) <==> range != p.currentMonth && range != p.last30 && range == p.last90
    ensures r == Some(CurrentYearType) <==>
      range != p.currentMonth && range != p.last30 && range != p.last90 && range == p.currentYear
    ensures NoPreset(range, p) && Reaches(range, months, monthRange) ==> r == Some(CustomMonth)
    ensures r == Some(CustomYear) <==>
      NoPreset(range, p) && MissesAll(range, months, monthRange) && Reaches(range, years, yearRange)
    ensures NoPreset(range, p) && MissesAll(range, months, monthRange) && MissesAll(range, years, yearRange)
            ==> r == Some(CustomMonth)
    ensures r.None? ==> NoPreset(range, p)
  {
    if range == p.currentMonth then Some(CurrentMonthType)
    else if range == p.last30 then Some(Last30Days)
    else if range == p.last90 then Some(Last90Days)
    else if range == p.currentYear then Some(CurrentYearType)
    else match AnyKeyMatches(range, months, monthRange)
      case None => None
      case Some(true) => Some(CustomMonth)
      case Some(false) =>
        match AnyKeyMatches(range, years, yearRange)
        case None => None
        case Some(true) => Some(CustomYear)
        case Some(false) => Some(CustomMonth)
  }

  /** The month options `getLastNMonths(12)` gives, as a value. */
  function MonthOptionsOf(now: Date): (r: Option<seq<string>>)
    ensures r.Some? <==> forall i :: 0 <= i < 12 ==> MonthsBackKey(now)(i).Some?
    ensures r.Some? ==> |r.value| == 12 && forall i :: 0 <= i < 12 ==> MonthsBackKey(now)(i) == Some(r.value[i])
  {
    if forall i :: 0 <= i < 12 ==> MonthsBackKey(now)(i).Some? then
      Some(seq(12, i requires 0 <= i < 12 => MonthsBackKey(now)(i).value))
    else None
  }

  /** A list of twelve keys, key `i` being the month `i` back, is the
      month options. */
  lemma MonthOptionsAre(now: Date, months: seq<string>)
    requires |months| == 12
    requires forall i :: 0 <= i < 12 ==> MonthsBackKey(now)(i) == Some(months[i])
    ensures MonthOptionsOf(now) == Some(months)
  {
    var options := MonthOptionsOf(now);
    assert options.Some?;
    assert forall i :: 0 <= i < 12 ==> months[i] == options.value[i];
    assert months == options.value;
  }

  /** `getCurrentRangeType()`, with the month options `getLastNMonths(12)`
      produces and the five year options. */
  method CurrentRangeType(range: DateRange, now: Date) returns (r: Option<RangeType>)
    requires ValidDate(now)
    ensures PresetsOf(now).None? || MonthOptionsOf(now).None? ==> r.None?
    ensures PresetsOf(now).Some? && MonthOptionsOf(now).Some? ==>
      r == Classify(range, PresetsOf(now).value, MonthOptionsOf(now).value, MonthRange, YearOptions(now), YearRange)
    ensures r.Some? ==> PresetsOf(now).Some? && MonthOptionsOf(now).Some?
    ensures r.Some? && range == PresetsOf(now).value.currentMonth ==> r.value == CurrentMonthType
    ensures r.Some? && NoPreset(range, PresetsOf(now).value) && Reaches(range, MonthOptionsOf(now).value, MonthRange)
            ==> r.value == CustomMonth
  {
    var months := LastNMonths(now, 12);
    if months.None? {
      return None;
    }
    MonthOptionsAre(now, months.value);
    var presets := PresetsOf(now);
    if presets.None? {
      return None;
    }
    r := Classify(range, presets.value, months.value, MonthRange, YearOptions(now), YearRange);
  }

  /** With a four-digit current year the current month's range is also the
      range of the first listed month, yet it is named `current_month`. */
  lemma CurrentMonthWins(now: Date, p: Presets, months: seq<string>)
    requires ValidDate(now) && 100 <= now.year <= 9999
    requires PresetsOf(now) == Some(p)
    requires |months| > 0 && months[0] == CurrentMonth(now)
    ensures MonthRange(months[0]) == Some(p.currentMonth)
    ensures Classify(p.currentMonth, p, months, MonthRange, YearOptions(now), YearRange) == Some(CurrentMonthType)
  {
    CurrentMonthRangeIsMonthRange(now);
  }

  // ---------------------------------------------------------------------
  // Handlers
  // ---------------------------------------------------------------------

  datatype Selection = Selection(rangeType: string, selectedMonth: string, selectedYear: string)

  /** The state on mount: the shown range's type, the current month and the
      current year. */
  function InitialSelection(rangeType: RangeType, now: Date): Selection
    requires ValidDate(now)
  {
    Selection(RangeTypeName(rangeType), CurrentMonth(now), CurrentYear(now))
  }

  /** What a handler hands to `onDateRangeChange`: nothing, a range, or an
      exception. */
  datatype Emitted = Nothing | Emit(range: DateRange) | Throws

  function EmitOf(r: Option<DateRange>): (e: Emitted)
    ensures r.Some? <==> e.Emit?
    ensures r.Some? ==> e.range == r.value
  {
    match r
    case Some(range) => Emit(range)
    case None => Throws
  }

  /** Reads a range-type option value back. */
  function ParseRangeType(value: string): (r: Option<RangeType>)
    ensures r.Some? ==> RangeTypeName(r.value) == value
    ensures r.None? ==> forall t :: RangeTypeName(t) != value
  {
    if value == "current_month" then Some(CurrentMonthType)
    else if value == "last_30_days" then Some(Last30Days)
    else if value == "last_90_days" then Some(Last90Days)
    else if value == "current_year" then Some(CurrentYearType)
    else if value == "custom_month" then Some(CustomMonth)
    else if value == "custom_year" then Some(CustomYear)
    else None
  }

  lemma ParseRangeTypeName(t: RangeType)
    ensures ParseRangeType(RangeTypeName(t)) == Some(t)
  {
  }

  /** The range each type stands for; the custom types use the stored
      selection. */
  function RangeFor(t: RangeType, s: Selection, now: Date): Option<DateRange>
    requires ValidDate(now)
  {
    match t
    case CurrentMonthType => CurrentMonthRange(now)
    case Last30Days => Last30DaysRange(now)
    case Last90Days => Last90DaysRange(now)
    case CurrentYearType => CurrentYearRange(now)
    case CustomMonth => MonthRange(s.selectedMonth)
    case CustomYear => YearRange(s.selectedYear)
  }

  /** `handleRangeTypeChange`: the chosen value is stored and the range of
      the type it names emitted; a value naming none of the six emits
      nothing. */
  function ChangeRangeType(s: Selection, value: string, now: Date): (r: (Selection, Emitted))
    requires ValidDate(now)
    ensures r.0 == s.(rangeType := value)
    ensures (forall t :: RangeTypeName(t) != value) ==> r.1 == Nothing
  {
    match ParseRangeType(value)
    case Some(t) => (s.(rangeType := value), EmitOf(RangeFor(t, s, now)))
    case None => (s.(rangeType := value), Nothing)
  }

  /** Choosing a type stores its name and emits its range. */
  lemma ChangeRangeTypeTo(s: Selection, t: RangeType, now: Date)
    requires ValidDate(now)
    ensures ChangeRangeType(s, RangeTypeName(t), now) == (s.(rangeType := RangeTypeName(t)), EmitOf(RangeFor(t, s, now)))
  {
    ParseRangeTypeName(t);
  }

  /** `handleMonthChange`: the month is stored and its range emitted. */
  function ChangeMonth(s: Selection, value: string): (r: (Selection, Emitted))
    ensures r.0 == s.(selectedMonth := value)
    ensures r.1 == EmitOf(MonthRange(value))
  {
    (s.(selectedMonth := value), EmitOf(MonthRange(value)))
  }

  /** `handleYearChange`: the year is stored and its range emitted. */
  function ChangeYear(s: Selection, value: string): (r: (Selection, Emitted))
    ensures r.0 == s.(selectedYear := value)
    ensures r.1 == EmitOf(YearRange(value))
  {
    (s.(selectedYear := value), EmitOf(YearRange(value)))
  }

  /** On mount, with a four-digit current year, choosing `custom_month`
      emits the current month's range and choosing `custom_year` the current
      year's, exactly what `current_month` and `current_year` emit. */
  lemma CustomDefaultsAreCurrent(t: RangeType, now: Date)
    requires ValidDate(now) && 100 <= now.year <= 9999
    ensures RangeFor(CustomMonth, InitialSelection(t, now), now)
         == RangeFor(CurrentMonthType, InitialSelection(t, now), now)
         == Some(MonthSpan(now.year, now.month))
    ensures RangeFor(CustomYear, InitialSelection(t, now), now)
         == RangeFor(CurrentYearType, InitialSelection(t, now), now)
         == Some(YearSpan(now.year))
  {
    CurrentMonthRangeIsMonthRange(now);
    CurrentYearRangeIsYearRange(now);
  }

  /** Picking a listed month emits that month's first-to-last-day range. */
  lemma ChangeMonthOfKey(s: Selection, y: int, m: int)
    requires 100 <= y <= 9999 && 1 <= m <= 12
    ensures ChangeMonth(s, MonthKey(y, m)).1 == Emit(MonthSpan(y, m))
  {
    MonthRangeOfKey(y, m);
  }

  /** Picking a listed year emits January 1 to December 31 of that year. */
  lemma ChangeYearOfOption(s: Selection, now: Date, i: nat)
    requires i < 5 && 104 <= now.year <= 9999
    ensures ChangeYear(s, YearOptions(now)[i]).1 == Emit(YearSpan(now.year - i))
  {
    var y := now.year - i;
    assert YearOptions(now)[i] == IntToString(y);
    IntToStringValue(y);
    ChangeYearOfText(s, IntToString(y), y);
  }

  lemma ChangeYearOfText(s: Selection, text: string, y: int)
    requires 100 <= y <= 9999 && ToNumber(text) == Some(y as real)
    ensures ChangeYear(s, text).1 == Emit(YearSpan(y))
  {
    YearRangeOfNumber(text, y);
  }
}
