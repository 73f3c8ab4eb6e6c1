/** The date helpers of the program: month and year ranges, rolling day
    ranges and lists of month keys. The clock reading `now` is a parameter
    and every Date is read in UTC. A result is `None` where the program
    would format an Invalid Date, on which `toISOString` throws. */
module DateUtils {
  import opened Wrappers
  import opened Strings
  import opened Numbers
  import opened Types
  import opened Calendar

  /** `{ startDate: formatDate(start), endDate: formatDate(end) }`. */
  function RangeOf(start: Option<Date>, end: Option<Date>): (r: Option<DateRange>)
    requires start.Some? ==> ValidDate(start.value)
    requires end.Some? ==> ValidDate(end.value)
    ensures r.Some? <==> start.Some? && end.Some?
  {
    if start.Some? && end.Some? then
      Some(DateRange(FormatDate(start.value), FormatDate(end.value)))
    else None
  }

  lemma RangeOfSome(start: Option<Date>, end: Option<Date>)
    requires start.Some? && end.Some? && ValidDate(start.value) && ValidDate(end.value)
    ensures RangeOf(start, end) == Some(DateRange(FormatDate(start.value), FormatDate(end.value)))
  {
  }

  /** The first and the last day of month `m` (1..12) of year `y`: the range
      a month key stands for. */
  function MonthSpan(y: int, m: int): DateRange
    requires 1 <= m <= 12
  {
    DateRange(FormatDate(Date(y, m, 1)), FormatDate(Date(y, m, DaysInMonth(y, m))))
  }

  /** January 1 to December 31 of year `y`. */
  function YearSpan(y: int): DateRange {
    DateRange(FormatDate(Date(y, 1, 1)), FormatDate(Date(y, 12, 31)))
  }

  /** `getCurrentMonth()`. */
  function CurrentMonth(now: Date): (r: string)
    requires ValidDate(now)
    ensures 0 <= now.year <= 9999 ==> r == MonthKey(now.year, now.month)
  {
    FormatMonth(now)
  }

  /** `getCurrentYear()`: the year as `toString` writes it. */
  function CurrentYear(now: Date): (r: string)
    ensures now.year >= 0 ==> AllDigits(r) && |r| > 0
    ensures now.year >= 0 ==> ToNumber(r) == Some(now.year as real)
  {
    if now.year >= 0 then
      NatToStringValue(now.year);
      ToNumberDigits(NatToString(now.year));
      IntToString(now.year)
    else IntToString(now.year)
  }

  /** `new Date(y, m, d)` on whole numbers: no truncation happens. */
  lemma MakeDateOfInts(y: int, m: int, d: int)
    ensures MakeDate(y as real, m as real, d as real)
         == var date := AddDays(FirstOfMonth(JsYear(y), m), d - 1);
            if InTimeRange(date) then Some(date) else None
  {
    TruncOfInt(y);
    TruncOfInt(m);
    TruncOfInt(d);
  }

  /** `new Date(y, mi, 1)` is the first of the month `mi` months after
      January of `y`, when `y` is not a two-digit year and that month falls
      in a four-digit year. */
  lemma MakeFirstOfMonth(y: int, mi: int)
    requires !(0 <= y <= 99)
    requires 0 <= FirstOfMonth(y, mi).year <= 9999
    ensures MakeDate(y as real, mi as real, 1.0) == Some(FirstOfMonth(y, mi))
  {
    MakeDateOfInts(y, mi, 1);
    assert JsYear(y) == y;
    assert AddDays(FirstOfMonth(y, mi), 0) == FirstOfMonth(y, mi);
    FourDigitYearInRange(FirstOfMonth(y, mi));
  }

  /** Month index `m - 1` of year `y` is month `m`. */
  lemma FirstOfMonthInYear(y: int, m: int)
    requires 1 <= m <= 12
    ensures FirstOfMonth(y, m - 1) == Date(y, m, 1)
  {
    assert (y * 12 + (m - 1)) / 12 == y;
    assert (y * 12 + (m - 1)) % 12 == m - 1;
  }

  /** `new Date(y, m - 1, 1)` is the first day of month `m`, for a year the
      Date constructor takes literally. */
  lemma MonthStartDate(y: int, m: int)
    requires 100 <= y <= 9999 && 1 <= m <= 12
    ensures MakeDate(y as real, (m - 1) as real, 1.0) == Some(Date(y, m, 1))
  {
    FirstOfMonthInYear(y, m);
    MakeFirstOfMonth(y, m - 1);
  }

  /** `new Date(y, m, 0)` is the last day of month `m`. */
  lemma MonthEndDate(y: int, m: int)
    requires 100 <= y <= 9999 && 1 <= m <= 12
    ensures MakeDate(y as real, m as real, 0.0) == Some(Date(y, m, DaysInMonth(y, m)))
  {
    MakeDateOfInts(y, m, 0);
    var next := FirstOfMonth(y, m);
    assert AddDays(next, -1) == PrevDay(next);
    var last := Date(y, m, DaysInMonth(y, m));
    assert PrevDay(next) == last;
    FourDigitYearInRange(last);
  }

  lemma MonthBoundDates(y: int, m: int)
    requires 100 <= y <= 9999 && 1 <= m <= 12
    ensures MakeDate(y as real, (m - 1) as real, 1.0) == Some(Date(y, m, 1))
    ensures MakeDate(y as real, m as real, 0.0) == Some(Date(y, m, DaysInMonth(y, m)))
  {
    MonthStartDate(y, m);
    MonthEndDate(y, m);
  }

  /** `new Date(y, m - 1, 1)` with the subtraction done on numbers. */
  lemma MonthStartOfNumber(y: int, m: int)
    requires 100 <= y <= 9999 && 1 <= m <= 12
    ensures MakeDate(y as real, m as real - 1.0, 1.0) == Some(Date(y, m, 1))
  {
    assert (m as real) - 1.0 == (m - 1) as real;
    MonthStartDate(y, m);
  }

  /** `getCurrentMonthRange()`. */
  function CurrentMonthRange(now: Date): (r: Option<DateRange>)
    requires ValidDate(now)
    ensures 100 <= now.year <= 9999 ==> r == Some(MonthSpan(now.year, now.month))
  {
    var start := MakeDate(now.year as real, (now.month - 1) as real, 1.0);
    var end := MakeDate(now.year as real, now.month as real, 0.0);
    if 100 <= now.year <= 9999 then
      MonthStartDate(now.year, now.month);
      MonthEndDate(now.year, now.month);
      RangeOfSome(start, end);
      RangeOf(start, end)
    else RangeOf(start, end)
  }

  /** `getMonthRange(yearMonth)`: both halves of the key go through `Number`;
      a key without a dash leaves the month undefined, hence NaN. */
  function MonthRange(yearMonth: string): (r: Option<DateRange>)
    ensures |Split(yearMonth, '-')| < 2 ==> r.None?
    ensures r.Some? ==> ToNumber(Split(yearMonth, '-')[0]).Some?
    ensures r.Some? ==> ToNumber(Split(yearMonth, '-')[1]).Some?
  {
    var parts := Split(yearMonth, '-');
    if |parts| < 2 then None
    else NumbersMonthRange(ToNumber(parts[0]), ToNumber(parts[1]))
  }

  /** The month range of an already converted year and month. */
  function NumbersMonthRange(year: Option<real>, month: Option<real>): (r: Option<DateRange>)
    ensures r.Some? ==> year.Some? && month.Some?
  {
    if year.Some? && month.Some? then
      RangeOf(MakeDate(year.value, month.value - 1.0, 1.0), MakeDate(year.value, month.value, 0.0))
    else None
  }

  /** A `YYYY-MM` key splits at its dash into its two fields. */
  lemma SplitMonthKey(y: nat, m: nat)
    ensures Split(MonthKey(y, m), '-') == [FixedDigits(y, 4), FixedDigits(m, 2)]
  {
    var ys, ms := FixedDigits(y, 4), FixedDigits(m, 2);
    FixedDigitsNoDash(y, 4);
    FixedDigitsNoDash(m, 2);
    assert MonthKey(y, m) == ys + ['-'] + ms;
    SplitAfterPiece(ys, '-', ms);
    SplitWithout(ms, '-');
  }

  /** `Number` reads a zero-padded field back as its value. */
  lemma NumberOfFixedDigits(n: nat, w: nat)
    requires w > 0 && n < Pow10(w)
    ensures ToNumber(FixedDigits(n, w)) == Some(n as real)
  {
    FixedDigitsValue(n, w);
    ToNumberDigits(FixedDigits(n, w));
  }

  lemma NumberOfYearKey(y: int)
    requires 0 <= y <= 9999
    ensures ToNumber(FixedDigits(y, 4)) == Some(y as real)
  {
    assert Pow10(4) == 10000;
    NumberOfFixedDigits(y, 4);
  }

  lemma NumberOfMonthField(m: int)
    requires 0 <= m <= 99
    ensures ToNumber(FixedDigits(m, 2)) == Some(m as real)
  {
    assert Pow10(2) == 100;
    NumberOfFixedDigits(m, 2);
  }

  /** Any text whose first two dash-separated pieces read as `y` and `m`
      has the range of month `m` of `y`. */
  lemma MonthRangeOfNumbers(text: string, y: int, m: int)
    requires 100 <= y <= 9999 && 1 <= m <= 12
    requires |Split(text, '-')| >= 2
    requires ToNumber(Split(text, '-')[0]) == Some(y as real)
    requires ToNumber(Split(text, '-')[1]) == Some(m as real)
    ensures MonthRange(text) == Some(MonthSpan(y, m))
  {
    NumbersMonthRangeOfInts(y, m);
  }

  lemma NumbersMonthRangeOfInts(y: int, m: int)
    requires 100 <= y <= 9999 && 1 <= m <= 12
    ensures NumbersMonthRange(Some(y as real), Some(m as real)) == Some(MonthSpan(y, m))
  {
    MonthStartOfNumber(y, m);
    MonthEndDate(y, m);
    RangeOfSome(MakeDate(y as real, m as real - 1.0, 1.0), MakeDate(y as real, m as real, 0.0));
  }

  /** The range of a `YYYY-MM` key runs from the first to the last day of
      that month, 28, 29, 30 or 31 days later under the Gregorian rule. */
  lemma MonthRangeOfKey(y: int, m: int)
    requires 100 <= y <= 9999 && 1 <= m <= 12
    ensures MonthRange(MonthKey(y, m)) == Some(MonthSpan(y, m))
  {
    SplitMonthKey(y, m);
    NumberOfYearKey(y);
    NumberOfMonthField(m);
    MonthRangeOfNumbers(MonthKey(y, m), y, m);
  }

  /** The current month's range is the range of the current month's key. */
  lemma CurrentMonthRangeIsMonthRange(now: Date)
    requires ValidDate(now) && 100 <= now.year <= 9999
    ensures CurrentMonthRange(now) == MonthRange(CurrentMonth(now))
  {
    MonthRangeOfKey(now.year, now.month);
  }

  /** Both bounds of a month's range begin with its key and the start does
      not exceed the end; a valid `YYYY-MM-DD` string lies between them, in
      string order, exactly when its date falls in that month, which is
      exactly when it begins with the key. Comparing date strings against
      the range is therefore a month test. */
  lemma MonthRangeFilterSound(y: int, m: int, s: string)
    requires 0 <= y <= 9999 && 1 <= m <= 12
    requires ParseIsoDate(s).Some?
    ensures MonthSpan(y, m).startDate[..7] == MonthKey(y, m) == MonthSpan(y, m).endDate[..7]
    ensures StrLessEq(MonthSpan(y, m).startDate, MonthSpan(y, m).endDate)
    ensures StrLessEq(MonthSpan(y, m).startDate, s) && StrLessEq(s, MonthSpan(y, m).endDate)
        <==> ParseIsoDate(s).value.year == y && ParseIsoDate(s).value.month == m
    ensures ParseIsoDate(s).value.year == y && ParseIsoDate(s).value.month == m
        <==> s[..7] == MonthKey(y, m)
  {
    MonthSpanBounds(y, m);
    AfterMonthStart(y, m, s);
    BeforeMonthEnd(y, m, s);
    MonthOfDate(ParseIsoDate(s).value, y, m);
    DatePrefixIsKey(y, m, s);
  }

  lemma MonthSpanBounds(y: int, m: int)
    requires 0 <= y <= 9999 && 1 <= m <= 12
    ensures MonthSpan(y, m).startDate[..7] == MonthKey(y, m) == MonthSpan(y, m).endDate[..7]
    ensures StrLessEq(MonthSpan(y, m).startDate, MonthSpan(y, m).endDate)
  {
    var first, last := Date(y, m, 1), Date(y, m, DaysInMonth(y, m));
    assert FormatDate(first)[..7] == MonthKey(y, m);
    assert FormatDate(last)[..7] == MonthKey(y, m);
    FormatDateOrder(last, first);
  }

  lemma AfterMonthStart(y: int, m: int, s: string)
    requires 0 <= y <= 9999 && 1 <= m <= 12
    requires ParseIsoDate(s).Some?
    ensures StrLessEq(MonthSpan(y, m).startDate, s) <==> !DateBefore(ParseIsoDate(s).value, Date(y, m, 1))
  {
    FormatParsedDate(s);
    FormatDateOrder(ParseIsoDate(s).value, Date(y, m, 1));
  }

  lemma BeforeMonthEnd(y: int, m: int, s: string)
    requires 0 <= y <= 9999 && 1 <= m <= 12
    requires ParseIsoDate(s).Some?
    ensures StrLessEq(s, MonthSpan(y, m).endDate) <==> !DateBefore(Date(y, m, DaysInMonth(y, m)), ParseIsoDate(s).value)
  {
    FormatParsedDate(s);
    FormatDateOrder(Date(y, m, DaysInMonth(y, m)), ParseIsoDate(s).value);
  }

  /** A date lies between a month's first and last day exactly when it is in
      that month. */
  lemma MonthOfDate(d: Date, y: int, m: int)
    requires ValidDate(d) && 1 <= m <= 12
    ensures !DateBefore(d, Date(y, m, 1)) && !DateBefore(Date(y, m, DaysInMonth(y, m)), d)
        <==> d.year == y && d.month == m
  {
  }

  /** A valid date string begins with the key of its own month. */
  lemma DatePrefixIsKey(y: int, m: int, s: string)
    requires 0 <= y <= 9999 && 1 <= m <= 12
    requires ParseIsoDate(s).Some?
    ensures ParseIsoDate(s).value.year == y && ParseIsoDate(s).value.month == m
        <==> s[..7] == MonthKey(y, m)
  {
    var d := ParseIsoDate(s).value;
    FormatParsedDate(s);
    assert s[..7] == MonthKey(d.year, d.month);
    assert Pow10(4) == 10000 && Pow10(2) == 100;
    MonthKeyInjective(y, m, d.year, d.month);
  }

  /** Distinct months of four-digit years have distinct keys. */
  lemma MonthKeyInjective(y1: int, m1: int, y2: int, m2: int)
    requires 0 <= y1 <= 9999 && 0 <= y2 <= 9999 && 0 <= m1 < 100 && 0 <= m2 < 100
    ensures MonthKey(y1, m1) == MonthKey(y2, m2) <==> y1 == y2 && m1 == m2
  {
    assert Pow10(4) == 10000 && Pow10(2) == 100;
    var k1, k2 := MonthKey(y1, m1), MonthKey(y2, m2);
    if k1 == k2 {
      assert k1[..4] == FixedDigits(y1, 4) && k2[..4] == FixedDigits(y2, 4);
      assert k1[5..] == FixedDigits(m1, 2) && k2[5..] == FixedDigits(m2, 2);
      FixedDigitsOrder(y1, y2, 4);
      FixedDigitsOrder(m1, m2, 2);
    }
  }


  /** `getYearRange(year)`. */
  function YearRange(year: string): (r: Option<DateRange>)
    ensures ToNumber(year).None? ==> r.None?
  {
    match ToNumber(year)
    case Some(y) => RangeOf(MakeDate(y, 0.0, 1.0), MakeDate(y, 11.0, 31.0))
    case None => None
  }

  /** `new Date(y, 0, 1)` is January 1 of a year the Date constructor
      takes literally. */
  lemma YearStartDate(y: int)
    requires 100 <= y <= 9999
    ensures MakeDate(y as real, 0.0, 1.0) == Some(Date(y, 1, 1))
  {
    MonthStartDate(y, 1);
  }

  /** `new Date(y, 11, 31)` is December 31. */
  lemma YearEndDate(y: int)
    requires 100 <= y <= 9999
    ensures MakeDate(y as real, 11.0, 31.0) == Some(Date(y, 12, 31))
  {
    MakeDateOfInts(y, 11, 31);
    DecemberLastDay(y);
    FourDigitYearInRange(Date(y, 12, 31));
  }

  /** Day 31 of month index 11 is December 31. */
  lemma DecemberLastDay(y: int)
    ensures AddDays(FirstOfMonth(JsYear(y), 11), 30) == Date(JsYear(y), 12, 31)
  {
    var first := FirstOfMonth(JsYear(y), 11);
    assert first == Date(JsYear(y), 12, 1);
    AddDaysWithinMonth(first, 30);
  }

  lemma YearBoundDates(y: int)
    requires 100 <= y <= 9999
    ensures MakeDate(y as real, 0.0, 1.0) == Some(Date(y, 1, 1))
    ensures MakeDate(y as real, 11.0, 31.0) == Some(Date(y, 12, 31))
  {
    YearStartDate(y);
    YearEndDate(y);
  }

  /** The range of any text that reads as year `y` runs from January 1 to
      December 31 of `y`. */
  lemma YearRangeOfNumber(year: string, y: int)
    requires 100 <= y <= 9999 && ToNumber(year) == Some(y as real)
    ensures YearRange(year) == Some(YearSpan(y))
  {
    YearBoundDates(y);
  }

  /** In particular the range of a `YYYY` key. */
  lemma YearRangeOfKey(y: int)
    requires 100 <= y <= 9999
    ensures YearRange(FixedDigits(y, 4)) == Some(YearSpan(y))
  {
    NumberOfYearKey(y);
    YearRangeOfNumber(FixedDigits(y, 4), y);
  }

  /** `getCurrentYearRange()`. */
  function CurrentYearRange(now: Date): (r: Option<DateRange>) {
    RangeOf(MakeDate(now.year as real, 0.0, 1.0), MakeDate(now.year as real, 11.0, 31.0))
  }

  /** The current year's range is the range of the current year's text and
      runs from January 1 to December 31. */
  lemma CurrentYearRangeIsYearRange(now: Date)
    requires 100 <= now.year <= 9999
    ensures CurrentYearRange(now) == YearRange(CurrentYear(now)) == Some(YearSpan(now.year))
  {
    YearBoundDates(now.year);
    YearRangeOfNumber(CurrentYear(now), now.year);
  }

  /** `date.setDate(dt)`: day `dt` of the date's month, counted on past the
      month's ends; `None` when the result leaves the time range. */
  function SetDate(d: Date, dt: int): (r: Option<Date>)
    requires ValidDate(d)
    ensures r.Some? ==> ValidDate(r.value) && InTimeRange(r.value)
    ensures r.Some? ==> DayNumber(r.value) == DayNumber(d) + dt - d.day
  {
    var date := AddDays(Date(d.year, d.month, 1), dt - 1);
    if InTimeRange(date) then Some(date) else None
  }

  /** The range from `n` days before `now` to `now`, built as
      `getLast30DaysRange` and `getLast90DaysRange` build it: the end is
      today and the start is exactly `n` days earlier. */
  function LastDaysRange(now: Date, n: int): (r: Option<DateRange>)
    requires ValidDate(now)
    ensures InTimeRange(AddDays(now, -n)) ==> r == Some(DateRange(FormatDate(AddDays(now, -n)), FormatDate(now)))
    ensures !InTimeRange(AddDays(now, -n)) ==> r.None?
  {
    var start := SetDate(now, now.day - n);
    var back := AddDays(now, -n);
    var moved := AddDays(Date(now.year, now.month, 1), now.day - n - 1);
    DayNumberInjective(moved, back);
    RangeOf(start, Some(now))
  }

  /** `getLast30DaysRange()`. */
  function Last30DaysRange(now: Date): Option<DateRange>
    requires ValidDate(now)
  {
    LastDaysRange(now, 30)
  }

  /** `getLast90DaysRange()`. */
  function Last90DaysRange(now: Date): Option<DateRange>
    requires ValidDate(now)
  {
    LastDaysRange(now, 90)
  }

  /** `new Date(now.getFullYear(), now.getMonth() - i, 1)`. */
  function MonthsBack(now: Date, i: int): Option<Date> {
    MakeDate(now.year as real, (now.month - 1 - i) as real, 1.0)
  }

  /** `formatMonth` of the date `i` months back, for each `i`. */
  function MonthsBackKey(now: Date): int -> Option<string> {
    (i: int) =>
      match MonthsBack(now, i)
      case Some(d) => Some(FormatMonth(d))
      case None => None
  }

  /** The loop both month lists share: push `key(i)` for `i` from 0 while
      `i < n`, failing as soon as a key cannot be formatted. */
  method CollectKeys(key: int -> Option<string>, n: int) returns (r: Option<seq<string>>)
    ensures r.Some? <==> forall i :: 0 <= i < n ==> key(i).Some?
    ensures r.Some? ==> |r.value| == if n > 0 then n else 0
    ensures r.Some? ==> forall i :: 0 <= i < |r.value| ==> key(i) == Some(r.value[i])
  {
    var result: seq<string> := [];
    var i := 0;
    while i < n
      invariant 0 <= i && (n > 0 ==> i <= n) && (n <= 0 ==> i == 0)
      invariant |result| == i
      invariant forall j :: 0 <= j < i ==> key(j) == Some(result[j])
    {
      var k := key(i);
      if k.None? {
        return None;
      }
      result := result + [k.value];
      i := i + 1;
    }
    return Some(result);
  }

  /** `getLastNMonths(n)`, or `None` when some month cannot be formatted. */
  method LastNMonths(now: Date, n: int) returns (r: Option<seq<string>>)
    ensures r.Some? <==> forall i :: 0 <= i < n ==> MonthsBackKey(now)(i).Some?
    ensures r.Some? ==> |r.value| == if n > 0 then n else 0
    ensures r.Some? ==> forall i :: 0 <= i < |r.value| ==> MonthsBackKey(now)(i) == Some(r.value[i])
  {
    r := CollectKeys(MonthsBackKey(now), n);
  }

  /** The first day of the month one before `d`'s, wrapping at January. */
  function PrevMonthStart(d: Date): (r: Date) {
    if d.month == 1 then Date(d.year - 1, 12, 1) else Date(d.year, d.month - 1, 1)
  }

  /** Counting back `i` months from a four-digit current year, as long as
      the year stays non-negative, gives the first of that month. */
  lemma MonthsBackValue(now: Date, i: int)
    requires ValidDate(now) && 100 <= now.year <= 9999
    requires 0 <= i <= now.year * 12 + now.month - 1
    ensures MonthsBack(now, i) == Some(FirstOfMonth(now.year, now.month - 1 - i))
    ensures 0 <= MonthsBack(now, i).value.year <= now.year
  {
    var total := now.year * 12 + (now.month - 1 - i);
    assert 0 <= total / 12 <= now.year;
    MakeFirstOfMonth(now.year, now.month - 1 - i);
  }

  /** The month list starts with the current month. */
  lemma LastNMonthsStart(now: Date)
    requires ValidDate(now) && 100 <= now.year <= 9999
    ensures MonthsBack(now, 0) == Some(Date(now.year, now.month, 1))
    ensures MonthsBackKey(now)(0) == Some(CurrentMonth(now))
  {
    FirstOfMonthInYear(now.year, now.month);
    MonthStartDate(now.year, now.month);
  }

  /** Each entry of the month list is the month before the previous entry,
      the year wrapping at January. */
  lemma LastNMonthsStep(now: Date, i: int)
    requires ValidDate(now) && 100 <= now.year <= 9999
    requires 0 <= i < now.year * 12 + now.month - 1
    ensures MonthsBack(now, i).Some? && MonthsBack(now, i + 1).Some?
    ensures MonthsBack(now, i + 1).value == PrevMonthStart(MonthsBack(now, i).value)
  {
    MonthsBackValue(now, i);
    MonthsBackValue(now, i + 1);
  }

  /** Each entry is the `YYYY-MM` key of its month. */
  lemma LastNMonthsKey(now: Date, i: int)
    requires ValidDate(now) && 100 <= now.year <= 9999
    requires 0 <= i <= now.year * 12 + now.month - 1
    ensures MonthsBack(now, i).Some?
    ensures MonthsBackKey(now)(i) == Some(MonthKey(MonthsBack(now, i).value.year, MonthsBack(now, i).value.month))
  {
    MonthsBackValue(now, i);
  }

  /** `new Date(Number(year), month, 1)`. */
  function MonthOfYear(year: string, month: int): Option<Date> {
    match ToNumber(year)
    case Some(y) => MakeDate(y, month as real, 1.0)
    case None => None
  }

  /** `formatMonth` of month index `month` of the year, for each index. */
  function MonthOfYearKey(year: string): int -> Option<string> {
    (month: int) =>
      match MonthOfYear(year, month)
      case Some(d) => Some(FormatMonth(d))
      case None => None
  }

  /** `getMonthsInYear(year)`, or `None` when the year is not a number or
      its months cannot be formatted. */
  method MonthsInYear(year: string) returns (r: Option<seq<string>>)
    ensures r.Some? <==> forall i :: 0 <= i < 12 ==> MonthOfYearKey(year)(i).Some?
    ensures r.Some? ==> |r.value| == 12
    ensures r.Some? ==> forall i :: 0 <= i < 12 ==> MonthOfYearKey(year)(i) == Some(r.value[i])
  {
    r := CollectKeys(MonthOfYearKey(year), 12);
  }

  /** Month `i` of any text that reads as year `y`. */
  lemma MonthOfYearOfNumber(year: string, y: int, i: int)
    requires 100 <= y <= 9999 && 0 <= i < 12
    requires ToNumber(year) == Some(y as real)
    ensures MonthOfYear(year, i) == Some(Date(y, i + 1, 1))
  {
    MonthStartDate(y, i + 1);
  }

  /** For a `YYYY` key, month `i` counted from 0 is the first of month
      `i + 1` of that year and formats as the key `YYYY-MM`. */
  lemma MonthsInYearKey(y: int, i: int)
    requires 100 <= y <= 9999 && 0 <= i < 12
    ensures MonthOfYear(FixedDigits(y, 4), i) == Some(Date(y, i + 1, 1))
    ensures MonthOfYearKey(FixedDigits(y, 4))(i) == Some(MonthKey(y, i + 1))
  {
    NumberOfYearKey(y);
    MonthOfYearOfNumber(FixedDigits(y, 4), y, i);
  }

  /** The keys of one year's months ascend with the month. */
  lemma MonthKeyOrder(y: int, a: int, b: int)
    requires 0 <= y <= 9999 && 0 <= a < 100 && 0 <= b < 100
    ensures StrLess(MonthKey(y, a), MonthKey(y, b)) <==> a < b
  {
    assert Pow10(2) == 100;
    var p := FixedDigits(y, 4) + "-";
    assert MonthKey(y, a) == p + FixedDigits(a, 2);
    assert MonthKey(y, b) == p + FixedDigits(b, 2);
    StrLessCommonPrefix(p, FixedDigits(a, 2), FixedDigits(b, 2));
    FixedDigitsOrder(a, b, 2);
  }
}
