/** Proleptic Gregorian calendar arithmetic as JavaScript's `Date` does it,
    with the local time zone taken to be UTC: day numbers counted from
    1970-01-01, month overflow in the `Date(y, m, d)` constructor, the
    time-value limit of ±100,000,000 days, and the date part of
    `toISOString`. */
module Calendar {
  import opened Wrappers
  import opened Strings
  import opened Numbers

  datatype Date = Date(year: int, month: int, day: int)

  predicate IsLeapYear(y: int) {
    y % 4 == 0 && (y % 100 != 0 || y % 400 == 0)
  }

  function DaysInMonth(y: int, m: int): (n: int)
    requires 1 <= m <= 12
    ensures 28 <= n <= 31
    ensures n == 29 <==> m == 2 && IsLeapYear(y)
  {
    if m == 2 then (if IsLeapYear(y) then 29 else 28)
    else if m == 4 || m == 6 || m == 9 || m == 11 then 30
    else 31
  }

  predicate ValidDate(d: Date) {
    1 <= d.month <= 12 && 1 <= d.day <= DaysInMonth(d.year, d.month)
  }

  function DaysInYear(y: int): int {
    if IsLeapYear(y) then 366 else 365
  }

  /** The day number of `y`-01-01. */
  function DaysBeforeYear(y: int): int
    decreases if y >= 1970 then y - 1970 else 1970 - y
  {
    if y == 1970 then 0
    else if y > 1970 then DaysBeforeYear(y - 1) + DaysInYear(y - 1)
    else DaysBeforeYear(y + 1) - DaysInYear(y)
  }

  /** Days of year `y` before the first of month `m`. */
  function DaysBeforeMonth(y: int, m: int): (n: int)
    requires 1 <= m <= 12
    ensures 0 <= n <= 335
  {
    var leap := if m > 2 && IsLeapYear(y) then 1 else 0;
    leap + (match m
      case 1 => 0 case 2 => 31 case 3 => 59 case 4 => 90 case 5 => 120 case 6 => 151
      case 7 => 181 case 8 => 212 case 9 => 243 case 10 => 273 case 11 => 304 case _ => 334)
  }

  /** Days since 1970-01-01 (negative before it). */
  function DayNumber(d: Date): int
    requires 1 <= d.month <= 12
  {
    DaysBeforeYear(d.year) + DaysBeforeMonth(d.year, d.month) + d.day - 1
  }

  lemma DaysBeforeYearStep(y: int)
    ensures DaysBeforeYear(y + 1) == DaysBeforeYear(y) + DaysInYear(y)
  {
  }

  lemma DaysBeforeMonthStep(y: int, m: int)
    requires 1 <= m < 12
    ensures DaysBeforeMonth(y, m + 1) == DaysBeforeMonth(y, m) + DaysInMonth(y, m)
  {
  }

  lemma DecemberEndsYear(y: int)
    ensures DaysBeforeMonth(y, 12) + DaysInMonth(y, 12) == DaysInYear(y)
  {
  }

  /** The day after `d`. */
  function NextDay(d: Date): (r: Date)
    requires ValidDate(d)
    ensures ValidDate(r) && DayNumber(r) == DayNumber(d) + 1
  {
    if d.day < DaysInMonth(d.year, d.month) then Date(d.year, d.month, d.day + 1)
    else if d.month < 12 then
      DaysBeforeMonthStep(d.year, d.month);
      Date(d.year, d.month + 1, 1)
    else
      DaysBeforeYearStep(d.year);
      DecemberEndsYear(d.year);
      Date(d.year + 1, 1, 1)
  }

  /** The day before `d`. */
  function PrevDay(d: Date): (r: Date)
    requires ValidDate(d)
    ensures ValidDate(r) && DayNumber(r) == DayNumber(d) - 1
  {
    if d.day > 1 then Date(d.year, d.month, d.day - 1)
    else if d.month > 1 then
      DaysBeforeMonthStep(d.year, d.month - 1);
      Date(d.year, d.month - 1, DaysInMonth(d.year, d.month - 1))
    else
      DaysBeforeYearStep(d.year - 1);
      DecemberEndsYear(d.year - 1);
      Date(d.year - 1, 12, 31)
  }

  /** `n` days after `d` (before it when `n` is negative). */
  function AddDays(d: Date, n: int): (r: Date)
    requires ValidDate(d)
    ensures ValidDate(r) && DayNumber(r) == DayNumber(d) + n
    decreases if n >= 0 then n else -n
  {
    if n == 0 then d
    else if n > 0 then AddDays(NextDay(d), n - 1)
    else AddDays(PrevDay(d), n + 1)
  }

  /** The first day of month index `mi` (0-based, any integer) counted from
      January of `y`: MakeDay's `y + floor(m / 12)` and `m modulo 12`. */
  function FirstOfMonth(y: int, mi: int): (r: Date)
    ensures ValidDate(r) && r.day == 1
    ensures r.year * 12 + r.month - 1 == y * 12 + mi
  {
    var total := y * 12 + mi;
    Date(total / 12, total % 12 + 1, 1)
  }

  /** The Date constructor's rule for two-digit years. */
  function JsYear(yi: int): (r: int)
    ensures 0 <= yi <= 99 ==> r == 1900 + yi
    ensures !(0 <= yi <= 99) ==> r == yi
  {
    if 0 <= yi <= 99 then 1900 + yi else yi
  }

  /** Whether a date lies within the range of JavaScript time values. */
  predicate InTimeRange(d: Date)
    requires 1 <= d.month <= 12
  {
    -100000000 <= DayNumber(d) <= 100000000
  }

  /** `new Date(y, m, d)` on finite arguments, or `None` for an Invalid Date. */
  function MakeDate(y: real, m: real, d: real): (r: Option<Date>)
    ensures r.Some? ==> ValidDate(r.value) && InTimeRange(r.value)
    ensures r.Some? ==> DayNumber(r.value) == DayNumber(FirstOfMonth(JsYear(Trunc(y)), Trunc(m))) + Trunc(d) - 1
  {
    var first := FirstOfMonth(JsYear(Trunc(y)), Trunc(m));
    var date := AddDays(first, Trunc(d) - 1);
    if InTimeRange(date) then Some(date) else None
  }

  // ---------------------------------------------------------------------
  // Day-number bounds
  // ---------------------------------------------------------------------

  lemma {:induction false} DaysBeforeYearBounds(y: int)
    ensures y >= 1970 ==> 365 * (y - 1970) <= DaysBeforeYear(y) <= 366 * (y - 1970)
    ensures y <= 1970 ==> 366 * (y - 1970) <= DaysBeforeYear(y) <= 365 * (y - 1970)
    decreases if y >= 1970 then y - 1970 else 1970 - y
  {
    if y > 1970 {
      DaysBeforeYearBounds(y - 1);
    } else if y < 1970 {
      DaysBeforeYearBounds(y + 1);
    }
  }

  /** Every valid date of a year between 0 and 9999 is a valid time value. */
  lemma FourDigitYearInRange(d: Date)
    requires ValidDate(d) && 0 <= d.year <= 9999
    ensures InTimeRange(d)
  {
    DaysBeforeYearBounds(d.year);
  }

  lemma {:induction false} DaysBeforeYearMonotone(y1: int, y2: int)
    requires y1 < y2
    ensures DaysBeforeYear(y1) + DaysInYear(y1) <= DaysBeforeYear(y2)
    decreases y2 - y1
  {
    DaysBeforeYearStep(y1);
    if y1 + 1 < y2 {
      DaysBeforeYearMonotone(y1 + 1, y2);
    }
  }

  lemma DaysBeforeMonthMonotone(y: int, m1: int, m2: int)
    requires 1 <= m1 < m2 <= 12
    ensures DaysBeforeMonth(y, m1) + DaysInMonth(y, m1) <= DaysBeforeMonth(y, m2)
  {
  }

  /** A day number falls inside its date's year. */
  lemma DayNumberInYear(d: Date)
    requires ValidDate(d)
    ensures DaysBeforeYear(d.year) <= DayNumber(d) < DaysBeforeYear(d.year) + DaysInYear(d.year)
  {
    if d.month < 12 {
      DaysBeforeMonthMonotone(d.year, d.month, 12);
    }
    DecemberEndsYear(d.year);
  }

  /** Day numbers identify dates: `AddDays` has exactly one possible result. */
  lemma DayNumberInjective(a: Date, b: Date)
    requires ValidDate(a) && ValidDate(b) && DayNumber(a) == DayNumber(b)
    ensures a == b
  {
    DayNumberInYear(a);
    DayNumberInYear(b);
    if a.year < b.year {
      DaysBeforeYearMonotone(a.year, b.year);
    } else if b.year < a.year {
      DaysBeforeYearMonotone(b.year, a.year);
    }
    if a.month < b.month {
      DaysBeforeMonthMonotone(a.year, a.month, b.month);
    } else if b.month < a.month {
      DaysBeforeMonthMonotone(a.year, b.month, a.month);
    }
  }

  /** Day numbers follow calendar order. */
  lemma DayNumberOrder(a: Date, b: Date)
    requires ValidDate(a) && ValidDate(b)
    ensures DayNumber(a) < DayNumber(b) <==> DateBefore(a, b)
  {
    DayNumberInYear(a);
    DayNumberInYear(b);
    if a.year < b.year {
      DaysBeforeYearMonotone(a.year, b.year);
    } else if b.year < a.year {
      DaysBeforeYearMonotone(b.year, a.year);
    } else if a.month < b.month {
      DaysBeforeMonthMonotone(a.year, a.month, b.month);
    } else if b.month < a.month {
      DaysBeforeMonthMonotone(a.year, b.month, a.month);
    }
  }

  /** Adding days inside one month only moves the day. */
  lemma {:induction false} AddDaysWithinMonth(d: Date, n: nat)
    requires ValidDate(d) && d.day + n <= DaysInMonth(d.year, d.month)
    ensures AddDays(d, n) == Date(d.year, d.month, d.day + n)
  {
    DayNumberInjective(AddDays(d, n), Date(d.year, d.month, d.day + n));
  }

  // ---------------------------------------------------------------------
  // toISOString
  // ---------------------------------------------------------------------

  /** The year as `toISOString` writes it: four digits for 0..9999, otherwise
      a sign and six digits. */
  function YearText(y: int): (s: string)
    ensures 0 <= y <= 9999 ==> s == FixedDigits(y, 4)
    ensures !(0 <= y <= 9999) ==> |s| == 7
  {
    if 0 <= y <= 9999 then FixedDigits(y, 4)
    else if y < 0 then "-" + FixedDigits(-y, 6)
    else "+" + FixedDigits(y, 6)
  }

  /** `date.toISOString().split('T')[0]`, the `YYYY-MM-DD` part. */
  function FormatDate(d: Date): (s: string)
    requires ValidDate(d)
    ensures |s| >= 10 && s[|s| - 6] == '-' && s[|s| - 3] == '-'
    ensures 0 <= d.year <= 9999 <==> |s| == 10
  {
    YearText(d.year) + "-" + FixedDigits(d.month, 2) + "-" + FixedDigits(d.day, 2)
  }

  /** `date.toISOString().substring(0, 7)`. */
  function FormatMonth(d: Date): (s: string)
    requires ValidDate(d)
    ensures 0 <= d.year <= 9999 ==> s == MonthKey(d.year, d.month)
  {
    var f := FormatDate(d);
    assert 0 <= d.year <= 9999 ==> f[..7] == FixedDigits(d.year, 4) + "-" + FixedDigits(d.month, 2);
    f[..7]
  }

  /** The `YYYY-MM` key of a month. */
  function MonthKey(y: nat, m: nat): (s: string)
    ensures |s| == 7 && s[4] == '-'
  {
    FixedDigits(y, 4) + "-" + FixedDigits(m, 2)
  }

  /** Reads a strict `YYYY-MM-DD` string naming a real calendar date. */
  function ParseIsoDate(s: string): (r: Option<Date>)
    ensures r.Some? ==> ValidDate(r.value) && 0 <= r.value.year <= 9999
  {
    if |s| == 10 && s[4] == '-' && s[7] == '-'
       && AllDigits(s[..4]) && AllDigits(s[5..7]) && AllDigits(s[8..])
    then
      DigitsValueBound(s[..4]);
      var d := Date(DigitsValue(s[..4]), DigitsValue(s[5..7]), DigitsValue(s[8..]));
      if ValidDate(d) then Some(d) else None
    else None
  }

  lemma FixedDigitsNoDash(n: nat, w: nat)
    ensures '-' !in FixedDigits(n, w)
  {
    var s := FixedDigits(n, w);
    assert forall i :: 0 <= i < |s| ==> IsDigit(s[i]);
  }

  /** Formatting a date of a four-digit year and parsing the text back gives
      the date. */
  lemma ParseFormatDate(d: Date)
    requires ValidDate(d) && 0 <= d.year <= 9999
    ensures ParseIsoDate(FormatDate(d)) == Some(d)
  {
    var s := FormatDate(d);
    assert s[..4] == FixedDigits(d.year, 4);
    assert s[5..7] == FixedDigits(d.month, 2);
    assert s[8..] == FixedDigits(d.day, 2);
    assert Pow10(4) == 10000 && Pow10(2) == 100;
    FixedDigitsValue(d.year, 4);
    FixedDigitsValue(d.month, 2);
    FixedDigitsValue(d.day, 2);
  }

  /** A string the parser accepts is exactly the formatting of what it read. */
  lemma FormatParsedDate(s: string)
    requires ParseIsoDate(s).Some?
    ensures FormatDate(ParseIsoDate(s).value) == s
  {
    var d := ParseIsoDate(s).value;
    DigitsRoundTrip(s[..4]);
    DigitsRoundTrip(s[5..7]);
    DigitsRoundTrip(s[8..]);
    assert s == s[..4] + "-" + s[5..7] + "-" + s[8..];
  }

  // ---------------------------------------------------------------------
  // Ordinal order of ISO dates
  // ---------------------------------------------------------------------

  /** Calendar order: by year, then month, then day. */
  predicate DateBefore(a: Date, b: Date) {
    a.year < b.year
    || (a.year == b.year && a.month < b.month)
    || (a.year == b.year && a.month == b.month && a.day < b.day)
  }

  /** Two strings with equal-length heads compare by the heads first. */
  lemma StrLessConcat(p1: string, q1: string, p2: string, q2: string)
    requires |p1| == |p2|
    ensures StrLess(p1 + q1, p2 + q2) <==> StrLess(p1, p2) || (p1 == p2 && StrLess(q1, q2))
  {
    if p1 == p2 {
      StrLessCommonPrefix(p1, q1, q2);
      StrLessIrreflexive(p1);
    } else {
      var k := |p1|;
      assert (p1 + q1)[..k] == p1 && (p2 + q2)[..k] == p2;
      StrLessDecidedByPrefix(p1 + q1, p2 + q2, k);
    }
  }

  /** Zero-padded numbers of one width compare like the numbers. */
  lemma FixedDigitsOrder(a: nat, b: nat, w: nat)
    requires a < Pow10(w) && b < Pow10(w)
    ensures StrLess(FixedDigits(a, w), FixedDigits(b, w)) <==> a < b
    ensures FixedDigits(a, w) == FixedDigits(b, w) <==> a == b
  {
    FixedDigitsValue(a, w);
    FixedDigitsValue(b, w);
    StrLessDigits(FixedDigits(a, w), FixedDigits(b, w));
  }

  /** `-x` against `-y`: the dash is a common prefix. */
  lemma DashTail(x: string, y: string)
    ensures StrLess("-" + x, "-" + y) <==> StrLess(x, y)
  {
    StrLessCommonPrefix("-", x, y);
  }

  /** Dash-separated fields of equal widths compare field by field. */
  lemma FieldsOrder(ya: string, ma: string, da: string, yb: string, mb: string, db: string)
    requires |ya| == |yb| && |ma| == |mb|
    ensures StrLess(ya + "-" + ma + "-" + da, yb + "-" + mb + "-" + db)
        <==> StrLess(ya, yb) || (ya == yb && (StrLess(ma, mb) || (ma == mb && StrLess(da, db))))
  {
    var ta, tb := "-" + da, "-" + db;
    var ua, ub := "-" + (ma + ta), "-" + (mb + tb);
    DashTail(da, db);
    StrLessConcat(ma, ta, mb, tb);
    DashTail(ma + ta, mb + tb);
    StrLessConcat(ya, ua, yb, ub);
    assert ya + "-" + ma + "-" + da == ya + ua;
    assert yb + "-" + mb + "-" + db == yb + ub;
  }

  /** For dates of four-digit years, ordinal order of the `YYYY-MM-DD` text
      is calendar order, so dates can be compared as strings. */
  lemma FormatDateOrder(a: Date, b: Date)
    requires ValidDate(a) && ValidDate(b) && 0 <= a.year <= 9999 && 0 <= b.year <= 9999
    ensures StrLess(FormatDate(a), FormatDate(b)) <==> DateBefore(a, b)
  {
    assert Pow10(4) == 10000 && Pow10(2) == 100;
    FixedDigitsOrder(a.year, b.year, 4);
    FixedDigitsOrder(a.month, b.month, 2);
    FixedDigitsOrder(a.day, b.day, 2);
    FieldsOrder(FixedDigits(a.year, 4), FixedDigits(a.month, 2), FixedDigits(a.day, 2),
                FixedDigits(b.year, 4), FixedDigits(b.month, 2), FixedDigits(b.day, 2));
  }

  /** Distinct dates of four-digit years have distinct texts. */
  lemma FormatDateInjective(a: Date, b: Date)
    requires ValidDate(a) && ValidDate(b) && 0 <= a.year <= 9999 && 0 <= b.year <= 9999
    requires FormatDate(a) == FormatDate(b)
    ensures a == b
  {
    ParseFormatDate(a);
    ParseFormatDate(b);
  }
}
