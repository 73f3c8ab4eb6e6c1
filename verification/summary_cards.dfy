/** The report's summary cards: the change of each figure against the
    previous period, the sign its text carries, and the trend it shows. */
module SummaryCards {
  import opened Wrappers

  /** `calculateChange`: the change in percent of the previous value; an
      absent or zero previous value gives 0. */
  function Change(current: real, previous: Option<real>): (r: real)
    ensures previous.None? || previous.value == 0.0 ==> r == 0.0
    ensures previous.Some? && previous.value != 0.0 ==> r * previous.value == (current - previous.value) * 100.0
  {
    if previous.None? || previous.value == 0.0 then 0.0
    else (current - previous.value) / previous.value * 100.0
  }

  /** An unchanged figure shows no change; against a positive previous value
      the change is positive exactly when the figure grew and negative
      exactly when it shrank; against a negative previous value the signs
      are swapped. */
  lemma ChangeMeaning(current: real, previous: real)
    ensures Change(previous, Some(previous)) == 0.0
    ensures previous > 0.0 ==> (Change(current, Some(previous)) > 0.0 <==> current > previous)
    ensures previous > 0.0 ==> (Change(current, Some(previous)) < 0.0 <==> current < previous)
    ensures previous < 0.0 ==> (Change(current, Some(previous)) > 0.0 <==> current < previous)
  {
    if previous != 0.0 {
      var r := Change(current, Some(previous));
      SignOfQuotient(r, previous, current - previous);
    }
  }

  /** The sign of `r` when `r * d == n * 100` and `d` is not zero. */
  lemma SignOfQuotient(r: real, d: real, n: real)
    requires d != 0.0 && r * d == n * 100.0
    ensures d > 0.0 ==> (r > 0.0 <==> n > 0.0) && (r < 0.0 <==> n < 0.0)
    ensures d < 0.0 ==> (r > 0.0 <==> n < 0.0)
  {
    if r > 0.0 {
      if d > 0.0 { assert r * d > 0.0; } else { assert r * d < 0.0; }
    } else if r < 0.0 {
      if d > 0.0 { assert r * d < 0.0; } else { assert r * d > 0.0; }
    } else {
      assert r * d == 0.0;
    }
  }

  /** The change measured back from the new value: applying it to the
      previous value gives the current one. */
  lemma ChangeRestores(current: real, previous: real)
    requires previous != 0.0
    ensures previous + previous * Change(current, Some(previous)) / 100.0 == current
  {
  }

  /** `formatChange`: a `+` before a positive change, then the change with
      one decimal (`fixed`, the text of `change.toFixed(1)`) and `%`. */
  function FormatChange(change: real, fixed: string): (r: string)
    ensures |r| > 0 && r[|r| - 1] == '%'
    ensures change > 0.0 ==> r == "+" + fixed + "%"
    ensures change <= 0.0 ==> r == fixed + "%"
  {
    (if change > 0.0 then "+" else "") + fixed + "%"
  }

  /** `toFixed` never writes a plus sign, so the text starts with `+`
      exactly when the change is positive. */
  lemma FormatChangeSign(change: real, fixed: string)
    requires |fixed| > 0 && fixed[0] != '+'
    ensures FormatChange(change, fixed)[0] == '+' <==> change > 0.0
    ensures change > 0.0 ==> FormatChange(change, fixed)[1..] == fixed + "%"
  {
  }

  /** The icon next to a change: up when positive, down when negative, none
      otherwise. The colour follows the sign on the income and balance cards
      and is inverted on the expenses card, where a rise is shown in red. */
  datatype Trend = Up | Down | Flat

  function TrendOf(change: real): (t: Trend)
    ensures t == Up <==> change > 0.0
    ensures t == Down <==> change < 0.0
  {
    if change > 0.0 then Up else if change < 0.0 then Down else Flat
  }

  /** Against a positive previous value the trend follows the figure: up
      when it grew, down when it shrank, flat when it stayed; with no
      previous value there is no trend. */
  lemma TrendMeaning(current: real, previous: real)
    ensures TrendOf(Change(current, None)) == Flat
    ensures previous > 0.0 ==> (TrendOf(Change(current, Some(previous))) == Up <==> current > previous)
    ensures previous > 0.0 ==> (TrendOf(Change(current, Some(previous))) == Down <==> current < previous)
    ensures previous > 0.0 ==> (TrendOf(Change(current, Some(previous))) == Flat <==> current == previous)
  {
    ChangeMeaning(current, previous);
  }
}
