/** The remaining-budget context: the totals of the transactions dated in
    the current month, computed the way the reports page computes them for
    its opening range. */
module RemainBudget {
  import opened Wrappers
  import opened Seqs
  import opened Strings
  import opened Types
  import opened Calendar
  import opened DateUtils
  import opened Stats
  import opened Reports

  /** The context's `financialSummary`; `None` where the current month's
      range cannot be formatted. */
  function RemainingSummary(ts: seq<Transaction>, now: Date): (r: Option<Totals>)
    requires ValidDate(now)
    ensures r.Some? <==> DefaultRange(now).Some?
    ensures r.Some? ==> r.value == FinancialSummary(ts, DefaultRange(now).value)
  {
    match CurrentMonthRange(now)
    case Some(range) => Some(TotalsOf(FilterByRange(ts, range)))
    case None => None
  }

  /** Dated in month `m` of year `y`. */
  function InMonth(y: int, m: int): Transaction -> bool {
    (t: Transaction) =>
      ParseIsoDate(t.date).Some? && ParseIsoDate(t.date).value.year == y && ParseIsoDate(t.date).value.month == m
  }

  /** The current month's range test is a month test. */
  lemma InCurrentMonth(y: int, m: int, t: Transaction)
    requires 0 <= y <= 9999 && 1 <= m <= 12
    ensures InRange(MonthSpan(y, m))(t) <==> InMonth(y, m)(t)
  {
    InRangeMeaning(MonthSpan(y, m), t);
    ParseFormatDate(Date(y, m, 1));
    ParseFormatDate(Date(y, m, DaysInMonth(y, m)));
    if ParseIsoDate(t.date).Some? {
      MonthRangeFilterSound(y, m, t.date);
    }
  }

  /** Only the transactions dated in the current month count: income and
      expenses are their per-type sums and the balance their difference, all
      zero when there are none. */
  lemma RemainingIsMonthTotals(ts: seq<Transaction>, now: Date)
    requires ValidDate(now) && 100 <= now.year <= 9999
    ensures RemainingSummary(ts, now) == Some(TotalsOf(Filter(ts, InMonth(now.year, now.month))))
    ensures (forall i :: 0 <= i < |ts| ==> !InMonth(now.year, now.month)(ts[i])) ==>
      RemainingSummary(ts, now) == Some(Totals(0.0, 0.0, 0.0))
  {
    var range := MonthSpan(now.year, now.month);
    forall i | 0 <= i < |ts|
      ensures InRange(range)(ts[i]) == InMonth(now.year, now.month)(ts[i])
    {
      InCurrentMonth(now.year, now.month, ts[i]);
    }
    FilterAgree(ts, InRange(range), InMonth(now.year, now.month));
  }
}
