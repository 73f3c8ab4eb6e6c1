/** The reports page: the transactions dated inside a chosen range, and the
    figures computed from them (totals, the breakdowns by category of
    expenses and of income, month summaries and transaction counts). Dates
    are read in UTC. */
module Reports {
  import opened Wrappers
  import opened Seqs
  import opened Strings
  import opened Types
  import opened Calendar
  import opened DateUtils
  import opened Stats

  const MsPerDay: int := 86400000

  /** `getTime()` of midnight at the start of a day. */
  function Midnight(d: Date): int
    requires ValidDate(d)
  {
    DayNumber(d) * MsPerDay
  }

  /** `getTime()` after `setHours(23, 59, 59, 999)`: the last millisecond of
      the day. */
  function LastMoment(d: Date): int
    requires ValidDate(d)
  {
    Midnight(d) + ((23 * 60 + 59) * 60 + 59) * 1000 + 999
  }

  /** The range test: the transaction's instant lies between the start's
      midnight and the end's last millisecond. A date that does not parse is
      NaN, and every comparison with NaN is false. */
  function InRange(range: DateRange): Transaction -> bool {
    (t: Transaction) =>
      && ParseIsoDate(t.date).Some?
      && ParseIsoDate(range.startDate).Some?
      && ParseIsoDate(range.endDate).Some?
      && Midnight(ParseIsoDate(range.startDate).value) <= Midnight(ParseIsoDate(t.date).value)
      && Midnight(ParseIsoDate(t.date).value) <= LastMoment(ParseIsoDate(range.endDate).value)
  }

  /** The report's transactions, in list order. */
  function FilterByRange(ts: seq<Transaction>, range: DateRange): seq<Transaction> {
    Filter(ts, InRange(range))
  }

  /** Comparing instants is comparing days: the start and end are inclusive. */
  lemma InRangeByDay(range: DateRange, t: Transaction)
    ensures InRange(range)(t) <==>
      && ParseIsoDate(t.date).Some?
      && ParseIsoDate(range.startDate).Some?
      && ParseIsoDate(range.endDate).Some?
      && DayNumber(ParseIsoDate(range.startDate).value) <= DayNumber(ParseIsoDate(t.date).value)
      && DayNumber(ParseIsoDate(t.date).value) <= DayNumber(ParseIsoDate(range.endDate).value)
  {
  }

  /** Between valid dates, an earlier-or-equal day is an earlier-or-equal
      date string. */
  lemma DayLeqIsStrLeq(a: string, b: string)
    requires ParseIsoDate(a).Some? && ParseIsoDate(b).Some?
    ensures DayNumber(ParseIsoDate(a).value) <= DayNumber(ParseIsoDate(b).value) <==> StrLessEq(a, b)
  {
    var da, db := ParseIsoDate(a).value, ParseIsoDate(b).value;
    FormatParsedDate(a);
    FormatParsedDate(b);
    DayNumberOrder(db, da);
    FormatDateOrder(db, da);
  }

  /** A transaction is in the range exactly when all three dates are valid
      and its date string lies between the bounds, both included. */
  lemma InRangeMeaning(range: DateRange, t: Transaction)
    ensures InRange(range)(t) <==>
      && ParseIsoDate(t.date).Some?
      && ParseIsoDate(range.startDate).Some?
      && ParseIsoDate(range.endDate).Some?
      && StrLessEq(range.startDate, t.date)
      && StrLessEq(t.date, range.endDate)
  {
    InRangeByDay(range, t);
    if ParseIsoDate(t.date).Some? && ParseIsoDate(range.startDate).Some? && ParseIsoDate(range.endDate).Some? {
      DayLeqIsStrLeq(range.startDate, t.date);
      DayLeqIsStrLeq(t.date, range.endDate);
    }
  }

  /** The filter keeps exactly the transactions whose date lies in the
      range, in their original order. */
  lemma FilterByRangeMeaning(ts: seq<Transaction>, range: DateRange)
    ensures forall i :: 0 <= i < |FilterByRange(ts, range)| ==>
      var t := FilterByRange(ts, range)[i];
      && t in ts
      && ParseIsoDate(t.date).Some?
      && StrLessEq(range.startDate, t.date) && StrLessEq(t.date, range.endDate)
    ensures forall i :: 0 <= i < |ts| ==>
      (ParseIsoDate(ts[i].date).Some? && ParseIsoDate(range.startDate).Some? && ParseIsoDate(range.endDate).Some?
       && StrLessEq(range.startDate, ts[i].date) && StrLessEq(ts[i].date, range.endDate))
      ==> ts[i] in FilterByRange(ts, range)
    ensures IsSubsequence(FilterByRange(ts, range), ts)
  {
    var r := FilterByRange(ts, range);
    forall i | 0 <= i < |r|
      ensures StrLessEq(range.startDate, r[i].date) && StrLessEq(r[i].date, range.endDate)
    {
      InRangeMeaning(range, r[i]);
    }
    forall i | 0 <= i < |ts|
      ensures InRange(range)(ts[i]) <==>
        && ParseIsoDate(ts[i].date).Some?
        && ParseIsoDate(range.startDate).Some?
        && ParseIsoDate(range.endDate).Some?
        && StrLessEq(range.startDate, ts[i].date)
        && StrLessEq(ts[i].date, range.endDate)
    {
      InRangeMeaning(range, ts[i]);
    }
    FilterIsSubsequence(ts, InRange(range));
  }

  /** The report's transactions all have valid dates. */
  lemma FilteredAreDated(ts: seq<Transaction>, range: DateRange)
    ensures AllIsoDated(FilterByRange(ts, range))
  {
  }

  /** The range the page opens with. */
  function DefaultRange(now: Date): (r: Option<DateRange>)
    requires ValidDate(now)
    ensures 100 <= now.year <= 9999 ==> r == Some(MonthSpan(now.year, now.month))
  {
    CurrentMonthRange(now)
  }

  /** `financialSummary`: the totals of the report's transactions; all zero
      when none is in the range. */
  function FinancialSummary(ts: seq<Transaction>, range: DateRange): (r: Totals)
    ensures r.income == Sum(FilterByRange(ts, range), AmountOfKind("income"))
    ensures r.expenses == Sum(FilterByRange(ts, range), AmountOfKind("expense"))
    ensures r.balance == r.income - r.expenses
    ensures (forall i :: 0 <= i < |ts| ==> !InRange(range)(ts[i])) ==> r == Totals(0.0, 0.0, 0.0)
  {
    TotalsOf(FilterByRange(ts, range))
  }

  /** `expensesByCategory` and `incomeByCategory`: one algorithm with the
      type as parameter. */
  function ExpensesByCategory(ts: seq<Transaction>, range: DateRange): seq<CategorySummary> {
    CategoryBreakdown(FilterByRange(ts, range), "expense")
  }

  function IncomeByCategory(ts: seq<Transaction>, range: DateRange): seq<CategorySummary> {
    CategoryBreakdown(FilterByRange(ts, range), "income")
  }

  /** Both breakdowns list each category of their type once, their amounts
      add up to the report's expense or income total, and their percentages
      add up to 100 when that total is positive; both are sorted largest
      amount first. */
  lemma ByCategoryMeaning(ts: seq<Transaction>, range: DateRange)
    ensures Distinct(Project(ExpensesByCategory(ts, range), SummaryCategory))
    ensures Distinct(Project(IncomeByCategory(ts, range), SummaryCategory))
    ensures Sum(ExpensesByCategory(ts, range), SummaryAmount) == FinancialSummary(ts, range).expenses
    ensures Sum(IncomeByCategory(ts, range), SummaryAmount) == FinancialSummary(ts, range).income
    ensures FinancialSummary(ts, range).expenses > 0.0 ==>
      Sum(ExpensesByCategory(ts, range), SummaryPercentage) == 100.0
    ensures FinancialSummary(ts, range).income > 0.0 ==>
      Sum(IncomeByCategory(ts, range), SummaryPercentage) == 100.0
    ensures forall i, j :: 0 <= i < j < |ExpensesByCategory(ts, range)| ==>
      ExpensesByCategory(ts, range)[i].amount >= ExpensesByCategory(ts, range)[j].amount
    ensures forall i, j :: 0 <= i < j < |IncomeByCategory(ts, range)| ==>
      IncomeByCategory(ts, range)[i].amount >= IncomeByCategory(ts, range)[j].amount
  {
    var kept := FilterByRange(ts, range);
    BreakdownKeys(kept, "expense");
    BreakdownKeys(kept, "income");
    BreakdownSum(kept, "expense");
    BreakdownSum(kept, "income");
    BreakdownPercentages(kept, "expense");
    BreakdownPercentages(kept, "income");
    BreakdownOrder(kept, "expense", 0.0);
    BreakdownOrder(kept, "income", 0.0);
  }

  /** `monthlySummaries` of the page: keyed by `date.substring(0, 7)`. */
  function ReportMonthly(ts: seq<Transaction>, range: DateRange): seq<MonthlySummary> {
    MonthlyOf(FilterByRange(ts, range), DatePrefix)
  }

  /** Since every report transaction has a valid date, the page's month
      keys by substring agree with the dashboard's month keys read through
      the calendar: the page's months are the dashboard's months of the
      filtered list. */
  lemma ReportMonthlyIsMonthlySummaries(ts: seq<Transaction>, range: DateRange)
    ensures MonthlySummaries(FilterByRange(ts, range)) == Some(ReportMonthly(ts, range))
  {
    FilteredAreDated(ts, range);
  }

  /** The figures under "Transaction Summary". */
  datatype Counts = Counts(total: nat, income: nat, expense: nat, recurring: nat)

  function Recurring(t: Transaction): bool { t.isRecurring }

  /** The four counts: each one the number of in-range transactions that
      are income, expense or recurring. Incomes and expenses never
      outnumber all transactions, make them up exactly when every type is
      one of the two, and recurring transactions never outnumber all of
      them. */
  function TransactionCounts(ts: seq<Transaction>, range: DateRange): (c: Counts)
    ensures c.total == |FilterByRange(ts, range)|
    ensures c.income == |set i | 0 <= i < |ts| && InRange(range)(ts[i]) && ts[i].kind == "income"|
    ensures c.expense == |set i | 0 <= i < |ts| && InRange(range)(ts[i]) && ts[i].kind == "expense"|
    ensures c.recurring == |set i | 0 <= i < |ts| && InRange(range)(ts[i]) && ts[i].isRecurring|
    ensures c.income + c.expense <= c.total
    ensures (forall i :: 0 <= i < |ts| ==> ts[i].kind == "income" || ts[i].kind == "expense") ==>
      c.income + c.expense == c.total
    ensures c.recurring <= c.total
  {
    var f := FilterByRange(ts, range);
    KeyFilterCount(f, Kind, "income", "expense");
    KindCount(ts, InRange(range), "income");
    KindCount(ts, InRange(range), "expense");
    RecurringCount(ts, InRange(range));
    Counts(|f|, |KeyFilter(f, Kind, "income")|, |KeyFilter(f, Kind, "expense")|, |Filter(f, Recurring)|)
  }

  /** The counts as positions of the whole list, for any filter. */
  lemma KindCount(ts: seq<Transaction>, keep: Transaction -> bool, kind: string)
    ensures |KeyFilter(Filter(ts, keep), Kind, kind)| ==
      |set i | 0 <= i < |ts| && keep(ts[i]) && ts[i].kind == kind|
  {
    var has := (t: Transaction) => Kind(t) == kind;
    KeyFilterIsFilter(Filter(ts, keep), Kind, kind, has);
    FilterFilterCount(ts, keep, has);
    assert BothPositions(ts, keep, has) == set i | 0 <= i < |ts| && keep(ts[i]) && ts[i].kind == kind;
  }

  lemma RecurringCount(ts: seq<Transaction>, keep: Transaction -> bool)
    ensures |Filter(Filter(ts, keep), Recurring)| ==
      |set i | 0 <= i < |ts| && keep(ts[i]) && ts[i].isRecurring|
  {
    FilterFilterCount(ts, keep, Recurring);
    assert BothPositions(ts, keep, Recurring) == set i | 0 <= i < |ts| && keep(ts[i]) && ts[i].isRecurring;
  }
}
