/** The figures the dashboard derives from the transaction list: totals by
    type, the breakdown of one type by category, one summary per month and
    per year, and the five most recent transactions. */
module Stats {
  import opened Wrappers
  import opened Seqs
  import opened Sorting
  import opened Strings
  import opened Types
  import opened Categories
  import opened Calendar
  import opened Grouping

  function Amount(t: Transaction): real { t.amount }
  function Kind(t: Transaction): string { t.kind }
  function CategoryOf(t: Transaction): string { t.category }

  /** A transaction's amount if it has type `kind`, and 0 otherwise: summing
      this over the whole list is the reference total of one type. */
  function AmountOfKind(kind: string): Transaction -> real {
    (t: Transaction) => if t.kind == kind then t.amount else 0.0
  }

  /** Every amount that is not an income's. */
  function AmountUnlessIncome(t: Transaction): real {
    if t.kind != "income" then t.amount else 0.0
  }

  // ---------------------------------------------------------------------
  // Totals
  // ---------------------------------------------------------------------

  /** The amounts of the transactions of type `kind`, filtered out and then
      added up. */
  function TypeTotal(ts: seq<Transaction>, kind: string): (r: real)
    ensures r == Sum(ts, AmountOfKind(kind))
  {
    TypeTotalIsMasked(ts, kind);
    Sum(KeyFilter(ts, Kind, kind), Amount)
  }

  lemma {:induction false} TypeTotalIsMasked(ts: seq<Transaction>, kind: string)
    ensures Sum(KeyFilter(ts, Kind, kind), Amount) == Sum(ts, AmountOfKind(kind))
    decreases |ts|
  {
    if |ts| > 0 {
      TypeTotalIsMasked(ts[1..], kind);
      if ts[0].kind == kind {
        assert ([ts[0]] + KeyFilter(ts[1..], Kind, kind))[1..] == KeyFilter(ts[1..], Kind, kind);
      }
    }
  }

  datatype Totals = Totals(income: real, expenses: real, balance: real)

  /** Income, expenses and the balance between them. */
  function TotalsOf(ts: seq<Transaction>): (r: Totals)
    ensures r.income == Sum(ts, AmountOfKind("income"))
    ensures r.expenses == Sum(ts, AmountOfKind("expense"))
    ensures r.balance == r.income - r.expenses
  {
    var income := TypeTotal(ts, "income");
    var expenses := TypeTotal(ts, "expense");
    Totals(income, expenses, income - expenses)
  }

  /** Appending a transaction raises income or expenses by its amount
      according to its type and leaves the other alone; a transaction of
      any other type changes nothing. */
  lemma TotalsAppend(ts: seq<Transaction>, t: Transaction)
    ensures TotalsOf(ts + [t]).income == TotalsOf(ts).income + (if t.kind == "income" then t.amount else 0.0)
    ensures TotalsOf(ts + [t]).expenses == TotalsOf(ts).expenses + (if t.kind == "expense" then t.amount else 0.0)
    ensures t.kind == "income" ==> TotalsOf(ts + [t]).balance == TotalsOf(ts).balance + t.amount
    ensures t.kind == "expense" ==> TotalsOf(ts + [t]).balance == TotalsOf(ts).balance - t.amount
    ensures t.kind != "income" && t.kind != "expense" ==> TotalsOf(ts + [t]) == TotalsOf(ts)
  {
    SumConcat(ts, [t], AmountOfKind("income"));
    SumConcat(ts, [t], AmountOfKind("expense"));
  }

  /** When every transaction is an income or an expense, what is not an
      income is exactly the expenses. */
  lemma {:induction false} NonIncomeIsExpense(ts: seq<Transaction>)
    requires forall i :: 0 <= i < |ts| ==> ts[i].kind == "income" || ts[i].kind == "expense"
    ensures Sum(ts, AmountUnlessIncome) == Sum(ts, AmountOfKind("expense"))
    decreases |ts|
  {
    if |ts| > 0 {
      NonIncomeIsExpense(ts[1..]);
    }
  }

  // ---------------------------------------------------------------------
  // Breakdown by category
  // ---------------------------------------------------------------------

  function SummaryCategory(c: CategorySummary): string { c.category }
  function SummaryAmount(c: CategorySummary): real { c.amount }
  function SummaryPercentage(c: CategorySummary): real { c.percentage }

  /** The record of one category whose transactions are `group`, as a share
      of `total`. */
  function CategoryEntry(total: real): (string, seq<Transaction>) -> CategorySummary {
    (category: string, group: seq<Transaction>) =>
      CategorySummary(category, Sum(group, Amount), Percentage(Sum(group, Amount), total), Color(category))
  }

  /** The transactions of type `kind` summed per category, each with its
      percentage of the type's total and its category colour, largest amount
      first; categories with equal amounts stay in the order in which they
      first occur. */
  function CategoryBreakdown(ts: seq<Transaction>, kind: string): seq<CategorySummary> {
    var chosen := KeyFilter(ts, Kind, kind);
    GroupBy(chosen, CategoryOf, CategoryEntry(Sum(chosen, Amount)), SummaryAmount, Greater)
  }

  /** A transaction's amount if it has type `kind` and category `category`. */
  function AmountOfKindIn(kind: string, category: string): Transaction -> real {
    (t: Transaction) => if t.kind == kind && t.category == category then t.amount else 0.0
  }

  lemma {:induction false} CategoryAmountIsMasked(ts: seq<Transaction>, kind: string, category: string)
    ensures Sum(KeyFilter(KeyFilter(ts, Kind, kind), CategoryOf, category), Amount)
         == Sum(ts, AmountOfKindIn(kind, category))
    decreases |ts|
  {
    if |ts| > 0 {
      CategoryAmountIsMasked(ts[1..], kind, category);
      var rest := KeyFilter(KeyFilter(ts[1..], Kind, kind), CategoryOf, category);
      if ts[0].kind == kind {
        assert KeyFilter(ts, Kind, kind) == [ts[0]] + KeyFilter(ts[1..], Kind, kind);
        assert ([ts[0]] + KeyFilter(ts[1..], Kind, kind))[1..] == KeyFilter(ts[1..], Kind, kind);
        if ts[0].category == category {
          assert ([ts[0]] + rest)[1..] == rest;
        }
      }
    }
  }

  /** Each record belongs to a category some transaction of the type has;
      its amount is the sum of that type's amounts in that category, its
      percentage is that amount's share of the type's total, and its colour
      is the category's. */
  lemma BreakdownEntries(ts: seq<Transaction>, kind: string)
    ensures forall i :: 0 <= i < |CategoryBreakdown(ts, kind)| ==>
      var e := CategoryBreakdown(ts, kind)[i];
      && (exists j :: 0 <= j < |ts| && ts[j].kind == kind && ts[j].category == e.category)
      && e.amount == Sum(ts, AmountOfKindIn(kind, e.category))
      && e.percentage == Percentage(e.amount, Sum(ts, AmountOfKind(kind)))
      && e.color == Color(e.category)
  {
    var chosen := KeyFilter(ts, Kind, kind);
    var total := Sum(chosen, Amount);
    var r := CategoryBreakdown(ts, kind);
    GroupByEntries(chosen, CategoryOf, CategoryEntry(total), SummaryCategory, SummaryAmount, Greater);
    TypeTotalIsMasked(ts, kind);
    forall i | 0 <= i < |r|
      ensures exists j :: 0 <= j < |ts| && ts[j].kind == kind && ts[j].category == r[i].category
      ensures r[i].amount == Sum(ts, AmountOfKindIn(kind, r[i].category))
    {
      CategoryOccurs(ts, kind, r[i].category);
      CategoryAmountIsMasked(ts, kind, r[i].category);
    }
  }

  lemma CategoryOccurs(ts: seq<Transaction>, kind: string, c: string)
    requires c in Project(KeyFilter(ts, Kind, kind), CategoryOf)
    ensures exists j :: 0 <= j < |ts| && ts[j].kind == kind && ts[j].category == c
  {
    var chosen := KeyFilter(ts, Kind, kind);
    var a :| 0 <= a < |chosen| && Project(chosen, CategoryOf)[a] == c;
    assert chosen[a] in ts;
  }

  /** One record per category of the type: no category repeats and every
      transaction of the type has its category listed. */
  lemma BreakdownKeys(ts: seq<Transaction>, kind: string)
    ensures Distinct(Project(CategoryBreakdown(ts, kind), SummaryCategory))
    ensures forall j :: 0 <= j < |ts| && ts[j].kind == kind ==>
      ts[j].category in Project(CategoryBreakdown(ts, kind), SummaryCategory)
  {
    var chosen := KeyFilter(ts, Kind, kind);
    var total := Sum(chosen, Amount);
    GroupByKeys(chosen, CategoryOf, CategoryEntry(total), SummaryCategory, SummaryAmount, Greater);
    forall j | 0 <= j < |ts| && ts[j].kind == kind
      ensures ts[j].category in Project(CategoryBreakdown(ts, kind), SummaryCategory)
    {
      assert ts[j] in chosen;
      var a :| 0 <= a < |chosen| && chosen[a] == ts[j];
    }
  }

  /** The records' amounts add up to the type's total. */
  lemma BreakdownSum(ts: seq<Transaction>, kind: string)
    ensures Sum(CategoryBreakdown(ts, kind), SummaryAmount) == Sum(ts, AmountOfKind(kind))
  {
    var chosen := KeyFilter(ts, Kind, kind);
    var total := Sum(chosen, Amount);
    GroupBySum(chosen, CategoryOf, CategoryEntry(total), SummaryAmount, Greater, SummaryAmount, Amount);
    TypeTotalIsMasked(ts, kind);
  }

  /** One transaction's share of `total`. */
  function Share(total: real): Transaction -> real {
    (t: Transaction) => Percentage(t.amount, total)
  }

  lemma {:induction false} SumShare(g: seq<Transaction>, total: real)
    ensures Sum(g, Share(total)) == Percentage(Sum(g, Amount), total)
    decreases |g|
  {
    if |g| > 0 {
      SumShare(g[1..], total);
      PercentageAdds(g[0].amount, Sum(g[1..], Amount), total);
    }
  }

  /** Shares of one total add up. */
  lemma PercentageAdds(a: real, b: real, total: real)
    ensures Percentage(a + b, total) == Percentage(a, total) + Percentage(b, total)
  {
    if total > 0.0 {
      QuotientAdds(a, b, total);
    }
  }

  lemma QuotientAdds(a: real, b: real, t: real)
    requires t > 0.0
    ensures (a + b) / t * 100.0 == a / t * 100.0 + b / t * 100.0
  {
    var p, q := a / t, b / t;
    assert p * t == a && q * t == b;
    assert (p + q) * t == a + b;
  }

  /** When the type's total is positive the percentages add up to 100;
      otherwise every percentage is 0. */
  lemma BreakdownPercentages(ts: seq<Transaction>, kind: string)
    ensures Sum(ts, AmountOfKind(kind)) > 0.0 ==> Sum(CategoryBreakdown(ts, kind), SummaryPercentage) == 100.0
    ensures Sum(ts, AmountOfKind(kind)) <= 0.0 ==>
      forall i :: 0 <= i < |CategoryBreakdown(ts, kind)| ==> CategoryBreakdown(ts, kind)[i].percentage == 0.0
  {
    var chosen := KeyFilter(ts, Kind, kind);
    var total := Sum(chosen, Amount);
    TypeTotalIsMasked(ts, kind);
    forall k, g
      ensures SummaryPercentage(CategoryEntry(total)(k, g)) == Sum(g, Share(total))
    {
      SumShare(g, total);
    }
    GroupBySum(chosen, CategoryOf, CategoryEntry(total), SummaryAmount, Greater, SummaryPercentage, Share(total));
    SumShare(chosen, total);
    BreakdownEntries(ts, kind);
  }

  /** Records come largest amount first, and records of equal amount keep
      the order in which their categories first occur among the type's
      transactions. */
  lemma BreakdownOrder(ts: seq<Transaction>, kind: string, v: real)
    ensures forall i, j :: 0 <= i < j < |CategoryBreakdown(ts, kind)| ==>
      CategoryBreakdown(ts, kind)[i].amount >= CategoryBreakdown(ts, kind)[j].amount
    ensures KeyFilter(CategoryBreakdown(ts, kind), SummaryAmount, v)
         == KeyFilter(Entries(Unique(Project(KeyFilter(ts, Kind, kind), CategoryOf)), KeyFilter(ts, Kind, kind),
                              CategoryOf, CategoryEntry(Sum(KeyFilter(ts, Kind, kind), Amount))), SummaryAmount, v)
  {
    var chosen := KeyFilter(ts, Kind, kind);
    GreaterIsStrictTotalOrder();
    GroupByOrder(chosen, CategoryOf, CategoryEntry(Sum(chosen, Amount)), SummaryAmount, Greater, v);
  }

  // ---------------------------------------------------------------------
  // Monthly summaries
  // ---------------------------------------------------------------------

  function NotIncome(t: Transaction): bool { t.kind != "income" }

  function MonthName(m: MonthlySummary): string { m.month }
  function MonthIncome(m: MonthlySummary): real { m.income }
  function MonthExpense(m: MonthlySummary): real { m.expense }

  /** The record a month's transactions add up to: incomes raise `income`,
      every other transaction raises `expense`, and `balance` is kept as the
      difference. */
  function MonthEntry(month: string, group: seq<Transaction>): MonthlySummary {
    var income := TypeTotal(group, "income");
    var expense := Sum(Filter(group, NotIncome), Amount);
    MonthlySummary(month, income, expense, income - expense)
  }

  lemma {:induction false} NonIncomeIsMasked(ts: seq<Transaction>)
    ensures Sum(Filter(ts, NotIncome), Amount) == Sum(ts, AmountUnlessIncome)
    decreases |ts|
  {
    if |ts| > 0 {
      NonIncomeIsMasked(ts[1..]);
      if NotIncome(ts[0]) {
        assert Filter(ts, NotIncome) == [ts[0]] + Filter(ts[1..], NotIncome);
        assert ([ts[0]] + Filter(ts[1..], NotIncome))[1..] == Filter(ts[1..], NotIncome);
      }
    }
  }

  /** One summary per month key, in ascending key order. */
  function MonthlyOf(ts: seq<Transaction>, key: Transaction -> string): seq<MonthlySummary> {
    GroupBy(ts, key, MonthEntry, MonthName, StrLess)
  }

  /** Each month's income is the income among the transactions of that
      month, its expense everything else of that month, and its balance the
      difference; the month is the key of some transaction. */
  lemma MonthlyEntries(ts: seq<Transaction>, key: Transaction -> string)
    ensures forall i :: 0 <= i < |MonthlyOf(ts, key)| ==>
      var e := MonthlyOf(ts, key)[i];
      && (exists j :: 0 <= j < |ts| && key(ts[j]) == e.month)
      && e.income == Sum(KeyFilter(ts, key, e.month), AmountOfKind("income"))
      && e.expense == Sum(KeyFilter(ts, key, e.month), AmountUnlessIncome)
      && e.balance == e.income - e.expense
  {
    var r := MonthlyOf(ts, key);
    GroupByEntries(ts, key, MonthEntry, MonthName, MonthName, StrLess);
    forall i | 0 <= i < |r|
      ensures exists j :: 0 <= j < |ts| && key(ts[j]) == r[i].month
      ensures r[i].expense == Sum(KeyFilter(ts, key, r[i].month), AmountUnlessIncome)
    {
      InProject(ts, key, r[i].month);
      NonIncomeIsMasked(KeyFilter(ts, key, r[i].month));
    }
  }

  /** No month repeats, months come in strictly ascending key order, and
      every transaction's month is listed. */
  lemma MonthlyKeys(ts: seq<Transaction>, key: Transaction -> string)
    ensures forall i, j :: 0 <= i < j < |MonthlyOf(ts, key)| ==>
      StrLess(MonthlyOf(ts, key)[i].month, MonthlyOf(ts, key)[j].month)
    ensures forall j :: 0 <= j < |ts| ==> key(ts[j]) in Project(MonthlyOf(ts, key), MonthName)
  {
    var r := MonthlyOf(ts, key);
    GroupByKeys(ts, key, MonthEntry, MonthName, MonthName, StrLess);
    StrLessIsOrder();
    GroupByOrder(ts, key, MonthEntry, MonthName, StrLess, "");
    SortedDistinctAscending(r, MonthName, StrLess);
  }

  /** The months' incomes add up to the total income and their expenses to
      everything that is not income, which is the total expenses when every
      transaction is an income or an expense. */
  lemma MonthlyTotals(ts: seq<Transaction>, key: Transaction -> string)
    ensures Sum(MonthlyOf(ts, key), MonthIncome) == TotalsOf(ts).income
    ensures Sum(MonthlyOf(ts, key), MonthExpense) == Sum(ts, AmountUnlessIncome)
    ensures (forall i :: 0 <= i < |ts| ==> ts[i].kind == "income" || ts[i].kind == "expense") ==>
      Sum(MonthlyOf(ts, key), MonthExpense) == TotalsOf(ts).expenses
  {
    GroupBySum(ts, key, MonthEntry, MonthName, StrLess, MonthIncome, AmountOfKind("income"));
    forall k, g
      ensures MonthExpense(MonthEntry(k, g)) == Sum(g, AmountUnlessIncome)
    {
      NonIncomeIsMasked(g);
    }
    GroupBySum(ts, key, MonthEntry, MonthName, StrLess, MonthExpense, AmountUnlessIncome);
    if forall i :: 0 <= i < |ts| ==> ts[i].kind == "income" || ts[i].kind == "expense" {
      NonIncomeIsExpense(ts);
    }
  }

  /** Every date is a `YYYY-MM-DD` string naming a real day. */
  predicate AllIsoDated(ts: seq<Transaction>) {
    forall i :: 0 <= i < |ts| ==> ParseIsoDate(ts[i].date).Some?
  }

  /** `formatMonth(parseDate(date))`. */
  function ParsedMonth(t: Transaction): string {
    match ParseIsoDate(t.date)
    case Some(d) => FormatMonth(d)
    case None => ""
  }

  /** `date.substring(0, 7)`. */
  function DatePrefix(t: Transaction): string {
    t.date[..if |t.date| < 7 then |t.date| else 7]
  }

  /** For a valid date, the month read through the calendar is the first
      seven characters of the date string. */
  lemma ParsedMonthIsPrefix(t: Transaction)
    requires ParseIsoDate(t.date).Some?
    ensures ParsedMonth(t) == DatePrefix(t)
    ensures ParsedMonth(t) == MonthKey(ParseIsoDate(t.date).value.year, ParseIsoDate(t.date).value.month)
  {
    var d := ParseIsoDate(t.date).value;
    FormatParsedDate(t.date);
  }

  /** The hook's monthly summaries, keyed by `formatMonth(parseDate(date))`;
      `None` when some date is not valid, where `toISOString` throws. */
  function MonthlySummaries(ts: seq<Transaction>): (r: Option<seq<MonthlySummary>>)
    ensures r.Some? <==> AllIsoDated(ts)
    ensures r.Some? ==> r.value == MonthlyOf(ts, DatePrefix)
  {
    if AllIsoDated(ts) then
      MonthKeysArePrefixes(ts);
      Some(MonthlyOf(ts, ParsedMonth))
    else None
  }

  lemma MonthKeysArePrefixes(ts: seq<Transaction>)
    requires AllIsoDated(ts)
    ensures MonthlyOf(ts, ParsedMonth) == MonthlyOf(ts, DatePrefix)
  {
    forall i | 0 <= i < |ts|
      ensures ParsedMonth(ts[i]) == DatePrefix(ts[i])
    {
      ParsedMonthIsPrefix(ts[i]);
    }
    GroupByKeyAgree(ts, ParsedMonth, DatePrefix, MonthEntry, MonthName, StrLess);
  }

  // ---------------------------------------------------------------------
  // Yearly summaries
  // ---------------------------------------------------------------------

  /** `month.substring(0, 4)`. */
  function YearOfMonth(m: MonthlySummary): string {
    m.month[..if |m.month| < 4 then |m.month| else 4]
  }

  function YearName(y: YearlySummary): string { y.year }
  function YearIncome(y: YearlySummary): real { y.income }
  function YearExpense(y: YearlySummary): real { y.expense }

  /** The record a year's month summaries add up to; the months are kept in
      the order they arrive. */
  function YearEntry(year: string, months: seq<MonthlySummary>): YearlySummary {
    var income := Sum(months, MonthIncome);
    var expense := Sum(months, MonthExpense);
    YearlySummary(year, income, expense, income - expense, months)
  }

  /** One summary per year of the month list, in ascending year order. */
  function YearlyOf(months: seq<MonthlySummary>): seq<YearlySummary> {
    GroupBy(months, YearOfMonth, YearEntry, YearName, StrLess)
  }

  /** The hook's yearly summaries, built from its monthly summaries. */
  function YearlySummaries(ts: seq<Transaction>): (r: Option<seq<YearlySummary>>)
    ensures r.Some? <==> AllIsoDated(ts)
    ensures r.Some? ==> r.value == YearlyOf(MonthlyOf(ts, DatePrefix))
  {
    match MonthlySummaries(ts)
    case Some(months) => Some(YearlyOf(months))
    case None => None
  }

  /** Strictly ascending month keys. */
  predicate MonthsAscending(ms: seq<MonthlySummary>) {
    forall i, j :: 0 <= i < j < |ms| ==> StrLess(ms[i].month, ms[j].month)
  }

  lemma MonthsAscendingTail(ms: seq<MonthlySummary>)
    requires |ms| > 0 && MonthsAscending(ms)
    ensures MonthsAscending(ms[1..])
    ensures forall j :: 0 <= j < |ms[1..]| ==> StrLess(ms[0].month, ms[1..][j].month)
  {
    forall i, j | 0 <= i < j < |ms[1..]|
      ensures StrLess(ms[1..][i].month, ms[1..][j].month)
    {
      assert ms[1..][i] == ms[i + 1] && ms[1..][j] == ms[j + 1];
    }
    forall j | 0 <= j < |ms[1..]|
      ensures StrLess(ms[0].month, ms[1..][j].month)
    {
      assert ms[1..][j] == ms[j + 1];
    }
  }

  lemma MonthsAscendingCons(x: MonthlySummary, rest: seq<MonthlySummary>)
    requires MonthsAscending(rest)
    requires forall j :: 0 <= j < |rest| ==> StrLess(x.month, rest[j].month)
    ensures MonthsAscending([x] + rest)
  {
    var r := [x] + rest;
    forall i, j | 0 <= i < j < |r|
      ensures StrLess(r[i].month, r[j].month)
    {
      assert r[j] == rest[j - 1];
      if i > 0 {
        assert r[i] == rest[i - 1];
      }
    }
  }

  /** Whatever is later than every element of `s` is later than every
      element of a filtering of `s`. */
  lemma BoundFiltered(x: MonthlySummary, s: seq<MonthlySummary>, year: string)
    requires forall j :: 0 <= j < |s| ==> StrLess(x.month, s[j].month)
    ensures forall j :: 0 <= j < |KeyFilter(s, YearOfMonth, year)| ==>
      StrLess(x.month, KeyFilter(s, YearOfMonth, year)[j].month)
  {
    var rest := KeyFilter(s, YearOfMonth, year);
    forall j | 0 <= j < |rest|
      ensures StrLess(x.month, rest[j].month)
    {
      assert rest[j] in s;
    }
  }

  lemma {:induction false} KeyFilterAscending(ms: seq<MonthlySummary>, year: string)
    requires MonthsAscending(ms)
    ensures MonthsAscending(KeyFilter(ms, YearOfMonth, year))
    decreases |ms|
  {
    if |ms| > 0 {
      MonthsAscendingTail(ms);
      KeyFilterAscending(ms[1..], year);
      if YearOfMonth(ms[0]) == year {
        BoundFiltered(ms[0], ms[1..], year);
        MonthsAscendingCons(ms[0], KeyFilter(ms[1..], YearOfMonth, year));
      }
    }
  }

  /** Each year holds exactly the months whose key starts with it, in their
      original order (so ascending when the months are), and its income,
      expense and balance are those months' sums and their difference. */
  lemma YearlyEntries(months: seq<MonthlySummary>)
    ensures forall i :: 0 <= i < |YearlyOf(months)| ==>
      var y := YearlyOf(months)[i];
      && y.monthlySummaries == KeyFilter(months, YearOfMonth, y.year)
      && (exists j :: 0 <= j < |months| && YearOfMonth(months[j]) == y.year)
      && y.income == Sum(y.monthlySummaries, MonthIncome)
      && y.expense == Sum(y.monthlySummaries, MonthExpense)
      && y.balance == y.income - y.expense
      && (MonthsAscending(months) ==> MonthsAscending(y.monthlySummaries))
  {
    var r := YearlyOf(months);
    GroupByEntries(months, YearOfMonth, YearEntry, YearName, YearName, StrLess);
    forall i | 0 <= i < |r|
      ensures exists j :: 0 <= j < |months| && YearOfMonth(months[j]) == r[i].year
      ensures MonthsAscending(months) ==> MonthsAscending(r[i].monthlySummaries)
    {
      InProject(months, YearOfMonth, r[i].year);
      if MonthsAscending(months) {
        KeyFilterAscending(months, r[i].year);
      }
    }
  }

  /** No year repeats, years come in strictly ascending order, and every
      month's year is listed. */
  lemma YearlyKeys(months: seq<MonthlySummary>)
    ensures forall i, j :: 0 <= i < j < |YearlyOf(months)| ==>
      StrLess(YearlyOf(months)[i].year, YearlyOf(months)[j].year)
    ensures forall j :: 0 <= j < |months| ==> YearOfMonth(months[j]) in Project(YearlyOf(months), YearName)
  {
    var r := YearlyOf(months);
    GroupByKeys(months, YearOfMonth, YearEntry, YearName, YearName, StrLess);
    StrLessIsOrder();
    GroupByOrder(months, YearOfMonth, YearEntry, YearName, StrLess, "");
    SortedDistinctAscending(r, YearName, StrLess);
  }

  /** The years' incomes and expenses add up to the months'. */
  lemma YearlyTotals(months: seq<MonthlySummary>)
    ensures Sum(YearlyOf(months), YearIncome) == Sum(months, MonthIncome)
    ensures Sum(YearlyOf(months), YearExpense) == Sum(months, MonthExpense)
  {
    GroupBySum(months, YearOfMonth, YearEntry, YearName, StrLess, YearIncome, MonthIncome);
    GroupBySum(months, YearOfMonth, YearEntry, YearName, StrLess, YearExpense, MonthExpense);
  }

  /** Over a list of valid dates the years' incomes add up to the total
      income, and every year's months are in ascending order. */
  lemma YearlySummariesTotals(ts: seq<Transaction>)
    requires AllIsoDated(ts)
    ensures Sum(YearlySummaries(ts).value, YearIncome) == TotalsOf(ts).income
    ensures Sum(YearlySummaries(ts).value, YearExpense) == Sum(ts, AmountUnlessIncome)
    ensures forall i :: 0 <= i < |YearlySummaries(ts).value| ==>
      MonthsAscending(YearlySummaries(ts).value[i].monthlySummaries)
  {
    var months := MonthlyOf(ts, DatePrefix);
    MonthlyTotals(ts, DatePrefix);
    YearlyTotals(months);
    MonthlyKeys(ts, DatePrefix);
    YearlyEntries(months);
  }

  // ---------------------------------------------------------------------
  // Recent transactions
  // ---------------------------------------------------------------------

  /** The day a valid date falls on, standing in for `getTime()`, which is
      that day times 86400000. */
  function DayValue(t: Transaction): real {
    match ParseIsoDate(t.date)
    case Some(d) => DayNumber(d) as real
    case None => 0.0
  }

  /** The list sorted latest date first. */
  function ByDateDescending(ts: seq<Transaction>): seq<Transaction> {
    SortBy(ts, DayValue, Greater)
  }

  /** The five latest transactions, latest first (all of them when there are
      fewer). */
  function Recent(ts: seq<Transaction>): (r: seq<Transaction>)
    requires AllIsoDated(ts)
    ensures |r| == if |ts| < 5 then |ts| else 5
    ensures multiset(r) <= multiset(ts)
  {
    var sorted := ByDateDescending(ts);
    assert sorted == sorted[..if |ts| < 5 then |ts| else 5] + sorted[if |ts| < 5 then |ts| else 5..];
    sorted[..if |ts| < 5 then |ts| else 5]
  }

  /** For valid dates, a later day is a later date string. */
  lemma DayValueOrder(a: Transaction, b: Transaction)
    requires ParseIsoDate(a.date).Some? && ParseIsoDate(b.date).Some?
    ensures DayValue(a) < DayValue(b) <==> StrLess(a.date, b.date)
  {
    var da, db := ParseIsoDate(a.date).value, ParseIsoDate(b.date).value;
    FormatParsedDate(a.date);
    FormatParsedDate(b.date);
    DayNumberOrder(da, db);
    FormatDateOrder(da, db);
  }

  /** Sorting by day puts the date strings in descending order. */
  lemma ByDateDescendingOrder(ts: seq<Transaction>)
    requires AllIsoDated(ts)
    ensures forall i, j :: 0 <= i < j < |ByDateDescending(ts)| ==>
      !StrLess(ByDateDescending(ts)[i].date, ByDateDescending(ts)[j].date)
  {
    var sorted := ByDateDescending(ts);
    GreaterIsStrictTotalOrder();
    SortBySorted(ts, DayValue, Greater);
    forall i, j | 0 <= i < j < |sorted|
      ensures !StrLess(sorted[i].date, sorted[j].date)
    {
      assert sorted[i] in multiset(ts) && sorted[j] in multiset(ts);
      DayValueOrder(sorted[i], sorted[j]);
    }
  }

  /** The recent list is the front of the sorted list. */
  lemma RecentIsFront(ts: seq<Transaction>)
    requires AllIsoDated(ts)
    ensures |Recent(ts)| <= |ByDateDescending(ts)|
    ensures forall i :: 0 <= i < |Recent(ts)| ==> Recent(ts)[i] == ByDateDescending(ts)[i]
    ensures multiset(Recent(ts)) + multiset(ByDateDescending(ts)[|Recent(ts)|..]) == multiset(ts)
  {
    var sorted := ByDateDescending(ts);
    var r := Recent(ts);
    assert sorted == r + sorted[|r|..];
  }

  /** The sort is stable: transactions on the same day keep their input
      order, which decides which of them make the five. */
  lemma RecentStable(ts: seq<Transaction>)
    ensures forall v :: KeyFilter(ByDateDescending(ts), DayValue, v) == KeyFilter(ts, DayValue, v)
  {
    GreaterIsStrictTotalOrder();
    forall v {
      SortByStable(ts, DayValue, Greater, v);
    }
  }

  /** The recent list is in descending date-string order, and no
      transaction left out of it is dated later than one in it. */
  lemma RecentOrder(ts: seq<Transaction>)
    requires AllIsoDated(ts)
    ensures forall i, j :: 0 <= i < j < |Recent(ts)| ==> !StrLess(Recent(ts)[i].date, Recent(ts)[j].date)
    ensures multiset(Recent(ts)) + multiset(ByDateDescending(ts)[|Recent(ts)|..]) == multiset(ts)
    ensures forall i, j :: 0 <= i < |Recent(ts)| && |Recent(ts)| <= j < |ts| ==>
      !StrLess(Recent(ts)[i].date, ByDateDescending(ts)[j].date)
  {
    RecentIsFront(ts);
    ByDateDescendingOrder(ts);
  }
}
