# Personal Finance Tracker — a Dafny model of its core

This project models the logic at the heart of the Personal Finance Tracker,
a React application for recording income and expense transactions, setting
monthly budgets per expense category and viewing reports. The logic sits in
React hooks, reducers and event handlers; here each piece is a pure function
over immutable records, with contracts and lemmas that state what it
computes.

Modules follow the program's files:

- `Types` (`src/types/index.ts`): transactions, the closed sets of
  transaction types and categories, budgets, summaries and date ranges.
- `Categories` (`src/utils/categoryUtils.ts`): the 18-entry category
  registry and its label, icon, colour and per-type lookups.
- `Calendar` and `DateUtils` (`src/utils/dateUtils.ts`): Gregorian dates,
  ISO formatting, month and year ranges, rolling N-day ranges and lists of
  month keys. JavaScript's `Date` constructor is modelled with its
  normalisation of out-of-range months and days and its two-digit-year rule.
- `Stats` (`src/hooks/useTransactionStats.ts`), `Reports`
  (`src/pages/Reports.tsx`) and `RemainBudget`
  (`src/contexts/RemainBudget.tsx`): totals, per-category breakdowns with
  percentages, monthly and yearly summaries, recent transactions and
  range filtering.
- `Charts` and `BreakdownTable`: the top-five-plus-other expense chart and
  the category breakdown table.
- `BudgetPage` (`src/pages/Budget.tsx`), `BudgetForm` and `BudgetViews`
  (`src/components/budget/`): reconciliation of spent amounts, the budget
  list operations, the budget form and the overview and list views.
- `Store` (`src/contexts/TransactionsContext.tsx`): the transactions reducer.
- `TransactionForm` and `TransactionList`
  (`src/components/transactions/`): form defaults, validation and category
  snapping; the list's filter, sort and sort toggling.
- `RangeSelector` and `SummaryCards` (`src/components/reports/`): the range
  type classification and handlers, and the percent-change cards.
- `CsvImport` (`src/pages/Settings.tsx`) and `CsvExport`
  (`src/utils/exportUtils.ts`): the CSV row parser and the CSV writer.
- `Format` (`src/utils/formatUtils.ts`): `truncateText` and `toTitleCase`.
- Generic support: `Wrappers` (`Option`), `Seqs` (sums, filters, index
  search), `Strings` (ordinal order, digits, split and join, case, trim),
  `Numbers` (`Number` and `parseFloat` on decimal text), `Sorting` (a stable
  sort, as `Array#sort` is) and `Grouping` (the reduce-into-an-object
  grouping used for summaries).

Conventions of the model:

- Amounts and percentages are exact reals. Where JavaScript would produce
  `NaN` or read `undefined`, the model returns `None`.
- "Now", fresh identifiers and locale formatting are parameters.
- Dates are read in UTC. Strings are sequences of Unicode scalar values,
  and `localeCompare` and string `<` are modelled as ordinal order over
  them. JavaScript's `<` compares UTF-16 code units, which gives the same
  order within the Basic Multilingual Plane; `localeCompare` uses locale
  collation (see Left out).
- An exception thrown by the source becomes a `None` or a failed
  outcome.

Where the code's behaviour looks unintended (`toTitleCase`), the model
follows the code as written and records the discrepancy under Findings,
with a corrected definition and its property beside it.

## Model

| member | source | states |
|---|---|---|
| Types.TypeName | src/types/index.ts:1 | a transaction type's string value is `income` or `expense` |
| Types.ParseType | src/types/index.ts:1 | a string reads back as a type exactly when it is `income` or `expense`, and then names that type |
| Types.TypeNameRoundTrip | src/types/index.ts:1 | reading back the string value of a type gives that type |
| Types.CategoryNameInjective | src/types/index.ts:3-21 | the eighteen category identifiers are pairwise distinct strings |
| Types.WithId | src/types/index.ts:85 | the record handed on by `addTransaction` carries the new id |
| Types.WithIdRoundTrip | src/types/index.ts:85-86 | dropping the id from `{ ...input, id }` gives back the input: the id is the only field added |
| Types.Percentage | src/hooks/useTransactionStats.ts:38 | the guarded percentage is `amount / total * 100` for a positive total (stated as `p * total == amount * 100`), 0 otherwise, and within 0..100 for an amount between 0 and the total |
| Numbers.ToNumber | src/components/transactions/TransactionForm.tsx:44 | `Number` reads a blank or white-space-only string as 0 |
| Numbers.ToNumberDigits | src/components/transactions/TransactionForm.tsx:44 | `Number` reads a non-empty digit string as its decimal value |
| Numbers.ParseFloat | src/components/budget/BudgetForm.tsx:55 | `parseFloat` gives a number exactly when some prefix of the text after leading white space is a numeral |
| Numbers.OrZero | src/components/budget/BudgetForm.tsx:55 | `parseFloat(x) \|\| 0` keeps a parsed number and turns NaN into 0 |
| Numbers.ParseFloatAgreesWithNumber | src/components/budget/BudgetForm.tsx:55 | on a bare numeral `parseFloat` and `Number` give the same value |
| Stats.TypeTotal | src/hooks/useTransactionStats.ts:9-15 | filtering one type and summing its amounts equals summing, over the whole list, each amount counted only when its type matches |
| Stats.TotalsOf | src/hooks/useTransactionStats.ts:8-22 | income and expenses are the masked sums of their types over the list, and the balance is their difference |
| Stats.TotalsAppend | src/hooks/useTransactionStats.ts:8-22 | one more income raises income and balance by its amount, one more expense raises expenses and lowers the balance by it, and a transaction of any other type changes no total |
| Stats.NonIncomeIsExpense | src/hooks/useTransactionStats.ts:62-66 | when every type is `income` or `expense`, the amounts counted as "not income" are exactly the expenses |
| Stats.BreakdownEntries | src/hooks/useTransactionStats.ts:25-40 | each category record names a category some transaction of the type has, and carries the sum of that type's amounts in that category, its guarded percentage of the type's total, and the category's colour |
| Stats.BreakdownKeys | src/hooks/useTransactionStats.ts:29-35 | one record per category: no category repeats and every category of the type is listed |
| Stats.BreakdownSum | src/hooks/useTransactionStats.ts:25-40 | the records' amounts add up to the type's total |
| Stats.BreakdownPercentages | src/hooks/useTransactionStats.ts:27-38 | with a positive total the percentages add up to 100; otherwise every percentage is 0 |
| Stats.BreakdownOrder | src/hooks/useTransactionStats.ts:29-42 | records come largest amount first, and records of equal amount keep the first-occurrence order of their categories |
| Stats.MonthlyEntries | src/hooks/useTransactionStats.ts:49-69 | each month record's income is the income of that month's transactions, its expense every other amount of that month, its balance their difference, and its key is some transaction's key |
| Stats.MonthlyKeys | src/hooks/useTransactionStats.ts:47-71 | month keys are strictly ascending (so distinct) and every transaction's month is listed |
| Stats.MonthlyTotals | src/hooks/useTransactionStats.ts:9-15 | summed over all months, income equals the total income and expense equals everything not income, which is the total expenses when every type is valid |
| Stats.ParsedMonthIsPrefix | src/hooks/useTransactionStats.ts:50-51 | for a valid date, `formatMonth(parseDate(date))` is the date's first seven characters, the key of its year and month |
| Stats.MonthlySummaries | src/hooks/useTransactionStats.ts:46-72 | the summaries exist exactly when every date is a valid `YYYY-MM-DD` date, and are then grouped by the date prefix |
| Stats.MonthKeysArePrefixes | src/hooks/useTransactionStats.ts:50-51 | grouping by the calendar month and by the date's first seven characters gives the same summaries |
| Stats.YearlySummaries | src/hooks/useTransactionStats.ts:75-98 | the yearly summaries exist exactly when every date is valid, and are built from the monthly summaries |
| Stats.YearlyEntries | src/hooks/useTransactionStats.ts:78-95 | each year holds exactly the months whose key starts with it, in their original order (ascending when the months are), with income, expense and balance summed from them |
| Stats.YearlyKeys | src/hooks/useTransactionStats.ts:76-97 | years are strictly ascending and every month's year is listed |
| Stats.YearlyTotals | src/hooks/useTransactionStats.ts:91-92 | the years' incomes and expenses add up to the months' |
| Stats.YearlySummariesTotals | src/hooks/useTransactionStats.ts:75-98 | over valid dates the years' incomes add up to the total income, their expenses to everything not income, and every year's months are ascending |
| Stats.Recent | src/hooks/useTransactionStats.ts:101-105 | the recent list has `min(5, n)` entries, all drawn from the input |
| Stats.RecentStable | src/hooks/useTransactionStats.ts:101-105 | the date sort is stable: transactions on the same day keep their input order, which decides which of them make the five |
| Stats.DayValueOrder | src/hooks/useTransactionStats.ts:103 | for valid dates, comparing `getTime()` agrees with comparing the date strings |
| Stats.ByDateDescendingOrder | src/hooks/useTransactionStats.ts:102-103 | the sorted copy is in descending date order |
| Stats.RecentIsFront | src/hooks/useTransactionStats.ts:102-104 | the recent list is the front of the sorted copy, and with the rest of it makes up the input |
| Stats.RecentOrder | src/hooks/useTransactionStats.ts:101-105 | the recent list is latest first and no transaction left out is dated later than one kept |
| Reports.InRangeByDay | src/pages/Reports.tsx:21-31 | comparing the transaction's instant with the start's midnight and the end's last millisecond is comparing calendar days, both ends included; an unparsable date is never in range |
| Reports.DayLeqIsStrLeq | src/pages/Reports.tsx:30 | between valid dates, an earlier-or-equal day is an earlier-or-equal `YYYY-MM-DD` string |
| Reports.InRangeMeaning | src/pages/Reports.tsx:20-32 | a transaction is in range exactly when the three dates are valid and its date string lies between the bounds, both included |
| Reports.FilterByRangeMeaning | src/pages/Reports.tsx:20-32 | the filter keeps exactly the in-range transactions, in their original order (a subsequence of the list) |
| Reports.FilteredAreDated | src/pages/Reports.tsx:20-32 | every kept transaction has a valid date |
| Reports.DefaultRange | src/pages/Reports.tsx:17 | the page opens on the first to the last day of the current month |
| Reports.FinancialSummary | src/pages/Reports.tsx:35-49 | income and expenses are the per-type sums of the kept transactions and the balance their difference; all zero when nothing is in range |
| Reports.ByCategoryMeaning | src/pages/Reports.tsx:52-91 | `expensesByCategory` and `incomeByCategory` are the one breakdown algorithm over the kept transactions, parameterised by type: each lists every category of its type once, sorted largest amount first, with amounts adding up to the report's expense or income total and percentages adding up to 100 when that total is positive |
| Reports.ReportMonthlyIsMonthlySummaries | src/pages/Reports.tsx:94-119 | the page's months keyed by `date.substring(0, 7)` are the dashboard's monthly summaries of the kept transactions |
| Reports.TransactionCounts | src/pages/Reports.tsx:181-201 | the total is the number kept; the income, expense and recurring counts are the numbers of positions in the whole list whose transaction is in range and has that type or is recurring; income and expense counts never exceed the total and add up to it when every type is valid; the recurring count never exceeds it |
| RemainBudget.RemainingSummary | src/contexts/RemainBudget.tsx:19-45 | the context's summary is the reports page's summary for its opening current-month range |
| RemainBudget.InCurrentMonth | src/contexts/RemainBudget.tsx:22-31 | for a 4-digit year, being inside the month's range is being dated in that month |
| RemainBudget.RemainingIsMonthTotals | src/contexts/RemainBudget.tsx:19-45 | only the transactions dated in the current month count, and with none of them every figure is 0 |
| Charts.OtherEntry | src/components/dashboard/ExpensesByCategoryChart.tsx:23-33 | the folded entry has category `other_expense` and colour `#9E9E9E` |
| Charts.ChartData | src/components/dashboard/ExpensesByCategoryChart.tsx:14-38 | at most five categories give that many entries; more give exactly six |
| Charts.ChartSmall | src/components/dashboard/ExpensesByCategoryChart.tsx:16-37 | with at most five categories the chart is the input rearranged largest amount first, equal amounts in input order; empty gives empty |
| Charts.ChartLarge | src/components/dashboard/ExpensesByCategoryChart.tsx:19-34 | with more than five, the first five are input categories in descending order, none left out is larger than any of them, and the sixth is the `other_expense` entry of the rest |
| Charts.ChartTotal | src/components/dashboard/ExpensesByCategoryChart.tsx:20-33 | the chart's amounts and percentages add up to the input's |
| BreakdownTable.RowsMeaning | src/components/reports/CategoryBreakdownTable.tsx:17-28 | the rows are the input rearranged largest amount first, equal amounts in input order, with the same total; the table shows exactly when there is a row |
| Categories.OptionOf | src/utils/categoryUtils.ts:3-25 | each category's registry entry carries that category |
| Categories.RegistryIndex | src/utils/categoryUtils.ts:3-25 | every category has a registry entry |
| Categories.RegistryShape | src/utils/categoryUtils.ts:3-25 | the registry has 18 entries, lists each category exactly once, the first four as income and the other fourteen as expense |
| Categories.RegistryDistinct | src/utils/categoryUtils.ts:3-25 | no two registry entries share a category |
| Categories.FindIndex | src/utils/categoryUtils.ts:28 | `find` returns the first entry with that value, or nothing when no entry has it |
| Categories.ParseCategory | src/types/index.ts:3-21 | a string reads back as a category exactly when it is one of the eighteen identifiers |
| Categories.ParseCategoryName | src/types/index.ts:3-21 | reading back a category's identifier gives that category |
| Categories.Label | src/utils/categoryUtils.ts:27-30 | the label of the first registry entry with that value, or `Unknown` |
| Categories.LabelMeaning | src/utils/categoryUtils.ts:27-30 | every category is labelled by its own registry entry, and a string naming no category is `Unknown` |
| Categories.IconOf | src/utils/categoryUtils.ts:33-54 | no listed category has the fallback icon |
| Categories.Icon | src/utils/categoryUtils.ts:32-58 | the icon is `help-circle` exactly for strings naming no category, and each category's own icon otherwise |
| Categories.Color | src/utils/categoryUtils.ts:60-86 | each category gets its fixed colour, anything else `#9E9E9E` |
| Categories.Filtered | src/utils/categoryUtils.ts:88-90 | the entries of one type: all of that type, and every registry entry of that type is among them |
| Categories.FilteredPartition | src/utils/categoryUtils.ts:88-90 | the income list is the first four registry entries and the expense list the other fourteen, in registry order; together they are the registry |
| Categories.IsCategoryOfMeaning | src/utils/categoryUtils.ts:88-90 | a string is among the categories of a type exactly when it names a category whose entry has that type |
| Categories.RegistryEntries | src/utils/categoryUtils.ts:3-25 | each registry entry is the entry of its own category |
| Calendar.DaysInMonth | src/utils/dateUtils.ts:134 | a month has 28 to 31 days, and 29 exactly for February of a Gregorian leap year |
| Calendar.NextDay | src/utils/dateUtils.ts:105 | the next valid date, one day number later |
| Calendar.PrevDay | src/utils/dateUtils.ts:105 | the previous valid date, one day number earlier |
| Calendar.AddDays | src/utils/dateUtils.ts:105 | moving by `n` days gives a valid date exactly `n` day numbers away |
| Calendar.FirstOfMonth | src/utils/dateUtils.ts:156 | a month index of any size, counted from January of a year, lands on the first of the month that many months on, the year carrying over |
| Calendar.JsYear | src/utils/dateUtils.ts:156 | the Date constructor reads years 0..99 as 1900..1999 and any other year as given |
| Calendar.MakeDate | src/utils/dateUtils.ts:133-134 | `new Date(y, m, d)` is a valid date in the time range whose day number is day `d` counted from the first of month index `m` of the (two-digit-adjusted) year |
| Calendar.FourDigitYearInRange | src/utils/dateUtils.ts:14 | every date of a year 0..9999 is a valid time value |
| Calendar.DayNumberInjective | src/utils/dateUtils.ts:105 | day numbers identify dates |
| Calendar.DayNumberOrder | src/pages/Reports.tsx:30 | day numbers follow calendar order |
| Calendar.AddDaysWithinMonth | src/utils/dateUtils.ts:105 | adding days inside one month only moves the day |
| Calendar.YearText | src/utils/dateUtils.ts:14 | `toISOString` writes a year 0..9999 as four digits and any other as a sign and six digits |
| Calendar.FormatDate | src/utils/dateUtils.ts:13-15 | the date text ends `-MM-DD` and is exactly 10 characters for a year 0..9999 |
| Calendar.FormatMonth | src/utils/dateUtils.ts:33-35 | for a year 0..9999 the month text is the `YYYY-MM` key |
| Calendar.MonthKey | src/types/index.ts:43 | a month key is seven characters with a dash at position 4 |
| Calendar.ParseIsoDate | src/types/index.ts:29 | an accepted `YYYY-MM-DD` string names a real date of a year 0..9999 |
| Calendar.ParseFormatDate | src/utils/dateUtils.ts:13-15 | formatting a date of a year 0..9999 and reading it back gives the date |
| Calendar.FormatParsedDate | src/utils/dateUtils.ts:13-15 | an accepted date string is the formatting of the date it names |
| Calendar.FormatDateOrder | src/utils/dateUtils.ts:13-15 | for years 0..9999, ordinal order of date texts is calendar order |
| Calendar.FormatDateInjective | src/utils/dateUtils.ts:13-15 | distinct dates of years 0..9999 have distinct texts |
| DateUtils.RangeOf | src/utils/dateUtils.ts:82-85 | a range exists exactly when both of its dates could be built |
| DateUtils.RangeOfSome | src/utils/dateUtils.ts:82-85 | the range of two dates is their two formatted texts |
| DateUtils.CurrentMonth | src/utils/dateUtils.ts:63-65 | the current month is the `YYYY-MM` key of today's year and month |
| DateUtils.CurrentYear | src/utils/dateUtils.ts:70-72 | the current year is a digit string that `Number` reads back as the year |
| DateUtils.MonthStartDate | src/utils/dateUtils.ts:133 | `new Date(y, m - 1, 1)` is the first of month `m` for a year 100..9999 |
| DateUtils.MonthEndDate | src/utils/dateUtils.ts:134 | `new Date(y, m, 0)` is the last day of month `m`, 28 to 31 by the leap rule |
| DateUtils.CurrentMonthRange | src/utils/dateUtils.ts:77-86 | for a year 100..9999 the current month's range runs from its first to its last day |
| DateUtils.MonthRange | src/utils/dateUtils.ts:130-136 | a key with no dash has no range, and a range needs both halves of the key to read as numbers |
| DateUtils.SplitMonthKey | src/utils/dateUtils.ts:131 | a `YYYY-MM` key splits at its dash into its year and month fields |
| DateUtils.NumberOfFixedDigits | src/utils/dateUtils.ts:131 | `Number` reads a zero-padded field back as its value |
| DateUtils.MonthRangeOfNumbers | src/utils/dateUtils.ts:130-136 | any text whose first two dash-separated pieces read as year `y` and month `m` has the range of that month |
| DateUtils.MonthRangeOfKey | src/utils/dateUtils.ts:130-136 | the range of a `YYYY-MM` key runs from the month's first to its last day |
| DateUtils.CurrentMonthRangeIsMonthRange | src/utils/dateUtils.ts:77-86 | the current month's range is the range of the current month's key |
| DateUtils.MonthRangeFilterSound | src/utils/dateUtils.ts:130-136 | both bounds of a month's range begin with its key, start is not after end, and a valid date lies between them exactly when it is in that month |
| DateUtils.MonthSpanBounds | src/utils/dateUtils.ts:130-136 | both bounds of a month's range begin with its key and the start is not after the end |
| DateUtils.MonthOfDate | src/utils/dateUtils.ts:130-136 | a date lies between a month's first and last day exactly when it is in that month |
| DateUtils.DatePrefixIsKey | src/hooks/useTransactionStats.ts:50-51 | a valid date string begins with the key of its own month, and only of that one |
| DateUtils.MonthKeyInjective | src/types/index.ts:43 | distinct months of four-digit years have distinct keys |
| DateUtils.YearRange | src/utils/dateUtils.ts:141-146 | a year text `Number` cannot read has no range |
| DateUtils.YearRangeOfNumber | src/utils/dateUtils.ts:141-146 | any text that reads as year `y` has the range January 1 to December 31 of `y` |
| DateUtils.YearRangeOfKey | src/utils/dateUtils.ts:141-146 | the range of a `YYYY` key is January 1 to December 31 of that year |
| DateUtils.CurrentYearRangeIsYearRange | src/utils/dateUtils.ts:91-97 | the current year's range is the range of the current year's text, January 1 to December 31 |
| DateUtils.SetDate | src/utils/dateUtils.ts:105 | `setDate(dt)` moves to day `dt` of the same month counted on past its ends, or fails outside the time range |
| DateUtils.LastDaysRange | src/utils/dateUtils.ts:102-125 | the last-`n`-days range ends today and starts exactly `n` days earlier, or fails when that day is out of range |
| DateUtils.CollectKeys | src/utils/dateUtils.ts:151-161 | the loop yields exactly `n` keys, entry `i` being key `i`, and fails exactly when some key cannot be formatted |
| DateUtils.LastNMonths | src/utils/dateUtils.ts:151-161 | `getLastNMonths(n)` gives `n` keys, entry `i` the month `i` months back, or fails when one cannot be formatted |
| DateUtils.MonthsBackValue | src/utils/dateUtils.ts:156 | `i` months back from a four-digit year is the first of month `month - 1 - i` counted from the current year |
| DateUtils.LastNMonthsStart | src/utils/dateUtils.ts:155-157 | the month list starts with the current month |
| DateUtils.LastNMonthsStep | src/utils/dateUtils.ts:155-157 | each entry is the month before the previous one, the year wrapping at January |
| DateUtils.LastNMonthsKey | src/utils/dateUtils.ts:157 | each entry is the `YYYY-MM` key of its month |
| DateUtils.MonthsInYear | src/utils/dateUtils.ts:166-172 | `getMonthsInYear` gives 12 keys, entry `i` being month index `i` of the year, or fails when one cannot be formatted |
| DateUtils.MonthOfYearOfNumber | src/utils/dateUtils.ts:169 | month index `i` of any text that reads as year `y` is the first of month `i + 1` |
| DateUtils.MonthsInYearKey | src/utils/dateUtils.ts:166-172 | for a `YYYY` key, entry `i` is the key of month `i + 1` of that year |
| DateUtils.MonthKeyOrder | src/utils/dateUtils.ts:166-172 | the keys of one year's months ascend with the month |
| BudgetPage.SpentByCategorySum | src/pages/Budget.tsx:49-53 | each entry of the `categorySpent` table is the sum of its category's amounts, and an absent category reads as 0 |
| BudgetPage.BudgetSpentIsMasked | src/pages/Budget.tsx:42-46 | summing a category over the filtered expenses equals summing, over all transactions, the amount of each expense of that category inside the range |
| BudgetPage.ReconcileCategory | src/pages/Budget.tsx:56-64 | a category keeps its name and budgeted amount, takes spent from the table, `remaining = budgeted - spent` and the guarded percentage of spent in budgeted |
| BudgetPage.ReconcileIn | src/pages/Budget.tsx:38-72 | one budget keeps its id, month, total budgeted and category order, each category is recomputed, and `totalSpent` is the sum of the categories' spent |
| BudgetPage.Reconcile | src/pages/Budget.tsx:35-76 | the update succeeds exactly when every month key yields a range; it keeps the number and order of budgets and each budget's id, month, total budgeted and categories |
| BudgetPage.ReconcileEmpty | src/pages/Budget.tsx:36 | with no budgets there is nothing to change |
| BudgetPage.ReconcileSpent | src/pages/Budget.tsx:39-57 | a reconciled category's spent is the total of the expenses of that category whose date string lies inside its budget's month range |
| BudgetPage.ReconcileDerived | src/pages/Budget.tsx:59-66 | remaining is budgeted minus spent, percentage the guarded share, and total spent the sum of the categories' spent |
| BudgetPage.ReconcileAt | src/pages/Budget.tsx:38-39 | budget `i` is reconciled against the range of its own month |
| BudgetPage.ReconcileInSpent | src/pages/Budget.tsx:42-57 | a category's spent is a sum over all transactions of its expenses inside the range |
| BudgetPage.ReconcileIdempotent | src/pages/Budget.tsx:35-76 | reconciling twice gives what reconciling once gives, because everything is recomputed |
| BudgetPage.ReconcileInTwice | src/pages/Budget.tsx:38-72 | one budget reconciled twice is that budget reconciled once |
| BudgetPage.ReconcileMonthSpent | src/pages/Budget.tsx:39-57 | for a `YYYY-MM` budget and valid dates, spent is the total of that category's expenses dated in that month |
| BudgetPage.SpentInMonth | src/pages/Budget.tsx:43-45 | for a valid date the range test of a month is the test of being in that month |
| BudgetPage.SelectCurrentBudget | src/pages/Budget.tsx:21-26 | when the current month has a budget, the first such budget is selected |
| BudgetPage.SelectLatestBudget | src/pages/Budget.tsx:27-31 | otherwise the first budget of the greatest month is selected, and with no budgets the selection stays |
| BudgetPage.LatestBudget | src/pages/Budget.tsx:29-30 | the head of the month-descending sort is the first budget of the greatest month |
| BudgetPage.AddBudgetMeaning | src/pages/Budget.tsx:78-90 | the new budget is in the list; an existing month keeps the length and only its first budget is replaced; a new month is appended; every other position is unchanged |
| BudgetPage.AddBudgetIdempotent | src/pages/Budget.tsx:78-90 | adding the same budget twice is adding it once |
| BudgetPage.UpdateBudget | src/pages/Budget.tsx:96-99 | an update keeps the number and order of budgets, replaces every budget whose id matches by the new one and leaves every other budget as it was |
| BudgetPage.UpdateBudgetMeaning | src/pages/Budget.tsx:96-99 | an absent id changes nothing, updating twice is updating once, and deleting after an update is deleting alone |
| BudgetPage.UpdateThenDelete | src/pages/Budget.tsx:96-108 | deleting an id after updating it gives what deleting alone gives |
| BudgetPage.DeleteBudgetMeaning | src/pages/Budget.tsx:106-108 | the remaining budgets are exactly those with another id, in their order; the count drops by the number removed; an absent id changes nothing |
| BudgetPage.SelectAfterDelete | src/pages/Budget.tsx:111-113 | deleting the selected budget selects the first remaining one, or none; any other selection stays |
| BudgetPage.SelectAfterDeleteMeaning | src/pages/Budget.tsx:106-113 | after a delete the selection is never a deleted budget nor one outside the list; it is cleared only when nothing was selected or no budget remains |
| BudgetForm.ExpenseDefaultsMeaning | src/components/budget/BudgetForm.tsx:24-33 | a new form lists the fourteen expense categories in registry order, each with every figure 0 |
| BudgetForm.SpentShare | src/components/budget/BudgetForm.tsx:64 | the share is `spent / amount * 100` when something was spent and 0 otherwise |
| BudgetForm.ChangeBudget | src/components/budget/BudgetForm.tsx:54-68 | a change keeps the number of entries |
| BudgetForm.ChangeBudgetMeaning | src/components/budget/BudgetForm.tsx:54-68 | other categories' entries are unchanged; the changed category keeps its spent, takes the parsed amount (0 when it does not parse), `remaining = budgeted - spent` and the spent share |
| BudgetForm.ChangeBudgetIdempotent | src/components/budget/BudgetForm.tsx:54-68 | entering the same text twice changes nothing more |
| BudgetForm.Submit | src/components/budget/BudgetForm.tsx:71-105 | a budget is submitted exactly when the month is set and the budgeted amounts add up to more than 0; it carries the month, and the existing id when editing, else the fresh one |
| BudgetForm.SubmitMeaning | src/components/budget/BudgetForm.tsx:94-103 | totals are the sums of budgeted and spent over all entries; the categories kept are exactly the entries with a positive amount, in order; with no negative amount they add up to the total |
| BudgetForm.DroppedSumZero | src/components/budget/BudgetForm.tsx:100-102 | with no negative amount the entries dropped from the budget add up to 0 |
| BudgetForm.MonthOptions | src/components/budget/BudgetForm.tsx:38-52 | twelve options, option `i` the key of the month `i` ahead, or failure when one cannot be formatted |
| BudgetForm.MonthsAheadValue | src/components/budget/BudgetForm.tsx:43 | `i` months ahead is the first of that month as long as the year keeps four digits |
| BudgetForm.MonthOptionsStart | src/components/budget/BudgetForm.tsx:42-44 | the options start at the current month |
| BudgetForm.MonthOptionsStep | src/components/budget/BudgetForm.tsx:42-44 | each option is the month after the one before, the year wrapping at December |
| BudgetForm.MonthOptionsKey | src/components/budget/BudgetForm.tsx:44 | each option is the `YYYY-MM` key of its month |
| BudgetViews.RemainingBudget | src/components/budget/BudgetOverview.tsx:17 | remaining plus spent is the total budgeted, and remaining is not negative exactly when spent does not exceed budgeted |
| BudgetViews.SpentPercentage | src/components/budget/BudgetList.tsx:33-35 | the share is `totalSpent / totalBudgeted * 100` for a positive budget and 0 otherwise |
| BudgetViews.ExceededMeaning | src/components/budget/BudgetOverview.tsx:29-31 | "Budget exceeded" shows exactly when a positive budget is overspent, and then remaining is negative and the bar full |
| BudgetViews.LevelOfMeaning | src/components/budget/BudgetOverview.tsx:88-108 | danger is above 100, warning above 80 up to 100, normal up to 80; a larger percentage never has a milder level |
| BudgetViews.BudgetLevel | src/components/budget/BudgetList.tsx:75-94 | a budget is danger exactly when spent exceeds budgeted, and normal exactly when it spent at most 80% |
| BudgetViews.BarWidth | src/components/budget/BudgetList.tsx:95 | the bar width is `min(p, 100)` |
| BudgetViews.SortedCategoriesMeaning | src/components/budget/BudgetOverview.tsx:21 | the shown categories are the budget's rearranged, largest percentage first, equal percentages in budget order |
| BudgetViews.SortedBudgetsMeaning | src/components/budget/BudgetList.tsx:22 | every budget is listed exactly once, in descending month order, budgets of one month in stored order |
| BudgetViews.Capitalize | src/components/budget/BudgetOverview.tsx:81 | only the first letter is upper-cased; the rest is kept |
| BudgetViews.CapitalizeAll | src/components/budget/BudgetOverview.tsx:80-82 | each word is capitalised, in order |
| BudgetViews.DisplayNameWords | src/components/budget/BudgetOverview.tsx:80-82 | for an identifier without spaces, the printed words are its `_`-separated pieces, each capitalised, as many as there are pieces |
| Store.ApplyPatch | src/contexts/TransactionsContext.tsx:45 | `{ ...transaction, ...patch }` keeps the id; for each of amount, type, category, description, date, recurring flag, frequency and tags it takes the patch's value when the patch carries the field and keeps the record's otherwise; an empty patch changes nothing |
| Store.ApplyPatchIdempotent | src/contexts/TransactionsContext.tsx:45 | applying a patch twice is applying it once |
| Store.UpdateAll | src/contexts/TransactionsContext.tsx:43-47 | an update keeps the length and every record's id |
| Store.LoadingActions | src/contexts/TransactionsContext.tsx:29-34 | LOADING only raises the flag; LOADED replaces the list, lowers the flag and clears the error; ERROR sets the error, lowers the flag and keeps the list; an unknown action changes nothing |
| Store.ListActionsKeepStatus | src/contexts/TransactionsContext.tsx:35-53 | add, update and delete never touch the loading flag or the error |
| Store.AddMeaning | src/contexts/TransactionsContext.tsx:35-39 | ADD_TRANSACTION puts the record at the end and keeps every earlier record |
| Store.UpdateMeaning | src/contexts/TransactionsContext.tsx:40-48 | length, order and ids are kept; records with the id are patched and the others untouched; an absent id or an empty patch changes nothing; updating twice is updating once |
| Store.DeleteMeaning | src/contexts/TransactionsContext.tsx:49-53 | no record with the id is left, every other is kept in order, the count drops by the number removed, and an absent id changes nothing |
| Store.DeleteIdempotent | src/contexts/TransactionsContext.tsx:49-53 | deleting twice is deleting once |
| Store.UpdateThenDelete | src/contexts/TransactionsContext.tsx:40-53 | once an id's records are deleted it makes no difference whether they were updated first |
| Store.AddTransaction | src/contexts/TransactionsContext.tsx:84-90 | `addTransaction` appends the input with the supplied id, keeping the earlier records; dropping the id gives back the input |
| Store.AddThenDelete | src/contexts/TransactionsContext.tsx:35-53 | a record added under an unused id is removed again by deleting that id |
| Store.AddTransactionThenDelete | src/contexts/TransactionsContext.tsx:84-98 | deleting the fresh id of a just-added record restores the state before the add |
| TransactionForm.OrElse | src/components/transactions/TransactionForm.tsx:24-27 | `s \|\| fallback` keeps a non-empty string and replaces the empty one |
| TransactionForm.InitialForm | src/components/transactions/TransactionForm.tsx:23-29 | a new form is an expense of category `other_expense`, not recurring, monthly, dated today with empty amount and description; an edit starts from the record: its type, category, description, date, recurring flag and frequency, with the amount's text; an empty type falls back to `expense`, an empty category to `other_expense`, an empty date to today and a missing frequency to monthly |
| TransactionForm.DefaultsListed | src/components/transactions/TransactionForm.tsx:35-37 | the two fallback categories belong to their types |
| TransactionForm.Listed | src/components/transactions/TransactionForm.tsx:34-36 | every category is listed under its own type |
| TransactionForm.SnapMeaning | src/components/transactions/TransactionForm.tsx:33-39 | after the effect an income has an income category and an expense an expense category; a category that already fits, or any category of another type value, is left alone; snapping twice is snapping once |
| TransactionForm.Errors | src/components/transactions/TransactionForm.tsx:41-58 | the amount is flagged exactly when it is not a positive number, the description exactly when it is blank after trimming, the date exactly when it is empty |
| TransactionForm.Submit | src/components/transactions/TransactionForm.tsx:60-78 | a record is emitted exactly when the form is valid; its amount is `Number(amount)` and positive; it carries a frequency exactly when recurring; its description is not blank and its date not empty |
| TransactionForm.ValidMeaning | src/components/transactions/TransactionForm.tsx:41-58 | the form is valid exactly when the amount is a positive number, the description not white space only, and the date set |
| TransactionForm.AsPatch | src/types/index.ts:86 | the submitted record sent to `updateTransaction` patches amount, type, category, description, date and recurring flag with its own values; the frequency and tags keys are carried exactly when the record has them |
| TransactionForm.PatchKeepsAbsentKeys | src/components/transactions/TransactionForm.tsx:74 | a record without a frequency or tags leaves the stored frequency and tags as they were, since `{ ...transaction, ...patch }` only overwrites the keys the patch has |
| TransactionForm.StaleFrequency | src/components/transactions/TransactionForm.tsx:67-75 | saving a valid non-recurring form over a transaction clears its recurring flag but keeps its old frequency |
| TransactionForm.EditUnchanged | src/components/transactions/TransactionForm.tsx:23-78 | editing a well-formed record and submitting without changes is accepted and patches the record into itself |
| TransactionForm.SettledFits | src/components/transactions/TransactionForm.tsx:33-39 | a form whose category already fits its type is left as it is |
| TransactionForm.SubmitOfValid | src/components/transactions/TransactionForm.tsx:67-75 | a valid form emits its type, `Number(amount)`, category, description, date and recurring flag, with the frequency only when recurring |
| TransactionForm.PatchRestores | src/contexts/TransactionsContext.tsx:45 | a patch carrying every field of a record but its tags leaves the record unchanged |
| TransactionList.FilteredMeaning | src/components/transactions/TransactionList.tsx:32-43 | the shown list is a subsequence of the input holding exactly the transactions whose lower-cased description contains the lower-cased search term and whose type and category match or are not filtered |
| TransactionList.ContainsEmpty | src/components/transactions/TransactionList.tsx:34 | every description contains the empty search term |
| TransactionList.NoFiltersKeepAll | src/components/transactions/TransactionList.tsx:32-43 | an empty search with both filters at `all` shows every transaction |
| TransactionList.ToggleSort | src/components/transactions/TransactionList.tsx:66-73 | the clicked column becomes the sort column; the same column flips the direction and a new one sorts descending |
| TransactionList.ToggleTwice | src/components/transactions/TransactionList.tsx:66-73 | clicking the sorted column twice restores the sort |
| TransactionList.Sorted | src/components/transactions/TransactionList.tsx:46-64 | the sorted rows are the filtered rows rearranged |
| TransactionList.SortedByAmount | src/components/transactions/TransactionList.tsx:53-55 | by amount the rows are in the chosen direction, equal amounts in filtered order |
| TransactionList.SortedByDescription | src/components/transactions/TransactionList.tsx:57-61 | by description the rows are in the chosen direction, equal descriptions in filtered order |
| TransactionList.SortedByDate | src/components/transactions/TransactionList.tsx:47-51 | for valid dates, by date the date strings are in the chosen direction |
| TransactionList.SortedByOther | src/components/transactions/TransactionList.tsx:63 | any other column keeps the filtered order |
| TransactionList.CategoryOptionsMeaning | src/components/transactions/TransactionList.tsx:117-119 | the category options are the distinct categories of the transactions in first-occurrence order, each occurring and every transaction's category among them |
| RangeSelector.YearOptions | src/components/reports/DateRangeSelector.tsx:33-37 | five year options, option `i` the text of the current year minus `i` |
| RangeSelector.YearOptionsMeaning | src/components/reports/DateRangeSelector.tsx:33-37 | the first option is the current year's own text, and the options read as the five years counting down from it |
| RangeSelector.IntToStringValue | src/components/reports/DateRangeSelector.tsx:35 | `Number` reads the text of a non-negative integer back as that integer |
| RangeSelector.AnyKeyMatches | src/components/reports/DateRangeSelector.tsx:73-86 | a match exactly when some option's range is the given one and every option before it has a range; no match exactly when every option has a range and none is it; otherwise the loop throws |
| RangeSelector.Classify | src/components/reports/DateRangeSelector.tsx:50-89 | the priority order: `current_month`, `last_30_days`, `last_90_days` and `current_year` each exactly when its preset matches and no earlier one does; with no preset matching, a listed month's range is `custom_month`; `custom_year` exactly when no preset and no listed month matches but a listed year does; a range matching nothing is `custom_month`; a throw only after every preset missed |
| RangeSelector.CurrentRangeType | src/components/reports/DateRangeSelector.tsx:26-89 | no type when a preset or a month option cannot be built; otherwise the classification of the four presets, the twelve month options and the five year options in `Classify`'s priority order, so the current month's range is `current_month` and, with no preset matching, a listed month's range is `custom_month` |
| RangeSelector.CurrentMonthWins | src/components/reports/DateRangeSelector.tsx:56-58 | the current month's range is also the range of the first listed month, yet it is named `current_month` |
| RangeSelector.EmitOf | src/components/reports/DateRangeSelector.tsx:95-128 | a handler emits a range exactly when one could be built, and then that range |
| RangeSelector.ParseRangeType | src/components/reports/DateRangeSelector.tsx:40-47 | an option value reads back as a range type exactly when it is one of the six names |
| RangeSelector.ParseRangeTypeName | src/components/reports/DateRangeSelector.tsx:40-47 | reading back a range type's name gives that type |
| RangeSelector.ChangeRangeType | src/components/reports/DateRangeSelector.tsx:95-118 | the chosen value is stored whatever it is, and a value naming no type emits nothing |
| RangeSelector.ChangeRangeTypeTo | src/components/reports/DateRangeSelector.tsx:95-118 | choosing a type stores its name and emits its range: a preset's own range, the selected month's for `custom_month`, the selected year's for `custom_year` |
| RangeSelector.ChangeMonth | src/components/reports/DateRangeSelector.tsx:120-123 | the month is stored and its range emitted |
| RangeSelector.ChangeYear | src/components/reports/DateRangeSelector.tsx:125-128 | the year is stored and its range emitted |
| RangeSelector.CustomDefaultsAreCurrent | src/components/reports/DateRangeSelector.tsx:91-118 | on mount `custom_month` emits what `current_month` emits and `custom_year` what `current_year` emits |
| RangeSelector.ChangeMonthOfKey | src/components/reports/DateRangeSelector.tsx:120-123 | picking a listed month emits its first-to-last-day range |
| RangeSelector.ChangeYearOfOption | src/components/reports/DateRangeSelector.tsx:125-128 | picking year option `i` emits January 1 to December 31 of the current year minus `i` |
| SummaryCards.Change | src/components/reports/SummaryCards.tsx:24-27 | an absent or zero previous value gives 0; otherwise the change times the previous value is `(current - previous) * 100` |
| SummaryCards.ChangeMeaning | src/components/reports/SummaryCards.tsx:24-27 | an unchanged figure gives 0; against a positive previous value the change is positive exactly when the figure grew and negative exactly when it shrank; against a negative one the sign is swapped |
| SummaryCards.ChangeRestores | src/components/reports/SummaryCards.tsx:26 | applying the change to the previous value gives back the current one |
| SummaryCards.FormatChange | src/components/reports/SummaryCards.tsx:34-37 | the text ends in `%` and is `+` followed by the fixed-point text for a positive change, the fixed-point text alone otherwise |
| SummaryCards.FormatChangeSign | src/components/reports/SummaryCards.tsx:34-37 | the text starts with `+` exactly when the change is positive |
| SummaryCards.TrendOf | src/components/reports/SummaryCards.tsx:52-60 | up exactly for a positive change, down exactly for a negative one |
| SummaryCards.TrendMeaning | src/components/reports/SummaryCards.tsx:24-60 | with no previous value the trend is flat; against a positive previous value it is up, down or flat exactly when the figure grew, shrank or stayed |
| CsvImport.FindColumns | src/pages/Settings.tsx:33-44 | the header fails exactly when one of Date, Type, Category, Description or Amount is missing; otherwise each found position holds its name, and Recurring is its first position or -1 |
| CsvImport.Cell | src/pages/Settings.tsx:57-60 | a cell exists exactly when its position is inside the line, and is then the text there |
| CsvImport.ConvertDate | src/pages/Settings.tsx:53-54 | the date cell fails exactly when it holds no `/`, since the padding is then called on undefined |
| CsvImport.ConvertDateOf | src/pages/Settings.tsx:53-54 | `M/D/Y` is rewritten `Y-MM-DD`, month and day padded to two characters |
| CsvImport.ConvertDateShape | src/pages/Settings.tsx:53-54 | with a four-digit year and one- or two-digit month and day, the result is ten characters with dashes at 4 and 7, the year, the padded month and the padded day |
| CsvImport.Pad2Meaning | src/pages/Settings.tsx:54 | padding a text of at most two characters gives two: zeros, then the text |
| CsvImport.ReplaceFirstAbsent | src/pages/Settings.tsx:59 | `replace` of a character that does not occur changes nothing |
| CsvImport.ReplaceFirstAt | src/pages/Settings.tsx:59 | `replace` with a string pattern replaces only the first occurrence |
| CsvImport.NormalizeCategoryMeaning | src/pages/Settings.tsx:59 | a category without spaces is only lower-cased, and only the first space of one with a space becomes `_` |
| CsvImport.ParseRow | src/pages/Settings.tsx:50-63 | a row fails exactly when its date cell is missing or holds no `/`, or its category cell is missing; otherwise the date is rewritten, the category normalised, and `isRecurring` holds exactly when the Recurring column exists and its cell is `Yes` |
| CsvImport.RunRowsMeaning | src/pages/Settings.tsx:47-66 | the rows added are the parses of a prefix of the kept lines, in order; the run succeeds exactly when all were added, and otherwise stopped at the line that failed, keeping what it had added |
| CsvImport.ImportRowsMeaning | src/pages/Settings.tsx:47-66 | blank lines are skipped, every other line's row is added in file order until one throws, and nothing is rolled back |
| CsvImport.Import | src/pages/Settings.tsx:26-44 | fewer than two lines, or a header missing a required column, fails before any row is added |
| CsvImport.SingleLineRejected | src/pages/Settings.tsx:26-31 | a file without a line break is rejected |
| CsvImport.ImportAfterHeader | src/pages/Settings.tsx:33-66 | once the header is accepted the import is the row loop over the lines after it |
| CsvImport.ImportOneLine | src/pages/Settings.tsx:26-66 | a header and one line of plain cells import exactly that line's record: date rewritten, type, normalised category, description, parsed amount, and recurring exactly for `Yes` |
| CsvImport.ImportSingleRow | src/pages/Settings.tsx:47-66 | a header and one non-blank line that parses import that line's row and succeed |
| CsvExport.RecurringCell | src/utils/exportUtils.ts:25 | `Yes` exactly for a recurring transaction and `No` exactly for any other |
| CsvExport.TagsCell | src/utils/exportUtils.ts:26 | no tags give an empty cell and a single tag is written as it is |
| CsvExport.CellsWith | src/utils/exportUtils.ts:19-27 | seven cells in header order: display date, type, category label, description, amount text, recurring cell, tags cell |
| CsvExport.Lines | src/utils/exportUtils.ts:30-33 | the header line, then line `i + 1` for transaction `i`: one more line than transactions |
| CsvExport.ContentStartsWithHeader | src/utils/exportUtils.ts:8-16 | the file starts with the header line |
| CsvExport.ContentLines | src/utils/exportUtils.ts:30-33 | when no row holds a line break, splitting the file at line breaks gives the header and one line per transaction in order, `n + 1` lines |
| CsvExport.HeaderColumns | src/utils/exportUtils.ts:8-16 | the header line splits at commas into the seven column names |
| CsvExport.RowCells | src/utils/exportUtils.ts:19-32 | when no cell holds a comma, a row line splits back into its seven cells |
| CsvExport.CellsMeaning | src/utils/exportUtils.ts:19-27 | a row has as many cells as the header; the category cell is the label, not the identifier; the recurring cell is `Yes` or `No` by the flag; no tags leave the tags cell empty |
| CsvExport.HeaderImports | src/utils/exportUtils.ts:8-16 | the import finds every column it needs in the exported header, at the positions the export writes them |
| Format.SliceTo | src/utils/formatUtils.ts:47 | `slice(0, end)` keeps the first `end` characters, all of a shorter text, and for a negative end drops that many from the end |
| Format.TruncateMeaning | src/utils/formatUtils.ts:45-48 | a text that fits is unchanged; a longer one is its first `maxLength` characters and `...`, `maxLength + 3` long; the result always starts with the first `min(length, maxLength)` characters |
| Format.TruncateIdempotent | src/utils/formatUtils.ts:45-48 | truncating again with the same limit changes nothing |
| Format.TruncateNegative | src/utils/formatUtils.ts:45-48 | a negative limit always truncates, dropping that many characters from the end before the `...` |
| Format.TitleWord | src/utils/formatUtils.ts:61 | the first character upper-cased and the rest lower-cased, same length |
| Format.TitleWords | src/utils/formatUtils.ts:60-61 | each word title-cased, in order |
| Format.TitleCaseSnake | src/utils/formatUtils.ts:56-62 | for text without capitals or spaces the words of the result are its `_`-separated pieces title-cased, as many as there are pieces |
| Format.CamelCaseAsWritten | src/utils/formatUtils.ts:53 | as written, a capital inside a word is replaced by the literal ` ₹1`, so the capital is lost |
| Format.CamelCaseFixed | src/utils/formatUtils.ts:53 | with `' $1'` a camel-case word splits before its capital and keeps it |
| Format.FixedAgreesWithoutCapitals | src/utils/formatUtils.ts:51-63 | on text without capitals the corrected version agrees with the one as written |
| Format.CamelCaseExample | src/utils/formatUtils.ts:50-63 | `camelCase` becomes `Camel ₹1ase` as written and `Camel Case` when corrected |
| Format.SplitSpacedUnderscores | src/utils/formatUtils.ts:56-59 | for text without spaces, the words after turning underscores into spaces are exactly the `_`-separated pieces |
| Format.TwoWords | src/utils/formatUtils.ts:59-62 | two space-free words separated by a space are each title-cased and still separated by one space |
| Sorting.SortBy | src/hooks/useTransactionStats.ts:42 | the sorted list has the same elements, each as often, as the input |
| Sorting.SortBySorted | src/hooks/useTransactionStats.ts:42 | under a strict total order the output is ordered by the comparator |
| Sorting.SortByStable | src/hooks/useTransactionStats.ts:42 | elements with equal keys keep their input order, as `Array#sort` guarantees |
| Sorting.SortBySum | src/hooks/useTransactionStats.ts:42 | sorting changes no sum over the elements |
| Sorting.SortByHeadIsMax | src/components/dashboard/ExpensesByCategoryChart.tsx:16 | no element ranks before the first one of the sorted list |
| Grouping.GroupByEntries | src/hooks/useTransactionStats.ts:29-41 | each record is made from exactly the elements carrying its key, and that key occurs in the input |
| Grouping.GroupByKeysDistinct | src/hooks/useTransactionStats.ts:29-41 | no key has two records |
| Grouping.GroupBySum | src/hooks/useTransactionStats.ts:29-41 | summed over all records, a per-record total gives the total over the whole input |
| Grouping.GroupByOrder | src/hooks/useTransactionStats.ts:66-71 | records come out ordered by the comparator, and records with equal sort keys in order of their keys' first occurrence |
| Strings.StrLessIsStrictTotalOrder | src/hooks/useTransactionStats.ts:71 | ordinal string order is irreflexive, transitive and total on distinct strings |
| Strings.StrLessDigits | src/hooks/useTransactionStats.ts:71 | for digit strings of equal length, ordinal order is numeric order |
| Strings.NatToStringValue | src/components/reports/DateRangeSelector.tsx:35 | the text of a non-negative integer reads back as that integer |
| Strings.SplitJoin | src/pages/Settings.tsx:26 | splitting a join at its separator gives back the pieces when none holds the separator |
| Strings.TrimEmpty | src/pages/Settings.tsx:48 | a line trims to nothing exactly when it is all whitespace |
| Seqs.SumPermutation | src/components/reports/CategoryBreakdownTable.tsx:17-20 | a sum does not depend on the order of its summands |

## Left out

- React plumbing (state hooks, effects, memoisation, context providers, rendering) is not modelled; the logic inside it is modelled as pure functions.
- Persistence is not modelled: `localStorage`, `JSON.parse`, `FileReader`, the Blob download, the PDF export, `alert` and `window.confirm`. The CSV import works on the file's text and the export produces it.
- Identifier generation (`uuidv4`, `Date.now`) and the current time are parameters.
- Floating point is not modelled: amounts are exact reals, so rounding and `NaN` arithmetic do not arise, and `Infinity` is excluded by a `requires` where the source can produce it (`BudgetForm.ChangeBudget`); `NaN` from `Number`/`parseFloat` is `None`.
- `Number` and `parseFloat` are modelled on decimal text only; hexadecimal, exponent and `Infinity` literals are not.
- Locale and `Intl` behaviour is not modelled: `formatCurrency`, `formatPercentage`, `formatDateForDisplay`, `getMonthName`, `formatDateRange` and `toFixed` are parameters or left out.
- `localeCompare` is modelled as ordinal order. On the `YYYY-MM` month keys and `YYYY` year keys it sorts, the two agree, since those keys are digits and dashes of equal length; on free text they can differ.
- String lengths, indexes and slices count Unicode scalar values, where JavaScript counts UTF-16 code units; the two differ only on text outside the Basic Multilingual Plane.
- The reordering of integer-like keys by `Object.entries` is not modelled; keys come out in first-insertion order, which is the order for the category and month keys the program uses.
- Time zones are not modelled: every date is read and formatted in UTC, so the day shift of local dates east of UTC and the `setHours` calls in the report filter do not appear.
- Dates that are not ISO `YYYY-MM-DD` text are treated as invalid where a date is parsed.
- The two charts that only map and sort with locale month names (`MonthlyTrendsChart`, `IncomeVsExpensesChart`) are not modelled.
- An export/import round trip is not claimed: the export writes category labels and locale display dates, which the import does not read back. `CsvExport.HeaderImports` states the part that does hold.
- Rows produced by the CSV import are not fed into `Store`, because their fields may be `undefined` or `NaN`, which a transaction record cannot hold.
- Upper- and lower-casing act on ASCII letters only.
- TransactionList.SortedByDescription: orders descriptions ordinally rather than by `localeCompare`'s locale collation, so `["apple", "Banana"]` sorted ascending gives `Banana, apple` here where the browser gives `apple, Banana`.
- Format.TruncateMeaning: lengths and slices count characters, not UTF-16 code units, so text outside the Basic Multilingual Plane truncates differently: `truncateText("🍕ab", 3)` is `🍕a...` in the source and `🍕ab` here.
- Format.SliceTo: counts characters, not UTF-16 code units, for the same reason as `Format.TruncateMeaning`.
- Format.TruncateNegative: drops characters, not UTF-16 code units, for the same reason as `Format.TruncateMeaning`.
- `getLast30DaysRange` and `getLast90DaysRange` are both `DateUtils.LastDaysRange` with 30 and 90.
- Stats.Recent: requires every date to be ISO text, since `new Date` on other text gives `NaN` and the comparator is then inconsistent.
- Stats.MonthlySummaries: returns `None` when some date is not ISO text, rather than modelling `substring` on arbitrary text.
- TransactionList.SortedByDate: requires ISO dates for the same reason as `Stats.Recent`.
- BudgetForm.ChangeBudget: requires a nonzero amount when the spent amount is positive, since the source then divides by zero and yields `Infinity`.
- BudgetPage.ReconcileMonthSpent: requires ISO dates and a year from 100 to 9999, because years below 100 are shifted by JavaScript's two-digit-year rule and wider years change the ISO format.
- DateUtils.MonthRangeOfKey: like the other month- and year-key lemmas of `DateUtils`, `BudgetForm` and `RangeSelector`, requires a year from 100 to 9999 for the same reason.
- RangeSelector.YearOptionsMeaning: requires a current year of at least 4 so that every option is a non-negative year.
- RangeSelector.ChangeYearOfOption: requires a current year of at least 104 so that every option's range falls under the four-digit-year rule above.
- SummaryCards.FormatChangeSign: requires the fixed-point text not to start with `+`, which `toFixed` never produces.
- CsvExport.RowCells: requires cells without commas; a label or display date holding a comma would split into extra cells.
- CsvExport.ContentLines: requires rows without line breaks for the same reason.
- CsvImport.ImportOneLine: is stated for the column order the export writes, not for every header order.
- Store.ApplyPatch: the patch type has no `id` field, so an update cannot change a transaction's identifier.

## Findings

| source | as written | input that shows it | evidently intended | confidence | as-written member | corrected member |
|---|---|---|---|---|---|---|
| src/utils/formatUtils.ts:53 | `replace(/([A-Z])/g, ' ₹1')` replaces each capital letter by the literal text ` ₹1` | `toTitleCase("camelCase")` gives `Camel ₹1ase` | `' $1'`, which puts a space before each capital and keeps it, giving `Camel Case` | high; not executed | Format.CamelCaseAsWritten | Format.CamelCaseFixed |
