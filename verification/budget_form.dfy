/** The budget form: its starting categories, editing one category's amount,
    validation, the budget it submits, and the months it offers. */
module BudgetForm {
  import opened Wrappers
  import opened Seqs
  import opened Numbers
  import opened Types
  import opened Categories
  import opened Calendar
  import opened DateUtils

  /** A category with nothing budgeted or spent. */
  function ZeroEntry(o: CategoryOption): BudgetCategory {
    BudgetCategory(CategoryName(o.value), 0.0, 0.0, 0.0, 0.0)
  }

  /** One zeroed entry per expense category of the registry. */
  function ExpenseDefaults(): seq<BudgetCategory> {
    var options := Filtered(Expense);
    seq(|options|, i requires 0 <= i < |options| => ZeroEntry(options[i]))
  }

  /** `initialData?.categories || ...`: an existing budget's categories, even
      an empty list, else the zeroed expense categories. */
  function InitialCategories(initial: Option<Budget>): seq<BudgetCategory> {
    if initial.Some? then initial.value.categories else ExpenseDefaults()
  }

  /** `initialData?.month || getCurrentMonth()`: an empty month falls back to
      the current one. */
  function InitialMonth(initial: Option<Budget>, currentMonth: string): string {
    if initial.Some? && initial.value.month != "" then initial.value.month else currentMonth
  }

  /** A new form lists the fourteen expense categories in registry order,
      all zero. */
  lemma ExpenseDefaultsMeaning()
    ensures |ExpenseDefaults()| == 14
    ensures forall i :: 0 <= i < 14 ==>
      && Registry()[4..][i].kind == Expense
      && ExpenseDefaults()[i] == BudgetCategory(CategoryName(Registry()[4..][i].value), 0.0, 0.0, 0.0, 0.0)
  {
    FilteredPartition();
    RegistryShape();
  }

  function Budgeted(c: BudgetCategory): real { c.budgeted }
  function Spent(c: BudgetCategory): real { c.spent }

  /** `parseFloat(amount) || 0`. */
  function AmountOf(text: string): real {
    OrZero(ParseFloat(text))
  }

  /** `spent > 0 ? (spent / amount) * 100 : 0`. */
  function SpentShare(spent: real, amount: real): (p: real)
    requires spent > 0.0 ==> amount != 0.0
    ensures spent > 0.0 ==> p * amount == spent * 100.0
    ensures spent <= 0.0 ==> p == 0.0
  {
    if spent > 0.0 then
      QuotientTimes(spent, amount);
      spent / amount * 100.0
    else 0.0
  }

  /** `handleCategoryBudgetChange`: every entry of the category takes the new
      amount and its remaining and percentage are derived from it. */
  function ChangeBudget(cs: seq<BudgetCategory>, category: string, text: string): (r: seq<BudgetCategory>)
    requires AmountOf(text) != 0.0 || forall i :: 0 <= i < |cs| && cs[i].category == category ==> cs[i].spent <= 0.0
    ensures |r| == |cs|
  {
    var amount := AmountOf(text);
    seq(|cs|, i requires 0 <= i < |cs| =>
      if cs[i].category == category then
        cs[i].(budgeted := amount, remaining := amount - cs[i].spent,
               percentage := SpentShare(cs[i].spent, amount))
      else cs[i])
  }

  /** Only the entries of the category change, and only in their amounts:
      budgeted is the parsed text (0 when it does not parse), remaining what
      is left after spent, and percentage the share spent of it, 0 when
      nothing has been spent. */
  lemma ChangeBudgetMeaning(cs: seq<BudgetCategory>, category: string, text: string, i: nat)
    requires AmountOf(text) != 0.0 || forall i :: 0 <= i < |cs| && cs[i].category == category ==> cs[i].spent <= 0.0
    requires i < |cs|
    ensures var r := ChangeBudget(cs, category, text);
      && (cs[i].category != category ==> r[i] == cs[i])
      && r[i].category == cs[i].category && r[i].spent == cs[i].spent
      && (cs[i].category == category ==>
            && r[i].budgeted == (if ParseFloat(text).Some? then ParseFloat(text).value else 0.0)
            && r[i].remaining == r[i].budgeted - r[i].spent
            && r[i].percentage == SpentShare(r[i].spent, r[i].budgeted))
  {
  }

  lemma QuotientTimes(x: real, a: real)
    requires a != 0.0
    ensures x / a * 100.0 * a == x * 100.0
  {
  }

  /** Entering the same text twice changes nothing more. */
  lemma ChangeBudgetIdempotent(cs: seq<BudgetCategory>, category: string, text: string)
    requires AmountOf(text) != 0.0 || forall i :: 0 <= i < |cs| && cs[i].category == category ==> cs[i].spent <= 0.0
    ensures ChangeBudget(ChangeBudget(cs, category, text), category, text) == ChangeBudget(cs, category, text)
  {
    var once := ChangeBudget(cs, category, text);
    var twice := ChangeBudget(once, category, text);
    forall i | 0 <= i < |cs|
      ensures twice[i] == once[i]
    {
    }
  }

  /** `validateForm`: a month must be chosen and the budgeted amounts must add
      up to more than zero. */
  predicate Valid(month: string, cs: seq<BudgetCategory>) {
    month != "" && Sum(cs, Budgeted) > 0.0
  }

  function HasBudget(c: BudgetCategory): bool { c.budgeted > 0.0 }

  /** `handleSubmit`: nothing when the form is invalid; otherwise the budget
      with the totals of all entries and only the entries with a positive
      amount. The id is the edited budget's, else the fresh one. */
  function Submit(month: string, cs: seq<BudgetCategory>, initialId: Option<string>, freshId: string): (r: Option<Budget>)
    ensures r.Some? <==> month != "" && Sum(cs, Budgeted) > 0.0
    ensures r.Some? ==> r.value.month == month
    ensures r.Some? ==> r.value.id == (if initialId.Some? && initialId.value != "" then initialId.value else freshId)
  {
    if !Valid(month, cs) then None
    else
      var id := if initialId.Some? && initialId.value != "" then initialId.value else freshId;
      Some(Budget(id, month, Sum(cs, Budgeted), Sum(cs, Spent), Filter(cs, HasBudget)))
  }

  /** The submitted totals cover every entry, and the submitted categories
      are exactly the entries with a positive amount, in form order. The
      entries dropped have nothing budgeted or less, so the total budgeted is
      the kept entries' total plus theirs, and equals the kept entries' total
      when no amount is negative. */
  lemma SubmitMeaning(month: string, cs: seq<BudgetCategory>, initialId: Option<string>, freshId: string)
    requires Submit(month, cs, initialId, freshId).Some?
    ensures var b := Submit(month, cs, initialId, freshId).value;
      && b.totalBudgeted == Sum(cs, Budgeted)
      && b.totalSpent == Sum(cs, Spent)
      && IsSubsequence(b.categories, cs)
      && (forall i :: 0 <= i < |b.categories| ==> b.categories[i].budgeted > 0.0)
      && (forall i :: 0 <= i < |cs| && cs[i].budgeted > 0.0 ==> cs[i] in b.categories)
      && b.totalBudgeted == Sum(b.categories, Budgeted) + Sum(Filter(cs, Not(HasBudget)), Budgeted)
      && ((forall i :: 0 <= i < |cs| ==> cs[i].budgeted >= 0.0) ==> b.totalBudgeted == Sum(b.categories, Budgeted))
  {
    FilterIsSubsequence(cs, HasBudget);
    SumSplit(cs, HasBudget, Budgeted);
    if forall i :: 0 <= i < |cs| ==> cs[i].budgeted >= 0.0 {
      DroppedSumZero(cs);
    }
  }

  /** The entries left out of the submitted budget add nothing when no amount
      is negative. */
  lemma DroppedSumZero(cs: seq<BudgetCategory>)
    requires forall i :: 0 <= i < |cs| ==> cs[i].budgeted >= 0.0
    ensures Sum(Filter(cs, Not(HasBudget)), Budgeted) == 0.0
  {
    DroppedWorthNothing(cs);
    SumFilterZero(cs, Not(HasBudget), Budgeted);
  }

  lemma DroppedWorthNothing(cs: seq<BudgetCategory>)
    requires forall i :: 0 <= i < |cs| ==> cs[i].budgeted >= 0.0
    ensures forall i :: 0 <= i < |cs| ==> Not(HasBudget)(cs[i]) ==> Budgeted(cs[i]) == 0.0
  {
    forall i | 0 <= i < |cs| && Not(HasBudget)(cs[i])
      ensures Budgeted(cs[i]) == 0.0
    {
      assert !HasBudget(cs[i]);
    }
  }

  // ---------------------------------------------------------------------
  // Month options
  // ---------------------------------------------------------------------

  /** `new Date(now.getFullYear(), now.getMonth() + i, 1)`. */
  function MonthsAhead(now: Date, i: int): Option<Date> {
    MakeDate(now.year as real, (now.month - 1 + i) as real, 1.0)
  }

  /** `toISOString().substring(0, 7)` of the month `i` ahead, for each `i`. */
  function MonthsAheadKey(now: Date): int -> Option<string> {
    (i: int) =>
      match MonthsAhead(now, i)
      case Some(d) => Some(FormatMonth(d))
      case None => None
  }

  /** `generateMonthOptions`' values: twelve month keys from the current
      month on, or `None` when one cannot be formatted. */
  method MonthOptions(now: Date) returns (r: Option<seq<string>>)
    ensures r.Some? <==> forall i :: 0 <= i < 12 ==> MonthsAheadKey(now)(i).Some?
    ensures r.Some? ==> |r.value| == 12
    ensures r.Some? ==> forall i :: 0 <= i < 12 ==> MonthsAheadKey(now)(i) == Some(r.value[i])
  {
    r := CollectKeys(MonthsAheadKey(now), 12);
  }

  /** The first day of the month after `d`'s, wrapping at December. */
  function NextMonthStart(d: Date): Date {
    if d.month == 12 then Date(d.year + 1, 1, 1) else Date(d.year, d.month + 1, 1)
  }

  /** Counting `i` months ahead from a four-digit year stays on the first of
      a month as long as the year keeps four digits. */
  lemma MonthsAheadValue(now: Date, i: int)
    requires ValidDate(now) && 100 <= now.year
    requires 0 <= i && now.year * 12 + now.month - 1 + i < 10000 * 12
    ensures MonthsAhead(now, i) == Some(FirstOfMonth(now.year, now.month - 1 + i))
    ensures now.year <= MonthsAhead(now, i).value.year <= 9999
  {
    var total := now.year * 12 + (now.month - 1 + i);
    assert now.year <= total / 12 <= 9999;
    MakeFirstOfMonth(now.year, now.month - 1 + i);
  }

  /** The options start at the current month. */
  lemma MonthOptionsStart(now: Date)
    requires ValidDate(now) && 100 <= now.year <= 9999
    ensures MonthsAhead(now, 0) == Some(Date(now.year, now.month, 1))
  {
    MonthsAheadValue(now, 0);
    FirstOfMonthInYear(now.year, now.month);
  }

  /** Each option is the month after the one before, the year wrapping at
      December. */
  lemma MonthOptionsStep(now: Date, i: int)
    requires ValidDate(now) && 100 <= now.year <= 9998 && 0 <= i < 11
    ensures MonthsAhead(now, i).Some? && MonthsAhead(now, i + 1).Some?
    ensures MonthsAhead(now, i + 1).value == NextMonthStart(MonthsAhead(now, i).value)
  {
    MonthsAheadValue(now, i);
    MonthsAheadValue(now, i + 1);
    NextFirstOfMonth(now.year, now.month - 1 + i);
  }

  lemma NextFirstOfMonth(y: int, mi: int)
    ensures FirstOfMonth(y, mi + 1) == NextMonthStart(FirstOfMonth(y, mi))
  {
    var t := y * 12 + mi;
    var q, r := t / 12, t % 12;
    if r == 11 {
      assert t + 1 == (q + 1) * 12;
      assert (t + 1) / 12 == q + 1 && (t + 1) % 12 == 0;
    } else {
      assert t + 1 == q * 12 + (r + 1);
      assert (t + 1) / 12 == q && (t + 1) % 12 == r + 1;
    }
  }

  /** Each option is the `YYYY-MM` key of its month. */
  lemma MonthOptionsKey(now: Date, i: int)
    requires ValidDate(now) && 100 <= now.year <= 9998 && 0 <= i < 12
    ensures MonthsAhead(now, i).Some?
    ensures MonthsAheadKey(now)(i) == Some(MonthKey(MonthsAhead(now, i).value.year, MonthsAhead(now, i).value.month))
  {
    MonthsAheadValue(now, i);
  }
}
