/** The budget page: recomputing what each budget's categories have spent
    from the expense transactions of its month, choosing the budget on
    display, and adding, replacing and deleting budgets. */
module BudgetPage {
  import opened Wrappers
  import opened Seqs
  import opened Strings
  import opened Sorting
  import opened Types
  import opened Calendar
  import opened DateUtils
  import opened Stats

  // ---------------------------------------------------------------------
  // Reconciliation
  // ---------------------------------------------------------------------

  /** The transactions a budget of the month `range` spans draws on: expenses
      whose date string lies between the bounds, both included, in string
      order. */
  function InBudgetMonth(range: DateRange): Transaction -> bool {
    (t: Transaction) => t.kind == "expense" && StrLessEq(range.startDate, t.date) && StrLessEq(t.date, range.endDate)
  }

  /** `categorySpent[c] || 0`: an absent entry reads as 0. */
  function Lookup(m: map<string, real>, c: string): real {
    if c in m then m[c] else 0.0
  }

  /** `categorySpent`, built by adding each transaction's amount to its
      category's entry, in list order. */
  function SpentByCategory(bt: seq<Transaction>): map<string, real>
    decreases |bt|
  {
    if |bt| == 0 then map[]
    else
      var m := SpentByCategory(bt[..|bt| - 1]);
      var t := bt[|bt| - 1];
      m[t.category := Lookup(m, t.category) + t.amount]
  }

  /** A transaction's amount if it is of category `c`, and 0 otherwise. */
  function CategoryAmount(c: string): Transaction -> real {
    (t: Transaction) => if t.category == c then t.amount else 0.0
  }

  /** What a category has spent, as a reference sum over all transactions:
      the amount of every expense of that category dated inside the range. */
  function SpentIn(range: DateRange, c: string): Transaction -> real {
    (t: Transaction) =>
      if t.kind == "expense" && StrLessEq(range.startDate, t.date) && StrLessEq(t.date, range.endDate) && t.category == c
      then t.amount else 0.0
  }

  /** Each entry of the table is the sum of its category's amounts; a
      category with no transaction reads as 0. */
  lemma {:induction false} SpentByCategorySum(bt: seq<Transaction>, c: string)
    ensures Lookup(SpentByCategory(bt), c) == Sum(bt, CategoryAmount(c))
    decreases |bt|
  {
    if |bt| > 0 {
      var init, last := bt[..|bt| - 1], bt[|bt| - 1];
      SpentByCategorySum(init, c);
      assert bt == init + [last];
      SumConcat(init, [last], CategoryAmount(c));
    }
  }

  lemma {:induction false} BudgetSpentIsMasked(ts: seq<Transaction>, range: DateRange, c: string)
    ensures Sum(Filter(ts, InBudgetMonth(range)), CategoryAmount(c)) == Sum(ts, SpentIn(range, c))
    decreases |ts|
  {
    if |ts| > 0 {
      BudgetSpentIsMasked(ts[1..], range, c);
    }
  }

  /** One category brought up to date: spent from the table, the rest derived
      from it and the budgeted amount. */
  function ReconcileCategory(c: BudgetCategory, spent: map<string, real>): (r: BudgetCategory)
    ensures r.category == c.category && r.budgeted == c.budgeted
    ensures r.spent == Lookup(spent, c.category)
    ensures r.remaining == r.budgeted - r.spent
    ensures r.percentage == Percentage(r.spent, r.budgeted)
  {
    var s := Lookup(spent, c.category);
    c.(spent := s, remaining := c.budgeted - s, percentage := Percentage(s, c.budgeted))
  }

  function CategorySpent(c: BudgetCategory): real { c.spent }

  /** One budget brought up to date against the transactions of its month. */
  function ReconcileIn(b: Budget, range: DateRange, ts: seq<Transaction>): (r: Budget)
    ensures r.id == b.id && r.month == b.month && r.totalBudgeted == b.totalBudgeted
    ensures |r.categories| == |b.categories|
    ensures forall j :: 0 <= j < |r.categories| ==>
      r.categories[j] == ReconcileCategory(b.categories[j], SpentByCategory(Filter(ts, InBudgetMonth(range))))
    ensures r.totalSpent == Sum(r.categories, CategorySpent)
  {
    var table := SpentByCategory(Filter(ts, InBudgetMonth(range)));
    var cs := seq(|b.categories|, j requires 0 <= j < |b.categories| => ReconcileCategory(b.categories[j], table));
    b.(totalSpent := Sum(cs, CategorySpent), categories := cs)
  }

  /** Whether every budget's month key yields a range; `getMonthRange` throws
      on any other key and the update is lost. */
  predicate AllRanged(bs: seq<Budget>) {
    forall i :: 0 <= i < |bs| ==> MonthRange(bs[i].month).Some?
  }

  /** The reconciliation effect: every budget recomputed, in place. */
  function Reconcile(bs: seq<Budget>, ts: seq<Transaction>): (r: Option<seq<Budget>>)
    ensures r.Some? <==> AllRanged(bs)
    ensures r.Some? ==> |r.value| == |bs|
    ensures r.Some? ==> forall i :: 0 <= i < |bs| ==>
      && r.value[i].id == bs[i].id
      && r.value[i].month == bs[i].month
      && r.value[i].totalBudgeted == bs[i].totalBudgeted
      && |r.value[i].categories| == |bs[i].categories|
      && (forall j :: 0 <= j < |bs[i].categories| ==>
            r.value[i].categories[j].category == bs[i].categories[j].category
            && r.value[i].categories[j].budgeted == bs[i].categories[j].budgeted)
  {
    if AllRanged(bs) then
      Some(seq(|bs|, i requires 0 <= i < |bs| => ReconcileIn(bs[i], MonthRange(bs[i].month).value, ts)))
    else None
  }

  /** With no budgets there is nothing to do. */
  lemma ReconcileEmpty(ts: seq<Transaction>)
    ensures Reconcile([], ts) == Some([])
  {
  }

  /** What a reconciled category spent: the total of the expenses of that
      category dated inside its budget's month range. */
  lemma ReconcileSpent(ts: seq<Transaction>, budgets: seq<Budget>, i: nat, j: nat)
    requires Reconcile(budgets, ts).Some?
    requires i < |budgets| && j < |budgets[i].categories|
    ensures Reconcile(budgets, ts).value[i].categories[j].spent
         == Sum(ts, SpentIn(MonthRange(budgets[i].month).value, budgets[i].categories[j].category))
  {
    ReconcileAt(budgets, ts, i);
    ReconcileInSpent(budgets[i], MonthRange(budgets[i].month).value, ts, j);
  }

  /** The rest follows from spent: `remaining` is what is left of the
      budgeted amount, `percentage` the share of it spent (0 when nothing is
      budgeted), and the budget's
      `totalSpent` adds up its categories' spent. */
  lemma ReconcileDerived(ts: seq<Transaction>, budgets: seq<Budget>, i: nat, j: nat)
    requires Reconcile(budgets, ts).Some?
    requires i < |budgets| && j < |budgets[i].categories|
    ensures var c := Reconcile(budgets, ts).value[i].categories[j];
      && c.remaining == c.budgeted - c.spent
      && c.percentage == Percentage(c.spent, c.budgeted)
    ensures Reconcile(budgets, ts).value[i].totalSpent == Sum(Reconcile(budgets, ts).value[i].categories, CategorySpent)
  {
    var range := MonthRange(budgets[i].month).value;
    ReconcileAt(budgets, ts, i);
    var b := ReconcileIn(budgets[i], range, ts);
    var c := b.categories[j];
    assert c == ReconcileCategory(budgets[i].categories[j], SpentByCategory(Filter(ts, InBudgetMonth(range))));
  }

  lemma ReconcileAt(bs: seq<Budget>, ts: seq<Transaction>, i: nat)
    requires Reconcile(bs, ts).Some? && i < |bs|
    ensures MonthRange(bs[i].month).Some?
    ensures Reconcile(bs, ts).value[i] == ReconcileIn(bs[i], MonthRange(bs[i].month).value, ts)
  {
  }

  lemma ReconcileInSpent(b: Budget, range: DateRange, ts: seq<Transaction>, j: nat)
    requires j < |b.categories|
    ensures ReconcileIn(b, range, ts).categories[j].spent == Sum(ts, SpentIn(range, b.categories[j].category))
  {
    assert ReconcileIn(b, range, ts).categories[j] == ReconcileCategory(b.categories[j], SpentByCategory(Filter(ts, InBudgetMonth(range))));
    var category := b.categories[j].category;
    SpentByCategorySum(Filter(ts, InBudgetMonth(range)), category);
    BudgetSpentIsMasked(ts, range, category);
  }

  /** Reconciling twice gives what reconciling once gives: the result
      depends only on the months, categories and budgeted amounts, which
      reconciliation keeps. */
  lemma ReconcileIdempotent(bs: seq<Budget>, ts: seq<Transaction>)
    requires Reconcile(bs, ts).Some?
    ensures Reconcile(Reconcile(bs, ts).value, ts) == Reconcile(bs, ts)
  {
    var r := Reconcile(bs, ts).value;
    assert AllRanged(r);
    var r2 := Reconcile(r, ts).value;
    forall i | 0 <= i < |bs|
      ensures r2[i] == r[i]
    {
      var range := MonthRange(bs[i].month).value;
      assert r[i] == ReconcileIn(bs[i], range, ts);
      assert r2[i] == ReconcileIn(r[i], range, ts);
      ReconcileInTwice(bs[i], range, ts);
    }
    assert r2 == r;
  }

  lemma ReconcileInTwice(b: Budget, range: DateRange, ts: seq<Transaction>)
    ensures ReconcileIn(ReconcileIn(b, range, ts), range, ts) == ReconcileIn(b, range, ts)
  {
    var once := ReconcileIn(b, range, ts);
    var twice := ReconcileIn(once, range, ts);
    assert twice.categories == once.categories;
  }

  /** For a budget of month `m` of a four-digit year and transactions with
      valid dates, a category's spent is the total of that category's
      expenses dated in that month. */
  lemma ReconcileMonthSpent(ts: seq<Transaction>, budgets: seq<Budget>, i: nat, j: nat, y: int, m: int)
    requires Reconcile(budgets, ts).Some? && AllIsoDated(ts)
    requires i < |budgets| && j < |budgets[i].categories|
    requires 100 <= y <= 9999 && 1 <= m <= 12 && budgets[i].month == MonthKey(y, m)
    ensures Reconcile(budgets, ts).value[i].categories[j].spent
         == Sum(ts, MonthExpense(y, m, budgets[i].categories[j].category))
  {
    var c := budgets[i].categories[j].category;
    ReconcileSpent(ts, budgets, i, j);
    MonthRangeOfKey(y, m);
    forall k | 0 <= k < |ts|
      ensures SpentIn(MonthSpan(y, m), c)(ts[k]) == MonthExpense(y, m, c)(ts[k])
    {
      SpentInMonth(y, m, c, ts[k]);
    }
    SumAgree(ts, SpentIn(MonthSpan(y, m), c), MonthExpense(y, m, c));
  }

  lemma SpentInMonth(y: int, m: int, c: string, t: Transaction)
    requires 100 <= y <= 9999 && 1 <= m <= 12 && ParseIsoDate(t.date).Some?
    ensures SpentIn(MonthSpan(y, m), c)(t) == MonthExpense(y, m, c)(t)
  {
    MonthRangeFilterSound(y, m, t.date);
  }

  /** The amount of an expense of category `c` dated in month `m` of year
      `y`, and 0 for any other transaction. */
  function MonthExpense(y: int, m: int, c: string): Transaction -> real {
    (t: Transaction) =>
      if t.kind == "expense" && t.category == c && ParseIsoDate(t.date).Some?
         && ParseIsoDate(t.date).value.year == y && ParseIsoDate(t.date).value.month == m
      then t.amount else 0.0
  }

  // ---------------------------------------------------------------------
  // The budget on display
  // ---------------------------------------------------------------------

  function BudgetMonth(b: Budget): string { b.month }

  function HasMonth(month: string): Budget -> bool {
    (b: Budget) => b.month == month
  }

  /** The selection effect: the current month's budget if there is one, else
      the first of the budgets sorted by month descending; with no budgets
      the previous selection stays. */
  function SelectBudget(bs: seq<Budget>, currentMonth: string, previous: Option<Budget>): Option<Budget> {
    match FirstIndex(bs, HasMonth(currentMonth))
    case Some(k) => Some(bs[k])
    case None =>
      if |bs| > 0 then Some(SortBy(bs, BudgetMonth, StrGreater)[0]) else previous
  }

  /** The current month's budget wins, the first one if several share the
      month. */
  lemma SelectCurrentBudget(bs: seq<Budget>, currentMonth: string, previous: Option<Budget>)
    requires exists i :: 0 <= i < |bs| && bs[i].month == currentMonth
    ensures exists k :: (0 <= k < |bs| && SelectBudget(bs, currentMonth, previous) == Some(bs[k])
      && bs[k].month == currentMonth && forall i :: 0 <= i < k ==> bs[i].month != currentMonth)
  {
    var k := FirstIndex(bs, HasMonth(currentMonth)).value;
    assert SelectBudget(bs, currentMonth, previous) == Some(bs[k]);
  }

  /** Without a budget for the current month the selection is a budget of
      the greatest month key, the first such in the list; with no budgets at
      all the previous selection stays. */
  lemma SelectLatestBudget(bs: seq<Budget>, currentMonth: string, previous: Option<Budget>)
    requires forall i :: 0 <= i < |bs| ==> bs[i].month != currentMonth
    ensures |bs| > 0 ==> exists k :: (0 <= k < |bs| && SelectBudget(bs, currentMonth, previous) == Some(bs[k])
      && (forall i :: 0 <= i < |bs| ==> StrLessEq(bs[i].month, bs[k].month))
      && (forall i :: 0 <= i < k ==> bs[i].month != bs[k].month))
    ensures bs == [] ==> SelectBudget(bs, currentMonth, previous) == previous
  {
    if |bs| > 0 {
      assert SelectBudget(bs, currentMonth, previous) == Some(SortBy(bs, BudgetMonth, StrGreater)[0]);
      LatestBudget(bs);
    }
  }

  /** The head of the month-descending sort is the first budget of the
      greatest month. */
  lemma LatestBudget(bs: seq<Budget>)
    requires |bs| > 0
    ensures var top := SortBy(bs, BudgetMonth, StrGreater)[0];
      exists k :: 0 <= k < |bs| && top == bs[k]
        && (forall i :: 0 <= i < |bs| ==> StrLessEq(bs[i].month, bs[k].month))
        && (forall i :: 0 <= i < k ==> bs[i].month != bs[k].month)
  {
    StrGreaterIsOrder();
    SortByHeadIsMax(bs, BudgetMonth, StrGreater);
    SortByHeadIsFirst(bs, BudgetMonth, StrGreater);
  }

  // ---------------------------------------------------------------------
  // Adding, replacing and deleting budgets
  // ---------------------------------------------------------------------

  /** `handleAddBudget`: the first budget of the same month is replaced in
      place; without one the budget is appended. */
  function AddBudget(bs: seq<Budget>, b: Budget): seq<Budget> {
    match FirstIndex(bs, HasMonth(b.month))
    case Some(k) => bs[k := b]
    case None => bs + [b]
  }

  /** Adding keeps the length when the month already has a budget and adds
      one otherwise; the new budget is in the list; every other position
      keeps its budget, and the one replaced is the first of that month. */
  lemma AddBudgetMeaning(bs: seq<Budget>, b: Budget)
    ensures var r := AddBudget(bs, b);
      && b in r
      && ((exists i :: 0 <= i < |bs| && bs[i].month == b.month) ==> |r| == |bs|)
      && ((forall i :: 0 <= i < |bs| ==> bs[i].month != b.month) ==> r == bs + [b])
      && (forall i :: 0 <= i < |bs| ==>
            r[i] == bs[i]
            || (r[i] == b && bs[i].month == b.month && forall j :: 0 <= j < i ==> bs[j].month != b.month))
  {
    var r := AddBudget(bs, b);
    match FirstIndex(bs, HasMonth(b.month))
    case Some(k) =>
      assert r == bs[k := b] && r[k] == b;
    case None =>
      assert r == bs + [b] && r[|bs|] == b;
      assert forall i :: 0 <= i < |bs| ==> r[i] == bs[i];
  }

  /** Adding the same budget twice is adding it once. */
  lemma AddBudgetIdempotent(bs: seq<Budget>, b: Budget)
    ensures AddBudget(AddBudget(bs, b), b) == AddBudget(bs, b)
  {
    var r := AddBudget(bs, b);
    match FirstIndex(bs, HasMonth(b.month))
    case Some(k) =>
      FirstIndexIs(r, HasMonth(b.month), k);
    case None =>
      assert forall i :: 0 <= i < |bs| ==> r[i] == bs[i];
      FirstIndexIs(r, HasMonth(b.month), |bs|);
  }

  /** `handleUpdateBudget`: every budget with the same id is replaced. */
  function UpdateBudget(bs: seq<Budget>, b: Budget): (r: seq<Budget>)
    ensures |r| == |bs|
    ensures forall i :: 0 <= i < |bs| && bs[i].id == b.id ==> r[i] == b
    ensures forall i :: 0 <= i < |bs| && bs[i].id != b.id ==> r[i] == bs[i]
  {
    seq(|bs|, i requires 0 <= i < |bs| => if bs[i].id == b.id then b else bs[i])
  }

  /** `handleDeleteBudget` once confirmed: the budgets with the id are
      dropped. */
  function DeleteBudget(bs: seq<Budget>, id: string): seq<Budget> {
    Filter(bs, HasOtherId(id))
  }

  function HasOtherId(id: string): Budget -> bool {
    (b: Budget) => b.id != id
  }

  /** Updating an id no budget carries changes nothing; updating twice is
      updating once; and once the id's budgets are deleted it makes no
      difference whether they were updated first. */
  lemma UpdateBudgetMeaning(bs: seq<Budget>, b: Budget)
    ensures (forall i :: 0 <= i < |bs| ==> bs[i].id != b.id) ==> UpdateBudget(bs, b) == bs
    ensures UpdateBudget(UpdateBudget(bs, b), b) == UpdateBudget(bs, b)
    ensures DeleteBudget(UpdateBudget(bs, b), b.id) == DeleteBudget(bs, b.id)
  {
    UpdateThenDelete(bs, b);
  }

  lemma {:induction false} UpdateThenDelete(bs: seq<Budget>, b: Budget)
    ensures DeleteBudget(UpdateBudget(bs, b), b.id) == DeleteBudget(bs, b.id)
    decreases |bs|
  {
    if |bs| > 0 {
      UpdateThenDelete(bs[1..], b);
      assert UpdateBudget(bs, b)[1..] == UpdateBudget(bs[1..], b);
    }
  }

  /** Deleting leaves no budget with the id, keeps every other budget in its
      order, removes exactly as many as carried the id, and changes nothing
      when none did. */
  lemma DeleteBudgetMeaning(bs: seq<Budget>, id: string)
    ensures forall i :: 0 <= i < |DeleteBudget(bs, id)| ==> DeleteBudget(bs, id)[i].id != id
    ensures forall i :: 0 <= i < |bs| && bs[i].id != id ==> bs[i] in DeleteBudget(bs, id)
    ensures IsSubsequence(DeleteBudget(bs, id), bs)
    ensures |DeleteBudget(bs, id)| + |Filter(bs, Not(HasOtherId(id)))| == |bs|
    ensures (forall i :: 0 <= i < |bs| ==> bs[i].id != id) ==> DeleteBudget(bs, id) == bs
  {
    FilterIsSubsequence(bs, HasOtherId(id));
    FilterComplementCount(bs, HasOtherId(id));
    if forall i :: 0 <= i < |bs| ==> bs[i].id != id {
      FilterPrefix(bs, |bs|, HasOtherId(id));
    }
  }

  /** After a delete the selection moves to the first remaining budget if
      the selected one was deleted, and stays otherwise. */
  function SelectAfterDelete(selected: Option<Budget>, remaining: seq<Budget>, id: string): (r: Option<Budget>)
    ensures selected.Some? && selected.value.id == id && |remaining| > 0 ==> r == Some(remaining[0])
    ensures selected.Some? && selected.value.id == id && |remaining| == 0 ==> r.None?
    ensures !(selected.Some? && selected.value.id == id) ==> r == selected
  {
    if selected.Some? && selected.value.id == id then
      if |remaining| > 0 then Some(remaining[0]) else None
    else selected
  }

  /** Deleting the selected budget moves the selection to a budget that
      survived the delete, or clears it: the selection never names a
      deleted budget, nor one that was not in the list. */
  lemma SelectAfterDeleteMeaning(selected: Option<Budget>, bs: seq<Budget>, id: string)
    requires selected.Some? ==> selected.value in bs
    ensures var r := SelectAfterDelete(selected, DeleteBudget(bs, id), id);
      r.None? || (r.value in bs && r.value.id != id)
    ensures var r := SelectAfterDelete(selected, DeleteBudget(bs, id), id);
      r.None? ==> selected.None? || DeleteBudget(bs, id) == []
  {
    DeleteBudgetMeaning(bs, id);
  }
}
