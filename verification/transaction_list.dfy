/** The transaction table: the search and the two filters, the column sort,
    the sort toggle, and the category filter's options. */
module TransactionList {
  import opened Seqs
  import opened Strings
  import opened Sorting
  import opened Types
  import opened Calendar
  import opened Stats

  // ---------------------------------------------------------------------
  // Filtering
  // ---------------------------------------------------------------------

  /** The three filter inputs; a filter set to `all` lets everything pass. */
  datatype Filters = Filters(search: string, kind: string, category: string)

  const NoFilters: Filters := Filters("", "all", "all")

  /** The filter callback: the description contains the search term, ignoring
      case, and type and category match or are not filtered. */
  predicate Matches(f: Filters, t: Transaction) {
    && Contains(ToLower(t.description), ToLower(f.search))
    && (f.kind == "all" || t.kind == f.kind)
    && (f.category == "all" || t.category == f.category)
  }

  function Matching(f: Filters): Transaction -> bool {
    (t: Transaction) => Matches(f, t)
  }

  function Filtered(ts: seq<Transaction>, f: Filters): seq<Transaction> {
    Filter(ts, Matching(f))
  }

  /** The shown rows are the matching transactions, in their stored order:
      every row matches, every matching transaction is shown, and nothing is
      reordered. */
  lemma FilteredMeaning(ts: seq<Transaction>, f: Filters)
    ensures IsSubsequence(Filtered(ts, f), ts)
    ensures forall i :: 0 <= i < |Filtered(ts, f)| ==> Matches(f, Filtered(ts, f)[i])
    ensures forall i :: 0 <= i < |ts| && Matches(f, ts[i]) ==> ts[i] in Filtered(ts, f)
  {
    FilterIsSubsequence(ts, Matching(f));
  }

  /** Every text contains the empty search term. */
  lemma ContainsEmpty(s: string)
    ensures Contains(s, "")
  {
  }

  /** With no search term and both filters at `all`, every transaction is
      shown. */
  lemma NoFiltersKeepAll(ts: seq<Transaction>)
    ensures Filtered(ts, NoFilters) == ts
  {
    forall i | 0 <= i < |ts|
      ensures Matching(NoFilters)(ts[i]) <==> i < |ts|
    {
      ContainsEmpty(ToLower(ts[i].description));
    }
    FilterPrefix(ts, |ts|, Matching(NoFilters));
  }

  // ---------------------------------------------------------------------
  // Sorting
  // ---------------------------------------------------------------------

  /** The column the table is sorted by: any field of a transaction; only
      date, amount and description have a comparison. */
  datatype SortField = DateColumn | AmountColumn | DescriptionColumn | OtherColumn(name: string)

  datatype Direction = Asc | Desc

  datatype SortState = SortState(field: SortField, direction: Direction)

  const InitialSort: SortState := SortState(DateColumn, Desc)

  /** `toggleSort`: the same column flips the direction, another column is
      sorted descending. */
  function ToggleSort(s: SortState, field: SortField): (r: SortState)
    ensures r.field == field
    ensures s.field == field ==> r.direction != s.direction
    ensures s.field != field ==> r.direction == Desc
  {
    if s.field == field then
      SortState(field, if s.direction == Asc then Desc else Asc)
    else SortState(field, Desc)
  }

  /** Clicking the sorted column twice restores the sort. */
  lemma ToggleTwice(s: SortState)
    ensures ToggleSort(ToggleSort(s, s.field), s.field) == s
  {
  }

  function AmountKey(t: Transaction): real { t.amount }
  function DescriptionKey(t: Transaction): string { t.description }
  function NoKey(t: Transaction): real { 0.0 }

  /** The comparator `sortField` and `sortDirection` select, applied by a
      stable sort. Dates compare by day. */
  function Sorted(ts: seq<Transaction>, s: SortState): (r: seq<Transaction>)
    ensures multiset(r) == multiset(ts)
  {
    match s.field
    case DateColumn => SortBy(ts, DayValue, if s.direction == Asc then Less else Greater)
    case AmountColumn => SortBy(ts, AmountKey, if s.direction == Asc then Less else Greater)
    case DescriptionColumn => SortBy(ts, DescriptionKey, if s.direction == Asc then StrLess else StrGreater)
    case OtherColumn(_) => SortBy(ts, NoKey, Greater)
  }

  /** Sorting by amount orders the rows by amount in the chosen direction,
      rows with equal amounts in their filtered order. */
  lemma SortedByAmount(ts: seq<Transaction>, d: Direction)
    ensures d == Asc ==> forall i, j :: 0 <= i < j < |ts| ==>
      Sorted(ts, SortState(AmountColumn, d))[i].amount <= Sorted(ts, SortState(AmountColumn, d))[j].amount
    ensures d == Desc ==> forall i, j :: 0 <= i < j < |ts| ==>
      Sorted(ts, SortState(AmountColumn, d))[i].amount >= Sorted(ts, SortState(AmountColumn, d))[j].amount
    ensures forall v :: KeyFilter(Sorted(ts, SortState(AmountColumn, d)), AmountKey, v) == KeyFilter(ts, AmountKey, v)
  {
    if d == Asc {
      SortedWith(ts, AmountKey, Less);
    } else {
      SortedWith(ts, AmountKey, Greater);
    }
  }

  /** Sorting by description orders the rows by description in the chosen
      direction, equal descriptions in their filtered order. */
  lemma SortedByDescription(ts: seq<Transaction>, d: Direction)
    ensures d == Asc ==> forall i, j :: 0 <= i < j < |ts| ==>
      !StrLess(Sorted(ts, SortState(DescriptionColumn, d))[j].description,
               Sorted(ts, SortState(DescriptionColumn, d))[i].description)
    ensures d == Desc ==> forall i, j :: 0 <= i < j < |ts| ==>
      !StrLess(Sorted(ts, SortState(DescriptionColumn, d))[i].description,
               Sorted(ts, SortState(DescriptionColumn, d))[j].description)
    ensures forall v :: KeyFilter(Sorted(ts, SortState(DescriptionColumn, d)), DescriptionKey, v) == KeyFilter(ts, DescriptionKey, v)
  {
    if d == Asc {
      SortedWithStrLess(ts, DescriptionKey);
    } else {
      SortedWithStrGreater(ts, DescriptionKey);
    }
  }

  lemma SortedWithStrLess(ts: seq<Transaction>, key: Transaction -> string)
    ensures SortedBy(SortBy(ts, key, StrLess), key, StrLess)
    ensures forall v :: KeyFilter(SortBy(ts, key, StrLess), key, v) == KeyFilter(ts, key, v)
  {
    StrLessIsOrder();
    SortedWith(ts, key, StrLess);
  }

  lemma SortedWithStrGreater(ts: seq<Transaction>, key: Transaction -> string)
    ensures SortedBy(SortBy(ts, key, StrGreater), key, StrGreater)
    ensures forall v :: KeyFilter(SortBy(ts, key, StrGreater), key, v) == KeyFilter(ts, key, v)
  {
    StrGreaterIsOrder();
    SortedWith(ts, key, StrGreater);
  }

  /** A stable sort by a strict total order is sorted and keeps equal keys in
      input order. */
  lemma SortedWith<K(!new)>(ts: seq<Transaction>, key: Transaction -> K, before: (K, K) -> bool)
    requires StrictTotalOrder(before)
    ensures SortedBy(SortBy(ts, key, before), key, before)
    ensures forall v :: KeyFilter(SortBy(ts, key, before), key, v) == KeyFilter(ts, key, v)
  {
    SortBySorted(ts, key, before);
    forall v {
      SortByStable(ts, key, before, v);
    }
  }

  /** For valid ISO dates, sorting by date orders the date strings in the
      chosen direction. */
  lemma SortedByDate(ts: seq<Transaction>, d: Direction)
    requires AllIsoDated(ts)
    ensures forall i, j :: 0 <= i < j < |ts| ==>
      if d == Asc then !StrLess(Sorted(ts, SortState(DateColumn, d))[j].date, Sorted(ts, SortState(DateColumn, d))[i].date)
      else !StrLess(Sorted(ts, SortState(DateColumn, d))[i].date, Sorted(ts, SortState(DateColumn, d))[j].date)
  {
    var sorted := Sorted(ts, SortState(DateColumn, d));
    if d == Asc {
      LessIsStrictTotalOrder();
      SortBySorted(ts, DayValue, Less);
    } else {
      GreaterIsStrictTotalOrder();
      SortBySorted(ts, DayValue, Greater);
    }
    forall i, j | 0 <= i < j < |ts|
      ensures if d == Asc then !StrLess(sorted[j].date, sorted[i].date) else !StrLess(sorted[i].date, sorted[j].date)
    {
      assert sorted[i] in multiset(ts) && sorted[j] in multiset(ts);
      DayValueOrder(sorted[i], sorted[j]);
      DayValueOrder(sorted[j], sorted[i]);
    }
  }

  /** Any other column has a comparator that always answers 0, so the rows
      stay in their filtered order. */
  lemma SortedByOther(ts: seq<Transaction>, name: string, d: Direction)
    ensures Sorted(ts, SortState(OtherColumn(name), d)) == ts
  {
    SortByUnranked(ts, NoKey, Greater);
  }

  // ---------------------------------------------------------------------
  // Category options
  // ---------------------------------------------------------------------

  /** The category filter's options after `all`: each category occurring
      in the transactions, kept where `indexOf` finds it first. */
  function CategoryOptions(ts: seq<Transaction>): seq<string> {
    FirstOccurrences(Project(ts, CategoryOf), |ts|)
  }

  /** The options are the distinct categories in order of first occurrence:
      none repeats, each occurs in the transactions, and every category that
      occurs is offered. */
  lemma CategoryOptionsMeaning(ts: seq<Transaction>)
    ensures CategoryOptions(ts) == Unique(Project(ts, CategoryOf))
    ensures Distinct(CategoryOptions(ts))
    ensures forall i :: 0 <= i < |CategoryOptions(ts)| ==> CategoryOptions(ts)[i] in Project(ts, CategoryOf)
    ensures forall i :: 0 <= i < |ts| ==> ts[i].category in CategoryOptions(ts)
  {
    var cs := Project(ts, CategoryOf);
    FirstOccurrencesIsUnique(cs, |ts|);
    assert cs[..|ts|] == cs;
    forall i | 0 <= i < |ts|
      ensures ts[i].category in CategoryOptions(ts)
    {
      assert cs[i] == ts[i].category;
    }
  }
}
