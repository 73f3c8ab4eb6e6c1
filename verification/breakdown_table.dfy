/** The category table of the reports page: rows sorted largest first, and
    the total under them. */
module BreakdownTable {
  import opened Seqs
  import opened Sorting
  import opened Types
  import opened Stats

  /** `sortedCategories`. */
  function Rows(categories: seq<CategorySummary>): seq<CategorySummary> {
    SortBy(categories, SummaryAmount, Greater)
  }

  /** `total`, computed from the unsorted input. */
  function Total(categories: seq<CategorySummary>): real {
    Sum(categories, SummaryAmount)
  }

  /** The table itself is drawn only when there is a row; otherwise the page
      shows its no-data message. */
  predicate ShowsTable(categories: seq<CategorySummary>) {
    |Rows(categories)| > 0
  }

  /** The rows are the input reordered: every category appears as often as
      in the input, largest amount first, equal amounts in input order, and
      their amounts add up to the total. The no-data branch is taken exactly
      for an empty input. */
  lemma RowsMeaning(categories: seq<CategorySummary>)
    ensures multiset(Rows(categories)) == multiset(categories)
    ensures SortedBy(Rows(categories), SummaryAmount, Greater)
    ensures forall a :: KeyFilter(Rows(categories), SummaryAmount, a) == KeyFilter(categories, SummaryAmount, a)
    ensures Sum(Rows(categories), SummaryAmount) == Total(categories)
    ensures ShowsTable(categories) <==> categories != []
  {
    GreaterIsStrictTotalOrder();
    SortBySorted(categories, SummaryAmount, Greater);
    forall a {
      SortByStable(categories, SummaryAmount, Greater, a);
    }
    SortBySum(categories, SummaryAmount, Greater, SummaryAmount);
  }
}
