/** The dashboard's expense pie chart: the five largest categories and one
    entry folding the rest together. */
module Charts {
  import opened Seqs
  import opened Sorting
  import opened Types
  import opened Stats

  const OtherCategory: string := "other_expense"
  const OtherColor: string := "#9E9E9E"

  /** How many categories the chart shows on their own. */
  const TopCount: nat := 5

  /** `[...data].sort((a, b) => b.amount - a.amount)`: a stable sort, largest
      amount first. */
  function ByAmountDescending(data: seq<CategorySummary>): seq<CategorySummary> {
    SortBy(data, SummaryAmount, Greater)
  }

  /** The entry standing for every category past the fifth. */
  function OtherEntry(rest: seq<CategorySummary>): (r: CategorySummary)
    ensures r.category == OtherCategory && r.color == OtherColor
  {
    CategorySummary(OtherCategory, Sum(rest, SummaryAmount), Sum(rest, SummaryPercentage), OtherColor)
  }

  /** `chartData`. */
  function ChartData(data: seq<CategorySummary>): (r: seq<CategorySummary>)
    ensures |data| <= TopCount ==> |r| == |data|
    ensures |data| > TopCount ==> |r| == TopCount + 1
  {
    var sorted := ByAmountDescending(data);
    if |sorted| > TopCount then sorted[..TopCount] + [OtherEntry(sorted[TopCount..])]
    else sorted
  }

  /** With at most five categories the chart shows all of them, largest
      first: a reordering of the input, descending by amount, equal amounts
      in input order. No categories give an empty chart. */
  lemma ChartSmall(data: seq<CategorySummary>)
    requires |data| <= TopCount
    ensures multiset(ChartData(data)) == multiset(data)
    ensures SortedBy(ChartData(data), SummaryAmount, Greater)
    ensures forall a :: KeyFilter(ChartData(data), SummaryAmount, a) == KeyFilter(data, SummaryAmount, a)
    ensures data == [] ==> ChartData(data) == []
  {
    GreaterIsStrictTotalOrder();
    SortBySorted(data, SummaryAmount, Greater);
    forall a {
      SortByStable(data, SummaryAmount, Greater, a);
    }
  }

  /** With more than five categories, the first five entries are input
      categories in descending order of amount, no category left out of them
      is larger than any of them, and the sixth is the "other" entry whose
      amount and percentage add up those of the categories left out. */
  lemma ChartLarge(data: seq<CategorySummary>)
    requires |data| > TopCount
    ensures var r := ChartData(data);
      && multiset(r[..TopCount]) <= multiset(data)
      && SortedBy(r[..TopCount], SummaryAmount, Greater)
      && (forall x :: x in multiset(data) - multiset(r[..TopCount]) ==>
            forall i :: 0 <= i < TopCount ==> x.amount <= r[i].amount)
      && r[TopCount] == OtherEntry(ByAmountDescending(data)[TopCount..])
      && r[TopCount].category == OtherCategory && r[TopCount].color == OtherColor
  {
    var sorted := ByAmountDescending(data);
    var r := ChartData(data);
    GreaterIsStrictTotalOrder();
    SortBySorted(data, SummaryAmount, Greater);
    assert r[..TopCount] == sorted[..TopCount];
    assert sorted == sorted[..TopCount] + sorted[TopCount..];
    assert multiset(sorted) == multiset(sorted[..TopCount]) + multiset(sorted[TopCount..]);
    forall x | x in multiset(data) - multiset(r[..TopCount])
      ensures forall i :: 0 <= i < TopCount ==> x.amount <= r[i].amount
    {
      assert x in multiset(sorted[TopCount..]);
      var j :| 0 <= j < |sorted[TopCount..]| && sorted[TopCount..][j] == x;
      assert sorted[TopCount + j] == x;
    }
  }

  /** The chart's amounts add up to the input's: nothing is lost by folding
      the small categories together. The same holds for the percentages. */
  lemma ChartTotal(data: seq<CategorySummary>)
    ensures Sum(ChartData(data), SummaryAmount) == Sum(data, SummaryAmount)
    ensures Sum(ChartData(data), SummaryPercentage) == Sum(data, SummaryPercentage)
  {
    var sorted := ByAmountDescending(data);
    SortBySum(data, SummaryAmount, Greater, SummaryAmount);
    SortBySum(data, SummaryAmount, Greater, SummaryPercentage);
    if |sorted| > TopCount {
      SumFoldTail(sorted, TopCount, OtherEntry(sorted[TopCount..]), SummaryAmount);
      SumFoldTail(sorted, TopCount, OtherEntry(sorted[TopCount..]), SummaryPercentage);
    }
  }
}
