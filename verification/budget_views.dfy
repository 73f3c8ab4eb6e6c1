/** The budget overview card and the budget list: the figures they show,
    the order they show things in, and the colour of each bar. */
module BudgetViews {
  import opened Seqs
  import opened Strings
  import opened Sorting
  import opened Types
  import opened BudgetPage

  /** `remainingBudget`, shown green when not negative and red otherwise. */
  function RemainingBudget(b: Budget): (r: real)
    ensures r + b.totalSpent == b.totalBudgeted
    ensures r >= 0.0 <==> b.totalSpent <= b.totalBudgeted
  {
    b.totalBudgeted - b.totalSpent
  }

  /** `spentPercentage`, the same guarded share in the overview and in
      every row of the list. */
  function SpentPercentage(b: Budget): (p: real)
    ensures b.totalBudgeted > 0.0 ==> p * b.totalBudgeted == b.totalSpent * 100.0
    ensures b.totalBudgeted <= 0.0 ==> p == 0.0
  {
    Percentage(b.totalSpent, b.totalBudgeted)
  }

  /** The overview's header reads "Budget exceeded" instead of the share
      used. */
  predicate Exceeded(b: Budget) {
    SpentPercentage(b) > 100.0
  }

  /** The budget reads as exceeded exactly when something is budgeted and
      more than that has been spent; then the remaining figure is red and
      the bar is full. */
  lemma ExceededMeaning(b: Budget)
    ensures Exceeded(b) <==> b.totalBudgeted > 0.0 && b.totalSpent > b.totalBudgeted
    ensures Exceeded(b) ==> RemainingBudget(b) < 0.0 && BarWidth(SpentPercentage(b)) == 100.0
  {
    if b.totalBudgeted > 0.0 {
      ShareAbove(SpentPercentage(b), b.totalSpent, b.totalBudgeted, 100.0);
    }
  }

  /** For a positive total, a share is above `k` percent exactly when the
      amount is above `k` hundredths of the total. */
  lemma ShareAbove(p: real, amount: real, total: real, k: real)
    requires total > 0.0 && p * total == amount * 100.0
    ensures p > k <==> amount * 100.0 > k * total
  {
    if p > k {
      assert p * total > k * total;
    } else {
      assert p * total <= k * total;
    }
  }

  /** The colour of a percentage: red past 100, amber past 80, otherwise
      the neutral or green colour. */
  datatype Level = Danger | Warning | Normal

  function LevelOf(p: real): Level {
    if p > 100.0 then Danger else if p > 80.0 then Warning else Normal
  }

  function Rank(l: Level): nat {
    match l
    case Normal => 0
    case Warning => 1
    case Danger => 2
  }

  /** The three levels split the percentages at 80 and 100, and a larger
      percentage never has a milder level. */
  lemma LevelOfMeaning(p: real, q: real)
    ensures LevelOf(p) == Danger <==> p > 100.0
    ensures LevelOf(p) == Warning <==> 80.0 < p <= 100.0
    ensures LevelOf(p) == Normal <==> p <= 80.0
    ensures p <= q ==> Rank(LevelOf(p)) <= Rank(LevelOf(q))
  {
  }

  /** A budget's level follows what it spent against what it budgeted. */
  lemma BudgetLevel(b: Budget)
    requires b.totalBudgeted > 0.0
    ensures LevelOf(SpentPercentage(b)) == Danger <==> b.totalSpent * 100.0 > 100.0 * b.totalBudgeted
    ensures LevelOf(SpentPercentage(b)) == Normal <==> b.totalSpent * 100.0 <= 80.0 * b.totalBudgeted
  {
    ShareAbove(SpentPercentage(b), b.totalSpent, b.totalBudgeted, 100.0);
    ShareAbove(SpentPercentage(b), b.totalSpent, b.totalBudgeted, 80.0);
  }

  /** `Math.min(p, 100)`: the bar never runs past its track. */
  function BarWidth(p: real): (w: real)
    ensures w <= 100.0 && w <= p
    ensures w == p || w == 100.0
  {
    if p < 100.0 then p else 100.0
  }

  function CategoryPercentage(c: BudgetCategory): real { c.percentage }

  /** The overview's categories, largest share spent first. */
  function SortedCategories(b: Budget): seq<BudgetCategory> {
    SortBy(b.categories, CategoryPercentage, Greater)
  }

  /** The categories shown are the budget's categories reordered, in
      descending order of percentage, equal percentages in budget order. */
  lemma SortedCategoriesMeaning(b: Budget)
    ensures multiset(SortedCategories(b)) == multiset(b.categories)
    ensures SortedBy(SortedCategories(b), CategoryPercentage, Greater)
    ensures forall p :: KeyFilter(SortedCategories(b), CategoryPercentage, p) == KeyFilter(b.categories, CategoryPercentage, p)
  {
    GreaterIsStrictTotalOrder();
    SortBySorted(b.categories, CategoryPercentage, Greater);
    forall p {
      SortByStable(b.categories, CategoryPercentage, Greater, p);
    }
  }

  /** The list's budgets, newest month first. */
  function SortedBudgets(bs: seq<Budget>): seq<Budget> {
    SortBy(bs, BudgetMonth, StrGreater)
  }

  /** Every budget is listed exactly once, in descending order of month key,
      budgets of the same month in their stored order. */
  lemma SortedBudgetsMeaning(bs: seq<Budget>)
    ensures multiset(SortedBudgets(bs)) == multiset(bs)
    ensures forall i, j :: 0 <= i < j < |SortedBudgets(bs)| ==>
      StrLessEq(SortedBudgets(bs)[j].month, SortedBudgets(bs)[i].month)
    ensures forall m :: KeyFilter(SortedBudgets(bs), BudgetMonth, m) == KeyFilter(bs, BudgetMonth, m)
  {
    StrGreaterIsOrder();
    SortBySorted(bs, BudgetMonth, StrGreater);
    forall m {
      SortByStable(bs, BudgetMonth, StrGreater, m);
    }
  }

  // ---------------------------------------------------------------------
  // Category names
  // ---------------------------------------------------------------------

  /** `word.charAt(0).toUpperCase() + word.slice(1)`. */
  function Capitalize(w: string): (r: string)
    ensures |r| == |w|
    ensures |w| > 0 ==> r[0] == ToUpperChar(w[0]) && r[1..] == w[1..]
  {
    if |w| == 0 then "" else [ToUpperChar(w[0])] + w[1..]
  }

  function CapitalizeAll(ws: seq<string>): (r: seq<string>)
    ensures |r| == |ws|
    ensures forall i :: 0 <= i < |ws| ==> r[i] == Capitalize(ws[i])
  {
    seq(|ws|, i requires 0 <= i < |ws| => Capitalize(ws[i]))
  }

  /** A category identifier as the overview prints it: split on `_`, each
      piece capitalised, joined by spaces. */
  function DisplayName(s: string): string {
    Join(CapitalizeAll(Split(s, '_')), " ")
  }

  /** For an identifier without spaces, the words of the printed name are
      its `_`-separated pieces, each with its first letter upper-cased. */
  lemma DisplayNameWords(s: string)
    requires ' ' !in s
    ensures Split(DisplayName(s), ' ') == CapitalizeAll(Split(s, '_'))
    ensures |Split(DisplayName(s), ' ')| == |Split(s, '_')|
  {
    var pieces := Split(s, '_');
    var words := CapitalizeAll(pieces);
    PiecesWithout(s, '_', ' ');
    forall i | 0 <= i < |words|
      ensures ' ' !in words[i]
    {
      assert ' ' !in pieces[i];
      if |pieces[i]| > 0 {
        assert words[i] == [ToUpperChar(pieces[i][0])] + pieces[i][1..];
      }
    }
    SplitJoin(words, ' ');
  }
}
