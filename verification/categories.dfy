/** The category registry (`categoryOptions`) and its label, icon and colour
    lookups. Lookups take the category as a string, since a stored
    transaction may carry any string there. */
module Categories {
  import opened Wrappers
  import opened Seqs
  import opened Types

  datatype CategoryOption = CategoryOption(value: TransactionCategory, labelText: string, kind: TransactionType)

  /** The registry entry of each category. */
  function OptionOf(c: TransactionCategory): (r: CategoryOption)
    ensures r.value == c
  {
    match c
    case Salary => CategoryOption(Salary, "Salary", Income)
    case Freelance => CategoryOption(Freelance, "Freelance", Income)
    case Investments => CategoryOption(Investments, "Investments", Income)
    case OtherIncome => CategoryOption(OtherIncome, "Other Income", Income)
    case Housing => CategoryOption(Housing, "Housing", Expense)
    case Transportation => CategoryOption(Transportation, "Transportation", Expense)
    case Food => CategoryOption(Food, "Food & Dining", Expense)
    case Utilities => CategoryOption(Utilities, "Utilities", Expense)
    case Healthcare => CategoryOption(Healthcare, "Healthcare", Expense)
    case Entertainment => CategoryOption(Entertainment, "Entertainment", Expense)
    case Shopping => CategoryOption(Shopping, "Shopping", Expense)
    case Education => CategoryOption(Education, "Education", Expense)
    case PersonalCare => CategoryOption(PersonalCare, "Personal Care", Expense)
    case Travel => CategoryOption(Travel, "Travel", Expense)
    case Debt => CategoryOption(Debt, "Debt Payments", Expense)
    case Savings => CategoryOption(Savings, "Savings & Investments", Expense)
    case GiftsDonations => CategoryOption(GiftsDonations, "Gifts & Donations", Expense)
    case OtherExpense => CategoryOption(OtherExpense, "Other Expenses", Expense)
  }

  /** The registry order: four income categories, then fourteen expense
      categories. */
  const Order: seq<TransactionCategory> := [
    Salary, Freelance, Investments, OtherIncome,
    Housing, Transportation, Food, Utilities, Healthcare, Entertainment,
    Shopping, Education, PersonalCare, Travel, Debt, Savings,
    GiftsDonations, OtherExpense
  ]

  /** `categoryOptions`. */
  function Registry(): seq<CategoryOption> {
    seq(|Order|, i requires 0 <= i < |Order| => OptionOf(Order[i]))
  }

  /** Where each category sits in the registry. */
  function RegistryIndex(c: TransactionCategory): (i: nat)
    ensures i < |Registry()| && Registry()[i].value == c
  {
    match c
    case Salary => 0
    case Freelance => 1
    case Investments => 2
    case OtherIncome => 3
    case Housing => 4
    case Transportation => 5
    case Food => 6
    case Utilities => 7
    case Healthcare => 8
    case Entertainment => 9
    case Shopping => 10
    case Education => 11
    case PersonalCare => 12
    case Travel => 13
    case Debt => 14
    case Savings => 15
    case GiftsDonations => 16
    case OtherExpense => 17
  }

  /** The registry lists every category exactly once (its position is the one
      `RegistryIndex` gives), the first four as income, the rest as expense. */
  lemma RegistryShape()
    ensures |Registry()| == 18
    ensures forall i :: 0 <= i < |Registry()| ==> RegistryIndex(Registry()[i].value) == i
    ensures forall i :: 0 <= i < |Registry()| ==> (Registry()[i].kind == Income <==> i < 4)
  {
    RegistryIndexes();
    RegistryKinds();
  }

  lemma RegistryIndexes()
    ensures forall i :: 0 <= i < |Registry()| ==> RegistryIndex(Registry()[i].value) == i
  {
    assert forall i :: 0 <= i < |Order| ==> RegistryIndex(Order[i]) == i;
  }

  lemma RegistryKinds()
    ensures forall i :: 0 <= i < |Registry()| ==> (Registry()[i].kind == Income <==> i < 4)
  {
  }

  /** No two registry entries share a category. */
  lemma RegistryDistinct(i: nat, j: nat)
    requires i < |Registry()| && j < |Registry()| && Registry()[i].value == Registry()[j].value
    ensures i == j
  {
    RegistryShape();
  }

  function OptionName(o: CategoryOption): string {
    CategoryName(o.value)
  }

  /** The position of the first option whose value is `c`
      (`options.find(o => o.value === c)`). */
  function FindIndex(options: seq<CategoryOption>, c: string): (r: Option<nat>)
    ensures r.Some? ==> r.value < |options| && OptionName(options[r.value]) == c
    ensures r.Some? ==> forall i :: 0 <= i < r.value ==> OptionName(options[i]) != c
    ensures r.None? ==> forall i :: 0 <= i < |options| ==> OptionName(options[i]) != c
    decreases |options|
  {
    if |options| == 0 then None
    else if OptionName(options[0]) == c then Some(0)
    else
      match FindIndex(options[1..], c)
      case Some(k) =>
        assert forall i :: 1 <= i <= k + 1 ==> options[i] == options[1..][i - 1];
        Some(k + 1)
      case None =>
        assert forall i :: 1 <= i < |options| ==> options[i] == options[1..][i - 1];
        None
  }

  /** The category a string names, if it names one. */
  function ParseCategory(s: string): (r: Option<TransactionCategory>)
    ensures r.Some? ==> CategoryName(r.value) == s
    ensures r.None? ==> forall c :: CategoryName(c) != s
  {
    match FindIndex(Registry(), s)
    case Some(i) => Some(Registry()[i].value)
    case None =>
      assert forall c :: CategoryName(c) == OptionName(Registry()[RegistryIndex(c)]);
      None
  }

  lemma ParseCategoryName(c: TransactionCategory)
    ensures ParseCategory(CategoryName(c)) == Some(c)
  {
    var r := ParseCategory(CategoryName(c));
    CategoryNameInjective(r.value, c);
  }

  predicate IsCategory(s: string) {
    ParseCategory(s).Some?
  }

  /** `getCategoryLabel`: the label of the first registry entry with that
      value, or `Unknown`. */
  function Label(s: string): (r: string)
    ensures FindIndex(Registry(), s).Some? ==> r == Registry()[FindIndex(Registry(), s).value].labelText
    ensures FindIndex(Registry(), s).None? ==> r == "Unknown"
  {
    match FindIndex(Registry(), s)
    case Some(i) => Registry()[i].labelText
    case None => "Unknown"
  }

  /** Every category is labelled by its own registry entry, and a string
      naming no category is `Unknown`. */
  lemma LabelMeaning(s: string)
    ensures forall c :: CategoryName(c) == s ==> Label(s) == Registry()[RegistryIndex(c)].labelText
    ensures !IsCategory(s) ==> Label(s) == "Unknown"
  {
    match FindIndex(Registry(), s)
    case Some(i) =>
      forall c | CategoryName(c) == s
        ensures Label(s) == Registry()[RegistryIndex(c)].labelText
      {
        CategoryNameInjective(Registry()[i].value, c);
        RegistryDistinct(i, RegistryIndex(c));
      }
    case None =>
      assert forall c :: CategoryName(c) == OptionName(Registry()[RegistryIndex(c)]);
  }

  function IconOf(c: TransactionCategory): (r: string)
    ensures r != "help-circle"
  {
    match c
    case Salary => "briefcase"
    case Freelance => "laptop"
    case Investments => "trending-up"
    case OtherIncome => "plus-circle"
    case Housing => "home"
    case Transportation => "car"
    case Food => "utensils"
    case Utilities => "zap"
    case Healthcare => "activity"
    case Entertainment => "film"
    case Shopping => "shopping-bag"
    case Education => "book"
    case PersonalCare => "user"
    case Travel => "map"
    case Debt => "credit-card"
    case Savings => "piggy-bank"
    case GiftsDonations => "gift"
    case OtherExpense => "more-horizontal"
  }

  /** Only one category has a given string value. */
  lemma NamedCategoryUnique(s: string, c: TransactionCategory)
    requires CategoryName(c) == s
    ensures forall d :: CategoryName(d) == s ==> d == c
  {
    forall d | CategoryName(d) == s
      ensures d == c
    {
      CategoryNameInjective(c, d);
    }
  }

  /** `getCategoryIcon`: a switch over the category strings with a
      `help-circle` default. */
  function Icon(s: string): (r: string)
    ensures r == "help-circle" <==> !IsCategory(s)
    ensures forall c :: CategoryName(c) == s ==> r == IconOf(c)
  {
    match ParseCategory(s)
    case Some(c) =>
      NamedCategoryUnique(s, c);
      IconOf(c)
    case None => "help-circle"
  }

  const DefaultColor: string := "#9E9E9E"

  function ColorOf(c: TransactionCategory): string {
    match c
    case Salary => "#4CAF50"
    case Freelance => "#8BC34A"
    case Investments => "#009688"
    case OtherIncome => "#2E7D32"
    case Housing => "#E91E63"
    case Transportation => "#9C27B0"
    case Food => "#FF9800"
    case Utilities => "#F44336"
    case Healthcare => "#3F51B5"
    case Entertainment => "#673AB7"
    case Shopping => "#FF5722"
    case Education => "#2196F3"
    case PersonalCare => "#795548"
    case Travel => "#607D8B"
    case Debt => "#D32F2F"
    case Savings => "#00BCD4"
    case GiftsDonations => "#FFC107"
    case OtherExpense => "#9E9E9E"
  }

  /** `getCategoryColor`: a switch over the category strings with a
      `#9E9E9E` default. */
  function Color(s: string): (r: string)
    ensures !IsCategory(s) ==> r == DefaultColor
    ensures forall c :: CategoryName(c) == s ==> r == ColorOf(c)
  {
    match ParseCategory(s)
    case Some(c) =>
      NamedCategoryUnique(s, c);
      ColorOf(c)
    case None => DefaultColor
  }

  function HasKind(t: TransactionType): CategoryOption -> bool {
    (o: CategoryOption) => o.kind == t
  }

  /** `getFilteredCategories(t)`. */
  function Filtered(t: TransactionType): (r: seq<CategoryOption>)
    ensures forall i :: 0 <= i < |r| ==> r[i].kind == t
    ensures forall i :: 0 <= i < |Registry()| && Registry()[i].kind == t ==> Registry()[i] in r
  {
    Filter(Registry(), HasKind(t))
  }

  /** The income and expense lists split the registry: the four income
      entries first, the fourteen expense entries after them. */
  lemma FilteredPartition()
    ensures Filtered(Income) == Registry()[..4]
    ensures Filtered(Expense) == Registry()[4..]
    ensures Filtered(Income) + Filtered(Expense) == Registry()
  {
    assert Registry()[..4] + Registry()[4..] == Registry();
    RegistryShape();
    FilterSplit(Registry(), 4, Income, Expense);
  }

  /** Filtering a list whose first `k` entries have type `t` and the rest
      type `u`. */
  lemma FilterSplit(options: seq<CategoryOption>, k: nat, t: TransactionType, u: TransactionType)
    requires k <= |options|
    requires forall i :: 0 <= i < |options| ==> (options[i].kind == t <==> i < k)
    requires forall i :: 0 <= i < |options| ==> (options[i].kind == u <==> k <= i)
    ensures Filter(options, HasKind(t)) == options[..k]
    ensures Filter(options, HasKind(u)) == options[k..]
  {
    forall i | 0 <= i < |options|
      ensures HasKind(t)(options[i]) <==> i < k
      ensures HasKind(u)(options[i]) <==> k <= i
    {
    }
    FilterPrefix(options, k, HasKind(t));
    FilterSuffix(options, k, HasKind(u));
  }

  /** Whether a string names a category of type `t`
      (`getFilteredCategories(t).some(c => c.value === s)`). */
  predicate IsCategoryOf(s: string, t: TransactionType) {
    exists i :: 0 <= i < |Filtered(t)| && OptionName(Filtered(t)[i]) == s
  }

  /** A string names a category of type `t` exactly when it names a category
      whose registry entry has type `t`. */
  lemma IsCategoryOfMeaning(s: string, t: TransactionType)
    ensures IsCategoryOf(s, t) <==> IsCategory(s) && OptionOf(ParseCategory(s).value).kind == t
  {
    if IsCategoryOf(s, t) {
      ListedHasKind(s, t);
    }
    if IsCategory(s) && OptionOf(ParseCategory(s).value).kind == t {
      KindIsListed(s, t);
    }
  }

  lemma ListedHasKind(s: string, t: TransactionType)
    requires IsCategoryOf(s, t)
    ensures IsCategory(s) && OptionOf(ParseCategory(s).value).kind == t
  {
    var f := Filtered(t);
    var i :| 0 <= i < |f| && OptionName(f[i]) == s;
    RegistryEntries(f[i]);
    CategoryNameInjective(f[i].value, ParseCategory(s).value);
  }

  lemma KindIsListed(s: string, t: TransactionType)
    requires IsCategory(s) && OptionOf(ParseCategory(s).value).kind == t
    ensures IsCategoryOf(s, t)
  {
    var f := Filtered(t);
    var c := ParseCategory(s).value;
    var k := RegistryIndex(c);
    var o := Registry()[k];
    assert o == OptionOf(Order[k]);
    assert o.kind == t;
    assert o in f;
    var i :| 0 <= i < |f| && f[i] == o;
    assert OptionName(f[i]) == s;
  }

  /** Each registry entry is the entry of its own category. */
  lemma RegistryEntries(o: CategoryOption)
    requires o in Registry()
    ensures o == OptionOf(o.value)
  {
    var j :| 0 <= j < |Registry()| && Registry()[j] == o;
  }
}
