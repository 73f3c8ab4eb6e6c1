/** The records the finance tracker stores and derives. A transaction's type
    and category are kept as the strings they are at run time, because CSV
    import stores whatever the file holds; `TransactionType` names the two
    values the program means. */
module Types {
  import opened Wrappers

  datatype TransactionType = Income | Expense

  /** The string value of a transaction type. */
  function TypeName(t: TransactionType): (s: string)
    ensures s == "income" || s == "expense"
  {
    match t
    case Income => "income"
    case Expense => "expense"
  }

  /** Reads a transaction type back from its string value. */
  function ParseType(s: string): (r: Option<TransactionType>)
    ensures r.Some? ==> TypeName(r.value) == s
    ensures r.None? ==> s != "income" && s != "expense"
  {
    if s == "income" then Some(Income)
    else if s == "expense" then Some(Expense)
    else None
  }

  /** A transaction type is exactly one of the two strings, and each string
      names exactly one type. */
  lemma TypeNameRoundTrip(t: TransactionType)
    ensures ParseType(TypeName(t)) == Some(t)
  {
  }

  /** The eighteen members of the `TransactionCategory` union. */
  datatype TransactionCategory =
    | Salary | Freelance | Investments | OtherIncome
    | Housing | Transportation | Food | Utilities | Healthcare | Entertainment
    | Shopping | Education | PersonalCare | Travel | Debt | Savings
    | GiftsDonations | OtherExpense

  /** The string value of a category. */
  function CategoryName(c: TransactionCategory): string {
    match c
    case Salary => "salary"
    case Freelance => "freelance"
    case Investments => "investments"
    case OtherIncome => "other_income"
    case Housing => "housing"
    case Transportation => "transportation"
    case Food => "food"
    case Utilities => "utilities"
    case Healthcare => "healthcare"
    case Entertainment => "entertainment"
    case Shopping => "shopping"
    case Education => "education"
    case PersonalCare => "personal_care"
    case Travel => "travel"
    case Debt => "debt"
    case Savings => "savings"
    case GiftsDonations => "gifts_donations"
    case OtherExpense => "other_expense"
  }

  /** Length and first letter tell the eighteen names apart. */
  function NameSignature(c: TransactionCategory): (nat, char) {
    match c
    case Salary => (6, 's')
    case Freelance => (9, 'f')
    case Investments => (11, 'i')
    case OtherIncome => (12, 'o')
    case Housing => (7, 'h')
    case Transportation => (14, 't')
    case Food => (4, 'f')
    case Utilities => (9, 'u')
    case Healthcare => (10, 'h')
    case Entertainment => (13, 'e')
    case Shopping => (8, 's')
    case Education => (9, 'e')
    case PersonalCare => (13, 'p')
    case Travel => (6, 't')
    case Debt => (4, 'd')
    case Savings => (7, 's')
    case GiftsDonations => (15, 'g')
    case OtherExpense => (13, 'o')
  }

  lemma NameHasSignature(c: TransactionCategory)
    ensures |CategoryName(c)| > 0
    ensures (|CategoryName(c)|, CategoryName(c)[0]) == NameSignature(c)
  {
  }

  lemma SignatureInjective(a: TransactionCategory, b: TransactionCategory)
    requires NameSignature(a) == NameSignature(b)
    ensures a == b
  {
  }

  /** Distinct categories have distinct string values. */
  lemma CategoryNameInjective(a: TransactionCategory, b: TransactionCategory)
    requires CategoryName(a) == CategoryName(b)
    ensures a == b
  {
    NameHasSignature(a);
    NameHasSignature(b);
    SignatureInjective(a, b);
  }

  datatype Frequency = Daily | Weekly | Monthly | Yearly

  function FrequencyName(f: Frequency): string {
    match f
    case Daily => "daily"
    case Weekly => "weekly"
    case Monthly => "monthly"
    case Yearly => "yearly"
  }

  /** `kind` is the record's `type` field. Absent optional fields are `None`. */
  datatype Transaction = Transaction(
    id: string,
    amount: real,
    kind: string,
    category: string,
    description: string,
    date: string,
    isRecurring: bool,
    recurringFrequency: Option<Frequency>,
    tags: Option<seq<string>>)

  predicate IsIncome(t: Transaction) {
    t.kind == "income"
  }

  predicate IsExpense(t: Transaction) {
    t.kind == "expense"
  }

  /** A transaction without its id, as handed to `addTransaction`. */
  datatype TransactionInput = TransactionInput(
    amount: real,
    kind: string,
    category: string,
    description: string,
    date: string,
    isRecurring: bool,
    recurringFrequency: Option<Frequency>,
    tags: Option<seq<string>>)

  /** The record `{ ...input, id }`. */
  function WithId(input: TransactionInput, id: string): (t: Transaction)
    ensures t.id == id
  {
    Transaction(id, input.amount, input.kind, input.category, input.description,
                input.date, input.isRecurring, input.recurringFrequency, input.tags)
  }

  /** Dropping the id again gives back the input. */
  function WithoutId(t: Transaction): TransactionInput {
    TransactionInput(t.amount, t.kind, t.category, t.description, t.date,
                     t.isRecurring, t.recurringFrequency, t.tags)
  }

  lemma WithIdRoundTrip(input: TransactionInput, id: string)
    ensures WithoutId(WithId(input, id)) == input
  {
  }

  datatype CategorySummary = CategorySummary(category: string, amount: real, percentage: real, color: string)

  /** `month` is a `YYYY-MM` key. */
  datatype MonthlySummary = MonthlySummary(month: string, income: real, expense: real, balance: real)

  /** `year` is a `YYYY` key. */
  datatype YearlySummary = YearlySummary(
    year: string, income: real, expense: real, balance: real, monthlySummaries: seq<MonthlySummary>)

  datatype BudgetCategory = BudgetCategory(category: string, budgeted: real, spent: real, remaining: real, percentage: real)

  /** `month` is a `YYYY-MM` key. */
  datatype Budget = Budget(id: string, month: string, totalBudgeted: real, totalSpent: real, categories: seq<BudgetCategory>)

  /** Both bounds are `YYYY-MM-DD` strings. */
  datatype DateRange = DateRange(startDate: string, endDate: string)

  /** `amount / total * 100`, or 0 when the total is not positive: the guarded
      percentage every aggregate in the program uses. */
  function Percentage(amount: real, total: real): (p: real)
    ensures total > 0.0 ==> p * total == amount * 100.0
    ensures total <= 0.0 ==> p == 0.0
    ensures total > 0.0 && 0.0 <= amount <= total ==> 0.0 <= p <= 100.0
  {
    if total > 0.0 then amount / total * 100.0 else 0.0
  }
}
