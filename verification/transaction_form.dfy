/** The add/edit transaction form: its starting values, the category that
    follows the chosen type, validation, and the record it submits. The form
    holds what the inputs hold, so the amount is text and the type and
    category are strings. */
module TransactionForm {
  import opened Wrappers
  import opened Strings
  import opened Numbers
  import opened Types
  import opened Categories
  import Store

  datatype Form = Form(
    kind: string,
    amount: string,
    category: string,
    description: string,
    date: string,
    isRecurring: bool,
    frequency: Frequency)

  /** `s || fallback` on a string. */
  function OrElse(s: string, fallback: string): (r: string)
    ensures s != "" ==> r == s
    ensures s == "" ==> r == fallback
  {
    if s == "" then fallback else s
  }

  /** The state the form starts in. `amountText` is `initial.amount.toString()`
      and `today` is `formatDate(new Date())`. */
  function InitialForm(initial: Option<Transaction>, amountText: string, today: string): (f: Form)
    ensures initial.None? ==> f == Form("expense", "", "other_expense", "", today, false, Monthly)
    ensures initial.Some? ==> f.description == initial.value.description
    ensures initial.Some? && initial.value.date == "" ==> f.date == today
    ensures initial.Some? && initial.value.recurringFrequency.None? ==> f.frequency == Monthly
    ensures initial.Some? && initial.value.kind != "" ==> f.kind == initial.value.kind
    ensures initial.Some? && initial.value.kind == "" ==> f.kind == "expense"
    ensures initial.Some? && initial.value.category != "" ==> f.category == initial.value.category
    ensures initial.Some? && initial.value.category == "" ==> f.category == "other_expense"
    ensures initial.Some? ==> f.amount == amountText
    ensures initial.Some? && initial.value.date != "" ==> f.date == initial.value.date
    ensures initial.Some? ==> f.isRecurring == initial.value.isRecurring
    ensures initial.Some? && initial.value.recurringFrequency.Some? ==> f.frequency == initial.value.recurringFrequency.value
  {
    match initial
    case None => Form("expense", "", "other_expense", "", today, false, Monthly)
    case Some(t) =>
      Form(OrElse(t.kind, "expense"), OrElse(amountText, ""), OrElse(t.category, "other_expense"),
           t.description, OrElse(t.date, today), t.isRecurring,
           t.recurringFrequency.GetOr(Monthly))
  }

  /** The effect that runs whenever type or category change: an income form
      with a non-income category moves to `salary`, an expense form with a
      non-expense category to `other_expense`. */
  function Snap(kind: string, category: string): string {
    if kind == "income" && !IsCategoryOf(category, Income) then "salary"
    else if kind == "expense" && !IsCategoryOf(category, Expense) then "other_expense"
    else category
  }

  lemma DefaultsListed()
    ensures IsCategoryOf("salary", Income)
    ensures IsCategoryOf("other_expense", Expense)
  {
    Listed(Salary);
    Listed(OtherExpense);
  }

  /** Every category is listed under its own type. */
  lemma Listed(c: TransactionCategory)
    ensures IsCategoryOf(CategoryName(c), OptionOf(c).kind)
  {
    ParseCategoryName(c);
    KindIsListed(CategoryName(c), OptionOf(c).kind);
  }

  /** After the effect, an income or expense form always holds a category of
      its own type; a category that already fit is kept; any other type
      leaves the category alone; and running the effect again changes
      nothing. */
  lemma SnapMeaning(kind: string, category: string)
    ensures kind == "income" ==> IsCategoryOf(Snap(kind, category), Income)
    ensures kind == "expense" ==> IsCategoryOf(Snap(kind, category), Expense)
    ensures kind == "income" && IsCategoryOf(category, Income) ==> Snap(kind, category) == category
    ensures kind == "expense" && IsCategoryOf(category, Expense) ==> Snap(kind, category) == category
    ensures kind != "income" && kind != "expense" ==> Snap(kind, category) == category
    ensures Snap(kind, Snap(kind, category)) == Snap(kind, category)
  {
    DefaultsListed();
  }

  /** The form once its effect has settled. */
  function Settled(f: Form): Form {
    f.(category := Snap(f.kind, f.category))
  }

  datatype Field = AmountField | DescriptionField | DateField

  predicate AmountValid(text: string) {
    text != "" && ToNumber(text).Some? && ToNumber(text).value > 0.0
  }

  /** The keys of `validateForm`'s error record. */
  function Errors(f: Form): (r: set<Field>)
    ensures AmountField in r <==> !AmountValid(f.amount)
    ensures DescriptionField in r <==> Trim(f.description) == ""
    ensures DateField in r <==> f.date == ""
  {
    ErrorKeys(AmountValid(f.amount), Trim(f.description) != "", f.date != "")
  }

  /** One key for every check that failed. */
  function ErrorKeys(amountOk: bool, descriptionOk: bool, dateOk: bool): (r: set<Field>)
    ensures AmountField in r <==> !amountOk
    ensures DescriptionField in r <==> !descriptionOk
    ensures DateField in r <==> !dateOk
  {
    (if amountOk then {} else {AmountField})
    + (if descriptionOk then {} else {DescriptionField})
    + (if dateOk then {} else {DateField})
  }

  predicate Valid(f: Form) {
    Errors(f) == {}
  }

  /** `handleSubmit`: nothing for an invalid form; otherwise the record
      handed to `onSubmit`, whose frequency is present only for a recurring
      transaction and which never carries tags. */
  function Submit(f: Form): (r: Option<TransactionInput>)
    ensures r.Some? <==> Valid(f)
    ensures r.Some? ==> r.value.amount > 0.0 && Some(r.value.amount) == ToNumber(f.amount)
    ensures r.Some? ==> (r.value.recurringFrequency.Some? <==> f.isRecurring)
    ensures r.Some? ==> r.value.tags.None?
    ensures r.Some? ==> Trim(r.value.description) != ""
    ensures r.Some? ==> r.value.date != ""
  {
    if !Valid(f) then None
    else
      assert AmountField !in Errors(f);
      assert DescriptionField !in Errors(f);
      assert DateField !in Errors(f);
      Some(TransactionInput(
        ToNumber(f.amount).value, f.kind, f.category, f.description, f.date, f.isRecurring,
        if f.isRecurring then Some(f.frequency) else None, None))
  }

  /** The form is valid exactly when its amount is a positive number, its
      description is not blank and its date is set. */
  lemma ValidMeaning(f: Form)
    ensures Valid(f) <==> (AmountValid(f.amount) && !AllWhitespace(f.description) && f.date != "")
  {
    TrimEmpty(f.description);
    var e := Errors(f);
    if !Valid(f) {
      var x :| x in e;
    }
  }

  /** `updateTransaction(id, submitted)` sends the submitted record as a
      patch: the keys the record does not carry stay out of it. */
  function AsPatch(input: TransactionInput): (p: Store.Patch)
    ensures p.amount == Some(input.amount) && p.description == Some(input.description)
    ensures p.kind == Some(input.kind) && p.category == Some(input.category)
    ensures p.date == Some(input.date) && p.isRecurring == Some(input.isRecurring)
    ensures p.recurringFrequency.None? <==> input.recurringFrequency.None?
    ensures p.recurringFrequency.Some? ==> p.recurringFrequency.value == input.recurringFrequency
    ensures p.tags.None? <==> input.tags.None?
    ensures p.tags.Some? ==> p.tags.value == input.tags
  {
    Store.Patch(Some(input.amount), Some(input.kind), Some(input.category), Some(input.description),
                Some(input.date), Some(input.isRecurring),
                if input.recurringFrequency.Some? then Some(input.recurringFrequency) else None,
                if input.tags.Some? then Some(input.tags) else None)
  }

  /** A record without a frequency leaves the stored frequency and tags
      alone: editing a recurring transaction into a one-off clears its flag
      but keeps its old frequency. */
  lemma PatchKeepsAbsentKeys(t: Transaction, input: TransactionInput)
    requires input.recurringFrequency.None? && input.tags.None?
    ensures Store.ApplyPatch(t, AsPatch(input)).isRecurring == input.isRecurring
    ensures Store.ApplyPatch(t, AsPatch(input)).recurringFrequency == t.recurringFrequency
    ensures Store.ApplyPatch(t, AsPatch(input)).tags == t.tags
  {
  }

  /** Saving a valid form that is not recurring over a transaction gives a
      one-off transaction that still carries the transaction's frequency. */
  lemma StaleFrequency(t: Transaction, f: Form)
    requires Valid(f) && !f.isRecurring
    ensures !Store.ApplyPatch(t, AsPatch(Submit(f).value)).isRecurring
    ensures Store.ApplyPatch(t, AsPatch(Submit(f).value)).recurringFrequency == t.recurringFrequency
  {
    PatchKeepsAbsentKeys(t, Submit(f).value);
  }

  /** A well-formed transaction: a positive amount, a type with a category of
      that type, a description that is not blank, a date, and a frequency
      exactly when it recurs. */
  predicate WellFormed(t: Transaction) {
    && t.amount > 0.0
    && ((t.kind == "income" && IsCategoryOf(t.category, Income))
        || (t.kind == "expense" && IsCategoryOf(t.category, Expense)))
    && !AllWhitespace(t.description)
    && t.date != ""
    && (t.recurringFrequency.Some? <==> t.isRecurring)
  }

  /** Opening a well-formed transaction in the form and saving it unchanged
      submits a record that, applied as an update, gives the transaction
      back, tags included. */
  lemma EditUnchanged(t: Transaction, amountText: string, today: string)
    requires WellFormed(t)
    requires amountText != "" && ToNumber(amountText) == Some(t.amount)
    ensures Submit(Settled(InitialForm(Some(t), amountText, today))).Some?
    ensures Store.ApplyPatch(t, AsPatch(Submit(Settled(InitialForm(Some(t), amountText, today))).value)) == t
  {
    var f0 := InitialForm(Some(t), amountText, today);
    ListedNonEmpty(t.category, if t.kind == "income" then Income else Expense);
    assert f0 == Form(t.kind, amountText, t.category, t.description, t.date, t.isRecurring,
                      t.recurringFrequency.GetOr(Monthly));
    SettledFits(f0);
    var f := Settled(f0);
    ValidMeaning(f);
    SubmitOfValid(f);
    PatchRestores(t, Submit(f).value);
  }

  /** Only non-empty strings name categories. */
  lemma ListedNonEmpty(s: string, k: TransactionType)
    requires IsCategoryOf(s, k)
    ensures s != ""
  {
    ListedHasKind(s, k);
    NameNonEmpty(ParseCategory(s).value);
  }

  lemma NameNonEmpty(c: TransactionCategory)
    ensures CategoryName(c) != ""
  {
  }

  /** A form whose category already fits its type is settled. */
  lemma SettledFits(f: Form)
    requires (f.kind == "income" && IsCategoryOf(f.category, Income))
          || (f.kind == "expense" && IsCategoryOf(f.category, Expense))
    ensures Settled(f) == f
  {
  }

  lemma SubmitOfValid(f: Form)
    requires Valid(f)
    ensures Submit(f) == Some(TransactionInput(ToNumber(f.amount).value, f.kind, f.category, f.description,
                                               f.date, f.isRecurring, if f.isRecurring then Some(f.frequency) else None, None))
  {
  }

  /** A patch carrying every field of a transaction except its tags leaves
      the transaction as it is. */
  lemma PatchRestores(t: Transaction, input: TransactionInput)
    requires input == WithoutId(t).(tags := None)
    ensures Store.ApplyPatch(t, AsPatch(input)) == t
  {
  }
}
