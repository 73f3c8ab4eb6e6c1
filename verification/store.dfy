/** The transaction store: the reducer behind the transactions context and
    the `addTransaction` action creator. Errors are kept as their message;
    ids are supplied by the caller instead of being generated. */
module Store {
  import opened Wrappers
  import opened Seqs
  import opened Types

  datatype State = State(transactions: seq<Transaction>, isLoading: bool, error: Option<string>)

  /** The store before anything has been read from storage. */
  const Initial: State := State([], true, None)

  /** `Partial<Omit<Transaction, 'id'>>`: `None` is a key the patch does not
      carry. The optional fields can be patched to absent, hence the nested
      option. */
  datatype Patch = Patch(
    amount: Option<real>,
    kind: Option<string>,
    category: Option<string>,
    description: Option<string>,
    date: Option<string>,
    isRecurring: Option<bool>,
    recurringFrequency: Option<Option<Frequency>>,
    tags: Option<Option<seq<string>>>)

  const EmptyPatch: Patch := Patch(None, None, None, None, None, None, None, None)

  datatype Action =
    | Loading
    | Loaded(payload: seq<Transaction>)
    | Failed(message: string)
    | Add(transaction: Transaction)
    | Update(id: string, patch: Patch)
    | Delete(id: string)
    | Unknown

  /** `{ ...transaction, ...patch }`. */
  function ApplyPatch(t: Transaction, p: Patch): (r: Transaction)
    ensures r.id == t.id
    ensures p == EmptyPatch ==> r == t
    ensures p.amount.Some? ==> r.amount == p.amount.value
    ensures p.amount.None? ==> r.amount == t.amount
    ensures p.description.Some? ==> r.description == p.description.value
    ensures p.description.None? ==> r.description == t.description
    ensures p.kind.Some? ==> r.kind == p.kind.value
    ensures p.kind.None? ==> r.kind == t.kind
    ensures p.category.Some? ==> r.category == p.category.value
    ensures p.category.None? ==> r.category == t.category
    ensures p.date.Some? ==> r.date == p.date.value
    ensures p.date.None? ==> r.date == t.date
    ensures p.isRecurring.Some? ==> r.isRecurring == p.isRecurring.value
    ensures p.isRecurring.None? ==> r.isRecurring == t.isRecurring
    ensures p.recurringFrequency.Some? ==> r.recurringFrequency == p.recurringFrequency.value
    ensures p.recurringFrequency.None? ==> r.recurringFrequency == t.recurringFrequency
    ensures p.tags.Some? ==> r.tags == p.tags.value
    ensures p.tags.None? ==> r.tags == t.tags
  {
    Transaction(
      t.id,
      p.amount.GetOr(t.amount),
      p.kind.GetOr(t.kind),
      p.category.GetOr(t.category),
      p.description.GetOr(t.description),
      p.date.GetOr(t.date),
      p.isRecurring.GetOr(t.isRecurring),
      p.recurringFrequency.GetOr(t.recurringFrequency),
      p.tags.GetOr(t.tags))
  }

  /** Applying the same patch twice is applying it once. */
  lemma ApplyPatchIdempotent(t: Transaction, p: Patch)
    ensures ApplyPatch(ApplyPatch(t, p), p) == ApplyPatch(t, p)
  {
  }

  function HasOtherId(id: string): Transaction -> bool {
    (t: Transaction) => t.id != id
  }

  function UpdateAll(ts: seq<Transaction>, id: string, p: Patch): (r: seq<Transaction>)
    ensures |r| == |ts|
    ensures forall i :: 0 <= i < |ts| ==> r[i].id == ts[i].id
  {
    seq(|ts|, i requires 0 <= i < |ts| => if ts[i].id == id then ApplyPatch(ts[i], p) else ts[i])
  }

  function DeleteAll(ts: seq<Transaction>, id: string): seq<Transaction> {
    Filter(ts, HasOtherId(id))
  }

  /** `transactionsReducer`. */
  function Reduce(s: State, a: Action): State {
    match a
    case Loading => s.(isLoading := true)
    case Loaded(payload) => s.(transactions := payload, isLoading := false, error := None)
    case Failed(message) => s.(error := Some(message), isLoading := false)
    case Add(t) => s.(transactions := s.transactions + [t])
    case Update(id, p) => s.(transactions := UpdateAll(s.transactions, id, p))
    case Delete(id) => s.(transactions := DeleteAll(s.transactions, id))
    case Unknown => s
  }

  /** The three loading actions: `Loading` only raises the flag, `Loaded`
      replaces the list and clears the error, `Failed` keeps the list. */
  lemma LoadingActions(s: State, payload: seq<Transaction>, message: string)
    ensures Reduce(s, Loading).isLoading && Reduce(s, Loading).transactions == s.transactions
    ensures Reduce(s, Loading).error == s.error
    ensures Reduce(s, Loaded(payload)) == State(payload, false, None)
    ensures Reduce(s, Failed(message)) == State(s.transactions, false, Some(message))
    ensures Reduce(s, Unknown) == s
  {
  }

  /** The list actions never touch the loading flag or the error. */
  lemma ListActionsKeepStatus(s: State, a: Action)
    requires a.Add? || a.Update? || a.Delete?
    ensures Reduce(s, a).isLoading == s.isLoading && Reduce(s, a).error == s.error
  {
  }

  /** Adding puts the record at the end and leaves the rest as it was. */
  lemma AddMeaning(s: State, t: Transaction)
    ensures |Reduce(s, Add(t)).transactions| == |s.transactions| + 1
    ensures Reduce(s, Add(t)).transactions[..|s.transactions|] == s.transactions
    ensures Reduce(s, Add(t)).transactions[|s.transactions|] == t
  {
  }

  /** Updating keeps length, order and every id; the records with the id
      are patched and the others are untouched; an absent id or an empty
      patch changes nothing; and updating twice is updating once. */
  lemma UpdateMeaning(s: State, id: string, p: Patch)
    ensures |Reduce(s, Update(id, p)).transactions| == |s.transactions|
    ensures forall i :: 0 <= i < |s.transactions| ==>
      Reduce(s, Update(id, p)).transactions[i].id == s.transactions[i].id
    ensures forall i :: 0 <= i < |s.transactions| && s.transactions[i].id != id ==>
      Reduce(s, Update(id, p)).transactions[i] == s.transactions[i]
    ensures forall i :: 0 <= i < |s.transactions| && s.transactions[i].id == id ==>
      Reduce(s, Update(id, p)).transactions[i] == ApplyPatch(s.transactions[i], p)
    ensures (forall i :: 0 <= i < |s.transactions| ==> s.transactions[i].id != id) ==>
      Reduce(s, Update(id, p)) == s
    ensures Reduce(s, Update(id, EmptyPatch)) == s
    ensures Reduce(Reduce(s, Update(id, p)), Update(id, p)) == Reduce(s, Update(id, p))
  {
    var r := Reduce(s, Update(id, p));
    var rr := Reduce(r, Update(id, p));
    assert rr.transactions == r.transactions by {
      forall i | 0 <= i < |r.transactions|
        ensures rr.transactions[i] == r.transactions[i]
      {
        ApplyPatchIdempotent(s.transactions[i], p);
      }
    }
  }

  /** Deleting leaves no record with the id and keeps every other record, in
      order; an absent id changes nothing. */
  lemma DeleteMeaning(ts: seq<Transaction>, id: string)
    ensures forall i :: 0 <= i < |DeleteAll(ts, id)| ==> DeleteAll(ts, id)[i].id != id
    ensures forall i :: 0 <= i < |ts| && ts[i].id != id ==> ts[i] in DeleteAll(ts, id)
    ensures IsSubsequence(DeleteAll(ts, id), ts)
    ensures |DeleteAll(ts, id)| + |Filter(ts, Not(HasOtherId(id)))| == |ts|
    ensures (forall i :: 0 <= i < |ts| ==> ts[i].id != id) ==> DeleteAll(ts, id) == ts
  {
    FilterIsSubsequence(ts, HasOtherId(id));
    FilterComplementCount(ts, HasOtherId(id));
    if forall i :: 0 <= i < |ts| ==> ts[i].id != id {
      FilterPrefix(ts, |ts|, HasOtherId(id));
    }
  }

  /** Deleting twice is deleting once. */
  lemma DeleteIdempotent(ts: seq<Transaction>, id: string)
    ensures DeleteAll(DeleteAll(ts, id), id) == DeleteAll(ts, id)
  {
    var kept := DeleteAll(ts, id);
    FilterPrefix(kept, |kept|, HasOtherId(id));
  }

  /** Once the id's records are deleted it makes no difference whether they
      were updated first. */
  lemma {:induction false} UpdateThenDelete(ts: seq<Transaction>, id: string, p: Patch)
    ensures DeleteAll(UpdateAll(ts, id, p), id) == DeleteAll(ts, id)
    decreases |ts|
  {
    if |ts| > 0 {
      UpdateThenDelete(ts[1..], id, p);
      assert UpdateAll(ts, id, p)[1..] == UpdateAll(ts[1..], id, p);
    }
  }

  /** `addTransaction`: the input extended with the supplied id, appended. */
  function AddTransaction(s: State, input: TransactionInput, id: string): (r: State)
    ensures |r.transactions| == |s.transactions| + 1
    ensures r.transactions[..|s.transactions|] == s.transactions
    ensures r.transactions[|s.transactions|].id == id
    ensures WithoutId(r.transactions[|s.transactions|]) == input
  {
    WithIdRoundTrip(input, id);
    Reduce(s, Add(WithId(input, id)))
  }

  /** A record added under an id no other record carries is removed again
      by deleting that id, leaving the list as it was. */
  lemma AddThenDelete(ts: seq<Transaction>, t: Transaction)
    requires forall i :: 0 <= i < |ts| ==> ts[i].id != t.id
    ensures DeleteAll(ts + [t], t.id) == ts
  {
    FilterConcat(ts, [t], HasOtherId(t.id));
    FilterPrefix(ts, |ts|, HasOtherId(t.id));
  }

  /** Deleting the id of a record just added under a fresh id gives back the
      state before the add. */
  lemma AddTransactionThenDelete(s: State, input: TransactionInput, id: string)
    requires forall i :: 0 <= i < |s.transactions| ==> s.transactions[i].id != id
    ensures Reduce(AddTransaction(s, input, id), Delete(id)) == s
  {
    AddThenDelete(s.transactions, WithId(input, id));
  }
}
