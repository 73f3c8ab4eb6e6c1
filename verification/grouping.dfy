/** Grouping by key as the program does it with a plain object: a forward
    pass creates one record per key in order of first occurrence and folds
    every element into its key's record; `Object.values` lists the records
    and a sort orders them. */
module Grouping {
  import opened Seqs
  import opened Sorting

  /** One record per key of `ks`, in that order; record `i` is made from the
      elements of `s` whose key is `ks[i]`. */
  function Entries<T, K(==), E>(ks: seq<K>, s: seq<T>, key: T -> K, make: (K, seq<T>) -> E): (r: seq<E>)
    ensures |r| == |ks|
  {
    seq(|ks|, i requires 0 <= i < |ks| => make(ks[i], KeyFilter(s, key, ks[i])))
  }

  /** The records of every key of `s`, sorted by `before` on `sortKey`. */
  function GroupBy<T, K(==), E, S>(s: seq<T>, key: T -> K, make: (K, seq<T>) -> E,
                                   sortKey: E -> S, before: (S, S) -> bool): (r: seq<E>)
    ensures multiset(r) == multiset(Entries(Unique(Project(s, key)), s, key, make))
  {
    SortBy(Entries(Unique(Project(s, key)), s, key, make), sortKey, before)
  }

  /** Every record is the record of its own key, made from exactly the
      elements carrying that key, and that key occurs in the input. */
  lemma GroupByEntries<T, K, E, S>(s: seq<T>, key: T -> K, make: (K, seq<T>) -> E,
                                       entryKey: E -> K, sortKey: E -> S, before: (S, S) -> bool)
    requires forall k, g :: entryKey(make(k, g)) == k
    ensures forall i :: 0 <= i < |GroupBy(s, key, make, sortKey, before)| ==>
      var e := GroupBy(s, key, make, sortKey, before)[i];
      e == make(entryKey(e), KeyFilter(s, key, entryKey(e))) && entryKey(e) in Project(s, key)
  {
    var ks := Unique(Project(s, key));
    var es := Entries(ks, s, key, make);
    var r := GroupBy(s, key, make, sortKey, before);
    forall i | 0 <= i < |r|
      ensures r[i] == make(entryKey(r[i]), KeyFilter(s, key, entryKey(r[i])))
      ensures entryKey(r[i]) in Project(s, key)
    {
      assert r[i] in multiset(es);
      var j :| 0 <= j < |es| && es[j] == r[i];
      assert entryKey(make(ks[j], KeyFilter(s, key, ks[j]))) == ks[j];
    }
  }

  /** The records' keys of the unsorted listing are the distinct keys. */
  lemma EntriesKeys<T, K, E>(ks: seq<K>, s: seq<T>, key: T -> K, make: (K, seq<T>) -> E, entryKey: E -> K)
    requires forall k, g :: entryKey(make(k, g)) == k
    ensures Project(Entries(ks, s, key, make), entryKey) == ks
  {
    var es := Entries(ks, s, key, make);
    forall i | 0 <= i < |ks|
      ensures Project(es, entryKey)[i] == ks[i]
    {
      assert entryKey(make(ks[i], KeyFilter(s, key, ks[i]))) == ks[i];
    }
  }

  /** Distinct keys make distinct records. */
  lemma DistinctByKey<E, K>(es: seq<E>, entryKey: E -> K)
    requires Distinct(Project(es, entryKey))
    ensures Distinct(es)
  {
    forall i, j | 0 <= i < j < |es|
      ensures es[i] != es[j]
    {
      assert Project(es, entryKey)[i] != Project(es, entryKey)[j];
    }
  }

  /** There is exactly one record per key: record keys do not repeat and
      every key of the input has a record. */
  lemma GroupByKeys<T, K, E, S>(s: seq<T>, key: T -> K, make: (K, seq<T>) -> E,
                                    entryKey: E -> K, sortKey: E -> S, before: (S, S) -> bool)
    requires forall k, g :: entryKey(make(k, g)) == k
    ensures Distinct(Project(GroupBy(s, key, make, sortKey, before), entryKey))
    ensures forall j :: 0 <= j < |s| ==> key(s[j]) in Project(GroupBy(s, key, make, sortKey, before), entryKey)
  {
    GroupByKeysDistinct(s, key, make, entryKey, sortKey, before);
    GroupByKeysCover(s, key, make, entryKey, sortKey, before);
  }

  lemma GroupByKeysDistinct<T, K, E, S>(s: seq<T>, key: T -> K, make: (K, seq<T>) -> E,
                                            entryKey: E -> K, sortKey: E -> S, before: (S, S) -> bool)
    requires forall k, g :: entryKey(make(k, g)) == k
    ensures Distinct(Project(GroupBy(s, key, make, sortKey, before), entryKey))
  {
    var ks := Unique(Project(s, key));
    var es := Entries(ks, s, key, make);
    var r := GroupBy(s, key, make, sortKey, before);
    EntriesKeys(ks, s, key, make, entryKey);
    DistinctKeysPermutation(es, r, entryKey);
  }

  /** Rearranging records whose keys do not repeat gives records whose keys
      do not repeat. */
  lemma DistinctKeysPermutation<E, K>(es: seq<E>, r: seq<E>, entryKey: E -> K)
    requires Distinct(Project(es, entryKey)) && multiset(r) == multiset(es)
    ensures Distinct(Project(r, entryKey))
  {
    DistinctByKey(es, entryKey);
    DistinctPermutation(es, r);
    forall i, j | 0 <= i < j < |r|
      ensures Project(r, entryKey)[i] != Project(r, entryKey)[j]
    {
      EntryOfSorted(r, es, i);
      EntryOfSorted(r, es, j);
      var a :| 0 <= a < |es| && es[a] == r[i];
      var b :| 0 <= b < |es| && es[b] == r[j];
      assert r[i] != r[j];
      assert Project(es, entryKey)[a] != Project(es, entryKey)[b];
    }
  }

  /** An element of a rearrangement sits somewhere in the original. */
  lemma EntryOfSorted<E>(r: seq<E>, es: seq<E>, i: nat)
    requires multiset(r) == multiset(es) && i < |r|
    ensures exists a :: 0 <= a < |es| && es[a] == r[i]
  {
    assert r[i] in multiset(es);
  }

  lemma GroupByKeysCover<T, K, E, S>(s: seq<T>, key: T -> K, make: (K, seq<T>) -> E,
                                         entryKey: E -> K, sortKey: E -> S, before: (S, S) -> bool)
    requires forall k, g :: entryKey(make(k, g)) == k
    ensures forall j :: 0 <= j < |s| ==> key(s[j]) in Project(GroupBy(s, key, make, sortKey, before), entryKey)
  {
    var ks := Unique(Project(s, key));
    var es := Entries(ks, s, key, make);
    var r := GroupBy(s, key, make, sortKey, before);
    EntriesKeys(ks, s, key, make, entryKey);
    forall j | 0 <= j < |s|
      ensures key(s[j]) in Project(r, entryKey)
    {
      assert Project(s, key)[j] == key(s[j]);
      var a :| 0 <= a < |ks| && ks[a] == key(s[j]);
      assert Project(es, entryKey)[a] == ks[a];
      EntryOfSorted(es, r, a);
      var b :| 0 <= b < |r| && r[b] == es[a];
      assert Project(r, entryKey)[b] == entryKey(r[b]);
    }
  }

  lemma {:induction false} EntriesSum<T, K, E>(ks: seq<K>, s: seq<T>, key: T -> K, make: (K, seq<T>) -> E,
                                                   measure: E -> real, f: T -> real)
    requires forall k, g :: measure(make(k, g)) == Sum(g, f)
    ensures Sum(Entries(ks, s, key, make), measure) == GroupSum(ks, s, key, f)
    decreases |ks|
  {
    if |ks| > 0 {
      EntriesSum(ks[1..], s, key, make, measure, f);
      assert Entries(ks, s, key, make)[1..] == Entries(ks[1..], s, key, make);
    }
  }

  /** A measure that each record sums over its elements adds up, over all
      records, to the sum over the whole input. */
  lemma GroupBySum<T, K, E, S>(s: seq<T>, key: T -> K, make: (K, seq<T>) -> E,
                                   sortKey: E -> S, before: (S, S) -> bool, measure: E -> real, f: T -> real)
    requires forall k, g :: measure(make(k, g)) == Sum(g, f)
    ensures Sum(GroupBy(s, key, make, sortKey, before), measure) == Sum(s, f)
  {
    var ks := Unique(Project(s, key));
    var es := Entries(ks, s, key, make);
    SumPermutation(GroupBy(s, key, make, sortKey, before), es, measure);
    EntriesSum(ks, s, key, make, measure, f);
    forall i | 0 <= i < |s|
      ensures key(s[i]) in ks
    {
      assert Project(s, key)[i] == key(s[i]);
    }
    GroupSumPartition(ks, s, key, f);
  }

  /** The records come out ordered by `before`, and records with equal sort
      keys keep the order in which their keys first occur. */
  lemma GroupByOrder<T, K, E, S(!new)>(s: seq<T>, key: T -> K, make: (K, seq<T>) -> E,
                                           sortKey: E -> S, before: (S, S) -> bool, v: S)
    requires StrictTotalOrder(before)
    ensures SortedBy(GroupBy(s, key, make, sortKey, before), sortKey, before)
    ensures KeyFilter(GroupBy(s, key, make, sortKey, before), sortKey, v)
         == KeyFilter(Entries(Unique(Project(s, key)), s, key, make), sortKey, v)
  {
    var es := Entries(Unique(Project(s, key)), s, key, make);
    SortBySorted(es, sortKey, before);
    SortByStable(es, sortKey, before, v);
  }

  /** Two key functions that agree on every element group alike. */
  lemma GroupByKeyAgree<T, K, E, S>(s: seq<T>, key1: T -> K, key2: T -> K, make: (K, seq<T>) -> E,
                                        sortKey: E -> S, before: (S, S) -> bool)
    requires forall i :: 0 <= i < |s| ==> key1(s[i]) == key2(s[i])
    ensures GroupBy(s, key1, make, sortKey, before) == GroupBy(s, key2, make, sortKey, before)
  {
    assert Project(s, key1) == Project(s, key2);
    var ks := Unique(Project(s, key1));
    forall k | k in ks
      ensures KeyFilter(s, key1, k) == KeyFilter(s, key2, k)
    {
      KeyFilterAgree(s, key1, key2, k);
    }
    assert Entries(ks, s, key1, make) == Entries(ks, s, key2, make);
  }

  lemma {:induction false} KeyFilterAgree<T, K>(s: seq<T>, key1: T -> K, key2: T -> K, k: K)
    requires forall i :: 0 <= i < |s| ==> key1(s[i]) == key2(s[i])
    ensures KeyFilter(s, key1, k) == KeyFilter(s, key2, k)
    decreases |s|
  {
    if |s| > 0 {
      assert forall i :: 0 <= i < |s[1..]| ==> s[1..][i] == s[i + 1];
      KeyFilterAgree(s[1..], key1, key2, k);
    }
  }
}
