/** `Array.prototype.sort` with a key comparator, as the program uses it: a
    stable sort (the ECMAScript 2019 guarantee) in which `a` goes before `b`
    exactly when `before(key(a), key(b))`, and elements with equal keys keep
    their input order. Modelled as an insertion sort over sequences. */
module Sorting {
  import opened Seqs
  import opened Strings

  /** `before` is a strict total order on keys: irreflexive, transitive and
      relating any two distinct keys one way or the other. */
  ghost predicate StrictTotalOrder<K(!new)>(before: (K, K) -> bool) {
    && (forall a :: !before(a, a))
    && (forall a, b, c :: before(a, b) && before(b, c) ==> before(a, c))
    && (forall a, b :: a != b ==> before(a, b) || before(b, a))
  }

  /** No element is ranked strictly before an element to its left. */
  ghost predicate SortedBy<T, K>(s: seq<T>, key: T -> K, before: (K, K) -> bool) {
    forall i, j :: 0 <= i < j < |s| ==> !before(key(s[j]), key(s[i]))
  }

  /** Places `x` in front of the first element that is not ranked strictly
      before it; `x` came first in the input, so it precedes its equals. */
  function Insert<T, K>(x: T, s: seq<T>, key: T -> K, before: (K, K) -> bool): (r: seq<T>)
    ensures |r| == |s| + 1
    ensures multiset(r) == multiset([x] + s)
    decreases |s|
  {
    if |s| == 0 then [x]
    else if before(key(s[0]), key(x)) then
      assert [x] + s == [x] + [s[0]] + s[1..];
      [s[0]] + Insert(x, s[1..], key, before)
    else [x] + s
  }

  function SortBy<T, K>(s: seq<T>, key: T -> K, before: (K, K) -> bool): (r: seq<T>)
    ensures |r| == |s|
    ensures multiset(r) == multiset(s)
    decreases |s|
  {
    if |s| == 0 then []
    else
      assert s == [s[0]] + s[1..];
      Insert(s[0], SortBy(s[1..], key, before), key, before)
  }

  lemma {:induction false} InsertSorted<T, K(!new)>(x: T, s: seq<T>, key: T -> K, before: (K, K) -> bool)
    requires StrictTotalOrder(before)
    requires SortedBy(s, key, before)
    ensures SortedBy(Insert(x, s, key, before), key, before)
    decreases |s|
  {
    if |s| > 0 && before(key(s[0]), key(x)) {
      var tail := Insert(x, s[1..], key, before);
      InsertSorted(x, s[1..], key, before);
      forall j | 0 <= j < |tail|
        ensures !before(key(tail[j]), key(s[0]))
      {
        assert tail[j] in multiset([x] + s[1..]);
        if tail[j] != x {
          assert tail[j] in s[1..];
        }
      }
    }
  }

  /** The sort orders its output by `before`. */
  lemma {:induction false} SortBySorted<T, K(!new)>(s: seq<T>, key: T -> K, before: (K, K) -> bool)
    requires StrictTotalOrder(before)
    ensures SortedBy(SortBy(s, key, before), key, before)
    decreases |s|
  {
    if |s| > 0 {
      SortBySorted(s[1..], key, before);
      InsertSorted(s[0], SortBy(s[1..], key, before), key, before);
    }
  }

  lemma {:induction false} InsertStable<T, K(!new)>(x: T, s: seq<T>, key: T -> K, before: (K, K) -> bool, k: K)
    requires StrictTotalOrder(before)
    ensures KeyFilter(Insert(x, s, key, before), key, k) == KeyFilter([x] + s, key, k)
    decreases |s|
  {
    if |s| > 0 && before(key(s[0]), key(x)) {
      InsertStable(x, s[1..], key, before, k);
      assert ([x] + s)[1..] == s;
      assert ([x] + s[1..])[1..] == s[1..];
    } else if |s| > 0 {
      assert ([x] + s)[1..] == s;
    }
  }

  /** Stability: for every key, the elements carrying that key appear in the
      output in the same order as in the input. */
  lemma {:induction false} SortByStable<T, K(!new)>(s: seq<T>, key: T -> K, before: (K, K) -> bool, k: K)
    requires StrictTotalOrder(before)
    ensures KeyFilter(SortBy(s, key, before), key, k) == KeyFilter(s, key, k)
    decreases |s|
  {
    if |s| > 0 {
      var rest := SortBy(s[1..], key, before);
      SortByStable(s[1..], key, before, k);
      InsertStable(s[0], rest, key, before, k);
      assert ([s[0]] + rest)[1..] == rest;
    }
  }

  /** Sorting does not change any sum over the elements. */
  lemma SortBySum<T, K>(s: seq<T>, key: T -> K, before: (K, K) -> bool, f: T -> real)
    ensures Sum(SortBy(s, key, before), f) == Sum(s, f)
  {
    SumPermutation(SortBy(s, key, before), s, f);
  }

  /** No element is ranked before the head of the sorted sequence. */
  lemma SortByHeadIsMax<T, K(!new)>(s: seq<T>, key: T -> K, before: (K, K) -> bool)
    requires StrictTotalOrder(before) && |s| > 0
    ensures forall i :: 0 <= i < |s| ==> !before(key(s[i]), key(SortBy(s, key, before)[0]))
  {
    var sorted := SortBy(s, key, before);
    SortBySorted(s, key, before);
    forall i | 0 <= i < |s|
      ensures !before(key(s[i]), key(sorted[0]))
    {
      assert s[i] in multiset(sorted);
      var j :| 0 <= j < |sorted| && sorted[j] == s[i];
    }
  }

  /** The head of the sorted sequence is the first element of its key in the
      input: the sort is stable. */
  lemma SortByHeadIsFirst<T, K(!new)>(s: seq<T>, key: T -> K, before: (K, K) -> bool)
    requires StrictTotalOrder(before) && |s| > 0
    ensures exists k :: (0 <= k < |s| && SortBy(s, key, before)[0] == s[k] &&
      forall i :: 0 <= i < k ==> key(s[i]) != key(s[k]))
  {
    var sorted := SortBy(s, key, before);
    var top := sorted[0];
    SortByStable(s, key, before, key(top));
    KeyFilterHead(sorted, key, key(top), 0);
    assert top in multiset(s);
    var p := (x: T) => key(x) == key(top);
    var k := FirstIndex(s, p).value;
    KeyFilterHead(s, key, key(top), k);
  }

  /** `>` on reals, a comparator for descending order. */
  predicate Greater(a: real, b: real) {
    a > b
  }

  lemma GreaterIsStrictTotalOrder()
    ensures StrictTotalOrder(Greater)
  {
  }

  /** `<` on reals, a comparator for ascending order. */
  predicate Less(a: real, b: real) {
    a < b
  }

  lemma LessIsStrictTotalOrder()
    ensures StrictTotalOrder(Less)
  {
  }

  /** A comparator that ranks no element before another leaves the order as
      it is. */
  lemma {:induction false} SortByUnranked<T, K>(s: seq<T>, key: T -> K, before: (K, K) -> bool)
    requires forall i, j :: 0 <= i < |s| && 0 <= j < |s| ==> !before(key(s[i]), key(s[j]))
    ensures SortBy(s, key, before) == s
    decreases |s|
  {
    if |s| > 0 {
      SortByUnranked(s[1..], key, before);
      if |s| > 1 {
        assert !before(key(s[1]), key(s[0]));
      }
    }
  }

  lemma StrGreaterIsOrder()
    ensures StrictTotalOrder(StrGreater)
  {
    StrLessIsOrder();
  }

  lemma StrLessIsOrder()
    ensures StrictTotalOrder(StrLess)
  {
    StrLessIsStrictTotalOrder();
  }

  /** A sorted sequence whose keys do not repeat is strictly ascending. */
  lemma SortedDistinctAscending<T, K(!new)>(s: seq<T>, key: T -> K, before: (K, K) -> bool)
    requires StrictTotalOrder(before)
    requires SortedBy(s, key, before)
    requires Distinct(Project(s, key))
    ensures forall i, j :: 0 <= i < j < |s| ==> before(key(s[i]), key(s[j]))
  {
    forall i, j | 0 <= i < j < |s|
      ensures before(key(s[i]), key(s[j]))
    {
      assert Project(s, key)[i] != Project(s, key)[j];
    }
  }
}
