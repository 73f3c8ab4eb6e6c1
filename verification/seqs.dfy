/** Sequence toolkit shared by the aggregation code: sums, filters, projections,
    first-occurrence de-duplication and grouped sums. */
module Seqs {
  import opened Wrappers

  /** `s.reduce((sum, x) => sum + f(x), 0)` over exact reals. */
  function Sum<T>(s: seq<T>, f: T -> real): real
    decreases |s|
  {
    if |s| == 0 then 0.0 else f(s[0]) + Sum(s[1..], f)
  }

  lemma {:induction false} SumConcat<T>(a: seq<T>, b: seq<T>, f: T -> real)
    ensures Sum(a + b, f) == Sum(a, f) + Sum(b, f)
    decreases |a|
  {
    if |a| == 0 {
      assert a + b == b;
    } else {
      assert (a + b)[1..] == a[1..] + b;
      SumConcat(a[1..], b, f);
    }
  }

  /** Sums do not depend on the order of the summands. */
  lemma {:induction false} SumPermutation<T>(a: seq<T>, b: seq<T>, f: T -> real)
    requires multiset(a) == multiset(b)
    ensures Sum(a, f) == Sum(b, f)
    decreases |a|
  {
    if |a| == 0 {
      assert |multiset(b)| == 0;
    } else {
      var x := a[0];
      assert x in multiset(a);
      var i :| 0 <= i < |b| && b[i] == x;
      var rest := b[..i] + b[i + 1..];
      RemoveMatching(a, b, i);
      SumPermutation(a[1..], rest, f);
      SumRemove(b, i, f);
      assert Sum(a, f) == f(x) + Sum(a[1..], f);
    }
  }

  /** Removing the first element of `a` and an equal element of `b` keeps
      the two multisets equal. */
  lemma RemoveMatching<T>(a: seq<T>, b: seq<T>, i: nat)
    requires multiset(a) == multiset(b) && |a| > 0 && i < |b| && b[i] == a[0]
    ensures multiset(a[1..]) == multiset(b[..i] + b[i + 1..])
  {
    MultisetRemove(b, i);
    MultisetRemove(a, 0);
    assert a[..0] + a[1..] == a[1..];
  }

  /** Sums of functions that agree on every element are equal. */
  lemma {:induction false} SumAgree<T>(s: seq<T>, f: T -> real, g: T -> real)
    requires forall i :: 0 <= i < |s| ==> f(s[i]) == g(s[i])
    ensures Sum(s, f) == Sum(s, g)
    decreases |s|
  {
    if |s| > 0 {
      assert forall i :: 0 <= i < |s[1..]| ==> s[1..][i] == s[i + 1];
      SumAgree(s[1..], f, g);
    }
  }

  /** Replacing the elements past `k` by one element worth their sum keeps
      the sum. */
  lemma SumFoldTail<T>(s: seq<T>, k: nat, x: T, f: T -> real)
    requires k <= |s| && f(x) == Sum(s[k..], f)
    ensures Sum(s[..k] + [x], f) == Sum(s, f)
  {
    assert s == s[..k] + s[k..];
    SumConcat(s[..k], s[k..], f);
    SumConcat(s[..k], [x], f);
  }

  lemma SumRemove<T>(b: seq<T>, i: nat, f: T -> real)
    requires i < |b|
    ensures Sum(b, f) == f(b[i]) + Sum(b[..i] + b[i + 1..], f)
  {
    assert b == b[..i] + ([b[i]] + b[i + 1..]);
    SumConcat(b[..i], [b[i]] + b[i + 1..], f);
    SumConcat(b[..i], b[i + 1..], f);
    assert ([b[i]] + b[i + 1..])[1..] == b[i + 1..];
  }

  lemma MultisetRemove<T>(b: seq<T>, i: nat)
    requires i < |b|
    ensures multiset(b[..i] + b[i + 1..]) == multiset(b) - multiset{b[i]}
  {
    assert b == b[..i] + [b[i]] + b[i + 1..];
  }

  /** `s.filter(p)`. */
  function Filter<T>(s: seq<T>, p: T -> bool): (r: seq<T>)
    ensures |r| <= |s|
    ensures forall i :: 0 <= i < |r| ==> r[i] in s && p(r[i])
    ensures forall i :: 0 <= i < |s| && p(s[i]) ==> s[i] in r
    decreases |s|
  {
    if |s| == 0 then []
    else if p(s[0]) then [s[0]] + Filter(s[1..], p)
    else Filter(s[1..], p)
  }

  lemma {:induction false} FilterConcat<T>(a: seq<T>, b: seq<T>, p: T -> bool)
    ensures Filter(a + b, p) == Filter(a, p) + Filter(b, p)
    decreases |a|
  {
    if |a| == 0 {
      assert a + b == b;
    } else {
      assert (a + b)[1..] == a[1..] + b;
      FilterConcat(a[1..], b, p);
    }
  }

  /** Filtering a list whose first `k` elements pass and the rest fail. */
  lemma {:induction false} FilterPrefix<T>(s: seq<T>, k: nat, p: T -> bool)
    requires k <= |s|
    requires forall i :: 0 <= i < |s| ==> (p(s[i]) <==> i < k)
    ensures Filter(s, p) == s[..k]
    decreases |s|
  {
    if |s| > 0 {
      var k' := if k == 0 then 0 else k - 1;
      forall i | 0 <= i < |s[1..]|
        ensures p(s[1..][i]) <==> i < k'
      {
        assert s[1..][i] == s[i + 1];
      }
      FilterPrefix(s[1..], k', p);
      if k > 0 {
        assert s[..k] == [s[0]] + s[1..][..k'];
      }
    }
  }

  /** Filtering a list whose first `k` elements fail and the rest pass. */
  lemma {:induction false} FilterSuffix<T>(s: seq<T>, k: nat, p: T -> bool)
    requires k <= |s|
    requires forall i :: 0 <= i < |s| ==> (p(s[i]) <==> k <= i)
    ensures Filter(s, p) == s[k..]
    decreases |s|
  {
    if |s| > 0 {
      var k' := if k == 0 then 0 else k - 1;
      forall i | 0 <= i < |s[1..]|
        ensures p(s[1..][i]) <==> k' <= i
      {
        assert s[1..][i] == s[i + 1];
      }
      FilterSuffix(s[1..], k', p);
      if k > 0 {
        assert s[k..] == s[1..][k'..];
      } else {
        assert s == [s[0]] + s[1..][k'..];
      }
    }
  }

  /** `a` is obtained from `b` by deleting elements. */
  predicate IsSubsequence<T(==)>(a: seq<T>, b: seq<T>)
    decreases |b|
  {
    if |b| == 0 then |a| == 0
    else (|a| > 0 && a[0] == b[0] && IsSubsequence(a[1..], b[1..])) || IsSubsequence(a, b[1..])
  }

  lemma {:induction false} FilterIsSubsequence<T>(s: seq<T>, p: T -> bool)
    ensures IsSubsequence(Filter(s, p), s)
    decreases |s|
  {
    if |s| > 0 {
      FilterIsSubsequence(s[1..], p);
    }
  }

  /** `s.map(key)`. */
  function Project<T, K>(s: seq<T>, key: T -> K): (r: seq<K>)
    ensures |r| == |s|
    ensures forall i :: 0 <= i < |s| ==> r[i] == key(s[i])
    decreases |s|
  {
    if |s| == 0 then [] else [key(s[0])] + Project(s[1..], key)
  }

  /** A projected key is the key of some element. */
  lemma InProject<T, K>(s: seq<T>, key: T -> K, k: K)
    requires k in Project(s, key)
    ensures exists j :: 0 <= j < |s| && key(s[j]) == k
  {
    var a :| 0 <= a < |s| && Project(s, key)[a] == k;
  }

  /** The elements of `s` whose key is `k`, in order. */
  function KeyFilter<T, K(==)>(s: seq<T>, key: T -> K, k: K): (r: seq<T>)
    ensures |r| <= |s|
    ensures forall i :: 0 <= i < |r| ==> r[i] in s && key(r[i]) == k
    ensures forall i :: 0 <= i < |s| && key(s[i]) == k ==> s[i] in r
    decreases |s|
  {
    if |s| == 0 then []
    else if key(s[0]) == k then [s[0]] + KeyFilter(s[1..], key, k)
    else KeyFilter(s[1..], key, k)
  }

  /** Filtering by one key and then another is filtering by both in either
      order. */
  lemma {:induction false} KeyFilterCommute<T, K, L>(s: seq<T>, key1: T -> K, k1: K, key2: T -> L, k2: L)
    ensures KeyFilter(KeyFilter(s, key1, k1), key2, k2) == KeyFilter(KeyFilter(s, key2, k2), key1, k1)
    decreases |s|
  {
    if |s| > 0 {
      KeyFilterCommute(s[1..], key1, k1, key2, k2);
    }
  }

  /** Filtering by two different key values picks disjoint parts of a
      sequence, which make up all of it when every key is one of the two. */
  lemma {:induction false} KeyFilterCount<T, K>(s: seq<T>, key: T -> K, k1: K, k2: K)
    requires k1 != k2
    ensures |KeyFilter(s, key, k1)| + |KeyFilter(s, key, k2)| <= |s|
    ensures (forall i :: 0 <= i < |s| ==> key(s[i]) == k1 || key(s[i]) == k2) ==>
      |KeyFilter(s, key, k1)| + |KeyFilter(s, key, k2)| == |s|
    decreases |s|
  {
    if |s| > 0 {
      KeyFilterCount(s[1..], key, k1, k2);
      if forall i :: 0 <= i < |s| ==> key(s[i]) == k1 || key(s[i]) == k2 {
        assert forall i :: 0 <= i < |s[1..]| ==> s[1..][i] == s[i + 1];
      }
    }
  }

  /** The negation of a predicate. */
  function Not<T>(p: T -> bool): T -> bool {
    (x: T) => !p(x)
  }

  /** A filter and the filter by the negated predicate share the elements
      out between them. */
  lemma {:induction false} FilterComplementCount<T>(s: seq<T>, p: T -> bool)
    ensures |Filter(s, p)| + |Filter(s, Not(p))| == |s|
    decreases |s|
  {
    if |s| > 0 {
      FilterComplementCount(s[1..], p);
    }
  }

  /** A sum is the sum over the elements a filter keeps plus the sum over
      those it drops. */
  lemma {:induction false} SumSplit<T>(s: seq<T>, p: T -> bool, f: T -> real)
    ensures Sum(s, f) == Sum(Filter(s, p), f) + Sum(Filter(s, Not(p)), f)
    decreases |s|
  {
    if |s| > 0 {
      SumSplit(s[1..], p, f);
    }
  }

  /** Elements worth nothing add nothing to a filter's sum. */
  lemma {:induction false} SumFilterZero<T>(s: seq<T>, p: T -> bool, f: T -> real)
    requires forall i :: 0 <= i < |s| ==> p(s[i]) ==> f(s[i]) == 0.0
    ensures Sum(Filter(s, p), f) == 0.0
    decreases |s|
  {
    if |s| > 0 {
      assert forall i :: 0 <= i < |s[1..]| ==> s[1..][i] == s[i + 1];
      SumFilterZero(s[1..], p, f);
      if p(s[0]) {
        assert ([s[0]] + Filter(s[1..], p))[1..] == Filter(s[1..], p);
      }
    }
  }

  /** `s.findIndex(p)`: the position of the first element satisfying `p`. */
  function FirstIndex<T>(s: seq<T>, p: T -> bool): (r: Option<nat>)
    ensures r.Some? ==> r.value < |s| && p(s[r.value]) && forall i :: 0 <= i < r.value ==> !p(s[i])
    ensures r.None? ==> forall i :: 0 <= i < |s| ==> !p(s[i])
    decreases |s|
  {
    if |s| == 0 then None
    else if p(s[0]) then Some(0)
    else
      match FirstIndex(s[1..], p)
      case Some(k) =>
        assert forall i :: 1 <= i <= k + 1 ==> s[i] == s[1..][i - 1];
        Some(k + 1)
      case None =>
        assert forall i :: 1 <= i < |s| ==> s[i] == s[1..][i - 1];
        None
  }

  /** A position whose element satisfies `p`, with none before it, is the
      one `FirstIndex` finds. */
  lemma {:induction false} FirstIndexIs<T>(s: seq<T>, p: T -> bool, k: nat)
    requires k < |s| && p(s[k])
    requires forall i :: 0 <= i < k ==> !p(s[i])
    ensures FirstIndex(s, p) == Some(k)
    decreases k
  {
    if k > 0 {
      assert forall i :: 0 <= i < k - 1 ==> s[1..][i] == s[i + 1];
      FirstIndexIs(s[1..], p, k - 1);
    }
  }

  /** The first element with key `k` heads the key filter. */
  lemma {:induction false} KeyFilterHead<T, K>(s: seq<T>, key: T -> K, k: K, j: nat)
    requires j < |s| && key(s[j]) == k
    requires forall i :: 0 <= i < j ==> key(s[i]) != k
    ensures |KeyFilter(s, key, k)| > 0 && KeyFilter(s, key, k)[0] == s[j]
    decreases j
  {
    if j > 0 {
      assert forall i :: 0 <= i < j - 1 ==> s[1..][i] == s[i + 1];
      KeyFilterHead(s[1..], key, k, j - 1);
    }
  }

  /** Filters by predicates that agree on every element are equal. */
  lemma {:induction false} FilterAgree<T>(s: seq<T>, p: T -> bool, q: T -> bool)
    requires forall i :: 0 <= i < |s| ==> p(s[i]) == q(s[i])
    ensures Filter(s, p) == Filter(s, q)
    decreases |s|
  {
    if |s| > 0 {
      assert forall i :: 0 <= i < |s[1..]| ==> s[1..][i] == s[i + 1];
      FilterAgree(s[1..], p, q);
    }
  }

  /** A key filter is the filter by any predicate that tests for the key. */
  lemma {:induction false} KeyFilterIsFilter<T, K>(s: seq<T>, key: T -> K, k: K, p: T -> bool)
    requires forall x :: p(x) <==> key(x) == k
    ensures KeyFilter(s, key, k) == Filter(s, p)
    decreases |s|
  {
    if |s| > 0 {
      KeyFilterIsFilter(s[1..], key, k, p);
    }
  }

  /** The positions of `s` whose element passes both `p` and `q`. */
  ghost function BothPositions<T>(s: seq<T>, p: T -> bool, q: T -> bool): set<int> {
    set i | 0 <= i < |s| && p(s[i]) && q(s[i])
  }

  /** Filtering by `p` and then by `q` keeps as many elements as there are
      positions of `s` whose element passes both. */
  lemma {:induction false} FilterFilterCount<T>(s: seq<T>, p: T -> bool, q: T -> bool)
    ensures |Filter(Filter(s, p), q)| == |BothPositions(s, p, q)|
    decreases |s|
  {
    if |s| > 0 {
      var n := |s| - 1;
      FilterFilterCount(s[..n], p, q);
      FilterFilterLast(s, p, q);
      BothIndicesLast(s, s[..n], p, q);
    }
  }

  lemma FilterFilterLast<T>(s: seq<T>, p: T -> bool, q: T -> bool)
    requires |s| > 0
    ensures |Filter(Filter(s, p), q)| ==
      |Filter(Filter(s[..|s| - 1], p), q)| + if p(s[|s| - 1]) && q(s[|s| - 1]) then 1 else 0
  {
    var n := |s| - 1;
    assert s == s[..n] + [s[n]];
    FilterConcat(s[..n], [s[n]], p);
    FilterConcat(Filter(s[..n], p), Filter([s[n]], p), q);
  }

  lemma BothIndicesLast<T>(s: seq<T>, t: seq<T>, p: T -> bool, q: T -> bool)
    requires |s| > 0 && t == s[..|s| - 1]
    ensures |BothPositions(s, p, q)| == |BothPositions(t, p, q)| + if p(s[|s| - 1]) && q(s[|s| - 1]) then 1 else 0
  {
    var n := |s| - 1;
    var all := BothPositions(s, p, q);
    var front := BothPositions(t, p, q);
    assert front == set i | 0 <= i < n && p(s[i]) && q(s[i]);
    if p(s[n]) && q(s[n]) {
      assert all == front + {n};
    } else {
      assert all == front;
    }
  }

  lemma {:induction false} KeyFilterConcat<T, K>(a: seq<T>, b: seq<T>, key: T -> K, k: K)
    ensures KeyFilter(a + b, key, k) == KeyFilter(a, key, k) + KeyFilter(b, key, k)
    decreases |a|
  {
    if |a| == 0 {
      assert a + b == b;
    } else {
      assert (a + b)[1..] == a[1..] + b;
      KeyFilterConcat(a[1..], b, key, k);
    }
  }

  predicate Distinct<K(==)>(xs: seq<K>) {
    forall i, j :: 0 <= i < j < |xs| ==> xs[i] != xs[j]
  }

  /** Rearranging a sequence without repeats gives one without repeats. */
  lemma DistinctPermutation<K>(a: seq<K>, b: seq<K>)
    requires Distinct(a) && multiset(a) == multiset(b)
    ensures Distinct(b)
  {
    forall i, j | 0 <= i < j < |b|
      ensures b[i] != b[j]
    {
      assert b[j] in multiset(a);
      var k :| 0 <= k < |a| && a[k] == b[j];
      DistinctCount(a, k);
      assert b == b[..j] + [b[j]] + b[j + 1..];
      assert multiset(b) == multiset(b[..j]) + multiset{b[j]} + multiset(b[j + 1..]);
      assert b[i] in b[..j];
    }
  }

  /** In a sequence without repeats each element occurs once. */
  lemma DistinctCount<K>(a: seq<K>, k: nat)
    requires Distinct(a) && k < |a|
    ensures multiset(a)[a[k]] == 1
  {
    assert a == a[..k] + [a[k]] + a[k + 1..];
    assert a[k] !in a[..k];
    assert a[k] !in a[k + 1..];
    assert multiset(a) == multiset(a[..k]) + multiset{a[k]} + multiset(a[k + 1..]);
  }

  /** The distinct elements of `xs` in order of first occurrence: the key
      order of a JavaScript object filled by a forward `reduce`. */
  function Unique<K(==)>(xs: seq<K>): (r: seq<K>)
    ensures Distinct(r)
    ensures forall i :: 0 <= i < |r| ==> r[i] in xs
    ensures forall i :: 0 <= i < |xs| ==> xs[i] in r
    decreases |xs|
  {
    if |xs| == 0 then []
    else
      var init := xs[..|xs| - 1];
      var last := xs[|xs| - 1];
      assert xs == init + [last];
      var prefix := Unique(init);
      if last in prefix then prefix else prefix + [last]
  }

  /** `xs.indexOf(x)`: the first position of `x`, or -1. */
  function IndexOf<K(==)>(xs: seq<K>, x: K): (r: int)
    ensures -1 <= r < |xs|
    ensures r < 0 <==> x !in xs
    ensures r >= 0 ==> xs[r] == x && x !in xs[..r]
    decreases |xs|
  {
    if |xs| == 0 then -1
    else if xs[0] == x then 0
    else
      var k := IndexOf(xs[1..], x);
      if k < 0 then -1
      else
        assert xs[..k + 1] == [xs[0]] + xs[1..][..k];
        k + 1
  }

  /** `xs.filter((v, i, self) => self.indexOf(v) === i)` restricted to the
      first `n` positions. */
  function FirstOccurrences<K(==)>(xs: seq<K>, n: nat): seq<K>
    requires n <= |xs|
    decreases n
  {
    if n == 0 then []
    else FirstOccurrences(xs, n - 1) + (if IndexOf(xs, xs[n - 1]) == n - 1 then [xs[n - 1]] else [])
  }

  /** The index-of de-duplication and the insertion-order de-duplication agree. */
  lemma {:induction false} FirstOccurrencesIsUnique<K>(xs: seq<K>, n: nat)
    requires n <= |xs|
    ensures FirstOccurrences(xs, n) == Unique(xs[..n])
    decreases n
  {
    if n > 0 {
      FirstOccurrencesIsUnique(xs, n - 1);
      var x := xs[n - 1];
      assert xs[..n][..n - 1] == xs[..n - 1];
      assert xs[..n][n - 1] == x;
      var r := IndexOf(xs, x);
      assert xs[n - 1] == x;
      assert r <= n - 1;
      assert r == n - 1 <==> x !in xs[..n - 1];
    }
  }

  /** The sum of `f` over each key group of `s`, keys taken from `ks`. */
  function GroupSum<T, K(==)>(ks: seq<K>, s: seq<T>, key: T -> K, f: T -> real): real
    decreases |ks|
  {
    if |ks| == 0 then 0.0 else Sum(KeyFilter(s, key, ks[0]), f) + GroupSum(ks[1..], s, key, f)
  }

  lemma {:induction false} GroupSumOfEmpty<T, K>(ks: seq<K>, key: T -> K, f: T -> real)
    ensures GroupSum(ks, [], key, f) == 0.0
    decreases |ks|
  {
    if |ks| > 0 {
      GroupSumOfEmpty(ks[1..], key, f);
    }
  }

  lemma {:induction false} GroupSumCons<T, K>(ks: seq<K>, s: seq<T>, key: T -> K, f: T -> real)
    requires |s| > 0 && Distinct(ks)
    ensures GroupSum(ks, s, key, f)
         == GroupSum(ks, s[1..], key, f) + (if key(s[0]) in ks then f(s[0]) else 0.0)
    decreases |ks|
  {
    if |ks| > 0 {
      assert Distinct(ks[1..]);
      GroupSumCons(ks[1..], s, key, f);
      if key(s[0]) == ks[0] {
        assert KeyFilter(s, key, ks[0]) == [s[0]] + KeyFilter(s[1..], key, ks[0]);
        assert key(s[0]) !in ks[1..];
      }
    }
  }

  /** Splitting a sum into the groups of a key and adding the group sums back
      gives the whole sum, provided every key occurs exactly once. */
  lemma {:induction false} GroupSumPartition<T, K>(ks: seq<K>, s: seq<T>, key: T -> K, f: T -> real)
    requires Distinct(ks)
    requires forall i :: 0 <= i < |s| ==> key(s[i]) in ks
    ensures GroupSum(ks, s, key, f) == Sum(s, f)
    decreases |s|
  {
    if |s| == 0 {
      GroupSumOfEmpty(ks, key, f);
    } else {
      GroupSumCons(ks, s, key, f);
      GroupSumPartition(ks, s[1..], key, f);
    }
  }
}
