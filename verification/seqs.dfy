/**
 The order-preserving `filter` that the portal applies to its report arrays
 (the page query, the active/resolved split, deletion and the statistics bar),
 together with the facts about it that the rest of the model relies on.
 */
module Seqs {

  /** `a` is obtained from `b` by deleting some elements and keeping the rest in order. */
  ghost predicate IsSubsequence<T>(a: seq<T>, b: seq<T>)
    decreases |b|
  {
    if a == [] then true
    else if b == [] then false
    else (a[0] == b[0] && IsSubsequence(a[1..], b[1..])) || IsSubsequence(a, b[1..])
  }

  /** No two positions of `xs` carry the same key. */
  ghost predicate UniqueBy<T, K>(key: T -> K, xs: seq<T>)
  {
    forall i, j :: 0 <= i < j < |xs| ==> key(xs[i]) != key(xs[j])
  }

  /** `Array.prototype.filter`: the elements satisfying `p`, in their original order. */
  function Filter<T(==,!new)>(p: T -> bool, xs: seq<T>): (r: seq<T>)
    ensures |r| <= |xs|
    ensures forall x :: x in r <==> x in xs && p(x)
    ensures IsSubsequence(r, xs)
    ensures forall x :: multiset(r)[x] == if p(x) then multiset(xs)[x] else 0
    decreases |xs|
  {
    if xs == [] then []
    else
      assert xs == [xs[0]] + xs[1..];
      if p(xs[0]) then [xs[0]] + Filter(p, xs[1..])
      else Filter(p, xs[1..])
  }

  /** Filtering a non-empty sequence looks at its head and filters the rest. */
  lemma FilterCons<T(!new)>(p: T -> bool, x: T, xs: seq<T>)
    ensures Filter(p, [x] + xs) == if p(x) then [x] + Filter(p, xs) else Filter(p, xs)
  {
    assert ([x] + xs)[1..] == xs;
  }

  /** A filter that every element passes returns its input unchanged. */
  lemma {:induction false} FilterKeepsAll<T(!new)>(p: T -> bool, xs: seq<T>)
    requires forall x :: x in xs ==> p(x)
    ensures Filter(p, xs) == xs
    decreases |xs|
  {
    if xs != [] {
      assert xs[0] in xs;
      assert forall x :: x in xs[1..] ==> x in xs;
      FilterKeepsAll(p, xs[1..]);
      assert xs == [xs[0]] + xs[1..];
    }
  }

  /** A filter that no element passes returns the empty sequence. */
  lemma FilterKeepsNone<T(!new)>(p: T -> bool, xs: seq<T>)
    requires forall x :: x in xs ==> !p(x)
    ensures Filter(p, xs) == []
  {
  }

  /** Filtering twice with the same predicate is the same as filtering once. */
  lemma FilterIdempotent<T(!new)>(p: T -> bool, xs: seq<T>)
    ensures Filter(p, Filter(p, xs)) == Filter(p, xs)
  {
    FilterKeepsAll(p, Filter(p, xs));
  }

  /** Two predicates that agree on every element of `xs` filter it identically. */
  lemma {:induction false} FilterAgreeing<T(!new)>(p: T -> bool, q: T -> bool, xs: seq<T>)
    requires forall x :: x in xs ==> p(x) == q(x)
    ensures Filter(p, xs) == Filter(q, xs)
    decreases |xs|
  {
    if xs != [] {
      assert xs[0] in xs;
      assert forall x :: x in xs[1..] ==> x in xs;
      FilterAgreeing(p, q, xs[1..]);
    }
  }

  /**
   Splitting by a predicate and by its complement loses and duplicates
   nothing: the two parts' lengths add up to the whole.
   */
  lemma {:induction false} FilterSplitLength<T(!new)>(p: T -> bool, q: T -> bool, xs: seq<T>)
    requires forall x :: x in xs ==> (q(x) <==> !p(x))
    ensures |Filter(p, xs)| + |Filter(q, xs)| == |xs|
    decreases |xs|
  {
    if xs != [] {
      assert xs[0] in xs;
      assert forall x :: x in xs[1..] ==> x in xs;
      FilterSplitLength(p, q, xs[1..]);
    }
  }

  /** Removing elements never creates a repeated key. */
  lemma {:induction false} FilterPreservesUniqueBy<T(!new), K>(key: T -> K, p: T -> bool, xs: seq<T>)
    requires UniqueBy(key, xs)
    ensures UniqueBy(key, Filter(p, xs))
    decreases |xs|
  {
    if xs != [] {
      var t := xs[1..];
      assert UniqueBy(key, t) by {
        forall i, j | 0 <= i < j < |t|
          ensures key(t[i]) != key(t[j])
        {
          assert t[i] == xs[i + 1] && t[j] == xs[j + 1];
        }
      }
      FilterPreservesUniqueBy(key, p, t);
      if p(xs[0]) {
        var r := Filter(p, xs);
        var ft := Filter(p, t);
        assert r == [xs[0]] + ft;
        forall i, j | 0 <= i < j < |r|
          ensures key(r[i]) != key(r[j])
        {
          if i == 0 {
            assert r[j] == ft[j - 1];
            assert ft[j - 1] in t;
            var k :| 0 <= k < |t| && t[k] == ft[j - 1];
            assert t[k] == xs[k + 1];
          } else {
            assert r[i] == ft[i - 1] && r[j] == ft[j - 1];
          }
        }
      }
    }
  }

  /**
   If exactly one position of a key-unique sequence carries key `k`, dropping
   the elements with key `k` shortens it by exactly one.
   */
  lemma {:induction false} FilterDropsOneKey<T(!new), K>(key: T -> K, k: K, p: T -> bool, xs: seq<T>)
    requires UniqueBy(key, xs)
    requires forall x :: x in xs ==> (p(x) <==> key(x) != k)
    requires exists i :: 0 <= i < |xs| && key(xs[i]) == k
    ensures |Filter(p, xs)| == |xs| - 1
    decreases |xs|
  {
    var t := xs[1..];
    assert xs[0] in xs;
    if key(xs[0]) == k {
      assert forall x :: x in t ==> p(x) by {
        forall x | x in t
          ensures p(x)
        {
          var m :| 0 <= m < |t| && t[m] == x;
          assert t[m] == xs[m + 1];
        }
      }
      FilterKeepsAll(p, t);
    } else {
      var i :| 0 <= i < |xs| && key(xs[i]) == k;
      assert t[i - 1] == xs[i];
      assert UniqueBy(key, t) by {
        forall a, b | 0 <= a < b < |t|
          ensures key(t[a]) != key(t[b])
        {
          assert t[a] == xs[a + 1] && t[b] == xs[b + 1];
        }
      }
      assert forall x :: x in t ==> x in xs;
      FilterDropsOneKey(key, k, p, t);
    }
  }
}
