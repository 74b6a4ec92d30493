/** Sequence operations the dashboard relies on: `Array.prototype.filter`, counting,
    and the stable comparator sort `Array.prototype.sort` performs. */
module Seqs {

  /** `xs.filter(p)`: the elements of `xs` that satisfy `p`, in their original order. */
  function Filter<T>(xs: seq<T>, p: T -> bool): (r: seq<T>)
    ensures |r| <= |xs|
    ensures forall i :: 0 <= i < |r| ==> p(r[i])
  {
    if xs == [] then []
    else Filter(xs[..|xs| - 1], p) + (if p(xs[|xs| - 1]) then [xs[|xs| - 1]] else [])
  }

  /** The number of elements of `xs` that satisfy `p`. */
  function Count<T>(xs: seq<T>, p: T -> bool): nat
  {
    if xs == [] then 0
    else Count(xs[..|xs| - 1], p) + (if p(xs[|xs| - 1]) then 1 else 0)
  }

  /** `a` is obtained from `b` by deleting some elements. */
  ghost predicate IsSubsequence<T>(a: seq<T>, b: seq<T>)
    decreases |b|
  {
    a == [] ||
    (b != [] &&
     ((a[|a| - 1] == b[|b| - 1] && IsSubsequence(a[..|a| - 1], b[..|b| - 1])) ||
      IsSubsequence(a, b[..|b| - 1])))
  }

  /** The filtered sequence is an order-preserving subsequence of the input. */
  lemma {:induction false} FilterSubsequence<T>(xs: seq<T>, p: T -> bool)
    ensures IsSubsequence(Filter(xs, p), xs)
  {
    if xs != [] {
      var init, last := xs[..|xs| - 1], xs[|xs| - 1];
      FilterSubsequence(init, p);
      var r := Filter(xs, p);
      if p(last) {
        assert r[..|r| - 1] == Filter(init, p);
      } else {
        assert Filter(init, p) + [] == Filter(init, p);
        assert r == Filter(init, p);
        SubsequenceOfPrefix(r, init, last);
        assert init + [last] == xs;
      }
    }
  }

  /** The filtered sequence has one element for each element that satisfies `p`. */
  lemma {:induction false} FilterLength<T>(xs: seq<T>, p: T -> bool)
    ensures |Filter(xs, p)| == Count(xs, p)
  {
    if xs != [] {
      FilterLength(xs[..|xs| - 1], p);
    }
  }

  /** An element is in the filtered sequence exactly when it is in the input and satisfies `p`. */
  lemma {:induction false} FilterMembers<T>(xs: seq<T>, p: T -> bool)
    ensures forall x :: x in Filter(xs, p) <==> x in xs && p(x)
  {
    if xs != [] {
      var init := xs[..|xs| - 1];
      FilterMembers(init, p);
      assert xs == init + [xs[|xs| - 1]];
    }
  }

  /** The filter, position by position: each element kept comes from `xs` and satisfies
      `p`, and each element of `xs` that satisfies `p` is kept. */
  lemma FilterAt<T>(xs: seq<T>, p: T -> bool)
    ensures forall i :: 0 <= i < |Filter(xs, p)| ==> Filter(xs, p)[i] in xs && p(Filter(xs, p)[i])
    ensures forall i :: 0 <= i < |xs| && p(xs[i]) ==> xs[i] in Filter(xs, p)
  {
    FilterMembers(xs, p);
  }

  /** Together: the filter keeps, in order, exactly the elements that satisfy `p`
      (a subsequence made of such elements and as long as their number). */
  lemma FilterSpec<T>(xs: seq<T>, p: T -> bool)
    ensures IsSubsequence(Filter(xs, p), xs)
    ensures |Filter(xs, p)| == Count(xs, p)
    ensures forall x :: x in Filter(xs, p) <==> x in xs && p(x)
  {
    FilterSubsequence(xs, p);
    FilterLength(xs, p);
    FilterMembers(xs, p);
  }

  lemma SubsequenceOfPrefix<T>(a: seq<T>, init: seq<T>, last: T)
    requires IsSubsequence(a, init)
    ensures IsSubsequence(a, init + [last])
  {
    assert (init + [last])[..|init|] == init;
  }

  /** Filtering a sequence whose elements all satisfy `p` changes nothing. */
  lemma {:induction false} FilterAll<T>(xs: seq<T>, p: T -> bool)
    requires forall i :: 0 <= i < |xs| ==> p(xs[i])
    ensures Filter(xs, p) == xs
  {
    if xs != [] {
      FilterAll(xs[..|xs| - 1], p);
    }
  }

  /** Filtering a sequence none of whose elements satisfy `p` leaves nothing. */
  lemma {:induction false} FilterNone<T>(xs: seq<T>, p: T -> bool)
    requires forall i :: 0 <= i < |xs| ==> !p(xs[i])
    ensures Filter(xs, p) == []
  {
    if xs != [] {
      FilterNone(xs[..|xs| - 1], p);
    }
  }

  /** Filtering twice with the same predicate is filtering once. */
  lemma FilterIdempotent<T>(xs: seq<T>, p: T -> bool)
    ensures Filter(Filter(xs, p), p) == Filter(xs, p)
  {
    FilterAll(Filter(xs, p), p);
  }

  /** Two complementary filters split `xs` into two parts that together hold every element. */
  lemma {:induction false} FilterPartition<T>(xs: seq<T>, p: T -> bool, q: T -> bool)
    requires forall x :: q(x) == !p(x)
    ensures multiset(Filter(xs, p)) + multiset(Filter(xs, q)) == multiset(xs)
  {
    if xs != [] {
      var init := xs[..|xs| - 1];
      FilterPartition(init, p, q);
      assert xs == init + [xs[|xs| - 1]];
    }
  }

  /** An element found at two positions occurs at least twice. */
  lemma RepeatMultiplicity<T>(b: seq<T>, i: nat, j: nat)
    requires i < j < |b| && b[i] == b[j]
    ensures multiset(b)[b[i]] >= 2
  {
    assert b == b[..j] + [b[j]] + b[j + 1..];
    assert b[..j][i] == b[i];
  }

  /** Non-decreasing by `key`. */
  predicate SortedBy<T>(xs: seq<T>, key: T -> int)
  {
    forall i, j :: 0 <= i < j < |xs| ==> key(xs[i]) <= key(xs[j])
  }

  /** Puts `x` in front of the first element whose key is not smaller than its own. */
  function Insert<T>(x: T, ys: seq<T>, key: T -> int): (r: seq<T>)
    requires SortedBy(ys, key)
    ensures |r| == |ys| + 1
    ensures r[0] == if ys == [] || key(x) <= key(ys[0]) then x else ys[0]
    ensures SortedBy(r, key)
    ensures multiset(r) == multiset{x} + multiset(ys)
  {
    if ys == [] || key(x) <= key(ys[0]) then [x] + ys
    else
      assert ys == [ys[0]] + ys[1..];
      [ys[0]] + Insert(x, ys[1..], key)
  }

  /** `[...xs].sort((a, b) => key(a) - key(b))`: a stable sort of a copy by an integer key. */
  function SortBy<T>(xs: seq<T>, key: T -> int): (r: seq<T>)
    ensures SortedBy(r, key)
    ensures multiset(r) == multiset(xs)
    ensures |r| == |xs|
  {
    if xs == [] then []
    else
      assert xs == [xs[0]] + xs[1..];
      Insert(xs[0], SortBy(xs[1..], key), key)
  }

  /** The elements of `xs` whose key is `k`. */
  function WithKey<T>(xs: seq<T>, key: T -> int, k: int): (r: seq<T>)
  {
    if xs == [] then []
    else (if key(xs[0]) == k then [xs[0]] else []) + WithKey(xs[1..], key, k)
  }

  /** The sort is stable: the elements that share a key keep their relative order. */
  lemma {:induction false} SortByStable<T>(xs: seq<T>, key: T -> int, k: int)
    ensures WithKey(SortBy(xs, key), key, k) == WithKey(xs, key, k)
  {
    if xs != [] {
      SortByStable(xs[1..], key, k);
      InsertWithKey(xs[0], SortBy(xs[1..], key), key, k);
    }
  }

  lemma {:induction false} InsertWithKey<T>(x: T, ys: seq<T>, key: T -> int, k: int)
    requires SortedBy(ys, key)
    ensures WithKey(Insert(x, ys, key), key, k) == (if key(x) == k then [x] else []) + WithKey(ys, key, k)
  {
    if ys == [] || key(x) <= key(ys[0]) {
      WithKeyCons(x, ys, key, k);
    } else {
      var y, rest := ys[0], ys[1..];
      assert ys == [y] + rest;
      assert SortedBy(rest, key);
      InsertWithKey(x, rest, key, k);
      WithKeyCons(y, Insert(x, rest, key), key, k);
      WithKeyCons(y, rest, key, k);
      if key(x) == k {
        assert key(y) != k;
      }
    }
  }

  lemma WithKeyCons<T>(a: T, s: seq<T>, key: T -> int, k: int)
    ensures WithKey([a] + s, key, k) == (if key(a) == k then [a] else []) + WithKey(s, key, k)
  {
    assert ([a] + s)[1..] == s;
  }
}
