/** A plain JavaScript object used as a counter (`counts[key] = (counts[key] || 0) + 1`),
    held as its own properties in creation order, and the order in which
    `Object.keys` then lists them. */
module Counters {
  import opened Text
  import opened Seqs

  /** One own property of the counter object: its key and its count. */
  datatype Entry<K> = Entry(key: K, count: nat)

  function Keys<K>(d: seq<Entry<K>>): (ks: seq<K>)
    ensures |ks| == |d| && forall i :: 0 <= i < |d| ==> ks[i] == d[i].key
  {
    if d == [] then [] else [d[0].key] + Keys(d[1..])
  }

  /** No key occurs twice, as in any object. */
  ghost predicate DistinctKeys<K>(d: seq<Entry<K>>)
  {
    forall i, j :: 0 <= i < j < |d| ==> d[i].key != d[j].key
  }

  /** The sum of all counts. */
  function Total<K>(d: seq<Entry<K>>): nat
  {
    if d == [] then 0 else d[0].count + Total(d[1..])
  }

  /** How many times `k` occurs in `xs`. */
  function Occurrences<K(==)>(xs: seq<K>, k: K): (n: nat)
    ensures n > 0 <==> k in xs
  {
    if xs == [] then 0
    else
      assert xs == xs[..|xs| - 1] + [xs[|xs| - 1]];
      Occurrences(xs[..|xs| - 1], k) + (if xs[|xs| - 1] == k then 1 else 0)
  }

  /** `counts[k] = (counts[k] || 0) + 1`: an existing property is incremented in place,
      a new one is created last with count 1. */
  function Bump<K(==)>(d: seq<Entry<K>>, k: K): (r: seq<Entry<K>>)
    requires DistinctKeys(d)
    ensures DistinctKeys(r)
    ensures Total(r) == Total(d) + 1
    ensures k in Keys(d) ==> (|r| == |d| &&
      forall i :: 0 <= i < |d| ==> r[i] == if d[i].key == k then Entry(k, d[i].count + 1) else d[i])
    ensures k !in Keys(d) ==> r == d + [Entry(k, 1)]
  {
    if k in Keys(d) then
      var j := KeyIndex(d, k);
      TotalUpdate(d, j, Entry(k, d[j].count + 1));
      d[j := Entry(k, d[j].count + 1)]
    else
      TotalConcat(d, [Entry(k, 1)]);
      assert [Entry(k, 1)][1..] == [];
      d + [Entry(k, 1)]
  }

  /** The position of the property `k`. */
  function KeyIndex<K(==)>(d: seq<Entry<K>>, k: K): (j: nat)
    requires k in Keys(d)
    ensures j < |d| && d[j].key == k
  {
    if d[0].key == k then 0
    else
      assert Keys(d) == [d[0].key] + Keys(d[1..]);
      KeyIndex(d[1..], k) + 1
  }

  /** Replacing one property changes the sum by the difference of the two counts. */
  lemma {:induction false} TotalUpdate<K>(d: seq<Entry<K>>, j: nat, e: Entry<K>)
    requires j < |d|
    ensures Total(d[j := e]) == Total(d) - d[j].count + e.count
  {
    if j == 0 {
      assert d[j := e][1..] == d[1..];
    } else {
      assert d[j := e][1..] == d[1..][j - 1 := e];
      TotalUpdate(d[1..], j - 1, e);
    }
  }

  /** The counter after counting every element of `xs` in turn, starting from `{}`. */
  function Tally<K(==)>(xs: seq<K>): (d: seq<Entry<K>>)
    ensures DistinctKeys(d)
    ensures Total(d) == |xs|
  {
    if xs == [] then [] else Bump(Tally(xs[..|xs| - 1]), xs[|xs| - 1])
  }

  /** Counting one more element is one more `Bump`. */
  lemma TallySnoc<K>(xs: seq<K>, x: K)
    ensures Tally(xs + [x]) == Bump(Tally(xs), x)
  {
    assert (xs + [x])[..|xs|] == xs;
  }

  /** The counter has a property for exactly the values that occur in `xs`. */
  lemma {:induction false} TallyKeys<K>(xs: seq<K>)
    ensures forall k :: k in Keys(Tally(xs)) <==> k in xs
  {
    if xs != [] {
      var init, x := xs[..|xs| - 1], xs[|xs| - 1];
      assert xs == init + [x];
      TallyKeys(init);
      var d := Tally(init);
      var r := Tally(xs);
      assert r == Bump(d, x);
      if x in Keys(d) {
        assert Keys(r) == Keys(d);
      } else {
        assert Keys(r) == Keys(d) + [x];
      }
    }
  }

  /** Each property counts the occurrences of its key, so every count is at least 1. */
  lemma {:induction false} TallyCounts<K>(xs: seq<K>)
    ensures forall i :: 0 <= i < |Tally(xs)| ==>
      Tally(xs)[i].count == Occurrences(xs, Tally(xs)[i].key) && Tally(xs)[i].count >= 1
  {
    if xs != [] {
      var init, x := xs[..|xs| - 1], xs[|xs| - 1];
      TallyCounts(init);
      TallyKeys(init);
      var d := Tally(init);
      var r := Tally(xs);
      assert r == Bump(d, x);
      forall i | 0 <= i < |r|
        ensures r[i].count == Occurrences(xs, r[i].key)
      {
        if i < |d| {
          assert r[i].key == d[i].key;
        } else {
          assert x !in init;
        }
      }
    }
  }

  /** Together: the counter has one property per distinct value of `xs`, holding its number
      of occurrences, and the counts add up to `|xs|`. */
  lemma TallySpec<K>(xs: seq<K>)
    ensures DistinctKeys(Tally(xs))
    ensures forall k :: k in Keys(Tally(xs)) <==> k in xs
    ensures forall i :: 0 <= i < |Tally(xs)| ==>
      Tally(xs)[i].count == Occurrences(xs, Tally(xs)[i].key) && Tally(xs)[i].count >= 1
    ensures Total(Tally(xs)) == |xs|
  {
    TallyKeys(xs);
    TallyCounts(xs);
  }

  /** The position of the first occurrence of `k` in `xs`. */
  function FirstIndex<K(==)>(xs: seq<K>, k: K): (i: nat)
    requires k in xs
    ensures i < |xs| && xs[i] == k && k !in xs[..i]
  {
    if xs[0] == k then 0
    else
      assert xs == [xs[0]] + xs[1..];
      var j := FirstIndex(xs[1..], k);
      assert xs[..j + 1] == [xs[0]] + xs[1..][..j];
      j + 1
  }

  lemma FirstIndexUnique<K>(xs: seq<K>, k: K, i: nat)
    requires i < |xs| && xs[i] == k && k !in xs[..i]
    ensures FirstIndex(xs, k) == i
  {
    var j := FirstIndex(xs, k);
    assert forall m :: 0 <= m < i ==> xs[..i][m] == xs[m];
    assert forall m :: 0 <= m < j ==> xs[..j][m] == xs[m];
  }

  lemma FirstIndexOfPrefix<K>(xs: seq<K>, x: K, k: K)
    requires k in xs
    ensures FirstIndex(xs + [x], k) == FirstIndex(xs, k)
  {
    var i := FirstIndex(xs, k);
    assert (xs + [x])[..i] == xs[..i];
    FirstIndexUnique(xs + [x], k, i);
  }

  /** Every key of the counter occurs in `xs`, as needed to speak of its first occurrence. */
  lemma TallyKeysOccur<K>(xs: seq<K>)
    ensures forall i :: 0 <= i < |Tally(xs)| ==> Tally(xs)[i].key in xs
  {
    TallyKeys(xs);
    forall i | 0 <= i < |Tally(xs)| ensures Tally(xs)[i].key in xs {
      assert Keys(Tally(xs))[i] == Tally(xs)[i].key;
    }
  }

  /** The keys of `d` occur in `xs`, and `d` lists them in the order of their first occurrence. */
  ghost predicate InFirstOccurrenceOrder<K>(d: seq<Entry<K>>, xs: seq<K>)
  {
    && (forall i :: 0 <= i < |d| ==> d[i].key in xs)
    && (forall i, j :: 0 <= i < j < |d| ==> FirstIndex(xs, d[i].key) < FirstIndex(xs, d[j].key))
  }

  /** Properties are created, and so listed, in the order of first occurrence. */
  lemma {:induction false} TallyFirstOccurrenceOrder<K>(xs: seq<K>)
    ensures InFirstOccurrenceOrder(Tally(xs), xs)
  {
    if xs != [] {
      var init, x := xs[..|xs| - 1], xs[|xs| - 1];
      assert xs == init + [x];
      TallyFirstOccurrenceOrder(init);
      TallyKeys(init);
      var d := Tally(init);
      assert Tally(xs) == Bump(d, x);
      if x in Keys(d) {
        OrderAfterRepeat(d, init, x);
      } else {
        OrderAfterNew(d, init, x);
      }
    }
  }

  lemma OrderAfterRepeat<K>(d: seq<Entry<K>>, init: seq<K>, x: K)
    requires DistinctKeys(d) && InFirstOccurrenceOrder(d, init) && x in Keys(d)
    ensures InFirstOccurrenceOrder(Bump(d, x), init + [x])
  {
    var r := Bump(d, x);
    var xs := init + [x];
    forall i | 0 <= i < |r| ensures r[i].key == d[i].key && r[i].key in xs
                               && FirstIndex(xs, r[i].key) == FirstIndex(init, d[i].key) {
      FirstIndexOfPrefix(init, x, d[i].key);
    }
  }

  lemma OrderAfterNew<K>(d: seq<Entry<K>>, init: seq<K>, x: K)
    requires DistinctKeys(d) && InFirstOccurrenceOrder(d, init) && x !in init
    requires x !in Keys(d)
    ensures InFirstOccurrenceOrder(Bump(d, x), init + [x])
  {
    var r := Bump(d, x);
    var xs := init + [x];
    assert r == d + [Entry(x, 1)];
    forall i | 0 <= i < |d| ensures r[i].key in xs && FirstIndex(xs, r[i].key) == FirstIndex(init, d[i].key)
                               && FirstIndex(init, d[i].key) < |init| {
      FirstIndexOfPrefix(init, x, d[i].key);
    }
    assert xs[..|init|] == init;
    FirstIndexUnique(xs, x, |init|);
  }

  lemma {:induction false} TotalConcat<K>(a: seq<Entry<K>>, b: seq<Entry<K>>)
    ensures Total(a + b) == Total(a) + Total(b)
  {
    if a == [] {
      assert a + b == b;
    } else {
      assert (a + b)[0] == a[0];
      assert (a + b)[1..] == a[1..] + b;
      TotalConcat(a[1..], b);
    }
  }

  /** Taking the element at `i` out of `b`. */
  lemma RemoveAt<K>(b: seq<Entry<K>>, i: nat)
    requires i < |b|
    ensures multiset(b[..i] + b[i + 1..]) == multiset(b) - multiset{b[i]}
    ensures Total(b) == b[i].count + Total(b[..i] + b[i + 1..])
  {
    SplitAt(b, i);
    RemoveAtMultiset(b[..i], b[i], b[i + 1..]);
    RemoveAtTotal(b[..i], b[i], b[i + 1..]);
  }

  lemma SplitAt<T>(b: seq<T>, i: nat)
    requires i < |b|
    ensures b == b[..i] + ([b[i]] + b[i + 1..])
  {
  }

  lemma RemoveAtMultiset<T>(front: seq<T>, e: T, back: seq<T>)
    ensures multiset(front + back) == multiset(front + ([e] + back)) - multiset{e}
  {
    assert multiset(front + ([e] + back)) == multiset(front) + multiset{e} + multiset(back);
    assert multiset(front + back) == multiset(front) + multiset(back);
  }

  lemma RemoveAtTotal<K>(front: seq<Entry<K>>, e: Entry<K>, back: seq<Entry<K>>)
    ensures Total(front + ([e] + back)) == e.count + Total(front + back)
  {
    TotalConcat(front, [e] + back);
    TotalConcat([e], back);
    assert ([e] + back)[1..] == back;
    TotalConcat(front, back);
  }

  /** Listing the same properties in another order does not change the sum of the counts. */
  lemma {:induction false} TotalOfPermutation<K>(a: seq<Entry<K>>, b: seq<Entry<K>>)
    requires multiset(a) == multiset(b)
    ensures Total(a) == Total(b)
    decreases |a|
  {
    if a == [] {
      assert |b| == |multiset(b)| == 0;
    } else {
      assert a[0] in multiset(b);
      var i :| 0 <= i < |b| && b[i] == a[0];
      RemoveAt(b, i);
      assert a == [a[0]] + a[1..];
      assert multiset(a[1..]) == multiset(a) - multiset{a[0]};
      TotalOfPermutation(a[1..], b[..i] + b[i + 1..]);
    }
  }

  lemma {:induction false} DistinctKeysNoRepeats<K>(a: seq<Entry<K>>, e: Entry<K>)
    requires DistinctKeys(a)
    ensures multiset(a)[e] <= 1
  {
    if a != [] {
      assert a == [a[0]] + a[1..];
      DistinctKeysNoRepeats(a[1..], e);
      if e == a[0] {
        forall j | 0 <= j < |a[1..]| ensures a[1..][j] != e {
          assert a[j + 1].key != a[0].key;
        }
      }
    }
  }

  /** Listing the properties of an object in another order keeps the keys distinct. */
  lemma DistinctKeysOfPermutation<K>(a: seq<Entry<K>>, b: seq<Entry<K>>)
    requires DistinctKeys(a) && multiset(a) == multiset(b)
    ensures DistinctKeys(b)
  {
    forall i, j | 0 <= i < j < |b| ensures b[i].key != b[j].key {
      if b[i] == b[j] {
        RepeatMultiplicity(b, i, j);
        DistinctKeysNoRepeats(a, b[i]);
      } else {
        assert b[i] in multiset(a) && b[j] in multiset(a);
        var p :| 0 <= p < |a| && a[p] == b[i];
        var q :| 0 <= q < |a| && a[q] == b[j];
        assert p != q;
      }
    }
  }

  /** An array index in the sense of ECMAScript: the canonical decimal form of an
      integer below 2^32 - 1. */
  predicate IsArrayIndex(s: string)
  {
    |s| >= 1 && AllDigits(s) && (s[0] != '0' || |s| == 1) && DigitsValue(s) < 0xFFFF_FFFF
  }

  predicate IsIndexEntry(e: Entry<string>) { IsArrayIndex(e.key) }

  predicate IsNamedEntry(e: Entry<string>) { !IsArrayIndex(e.key) }

  function IndexValue(e: Entry<string>): int
  {
    if AllDigits(e.key) then DigitsValue(e.key) else 0
  }

  /** `Object.keys` order of an ordinary object: array-index keys first, in ascending
      numeric order, then all other keys in creation order. */
  function Enumerate(d: seq<Entry<string>>): (r: seq<Entry<string>>)
    ensures multiset(r) == multiset(d) && |r| == |d|
  {
    FilterPartition(d, IsIndexEntry, IsNamedEntry);
    var r := SortBy(Filter(d, IsIndexEntry), IndexValue) + Filter(d, IsNamedEntry);
    assert |multiset(r)| == |r| && |multiset(d)| == |d|;
    r
  }

  /** The listing holds the array-index keys in ascending numeric order before every
      other key, and the other keys in creation order. */
  lemma EnumerateOrder(d: seq<Entry<string>>)
    ensures var r := Enumerate(d);
      var n := |Filter(d, IsIndexEntry)|;
      && n <= |r|
      && (forall i :: 0 <= i < n ==> IsArrayIndex(r[i].key))
      && (forall i :: n <= i < |r| ==> !IsArrayIndex(r[i].key))
      && SortedBy(r[..n], IndexValue)
      && r[n..] == Filter(d, IsNamedEntry)
  {
    var idx := Filter(d, IsIndexEntry);
    var s := SortBy(idx, IndexValue);
    var r := Enumerate(d);
    assert r[..|idx|] == s && r[|idx|..] == Filter(d, IsNamedEntry);
    forall i | 0 <= i < |idx| ensures IsArrayIndex(r[i].key) {
      assert r[i] in multiset(idx);
      FilterMembers(d, IsIndexEntry);
    }
  }

  /** With no array-index key, `Object.keys` lists the keys in creation order. */
  lemma EnumerateNamed(d: seq<Entry<string>>)
    requires forall i :: 0 <= i < |d| ==> !IsArrayIndex(d[i].key)
    ensures Enumerate(d) == d
  {
    FilterNone(d, IsIndexEntry);
    FilterAll(d, IsNamedEntry);
  }

  lemma EnumerateMembers(d: seq<Entry<string>>)
    ensures forall e :: e in Enumerate(d) <==> e in d
  {
    var r := Enumerate(d);
    assert forall e :: e in r <==> e in multiset(r);
    assert forall e :: e in d <==> e in multiset(d);
  }

  lemma EnumerateKeys(d: seq<Entry<string>>)
    ensures forall k :: k in Keys(Enumerate(d)) <==> k in Keys(d)
  {
    EnumerateMembers(d);
    KeysOfMembers(Enumerate(d), d);
    KeysOfMembers(d, Enumerate(d));
  }

  /** A listing whose properties all belong to `b` has only keys of `b`. */
  lemma KeysOfMembers<K>(a: seq<Entry<K>>, b: seq<Entry<K>>)
    requires forall e :: e in a ==> e in b
    ensures forall k :: k in Keys(a) ==> k in Keys(b)
  {
    forall k | k in Keys(a) ensures k in Keys(b) {
      var i :| 0 <= i < |a| && Keys(a)[i] == k;
      assert a[i] in b;
      var j :| 0 <= j < |b| && b[j] == a[i];
      assert Keys(b)[j] == k;
    }
  }

  /** Listing keeps every property with its count, keeps the keys distinct and the total. */
  lemma EnumerateSpec(d: seq<Entry<string>>)
    requires DistinctKeys(d)
    ensures forall e :: e in Enumerate(d) <==> e in d
    ensures forall k :: k in Keys(Enumerate(d)) <==> k in Keys(d)
    ensures DistinctKeys(Enumerate(d))
    ensures Total(Enumerate(d)) == Total(d)
  {
    EnumerateMembers(d);
    EnumerateKeys(d);
    DistinctKeysOfPermutation(d, Enumerate(d));
    TotalOfPermutation(d, Enumerate(d));
  }

  /** The property lookup `counts[k]`: the position of the property `k`, or `|d|` when
      the object has none. */
  method Lookup<K(==)>(d: seq<Entry<K>>, k: K) returns (i: nat)
    ensures i <= |d|
    ensures i < |d| ==> d[i].key == k
    ensures i == |d| <==> k !in Keys(d)
  {
    i := 0;
    while i < |d| && d[i].key != k
      invariant i <= |d|
      invariant forall j :: 0 <= j < i ==> d[j].key != k
    {
      i := i + 1;
    }
  }

  /** Incrementing the property found at `j` in place is `Bump`. */
  lemma BumpAt<K>(d: seq<Entry<K>>, k: K, j: nat)
    requires DistinctKeys(d) && j < |d| && d[j].key == k
    ensures Bump(d, k) == d[j := Entry(k, d[j].count + 1)]
  {
    assert Keys(d)[j] == k;
    var r := Bump(d, k);
    forall i | 0 <= i < |d| ensures r[i] == d[j := Entry(k, d[j].count + 1)][i] {
      if i != j {
        assert d[i].key != k;
      }
    }
  }

  /** One count in place: the property `k` is looked up, created at 0 when missing, and
      incremented (`counts[k] = (counts[k] || 0) + 1` does the same in one statement). */
  method Increment<K(==)>(counts: seq<Entry<K>>, k: K) returns (r: seq<Entry<K>>)
    requires DistinctKeys(counts)
    ensures r == Bump(counts, k)
  {
    var j := Lookup(counts, k);
    r := counts;
    if j == |r| {
      r := r + [Entry(k, 0)];
    }
    r := r[j := Entry(k, r[j].count + 1)];
    if j < |counts| {
      BumpAt(counts, k, j);
    } else {
      assert r == counts + [Entry(k, 1)];
    }
  }
}
