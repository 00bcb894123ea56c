/**
 * The JavaScript objects and arrays lib/parser.js counts into. An object used as
 * a counter is its list of entries in insertion order (what Object.entries
 * returns for non-numeric keys); `[...new Set(xs)]` is Dedup.
 */
module Counters {

  /** The entries of a counter object, in the order their keys were first set. */
  type Counts<K> = seq<(K, nat)>

  function Keys<K>(m: Counts<K>): seq<K> {
    seq(|m|, i requires 0 <= i < |m| => m[i].0)
  }

  function Values<K>(m: Counts<K>): seq<nat> {
    seq(|m|, i requires 0 <= i < |m| => m[i].1)
  }

  ghost predicate Distinct<T>(s: seq<T>) {
    forall i, j :: 0 <= i < j < |s| ==> s[i] != s[j]
  }

  function Sum(xs: seq<nat>): nat {
    if xs == [] then 0 else Sum(xs[..|xs| - 1]) + xs[|xs| - 1]
  }

  lemma {:induction false} SumUpdate(xs: seq<nat>, i: nat, v: nat)
    requires i < |xs|
    ensures Sum(xs[i := v]) + xs[i] == Sum(xs) + v
    decreases |xs|
  {
    var n := |xs| - 1;
    if i < n {
      assert xs[i := v][..n] == xs[..n][i := v];
      SumUpdate(xs[..n], i, v);
    } else {
      assert xs[i := v][..n] == xs[..n];
    }
  }

  lemma SumAppend(xs: seq<nat>, v: nat)
    ensures Sum(xs + [v]) == Sum(xs) + v
  {
    assert (xs + [v])[..|xs|] == xs;
  }

  /** The count at position `j` plus the counts of the other entries. */
  lemma SumValuesSplit<K>(b: Counts<K>, j: nat)
    requires j < |b|
    ensures Sum(Values(b)) == Sum(Values(b[..j] + b[j + 1..])) + b[j].1
  {
    var left, right := Values(b[..j]), Values(b[j + 1..]);
    assert Values(b) == (left + [b[j].1]) + right;
    assert Values(b[..j] + b[j + 1..]) == left + right;
    SumConcat(left + [b[j].1], right);
    SumAppend(left, b[j].1);
    SumConcat(left, right);
  }

  lemma MultisetWithout<T>(s: seq<T>, j: nat)
    requires j < |s|
    ensures multiset(s[..j] + s[j + 1..]) == multiset(s) - multiset{s[j]}
  {
    assert s == s[..j] + [s[j]] + s[j + 1..];
  }

  lemma ValuesCons<K>(a: Counts<K>)
    requires a != []
    ensures Values(a) == [a[0].1] + Values(a[1..])
  {
  }

  /** Reordering the entries does not change the total count. */
  lemma {:induction false} SumValuesPerm<K>(a: Counts<K>, b: Counts<K>)
    requires multiset(a) == multiset(b)
    ensures Sum(Values(a)) == Sum(Values(b))
    decreases |a|
  {
    if a == [] {
      assert b == [] by { assert |b| == |multiset(b)|; }
    } else {
      var x := a[0];
      assert x in multiset(b) by { assert x in a; }
      var j :| 0 <= j < |b| && b[j] == x;
      var rest := b[..j] + b[j + 1..];
      MultisetWithout(b, j);
      assert a == [x] + a[1..];
      assert multiset(a[1..]) == multiset(rest);
      SumValuesPerm(a[1..], rest);
      ValuesCons(a);
      SumConcat([x.1], Values(a[1..]));
      SumValuesSplit(b, j);
    }
  }

  lemma {:induction false} SumConcat(xs: seq<nat>, ys: seq<nat>)
    ensures Sum(xs + ys) == Sum(xs) + Sum(ys)
    decreases |ys|
  {
    if ys != [] {
      var init := ys[..|ys| - 1];
      var last := ys[|ys| - 1];
      assert xs + ys == (xs + init) + [last];
      SumConcat(xs, init);
      calc {
        Sum(xs + ys);
        Sum((xs + init) + [last]);
        { SumAppend(xs + init, last); }
        Sum(xs + init) + last;
      }
    } else {
      assert xs + ys == xs;
    }
  }


  /** Where key `k` sits among the entries, or |m| when it is not there. */
  function IndexOf<K(==)>(m: Counts<K>, k: K): (i: nat)
    ensures i <= |m|
    ensures i < |m| ==> m[i].0 == k
  {
    IndexFrom(m, k, 0)
  }

  /** The first entry at or after `j` with key `k`, or |m|. */
  function IndexFrom<K(==)>(m: Counts<K>, k: K, j: nat): (i: nat)
    requires j <= |m|
    ensures j <= i <= |m|
    ensures i < |m| ==> m[i].0 == k
    decreases |m| - j
  {
    if j == |m| then |m| else if m[j].0 == k then j else IndexFrom(m, k, j + 1)
  }

  lemma {:induction false} IndexFromFirst<K>(m: Counts<K>, k: K, j: nat)
    requires j <= |m|
    ensures forall n :: j <= n < IndexFrom(m, k, j) ==> m[n].0 != k
    decreases |m| - j
  {
    if j < |m| && m[j].0 != k {
      IndexFromFirst(m, k, j + 1);
    }
  }

  /** No entry before IndexOf(m, k) has key `k`. */
  lemma IndexOfFirst<K>(m: Counts<K>, k: K)
    ensures forall j :: 0 <= j < IndexOf(m, k) ==> m[j].0 != k
  {
    IndexFromFirst(m, k, 0);
  }

  /** `counts[k] || 0`. */
  function Get<K(==)>(m: Counts<K>, k: K): nat {
    var i := IndexOf(m, k);
    if i < |m| then m[i].1 else 0
  }

  /** `counts[k] = (counts[k] || 0) + 1`: a present key keeps its place, a new key goes last. */
  function Bump<K(==)>(m: Counts<K>, k: K): Counts<K> {
    var i := IndexOf(m, k);
    if i < |m| then m[i := (k, m[i].1 + 1)] else m + [(k, 1)]
  }

  /** `xs` without repetitions, each element where it first occurs: `[...new Set(xs)]`. */
  function Dedup<T(==)>(xs: seq<T>): (r: seq<T>)
    ensures Distinct(r)
    ensures forall x :: x in r ==> x in xs
    ensures forall x :: x in xs ==> x in r
  {
    if xs == [] then []
    else
      var d := Dedup(xs[..|xs| - 1]);
      var x := xs[|xs| - 1];
      assert xs == xs[..|xs| - 1] + [x];
      if x in d then d else d + [x]
  }

  /** The index of the first occurrence of `x` in `xs`, or `|xs|` when there is none. */
  function FirstIndex<T(==)>(xs: seq<T>, x: T): (i: nat)
    ensures i <= |xs|
    ensures i < |xs| ==> xs[i] == x
  {
    if xs == [] then 0
    else
      var pre := xs[..|xs| - 1];
      var j := FirstIndex(pre, x);
      if j < |pre| then j else if xs[|xs| - 1] == x then |pre| else |xs|
  }

  /** No earlier index holds `x`: the index found is the first occurrence. */
  lemma {:induction false} FirstIndexIsFirst<T>(xs: seq<T>, x: T)
    ensures forall j :: 0 <= j < FirstIndex(xs, x) && j < |xs| ==> xs[j] != x
    decreases |xs|
  {
    if xs != [] {
      var pre := xs[..|xs| - 1];
      FirstIndexIsFirst(pre, x);
      FirstIndexIn(pre, x);
    }
  }

  lemma {:induction false} FirstIndexIn<T>(xs: seq<T>, x: T)
    ensures FirstIndex(xs, x) < |xs| <==> x in xs
    decreases |xs|
  {
    if xs != [] {
      var pre := xs[..|xs| - 1];
      FirstIndexIn(pre, x);
      assert xs == pre + [xs[|xs| - 1]];
    }
  }

  /** The elements of `r` appear in the order in which they first occur in `xs`. */
  ghost predicate InFirstOccurrenceOrder<T>(r: seq<T>, xs: seq<T>) {
    forall i, j :: 0 <= i < j < |r| ==> FirstIndex(xs, r[i]) < FirstIndex(xs, r[j])
  }

  /** Dedup lists the distinct elements in the order of their first occurrences. */
  lemma {:induction false} DedupOrder<T>(xs: seq<T>)
    ensures InFirstOccurrenceOrder(Dedup(xs), xs)
    decreases |xs|
  {
    if xs != [] {
      var pre, x := xs[..|xs| - 1], xs[|xs| - 1];
      var d := Dedup(pre);
      DedupOrder(pre);
      forall y | y in pre
        ensures FirstIndex(xs, y) == FirstIndex(pre, y) < |pre|
      {
        FirstIndexIn(pre, y);
      }
      if x !in d {
        FirstIndexIn(pre, x);
        assert FirstIndex(xs, x) == |pre|;
        assert Dedup(xs) == d + [x];
      }
    }
  }

  /** The counter object built by bumping the keys `ks` one after another. */
  function Tally<K(==)>(ks: seq<K>): Counts<K> {
    if ks == [] then [] else Bump(Tally(ks[..|ks| - 1]), ks[|ks| - 1])
  }

  lemma TallySnoc<K>(ks: seq<K>, k: K)
    ensures Tally(ks + [k]) == Bump(Tally(ks), k)
  {
    assert (ks + [k])[..|ks|] == ks;
  }

  lemma HistogramSnoc(xs: seq<nat>, x: nat, n: nat)
    requires x < n
    ensures Histogram(xs + [x], n) == Histogram(xs, n)[x := Histogram(xs, n)[x] + 1]
  {
    assert (xs + [x])[..|xs|] == xs;
  }

  /** `m` holds each key of `ks` once, in first-occurrence order, with its number of occurrences. */
  ghost predicate IsTallyOf<K>(m: Counts<K>, ks: seq<K>) {
    && Keys(m) == Dedup(ks)
    && forall i :: 0 <= i < |m| ==> m[i].1 == multiset(ks)[m[i].0]
  }

  lemma {:induction false} TallyCounts<K>(ks: seq<K>)
    ensures IsTallyOf(Tally(ks), ks)
    decreases |ks|
  {
    if ks != [] {
      var pre, x := ks[..|ks| - 1], ks[|ks| - 1];
      assert ks == pre + [x];
      TallyCounts(pre);
      var m := Tally(pre);
      var i := IndexOf(m, x);
      IndexOfFirst(m, x);
      assert x in Keys(m) <==> i < |m| by {
        if x in Keys(m) {
          var j :| 0 <= j < |m| && Keys(m)[j] == x;
          assert m[j].0 == x;
        }
        if i < |m| {
          assert Keys(m)[i] == x;
        }
      }
      var r := Bump(m, x);
      if i < |m| {
        assert Keys(r) == Keys(m);
        forall j | 0 <= j < |r| ensures r[j].1 == multiset(ks)[r[j].0] {
          if j != i {
            assert Keys(m)[j] != Keys(m)[i];
          }
        }
      } else {
        assert x !in pre;
        assert Keys(r) == Keys(m) + [x];
      }
    }
  }

  lemma TallyGet<K>(m: Counts<K>, ks: seq<K>, k: K)
    requires IsTallyOf(m, ks)
    ensures Get(m, k) == multiset(ks)[k]
  {
    var i := IndexOf(m, k);
    IndexOfFirst(m, k);
    if i == |m| {
      assert k !in Keys(m);
      assert k !in ks;
    }
  }

  /** Each entry of a tally is positive and the entries add up to the number of keys counted. */
  lemma {:induction false} TallySum<K>(ks: seq<K>)
    ensures Sum(Values(Tally(ks))) == |ks|
    ensures forall i :: 0 <= i < |Tally(ks)| ==> Tally(ks)[i].1 >= 1
    decreases |ks|
  {
    if ks != [] {
      var pre, x := ks[..|ks| - 1], ks[|ks| - 1];
      TallySum(pre);
      var m := Tally(pre);
      var i := IndexOf(m, x);
      if i < |m| {
        assert Values(Bump(m, x)) == Values(m)[i := m[i].1 + 1];
        SumUpdate(Values(m), i, m[i].1 + 1);
      } else {
        assert Values(Bump(m, x)) == Values(m) + [1];
        SumAppend(Values(m), 1);
      }
    }
  }

  /** `Array(n).fill(0)` with `counts[x]++` for every `x` of `xs` that is a bucket index. */
  function Histogram(xs: seq<nat>, n: nat): (h: seq<nat>)
    ensures |h| == n
  {
    if xs == [] then seq(n, _ => 0)
    else
      var h, x := Histogram(xs[..|xs| - 1], n), xs[|xs| - 1];
      if x < n then h[x := h[x] + 1] else h
  }

  /** Bucket `b` holds the number of times `b` occurs in `xs`. */
  lemma {:induction false} HistogramCounts(xs: seq<nat>, n: nat)
    ensures forall b :: 0 <= b < n ==> Histogram(xs, n)[b] == multiset(xs)[b]
    decreases |xs|
  {
    if xs != [] {
      var pre, x := xs[..|xs| - 1], xs[|xs| - 1];
      assert xs == pre + [x];
      HistogramCounts(pre, n);
    }
  }

  /** Every counted value lands in exactly one bucket. */
  lemma {:induction false} HistogramSum(xs: seq<nat>, n: nat)
    requires forall k :: 0 <= k < |xs| ==> xs[k] < n
    ensures Sum(Histogram(xs, n)) == |xs|
    decreases |xs|
  {
    if xs == [] {
      ZeroSum(n);
    } else {
      var pre, x := xs[..|xs| - 1], xs[|xs| - 1];
      assert xs == pre + [x];
      HistogramSum(pre, n);
      var h := Histogram(pre, n);
      SumUpdate(h, x, h[x] + 1);
    }
  }

  lemma {:induction false} ZeroSum(n: nat)
    ensures Sum(seq(n, _ => 0)) == 0
  {
    if n > 0 {
      assert seq(n, _ => 0)[..n - 1] == seq(n - 1, _ => 0);
      ZeroSum(n - 1);
    }
  }

  /** Entry `i` has the largest count, and every entry before it a strictly smaller one. */
  predicate IsFirstMax<K>(m: Counts<K>, i: int) {
    && 0 <= i < |m|
    && (forall j :: 0 <= j < |m| ==> m[j].1 <= m[i].1)
    && (forall j :: 0 <= j < i ==> m[j].1 < m[i].1)
  }

  /**
   * `k` occurs `count` times in `ks`, at least once, no key occurs more often, and
   * every other key that occurs as often first occurs later.
   */
  ghost predicate IsMostFrequent<K>(k: K, count: nat, ks: seq<K>) {
    && 1 <= count == multiset(ks)[k]
    && (forall x :: x in ks ==> multiset(ks)[x] <= count)
    && (forall x :: x in ks && multiset(ks)[x] == count ==> FirstIndex(ks, k) <= FirstIndex(ks, x))
  }

  /**
   * The first entry with the largest count in a tally names a most frequent key,
   * and among the most frequent keys the one that occurs first.
   */
  lemma FirstMaxOfTally<K>(ks: seq<K>, i: int)
    requires IsFirstMax(Tally(ks), i)
    ensures IsMostFrequent(Tally(ks)[i].0, Tally(ks)[i].1, ks)
  {
    var m := Tally(ks);
    TallyCounts(ks);
    DedupOrder(ks);
    assert Keys(m)[i] == m[i].0;
    TallySum(ks);
    forall k | k in ks
      ensures exists j :: 0 <= j < |m| && m[j].0 == k
      ensures multiset(ks)[k] <= m[i].1
    {
      assert k in Dedup(ks);
      var j :| 0 <= j < |Keys(m)| && Keys(m)[j] == k;
      assert m[j].1 == multiset(ks)[k];
    }
    forall k | multiset(ks)[k] == m[i].1
      ensures FirstIndex(ks, m[i].0) <= FirstIndex(ks, k)
    {
      assert k in ks;
      var j :| 0 <= j < |m| && m[j].0 == k;
      assert m[j].1 == multiset(ks)[k];
      if j > i {
        assert Keys(m)[j] == k;
      }
    }
  }
}
