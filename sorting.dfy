/**
 * Array.prototype.sort with a numeric comparator. The language requires the sort
 * to be stable, and a stable sort's output is determined by its input, so one
 * stable insertion sort on a key stands for every call: `(a, b) => key(a) - key(b)`.
 */
module Sorting {

  ghost predicate SortedBy<T>(s: seq<T>, key: T -> int) {
    forall i, j :: 0 <= i < j < |s| ==> key(s[i]) <= key(s[j])
  }

  /** Entry `i` has the least key, and every element before it a strictly greater one. */
  ghost predicate IsFirstMin<T>(s: seq<T>, key: T -> int, i: int) {
    && 0 <= i < |s|
    && (forall j :: 0 <= j < |s| ==> key(s[i]) <= key(s[j]))
    && (forall j :: 0 <= j < i ==> key(s[i]) < key(s[j]))
  }

  /** Puts `x` in front of the first element whose key is not smaller. */
  function Insert<T>(x: T, s: seq<T>, key: T -> int): (r: seq<T>)
    requires SortedBy(s, key)
    ensures SortedBy(r, key)
    ensures multiset(r) == multiset(s) + multiset{x}
    ensures s == [] || key(x) <= key(s[0]) ==> r[0] == x
    ensures s != [] && key(s[0]) < key(x) ==> r[0] == s[0]
  {
    if s == [] || key(x) <= key(s[0]) then [x] + s
    else
      var rest := Insert(x, s[1..], key);
      assert s == [s[0]] + s[1..];
      [s[0]] + rest
  }

  /** The input sorted ascending by key, elements with equal keys left in input order. */
  function SortBy<T>(s: seq<T>, key: T -> int): (r: seq<T>)
    ensures SortedBy(r, key)
    ensures multiset(r) == multiset(s)
    ensures |r| == |s|
  {
    if s == [] then []
    else
      assert s == [s[0]] + s[1..];
      Insert(s[0], SortBy(s[1..], key), key)
  }

  /** The first least element of `s` given the first least element of its tail. */
  lemma FirstMinCons<T>(s: seq<T>, key: T -> int, i: int)
    requires |s| > 1 && IsFirstMin(s[1..], key, i)
    ensures key(s[0]) <= key(s[1 + i]) ==> IsFirstMin(s, key, 0)
    ensures key(s[1 + i]) < key(s[0]) ==> IsFirstMin(s, key, 1 + i)
  {
    forall j | 0 < j < |s| ensures key(s[1 + i]) <= key(s[j]) {
      assert s[j] == s[1..][j - 1];
    }
    forall j | 0 < j < 1 + i ensures key(s[1 + i]) < key(s[j]) {
      assert s[j] == s[1..][j - 1];
    }
  }

  /** The first element of the sorted sequence is the earliest element with the least key. */
  lemma {:induction false} SortByHead<T>(s: seq<T>, key: T -> int)
    requires s != []
    ensures exists i :: IsFirstMin(s, key, i) && SortBy(s, key)[0] == s[i]
  {
    if |s| == 1 {
      assert IsFirstMin(s, key, 0);
    } else {
      SortByHead(s[1..], key);
      var i :| IsFirstMin(s[1..], key, i) && SortBy(s[1..], key)[0] == s[1..][i];
      FirstMinCons(s, key, i);
      var rest := SortBy(s[1..], key);
      assert SortBy(s, key) == Insert(s[0], rest, key);
      if key(s[0]) <= key(s[1 + i]) {
        assert SortBy(s, key)[0] == s[0];
        assert IsFirstMin(s, key, 0);
      } else {
        assert SortBy(s, key)[0] == s[1 + i];
        assert IsFirstMin(s, key, 1 + i);
      }
    }
  }
}
