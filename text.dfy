/**
 * The string operations lib/parser.js relies on, with JavaScript's meaning:
 * `\d`, `.`, String.prototype.trim, split, includes and a global replace.
 */
module Text {

  /** What `\d` matches in a JavaScript regular expression: an ASCII digit. */
  predicate IsDigit(c: char) {
    '0' <= c <= '9'
  }

  /** The characters `.` refuses to match in a JavaScript regular expression. */
  predicate IsLineTerminator(c: char) {
    c == '\n' || c == '\r' || c == '\U{2028}' || c == '\U{2029}'
  }

  /** The WhiteSpace and LineTerminator characters that String.prototype.trim removes. */
  predicate IsWhitespace(c: char) {
    || IsLineTerminator(c)
    || c == '\t' || c == '\U{000B}' || c == '\U{000C}' || c == ' ' || c == '\U{00A0}'
    || c == '\U{1680}' || ('\U{2000}' <= c <= '\U{200A}')
    || c == '\U{202F}' || c == '\U{205F}' || c == '\U{3000}' || c == '\U{FEFF}'
  }

  /** The first index at or after `i` that holds no whitespace, or |s|. */
  function LeadingEnd(s: string, i: nat): (k: nat)
    requires i <= |s|
    ensures i <= k <= |s| && (forall m :: i <= m < k ==> IsWhitespace(s[m]))
    ensures k < |s| ==> !IsWhitespace(s[k])
    decreases |s| - i
  {
    if i == |s| || !IsWhitespace(s[i]) then i else LeadingEnd(s, i + 1)
  }

  /** The index just past the last character before `j`, from `i` on, that is no whitespace; `i` if none is. */
  function TrailingStart(s: string, i: nat, j: nat): (k: nat)
    requires i <= j <= |s|
    ensures i <= k <= j && (forall m :: k <= m < j ==> IsWhitespace(s[m]))
    ensures k > i ==> !IsWhitespace(s[k - 1])
    decreases j - i
  {
    if j == i || !IsWhitespace(s[j - 1]) then j else TrailingStart(s, i, j - 1)
  }

  /**
   * String.prototype.trim: the input with its leading and trailing whitespace cut
   * off, one contiguous piece that neither starts nor ends with whitespace.
   */
  function Trim(s: string): (r: string)
    ensures exists i, j :: 0 <= i <= j <= |s| && r == s[i..j] && IsEdgeWhitespace(s, i, j)
    ensures r == [] || (!IsWhitespace(r[0]) && !IsWhitespace(r[|r| - 1]))
    ensures forall c :: c in r ==> c in s
    ensures forall c :: c in s && !IsWhitespace(c) ==> c in r
  {
    var i := LeadingEnd(s, 0);
    var j := TrailingStart(s, i, |s|);
    TrimmedSlice(s, i, j);
    s[i..j]
  }

  /** Only whitespace lies outside `s[i..j]`. */
  predicate IsEdgeWhitespace(s: string, i: int, j: int)
    requires 0 <= i <= j <= |s|
  {
    && (forall k :: 0 <= k < i ==> IsWhitespace(s[k]))
    && (forall k :: j <= k < |s| ==> IsWhitespace(s[k]))
  }

  /** `s[i..j]`, between whitespace-only edges and with no whitespace at its own ends, is what Trim promises. */
  lemma TrimmedSlice(s: string, i: nat, j: nat)
    requires i <= j <= |s|
    requires (forall m :: 0 <= m < i ==> IsWhitespace(s[m])) && (forall m :: j <= m < |s| ==> IsWhitespace(s[m]))
    requires i < |s| ==> !IsWhitespace(s[i])
    requires j > i ==> !IsWhitespace(s[j - 1])
    ensures var r := s[i..j];
      && (exists i', j' :: 0 <= i' <= j' <= |s| && r == s[i'..j'] && IsEdgeWhitespace(s, i', j'))
      && (r == [] || (!IsWhitespace(r[0]) && !IsWhitespace(r[|r| - 1])))
      && (forall c :: c in r ==> c in s)
      && (forall c :: c in s && !IsWhitespace(c) ==> c in r)
  {
    assert IsEdgeWhitespace(s, i, j);
    SliceKeeps(s, i, j);
    SliceEnds(s, i, j);
  }

  /** A slice whose outermost characters are no whitespace neither starts nor ends with whitespace. */
  lemma SliceEnds(s: string, i: nat, j: nat)
    requires i <= j <= |s|
    requires i < |s| ==> !IsWhitespace(s[i])
    requires j > i ==> !IsWhitespace(s[j - 1])
    ensures var r := s[i..j]; r == [] || (!IsWhitespace(r[0]) && !IsWhitespace(r[|r| - 1]))
  {
    if i < j {
      assert s[i..j][0] == s[i] && s[i..j][j - i - 1] == s[j - 1];
    }
  }

  /** Cutting only whitespace from the ends keeps every other character and adds none. */
  lemma SliceKeeps(s: string, i: nat, j: nat)
    requires i <= j <= |s| && IsEdgeWhitespace(s, i, j)
    ensures forall c :: c in s[i..j] ==> c in s
    ensures forall c :: c in s && !IsWhitespace(c) ==> c in s[i..j]
  {
    forall c | c in s[i..j] ensures c in s {
      var k :| 0 <= k < j - i && s[i..j][k] == c;
      assert s[i + k] == c;
    }
    forall c | c in s && !IsWhitespace(c) ensures c in s[i..j] {
      var k :| 0 <= k < |s| && s[k] == c;
      assert s[i..j][k - i] == c;
    }
  }

  /** `p` occurs in `s` starting at index `i`. */
  predicate StartsAt(s: string, i: int, p: string) {
    0 <= i && i + |p| <= |s| && s[i..i + |p|] == p
  }

  /** String.prototype.includes. */
  predicate Contains(s: string, p: string) {
    exists i | 0 <= i <= |s| - |p| :: StartsAt(s, i, p)
  }

  lemma {:induction false} ContainsHead(s: string, p: string)
    requires Contains(s, p) && p != []
    ensures p[0] in s
  {
    var i :| 0 <= i <= |s| - |p| && StartsAt(s, i, p);
    assert s[i..i + |p|][0] == s[i];
  }

  lemma NoHeadNoContains(s: string, p: string)
    requires p != [] && p[0] !in s
    ensures !Contains(s, p)
  {
    if Contains(s, p) {
      ContainsHead(s, p);
    }
  }

  /** The first index at or after `j` whose character satisfies `stop`, or |s| if none does. */
  function Scan(s: string, j: nat, stop: char -> bool): (k: nat)
    requires j <= |s|
    ensures j <= k <= |s|
    ensures forall m :: j <= m < k ==> !stop(s[m])
    ensures k < |s| ==> stop(s[k])
    decreases |s| - j
  {
    if j == |s| || stop(s[j]) then j else Scan(s, j + 1, stop)
  }

  /** `parts` joined with `sep` between neighbours. */
  function Join(parts: seq<string>, sep: char): string
    requires |parts| >= 1
  {
    if |parts| == 1 then parts[0] else parts[0] + [sep] + Join(parts[1..], sep)
  }

  /** String.prototype.split with a one-character separator. */
  function Split(s: string, sep: char): (parts: seq<string>)
    ensures |parts| >= 1
    ensures forall p :: p in parts ==> sep !in p
    ensures Join(parts, sep) == s
    decreases |s|
  {
    var k := Scan(s, 0, c => c == sep);
    if k == |s| then
      assert forall m :: 0 <= m < |s| ==> s[m] != sep;
      [s]
    else
      var rest := Split(s[k + 1..], sep);
      assert ([s[..k]] + rest)[1..] == rest;
      assert s[..k] + [sep] + s[k + 1..] == s;
      [s[..k]] + rest
  }

  /**
   * `s.replace(/p/g, '')` for a literal pattern: occurrences are found left to
   * right, never overlapping, and deleted.
   */
  function RemoveAll(s: string, p: string): (r: string)
    requires p != []
    ensures |r| <= |s|
    ensures forall c :: c in r ==> c in s
    decreases |s|
  {
    if |s| < |p| then s
    else if s[..|p|] == p then
      assert s == s[..|p|] + s[|p|..];
      RemoveAll(s[|p|..], p)
    else
      assert s == [s[0]] + s[1..];
      [s[0]] + RemoveAll(s[1..], p)
  }

  /** Index `k` of `s` lies inside some occurrence of `p`. */
  ghost predicate Covered(s: string, p: string, k: int) {
    exists i :: i <= k < i + |p| && StartsAt(s, i, p)
  }

  /** The characters of `s` from index `j` on that lie inside no occurrence of `p`, in order. */
  ghost function Uncovered(s: string, p: string, j: nat): string
    requires j <= |s|
    decreases |s| - j
  {
    if j == |s| then [] else (if Covered(s, p, j) then [] else [s[j]]) + Uncovered(s, p, j + 1)
  }

  /** `p` cannot overlap itself: no proper suffix of `p` is also a prefix of it. */
  predicate Unoverlapping(p: string) {
    forall d :: 0 < d < |p| ==> p[d..] != p[..|p| - d]
  }

  /**
   * For a pattern that cannot overlap itself the left-to-right pass deletes
   * every occurrence: exactly the characters inside no occurrence remain, in order.
   */
  lemma RemoveAllUncovered(s: string, p: string)
    requires p != [] && Unoverlapping(p)
    ensures RemoveAll(s, p) == Uncovered(s, p, 0)
  {
    assert s[0..] == s;
    RemoveAllFrom(s, p, 0);
  }

  /** The pass resumed at index `j`, where no occurrence begun before `j` reaches. */
  lemma {:induction false} RemoveAllFrom(s: string, p: string, j: nat)
    requires p != [] && Unoverlapping(p) && j <= |s|
    requires forall i :: 0 <= i < j && StartsAt(s, i, p) ==> i + |p| <= j
    ensures RemoveAll(s[j..], p) == Uncovered(s, p, j)
    decreases |s| - j
  {
    var t := s[j..];
    if |t| < |p| {
      NoneCoveredNearEnd(s, p, j);
      UncoveredNone(s, p, j);
    } else if t[..|p|] == p {
      assert StartsAt(s, j, p) by { assert s[j..j + |p|] == t[..|p|]; }
      assert t[|p|..] == s[j + |p|..];
      ReachPastOccurrence(s, p, j);
      RemoveAllFrom(s, p, j + |p|);
      UncoveredSkip(s, p, j, j);
    } else {
      assert !StartsAt(s, j, p) by { assert s[j..j + |p|] == t[..|p|]; }
      NotCoveredHere(s, p, j);
      assert t[1..] == s[j + 1..];
      RemoveAllFrom(s, p, j + 1);
    }
  }

  /** Fewer than |p| characters from `j` on: no index there lies inside an occurrence. */
  lemma NoneCoveredNearEnd(s: string, p: string, j: nat)
    requires j <= |s| && |s| - j < |p|
    requires forall i :: 0 <= i < j && StartsAt(s, i, p) ==> i + |p| <= j
    ensures forall k :: j <= k < |s| ==> !Covered(s, p, k)
  {
    forall k | j <= k < |s| ensures !Covered(s, p, k) {
      forall i | i <= k < i + |p| ensures !StartsAt(s, i, p) {
      }
    }
  }

  /** Once an occurrence at `j` is skipped, no occurrence begun before its end reaches further. */
  lemma ReachPastOccurrence(s: string, p: string, j: nat)
    requires Unoverlapping(p) && StartsAt(s, j, p)
    requires forall i :: 0 <= i < j && StartsAt(s, i, p) ==> i + |p| <= j
    ensures forall i :: 0 <= i < j + |p| && StartsAt(s, i, p) ==> i + |p| <= j + |p|
  {
    forall i | 0 <= i < j + |p| && StartsAt(s, i, p) ensures i + |p| <= j + |p| {
      if j < i {
        OverlapClash(s, p, j, i);
      }
    }
  }

  /** No occurrence starts at `j` and none begun earlier reaches it. */
  lemma NotCoveredHere(s: string, p: string, j: nat)
    requires !StartsAt(s, j, p)
    requires forall i :: 0 <= i < j && StartsAt(s, i, p) ==> i + |p| <= j
    ensures !Covered(s, p, j)
  {
    forall i | i <= j < i + |p| ensures !StartsAt(s, i, p) {
    }
  }

  /** Two occurrences of an unoverlapping pattern never start less than its length apart. */
  lemma OverlapClash(s: string, p: string, j: int, i: int)
    requires Unoverlapping(p) && StartsAt(s, j, p) && StartsAt(s, i, p)
    requires j < i
    ensures j + |p| <= i
  {
    if i < j + |p| {
      SharedPart(s, p, j, i);
    }
  }

  /** Where two occurrences overlap, a suffix of the pattern equals a prefix of it. */
  lemma SharedPart(s: string, p: string, j: int, i: int)
    requires StartsAt(s, j, p) && StartsAt(s, i, p) && j < i < j + |p|
    ensures p[i - j..] == p[..|p| - (i - j)]
  {
    var d := i - j;
    forall k | 0 <= k < |p| - d ensures p[d..][k] == p[..|p| - d][k] {
      assert p[d + k] == s[j..j + |p|][d + k] == s[i + k];
      assert p[k] == s[i..i + |p|][k] == s[i + k];
    }
  }

  /** Past an occurrence starting at `j`, nothing up to its end is kept. */
  lemma {:induction false} UncoveredSkip(s: string, p: string, j: nat, n: nat)
    requires StartsAt(s, j, p) && j <= n <= j + |p|
    ensures Uncovered(s, p, n) == Uncovered(s, p, j + |p|)
    decreases j + |p| - n
  {
    if n < j + |p| {
      assert Covered(s, p, n) by { assert j <= n < j + |p|; }
      assert Uncovered(s, p, n) == [] + Uncovered(s, p, n + 1);
      UncoveredSkip(s, p, j, n + 1);
    }
  }

  lemma {:induction false} UncoveredNone(s: string, p: string, j: nat)
    requires j <= |s| && forall k :: j <= k < |s| ==> !Covered(s, p, k)
    ensures Uncovered(s, p, j) == s[j..]
    decreases |s| - j
  {
    if j < |s| {
      UncoveredNone(s, p, j + 1);
      assert s[j..] == [s[j]] + s[j + 1..];
    }
  }

  /** Without an occurrence of the pattern there is nothing to remove. */
  lemma {:induction false} RemoveAllAbsent(s: string, p: string)
    requires p != [] && !Contains(s, p)
    ensures RemoveAll(s, p) == s
    decreases |s|
  {
    if |s| >= |p| {
      assert !StartsAt(s, 0, p);
      NotContainsTail(s, p);
      RemoveAllAbsent(s[1..], p);
      assert s == [s[0]] + s[1..];
    }
  }

  lemma NotContainsTail(s: string, p: string)
    requires s != []
    ensures !Contains(s, p) ==> !Contains(s[1..], p)
  {
    if Contains(s[1..], p) {
      var i :| 0 <= i <= |s[1..]| - |p| && StartsAt(s[1..], i, p);
      assert s[i + 1..i + 1 + |p|] == s[1..][i..i + |p|];
      assert StartsAt(s, i + 1, p);
    }
  }

  /** Every character is an ASCII digit. */
  predicate IsDigits(s: string) {
    forall k :: 0 <= k < |s| ==> IsDigit(s[k])
  }

  /** `/^\d+$/.test(s)`: `s` is a non-empty run of ASCII digits. */
  predicate AllDigits(s: string) {
    |s| > 0 && IsDigits(s)
  }

  /** The value of a run of decimal digits. */
  function DigitsValue(s: string): nat
    requires IsDigits(s)
  {
    if s == [] then 0
    else
      assert IsDigit(s[|s| - 1]);
      10 * DigitsValue(s[..|s| - 1]) + (s[|s| - 1] as int - '0' as int)
  }
}
