/**
 * parseLine (lib/parser.js:5-25): one exported chat line becomes an Event, or is
 * rejected. The pattern `\[(\d{2}\/\d{2}\/\d{4}), (\d{2}:\d{2}:\d{2})\] ([^:]+): (.*)`
 * is unanchored, so the match is the leftmost position where it fits.
 */
module LineParser {
  import opened Options
  import opened Text
  import opened Calendar

  /** The four capture groups: date, time, user and message. */
  datatype Fields = Fields(date: string, time: string, user: string, message: string)

  /** An accepted post: when it was sent, who sent it, and the attached file's name if given. */
  datatype Event = Event(when: JsDate, user: string, imageFile: Option<string>)

  /** parseLine's result: an event, or `null`. */
  datatype Parsed = Accepted(event: Event) | Rejected

  /** `\d{2}\/\d{2}\/\d{4}` */
  predicate IsDateField(d: string) {
    |d| == 10 && IsDigits(d[0..2]) && d[2] == '/' && IsDigits(d[3..5]) && d[5] == '/' && IsDigits(d[6..10])
  }

  /** `\d{2}:\d{2}:\d{2}` */
  predicate IsTimeField(t: string) {
    |t| == 8 && IsDigits(t[0..2]) && t[2] == ':' && IsDigits(t[3..5]) && t[5] == ':' && IsDigits(t[6..8])
  }

  /** The fixed-width head `[DD/MM/YYYY, HH:MM:SS] ` starts at index `i`. */
  predicate HeadAt(s: string, i: nat) {
    && i + 23 <= |s|
    && s[i] == '[' && IsDateField(s[i + 1..i + 11]) && s[i + 11..i + 13] == ", "
    && IsTimeField(s[i + 13..i + 21]) && s[i + 21..i + 23] == "] "
  }

  /** What each capture group may hold. */
  ghost predicate WellShaped(f: Fields) {
    && IsDateField(f.date) && IsTimeField(f.time)
    && |f.user| > 0 && ':' !in f.user
    && forall k :: 0 <= k < |f.message| ==> !IsLineTerminator(f.message[k])
  }

  /** The text the pattern consumes for the given groups. */
  function Consumed(f: Fields): string {
    "[" + f.date + ", " + f.time + "] " + f.user + ": " + f.message
  }

  /**
   * The grammar, stated directly: at index `i` the line spells out well-shaped
   * groups, and the greedy `(.*)` stops only at the end or at a line terminator.
   */
  ghost predicate Matches(s: string, i: nat, f: Fields) {
    && WellShaped(f)
    && StartsAt(s, i, Consumed(f))
    && (i + |Consumed(f)| == |s| || IsLineTerminator(s[i + |Consumed(f)|]))
  }

  /** The pattern tried at index `i` alone. */
  function MatchAt(s: string, i: nat): (r: Option<Fields>)
    requires i <= |s|
    ensures r.Some? ==> WellShaped(r.value)
  {
    if !HeadAt(s, i) then None
    else
      var u := i + 23;
      var c := Scan(s, u, ch => ch == ':');
      if c == u || c + 1 >= |s| || s[c + 1] != ' ' then None
      else
        var e := Scan(s, c + 2, IsLineTerminator);
        var f := Fields(s[i + 1..i + 11], s[i + 13..i + 21], s[u..c], s[c + 2..e]);
        assert ':' !in f.user by {
          forall k | 0 <= k < |f.user| ensures f.user[k] != ':' {
            assert f.user[k] == s[u + k];
          }
        }
        Some(f)
  }

  /** The leftmost index at or after `i` where the pattern fits, or |s| where it never does. */
  function Leftmost(s: string, i: nat): (j: nat)
    requires i <= |s|
    ensures i <= j <= |s|
    ensures forall k :: i <= k < j ==> MatchAt(s, k).None?
    ensures j < |s| ==> MatchAt(s, j).Some?
    decreases |s| - i
  {
    if i == |s| || MatchAt(s, i).Some? then i else Leftmost(s, i + 1)
  }

  /** `line.match(regex)`: the groups of the leftmost match, or `null`. */
  function Match(s: string): (r: Option<Fields>)
    ensures r.None? <==> forall j :: 0 <= j <= |s| ==> MatchAt(s, j).None?
    ensures r.Some? ==> WellShaped(r.value)
    ensures r.Some? ==> exists j :: 0 <= j <= |s| && r == MatchAt(s, j) && forall k :: 0 <= k < j ==> MatchAt(s, k).None?
  {
    var j := Leftmost(s, 0);
    assert !HeadAt(s, |s|);
    MatchAt(s, j)
  }

  /** Where each group sits in the consumed text. */
  lemma ConsumedLayout(f: Fields)
    requires |f.date| == 10 && |f.time| == 8
    ensures var t, n := Consumed(f), 23 + |f.user|;
      && |t| == n + 2 + |f.message|
      && t[0] == '[' && t[1..11] == f.date && t[11..13] == ", " && t[13..21] == f.time
      && t[21..23] == "] " && t[23..n] == f.user && t[n..n + 2] == ": " && t[n + 2..] == f.message
  {
  }

  lemma SliceOfMatch(s: string, i: nat, t: string, a: nat, b: nat)
    requires StartsAt(s, i, t) && a <= b <= |t|
    ensures s[i + a..i + b] == t[a..b]
  {
    forall k | 0 <= k < b - a ensures s[i + a..i + b][k] == t[a..b][k] {
      assert s[i + a + k] == s[i..i + |t|][a + k];
    }
  }

  /** What MatchAt finds is a match of the grammar. */
  lemma MatchAtSound(s: string, i: nat, f: Fields)
    requires i <= |s| && MatchAt(s, i) == Some(f)
    ensures Matches(s, i, f)
  {
    assert HeadAt(s, i);
    var u := i + 23;
    var c := u + |f.user|;
    var e := c + 2 + |f.message|;
    assert f.date == s[i + 1..i + 11] && f.time == s[i + 13..i + 21];
    assert f.user == s[u..c] && f.message == s[c + 2..e];
    assert c + 1 < |s| && s[c] == ':' && s[c + 1] == ' ';
    assert e == |s| || IsLineTerminator(s[e]);
    ConsumedAt(s, i, f);
    assert i + |Consumed(f)| == e;
  }

  /** The groups laid out one after another from index `i` spell the consumed text. */
  lemma ConsumedAt(s: string, i: nat, f: Fields)
    requires |f.date| == 10 && |f.time| == 8
    requires i + 23 + |f.user| + 2 + |f.message| <= |s|
    requires s[i] == '[' && s[i + 1..i + 11] == f.date && s[i + 11..i + 13] == ", "
    requires s[i + 13..i + 21] == f.time && s[i + 21..i + 23] == "] "
    requires s[i + 23..i + 23 + |f.user|] == f.user
    requires s[i + 23 + |f.user|..i + 25 + |f.user|] == ": "
    requires s[i + 25 + |f.user|..i + 25 + |f.user| + |f.message|] == f.message
    ensures StartsAt(s, i, Consumed(f))
  {
    var c := i + 23 + |f.user|;
    var e := c + 2 + |f.message|;
    assert s[i..i + 1] == "[";
    SliceSplit(s, i, i + 1, i + 11);
    assert s[i..i + 11] == "[" + f.date;
    SliceSplit(s, i, i + 11, i + 13);
    assert s[i..i + 13] == "[" + f.date + ", ";
    SliceSplit(s, i, i + 13, i + 21);
    assert s[i..i + 21] == "[" + f.date + ", " + f.time;
    SliceSplit(s, i, i + 21, i + 23);
    assert s[i..i + 23] == "[" + f.date + ", " + f.time + "] ";
    SliceSplit(s, i, i + 23, c);
    assert s[i..c] == "[" + f.date + ", " + f.time + "] " + f.user;
    SliceSplit(s, i, c, c + 2);
    assert s[i..c + 2] == "[" + f.date + ", " + f.time + "] " + f.user + ": ";
    SliceSplit(s, i, c + 2, e);
  }

  lemma SliceSplit(s: string, a: nat, b: nat, c: nat)
    requires a <= b <= c <= |s|
    ensures s[a..c] == s[a..b] + s[b..c]
  {
  }

  /** Where a match of the grammar puts the head and the groups in the line. */
  lemma MatchLayout(s: string, i: nat, f: Fields)
    requires Matches(s, i, f)
    ensures var c := i + 23 + |f.user|;
      && c + 2 + |f.message| <= |s| && HeadAt(s, i)
      && s[i + 1..i + 11] == f.date && s[i + 13..i + 21] == f.time
      && s[i + 23..c] == f.user && s[c..c + 2] == ": " && s[c + 2..c + 2 + |f.message|] == f.message
  {
    var t := Consumed(f);
    ConsumedLayout(f);
    var c := i + 23 + |f.user|;
    assert s[i] == t[0];
    SliceOfMatch(s, i, t, 1, 11);
    SliceOfMatch(s, i, t, 11, 13);
    SliceOfMatch(s, i, t, 13, 21);
    SliceOfMatch(s, i, t, 21, 23);
    SliceOfMatch(s, i, t, 23, c - i);
    SliceOfMatch(s, i, t, c - i, c - i + 2);
    SliceOfMatch(s, i, t, c - i + 2, |t|);
  }

  /** A match of the grammar at `i` is what MatchAt finds there. */
  lemma MatchAtComplete(s: string, i: nat, f: Fields)
    requires Matches(s, i, f)
    ensures i <= |s| && MatchAt(s, i) == Some(f)
  {
    MatchLayout(s, i, f);
    var u := i + 23;
    var c := u + |f.user|;
    var e := c + 2 + |f.message|;
    forall k | u <= k < c ensures s[k] != ':' {
      assert s[k] == s[u..c][k - u];
    }
    assert s[c] == ':' && s[c + 1] == ' ' by {
      assert s[c..c + 2][0] == s[c] && s[c..c + 2][1] == s[c + 1];
    }
    assert Scan(s, u, ch => ch == ':') == c;
    forall k | c + 2 <= k < e ensures !IsLineTerminator(s[k]) {
      assert s[k] == s[c + 2..e][k - c - 2];
    }
    assert e == i + |Consumed(f)|;
    assert Scan(s, c + 2, IsLineTerminator) == e;
  }

  /** `line.match(regex)` in the grammar's terms: no match anywhere, or the groups of the leftmost one. */
  lemma MatchIsLeftmost(s: string)
    ensures Match(s).None? <==> forall i: nat, f :: !Matches(s, i, f)
    ensures Match(s).Some? ==> exists i: nat :: Matches(s, i, Match(s).value) && forall j: nat, g :: j < i ==> !Matches(s, j, g)
  {
    forall i: nat, f | Matches(s, i, f) ensures i <= |s| && MatchAt(s, i) == Some(f) {
      MatchAtComplete(s, i, f);
    }
    if Match(s).Some? {
      var i :| 0 <= i <= |s| && Match(s) == MatchAt(s, i) && forall k :: 0 <= k < i ==> MatchAt(s, k).None?;
      MatchAtSound(s, i, Match(s).value);
    } else {
      assert forall i: nat, f :: !Matches(s, i, f);
    }
  }

  // ---- the media filter (lib/parser.js:11-14) ----

  /** WhatsApp's placeholder for a photo left out of the export; it begins with U+200E LEFT-TO-RIGHT MARK. */
  const ImageOmitted := "\U{200E}image omitted"

  const AttachedMarker := "<attached:"

  predicate HasMedia(message: string) {
    Contains(message, ImageOmitted) || Contains(message, AttachedMarker)
  }

  /** `/^\d+$/.test(message.trim())` */
  predicate IsJustNumber(message: string) {
    AllDigits(Trim(message))
  }

  /**
   * Either media marker puts a character in the message that is neither a digit
   * nor whitespace, so the number test never rejects a message the media test accepted.
   */
  lemma MediaIsNeverJustNumber(message: string)
    ensures HasMedia(message) ==> !IsJustNumber(message)
  {
    if Contains(message, ImageOmitted) {
      ContainsHead(message, ImageOmitted);
      var c := ImageOmitted[0];
      assert !IsWhitespace(c) && !IsDigit(c);
      var t := Trim(message);
      var k :| 0 <= k < |t| && t[k] == c;
    } else if Contains(message, AttachedMarker) {
      ContainsHead(message, AttachedMarker);
      var c := AttachedMarker[0];
      assert !IsWhitespace(c) && !IsDigit(c);
      var t := Trim(message);
      var k :| 0 <= k < |t| && t[k] == c;
    }
  }

  // ---- the user name (lib/parser.js:17) ----

  /** The marker WhatsApp writes before the name of a sender who is not a saved contact. */
  const UnsavedMarker := "~ "

  /**
   * `user.replace(/~ /g, '').trim()`: every character inside an occurrence of
   * `~ ` is deleted, the rest keep their order, and the result is trimmed.
   */
  function CleanUser(user: string): (r: string)
    ensures r == Trim(Uncovered(user, UnsavedMarker, 0))
    ensures forall c :: c in r ==> c in user
    ensures r == [] || (!IsWhitespace(r[0]) && !IsWhitespace(r[|r| - 1]))
    ensures !Contains(user, UnsavedMarker) ==> r == Trim(user)
  {
    var removed := RemoveAll(user, UnsavedMarker);
    assert Unoverlapping(UnsavedMarker) by {
      assert UnsavedMarker[1..][0] != UnsavedMarker[..1][0];
    }
    RemoveAllUncovered(user, UnsavedMarker);
    if !Contains(user, UnsavedMarker) then RemoveAllAbsent(user, UnsavedMarker); Trim(removed) else Trim(removed)
  }

  /** The marker WhatsApp puts before a sender who is not a saved contact goes, and so do the spaces. */
  lemma CleanUserExample(user: string)
    requires user == "~ Carol "
    ensures CleanUser(user) == "Carol"
  {
    var p := "~ ";
    var t := user[2..];
    assert user[..2] == p;
    assert t == "Carol ";
    assert RemoveAll(user, p) == RemoveAll(t, p);
    assert p[0] !in t;
    NoHeadNoContains(t, p);
    RemoveAllAbsent(t, p);
    assert LeadingEnd(t, 0) == 0 by { assert !IsWhitespace(t[0]); }
    assert TrailingStart(t, 0, 6) == 5 by {
      assert IsWhitespace(t[5]) && !IsWhitespace(t[4]);
    }
    assert t[0..5] == "Carol";
  }

  /**
   * Removal is a single left-to-right pass, so a marker can be left behind when
   * deleting one occurrence joins the characters around it into another.
   */
  lemma CleanUserCanKeepMarker(user: string)
    requires user == "a~~  b"
    ensures CleanUser(user) == "a~ b" && Contains(CleanUser(user), "~ ")
  {
    var p := "~ ";
    var s1 := user[1..];
    var s2 := s1[1..];
    var s3 := s2[2..];
    var s4 := s3[1..];
    assert s4 == "b";
    assert RemoveAll(s4, p) == s4;
    assert s3[..2] != p by { assert s3[0] != p[0]; }
    assert RemoveAll(s3, p) == [s3[0]] + s4;
    assert s2[..2] == p;
    assert RemoveAll(s2, p) == s3;
    assert s1[..2] != p by { assert s1[1] != p[1]; }
    assert RemoveAll(s1, p) == [s1[0]] + s3;
    assert user[..2] != p by { assert user[0] != p[0]; }
    assert RemoveAll(user, p) == [user[0]] + RemoveAll(s1, p);
    var r := RemoveAll(user, p);
    assert r == "a~ b";
    assert LeadingEnd(r, 0) == 0 by { assert !IsWhitespace(r[0]); }
    assert TrailingStart(r, 0, 4) == 4 by { assert !IsWhitespace(r[3]); }
    assert r[0..4] == r;
    assert StartsAt(r, 1, p);
  }

  // ---- the attachment (lib/parser.js:18-19) ----

  const AttachOpen := "<attached: "

  /** `/<attached: (.*?)>/` tried at index `i` alone: the lazy group ends at the first `>`. */
  function AttachedAt(m: string, i: nat): Option<string>
    requires i <= |m|
  {
    if !StartsAt(m, i, AttachOpen) then None
    else
      var e := Scan(m, i + |AttachOpen|, c => c == '>' || IsLineTerminator(c));
      if e < |m| && m[e] == '>' then Some(m[i + |AttachOpen|..e]) else None
  }

  /**
   * The grammar, stated directly: at index `j` the message spells `<attached: X>`
   * with X free of `>` and of line terminators, as the lazy `(.*?)` requires.
   */
  ghost predicate AttachedGrammar(m: string, j: int, x: string) {
    && '>' !in x && (forall k :: 0 <= k < |x| ==> !IsLineTerminator(x[k]))
    && StartsAt(m, j, AttachOpen + x + ">")
  }

  /** The search from index `i`: the first index whose attempt succeeds decides. */
  function AttachedFrom(m: string, i: nat): (r: Option<string>)
    requires i <= |m|
    ensures r.None? <==> forall j :: i <= j <= |m| ==> AttachedAt(m, j).None?
    ensures r.Some? ==> exists j :: i <= j <= |m| && AttachedAt(m, j) == r && forall k :: i <= k < j ==> AttachedAt(m, k).None?
    decreases |m| - i
  {
    if i == |m| || AttachedAt(m, i).Some? then AttachedAt(m, i) else AttachedFrom(m, i + 1)
  }

  lemma AttachedAtSound(m: string, j: nat)
    requires j <= |m| && AttachedAt(m, j).Some?
    ensures AttachedGrammar(m, j, AttachedAt(m, j).value)
  {
    var x := AttachedAt(m, j).value;
    var b := j + |AttachOpen|;
    var e := Scan(m, b, c => c == '>' || IsLineTerminator(c));
    assert x == m[b..e];
    assert forall k :: 0 <= k < |x| ==> x[k] == m[b + k];
    assert m[j..e + 1] == m[j..b] + m[b..e] + [m[e]];
  }

  /** Any `<attached: X>` at `j` with X free of `>` and line breaks is found by the attempt at `j`. */
  lemma AttachedAtComplete(m: string, j: nat, x: string)
    requires AttachedGrammar(m, j, x)
    ensures j <= |m| && AttachedAt(m, j) == Some(x)
  {
    var p := AttachOpen + x + ">";
    var b := j + |AttachOpen|;
    var e := b + |x|;
    assert m[j..j + |p|][..|AttachOpen|] == AttachOpen;
    assert StartsAt(m, j, AttachOpen);
    forall k | b <= k < e ensures m[k] != '>' && !IsLineTerminator(m[k]) {
      assert m[k] == m[j..j + |p|][k - j] == x[k - b];
    }
    assert m[e] == m[j..j + |p|][|p| - 1] == '>';
    assert Scan(m, b, c => c == '>' || IsLineTerminator(c)) == e;
    assert m[b..e] == x by {
      forall k | 0 <= k < |x| ensures m[b..e][k] == x[k] {
        assert m[b + k] == m[j..j + |p|][|AttachOpen| + k];
      }
    }
  }

  /** The attempt at `j` fails exactly when the grammar admits no file name there. */
  lemma AttachedAtExact(m: string, j: nat)
    requires j <= |m|
    ensures AttachedAt(m, j).None? <==> forall x :: !AttachedGrammar(m, j, x)
  {
    if AttachedAt(m, j).Some? {
      AttachedAtSound(m, j);
    } else {
      forall x | AttachedGrammar(m, j, x) ensures false {
        AttachedAtComplete(m, j, x);
      }
    }
  }

  /** The search from the start, restated in the grammar's own terms. */
  lemma AttachedFromIsLeftmost(m: string)
    ensures AttachedFrom(m, 0).None? <==> forall j, x :: 0 <= j <= |m| ==> !AttachedGrammar(m, j, x)
    ensures AttachedFrom(m, 0).Some? ==> exists j :: (0 <= j <= |m| && AttachedGrammar(m, j, AttachedFrom(m, 0).value)
      && forall k, x :: 0 <= k < j ==> !AttachedGrammar(m, k, x))
  {
    var r := AttachedFrom(m, 0);
    if r.None? {
      forall j, x | 0 <= j <= |m| ensures !AttachedGrammar(m, j, x) {
        AttachedAtExact(m, j);
      }
    } else {
      var j :| 0 <= j <= |m| && AttachedAt(m, j) == r && forall k :: 0 <= k < j ==> AttachedAt(m, k).None?;
      AttachedAtSound(m, j);
      forall k, x | 0 <= k < j ensures !AttachedGrammar(m, k, x) {
        AttachedAtExact(m, k);
      }
    }
  }

  /**
   * `message.match(/<attached: (.*?)>/)?.[1]`: the text between the leftmost
   * `<attached: ` that is closed on its line and the first `>` after it.
   */
  function AttachedFile(m: string): (r: Option<string>)
    ensures r.None? <==> forall j, x :: 0 <= j <= |m| ==> !AttachedGrammar(m, j, x)
    ensures r.Some? ==> exists j :: (0 <= j <= |m| && AttachedGrammar(m, j, r.value)
      && forall k, x :: 0 <= k < j ==> !AttachedGrammar(m, k, x))
    ensures r.Some? ==> '>' !in r.value && Contains(m, AttachOpen + r.value + ">")
    ensures r.Some? ==> forall k :: 0 <= k < |r.value| ==> !IsLineTerminator(r.value[k])
    ensures !Contains(m, AttachOpen) ==> r.None?
  {
    AttachedFromIsLeftmost(m);
    assert forall j, x :: AttachedGrammar(m, j, x) ==> Contains(m, AttachOpen + x + ">") && Contains(m, AttachOpen) by {
      forall j, x | AttachedGrammar(m, j, x) ensures Contains(m, AttachOpen + x + ">") && Contains(m, AttachOpen) {
        GrammarContains(m, j, x);
      }
    }
    AttachedFrom(m, 0)
  }

  lemma GrammarContains(m: string, j: int, x: string)
    requires AttachedGrammar(m, j, x)
    ensures Contains(m, AttachOpen + x + ">") && Contains(m, AttachOpen)
  {
    assert m[j..j + |AttachOpen + x + ">"|][..|AttachOpen|] == AttachOpen;
    assert StartsAt(m, j, AttachOpen);
  }

  /** Any `<attached: X>` with X free of `>` and line breaks yields a file name. */
  lemma AttachedFileFound(m: string, x: string)
    requires Contains(m, AttachOpen + x + ">")
    requires '>' !in x && forall k :: 0 <= k < |x| ==> !IsLineTerminator(x[k])
    ensures AttachedFile(m).Some?
  {
    var i :| 0 <= i <= |m| - |AttachOpen + x + ">"| && StartsAt(m, i, AttachOpen + x + ">");
    assert AttachedGrammar(m, i, x);
  }

  // ---- the event (lib/parser.js:15-21) ----

  /** `new Date(`${year}-${month}-${day}T${time}`)` from the captured `DD/MM/YYYY` and `HH:MM:SS`. */
  function DateOf(date: string, time: string): JsDate
    requires IsDateField(date) && IsTimeField(time)
  {
    MakeDate(DigitsValue(date[6..10]), DigitsValue(date[3..5]), DigitsValue(date[0..2]),
             DigitsValue(time[0..2]), DigitsValue(time[3..5]), DigitsValue(time[6..8]))
  }

  /**
   * parseLine: a line is accepted exactly when the pattern matches and its message
   * carries a media marker; the event is built from the leftmost match's groups
   * (the date and time read as UTC, the cleaned user name, the attached file's
   * name); the accepted user name holds no `:` and has no whitespace at either
   * end, and a file name never holds `>`.
   */
  function ParseLine(line: string): (r: Parsed)
    ensures r.Accepted? <==> Match(line).Some? && HasMedia(Match(line).value.message)
    ensures r.Accepted? ==> var f := Match(line).value;
      r.event == Event(DateOf(f.date, f.time), CleanUser(f.user), AttachedFile(f.message))
    ensures r.Accepted? ==> ':' !in r.event.user
    ensures r.Accepted? ==> var u := r.event.user; u == [] || (!IsWhitespace(u[0]) && !IsWhitespace(u[|u| - 1]))
    ensures r.Accepted? && r.event.imageFile.Some? ==>
      '>' !in r.event.imageFile.value && Contains(Match(line).value.message, AttachOpen + r.event.imageFile.value + ">")
  {
    match Match(line)
    case None => Rejected
    case Some(f) =>
      var hasImage := HasMedia(f.message);
      var isJustNumber := IsJustNumber(f.message);
      MediaIsNeverJustNumber(f.message);
      if hasImage && !isJustNumber then
        Accepted(Event(DateOf(f.date, f.time), CleanUser(f.user), AttachedFile(f.message)))
      else
        Rejected
  }
}
