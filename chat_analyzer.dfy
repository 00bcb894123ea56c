/**
 * analyzeChat (lib/parser.js:40-129) and getTopPoster (lib/parser.js:32-38): the
 * accepted events of a chat export, sorted by time, are counted per user, per
 * day, per weekday and per hour, and summarised. The clock read at
 * lib/parser.js:53 is the parameter `now`, a time value in milliseconds.
 */
module ChatAnalyzer {
  import opened Options
  import opened Text
  import opened Calendar
  import opened Counters
  import opened Sorting
  import opened LineParser

  /** A top-poster card. */
  datatype Poster = Poster(name: string, count: nat)

  /**
   * The object analyzeChat returns. `latest` is the time value behind
   * latestTimestamp and `recordDay` the day number behind recordDayDate (None is
   * 'N/A'); their en-GB formatting is not modelled. The chart labels are constants
   * and are left out.
   */
  datatype Summary = Summary(
    totalPosts: nat,
    latest: int,
    leaderboardLabels: seq<string>,
    leaderboardData: seq<nat>,
    postsByDay: seq<nat>,
    postsByHour: seq<nat>,
    imageFiles: seq<string>,
    recordDayCount: nat,
    recordDay: Option<int>,
    topPosterAllTime: Poster,
    topPosterToday: Poster,
    topPosterThisWeek: Poster)

  /**
   * analyzeChat's outcome: `null` when no line is accepted, the summary, or the
   * RangeError ("Invalid time value") that toISOString throws for an accepted
   * line whose date is invalid.
   */
  datatype Analysis = NoPosts | Report(summary: Summary) | InvalidTimeValue

  // ---- getTopPoster (lib/parser.js:32-38) ----

  /** The key of `(a, b) => b[1] - a[1]`: larger counts first. */
  function CountDescending(e: (string, nat)): int {
    -(e.1 as int)
  }

  /** The head of the count-descending sort is the first entry with the largest count. */
  lemma RankingHead(counts: Counts<string>)
    requires counts != []
    ensures exists i :: IsFirstMax(counts, i) && SortBy(counts, CountDescending)[0] == counts[i]
  {
    SortByHead(counts, CountDescending);
    var i :| IsFirstMin(counts, CountDescending, i) && SortBy(counts, CountDescending)[0] == counts[i];
    assert IsFirstMax(counts, i);
  }

  /**
   * getTopPoster: 'N/A' with 0 for no entries; otherwise the largest count, under
   * the first key in entry order that has it (the sort is stable).
   */
  function TopPoster(counts: Counts<string>): (r: Poster)
    ensures counts == [] ==> r == Poster("N/A", 0)
    ensures counts != [] ==> exists i :: IsFirstMax(counts, i) && r == Poster(counts[i].0, counts[i].1)
  {
    var sorted := SortBy(counts, CountDescending);
    if |sorted| == 0 then Poster("N/A", 0)
    else
      RankingHead(counts);
      Poster(sorted[0].0, sorted[0].1)
  }

  /**
   * The top poster of the counts of `users`: a most frequent user with their
   * number of occurrences, and among the most frequent the one occurring first.
   */
  lemma TopOfTally(users: seq<string>)
    requires users != []
    ensures IsMostFrequent(TopPoster(Tally(users)).name, TopPoster(Tally(users)).count, users)
  {
    var m := Tally(users);
    TallySum(users);
    assert m != [];
    RankingHead(m);
    var i :| IsFirstMax(m, i) && SortBy(m, CountDescending)[0] == m[i];
    FirstMaxOfTally(users, i);
    assert users[0] in users;
  }

  // ---- the accepted events (lib/parser.js:41-44) ----

  /** `text.trim().split('\n')` */
  function ChatLines(text: string): seq<string> {
    Split(Trim(text), '\n')
  }

  /** `lines.map(parseLine)` */
  function ParseAll(lines: seq<string>): (parsed: seq<Parsed>)
    ensures |parsed| == |lines|
    ensures forall k :: 0 <= k < |lines| ==> parsed[k] == ParseLine(lines[k])
  {
    seq(|lines|, k requires 0 <= k < |lines| => ParseLine(lines[k]))
  }

  /** `.filter(Boolean)`: the events of the accepted lines, in line order. */
  function Kept(parsed: seq<Parsed>): (events: seq<Event>)
    ensures |events| <= |parsed|
  {
    if parsed == [] then []
    else
      var rest := Kept(parsed[1..]);
      if parsed[0].Accepted? then [parsed[0].event] + rest else rest
  }

  function AcceptedEvents(lines: seq<string>): seq<Event> {
    Kept(ParseAll(lines))
  }

  /** No event comes out exactly when every line is rejected; every event comes from an accepted line. */
  lemma {:induction false} KeptAre(parsed: seq<Parsed>)
    ensures Kept(parsed) == [] <==> forall k :: 0 <= k < |parsed| ==> parsed[k].Rejected?
    ensures forall e :: e in Kept(parsed) ==> Accepted(e) in parsed
  {
    if parsed != [] {
      var rest := parsed[1..];
      KeptAre(rest);
      assert forall k :: 0 < k < |parsed| ==> parsed[k] == rest[k - 1];
      forall e | e in Kept(parsed)
        ensures Accepted(e) in parsed
      {
        if parsed[0] != Accepted(e) {
          assert e in Kept(rest);
        }
      }
    }
  }

  /** How many of the results are accepted, counted independently of Kept, from the last one back. */
  function CountAccepted(parsed: seq<Parsed>): (n: nat)
    ensures n <= |parsed|
  {
    if parsed == [] then 0
    else CountAccepted(parsed[..|parsed| - 1]) + (if parsed[|parsed| - 1].Accepted? then 1 else 0)
  }

  /** Counting from the front agrees with counting from the back. */
  lemma {:induction false} CountAcceptedCons(parsed: seq<Parsed>)
    requires parsed != []
    ensures CountAccepted(parsed) == (if parsed[0].Accepted? then 1 else 0) + CountAccepted(parsed[1..])
    decreases |parsed|
  {
    if |parsed| > 1 {
      var init := parsed[..|parsed| - 1];
      CountAcceptedCons(init);
      assert init[1..] == parsed[1..][..|parsed[1..]| - 1];
      assert init[0] == parsed[0];
    } else {
      assert parsed[1..] == [] && parsed[..0] == [];
    }
  }

  /**
   * `.filter(Boolean)` keeps every accepted line's event exactly once and in line
   * order: there are as many events as accepted lines, and the event of the
   * accepted result at index `k` sits after the events of the accepted results before it.
   */
  lemma {:induction false} KeptPlaces(parsed: seq<Parsed>)
    ensures |Kept(parsed)| == CountAccepted(parsed)
    ensures forall k :: 0 <= k < |parsed| && parsed[k].Accepted? ==>
      CountAccepted(parsed[..k]) < |Kept(parsed)| && Kept(parsed)[CountAccepted(parsed[..k])] == parsed[k].event
    decreases |parsed|
  {
    if parsed != [] {
      var rest := parsed[1..];
      KeptPlaces(rest);
      CountAcceptedCons(parsed);
      forall k | 0 <= k < |parsed| && parsed[k].Accepted?
        ensures CountAccepted(parsed[..k]) < |Kept(parsed)| && Kept(parsed)[CountAccepted(parsed[..k])] == parsed[k].event
      {
        if k == 0 {
          assert parsed[..0] == [];
        } else {
          CountAcceptedCons(parsed[..k]);
          assert parsed[..k][1..] == rest[..k - 1];
          assert rest[k - 1] == parsed[k];
        }
      }
    }
  }

  /** No event comes out exactly when every line is rejected; every event comes from an accepted line. */
  lemma AcceptedEventsAre(lines: seq<string>)
    ensures AcceptedEvents(lines) == [] <==> forall k :: 0 <= k < |lines| ==> ParseLine(lines[k]).Rejected?
    ensures forall e :: e in AcceptedEvents(lines) ==> exists k :: 0 <= k < |lines| && ParseLine(lines[k]) == Accepted(e)
  {
    KeptAre(ParseAll(lines));
  }

  /** One event per accepted line, each accepted line's event in its place in line order. */
  lemma AcceptedEventsInOrder(lines: seq<string>)
    ensures |AcceptedEvents(lines)| == CountAccepted(ParseAll(lines))
    ensures forall k :: 0 <= k < |lines| && ParseLine(lines[k]).Accepted? ==>
      var n := CountAccepted(ParseAll(lines)[..k]);
      n < |AcceptedEvents(lines)| && AcceptedEvents(lines)[n] == ParseLine(lines[k]).event
  {
    KeptPlaces(ParseAll(lines));
  }

  predicate AllValid(events: seq<Event>) {
    forall k :: 0 <= k < |events| ==> events[k].when.Time?
  }

  /** The sort key of `(a, b) => a.timestamp - b.timestamp`. */
  function TimeKey(e: Event): int {
    if e.when.Time? then e.when.ms else 0
  }

  // ---- what the aggregation loop reads from each event (lib/parser.js:59-78) ----

  function UserOf(e: Event): string { e.user }

  function DayKey(e: Event): int { DayOf(TimeKey(e)) }

  function WeekdayOf(e: Event): nat { Weekday(TimeKey(e)) }

  function HourBucket(e: Event): nat { HourOf(TimeKey(e)) }

  /** `msgDateStr === todayStr` */
  function SentOn(day: int): Event -> bool {
    e => DayKey(e) == day
  }

  /** `msg.timestamp >= startOfWeek`, the boundary included. */
  function SentSince(t: int): Event -> bool {
    e => TimeKey(e) >= t
  }

  function Project<U>(s: seq<Event>, f: Event -> U): (r: seq<U>)
    ensures |r| == |s|
  {
    if s == [] then [] else Project(s[..|s| - 1], f) + [f(s[|s| - 1])]
  }

  /** Entry `k` of the projection is `f` of event `k`. */
  lemma {:induction false} ProjectAt<U>(s: seq<Event>, f: Event -> U)
    ensures forall k :: 0 <= k < |s| ==> Project(s, f)[k] == f(s[k])
    decreases |s|
  {
    if s != [] {
      ProjectAt(s[..|s| - 1], f);
    }
  }

  function Filter(s: seq<Event>, keep: Event -> bool): seq<Event> {
    if s == [] then []
    else Filter(s[..|s| - 1], keep) + (if keep(s[|s| - 1]) then [s[|s| - 1]] else [])
  }

  /** What `if (msg.imageFile) imageFiles.push(msg.imageFile)` collects: an empty name is falsy. */
  function Attachments(s: seq<Event>): seq<string> {
    if s == [] then []
    else
      var f := s[|s| - 1].imageFile;
      Attachments(s[..|s| - 1]) + (if f.Some? && f.value != "" then [f.value] else [])
  }

  lemma {:induction false} FilterUsersIncluded(s: seq<Event>, keep: Event -> bool)
    ensures multiset(Project(Filter(s, keep), UserOf)) <= multiset(Project(s, UserOf))
    decreases |s|
  {
    if s != [] {
      var pre := s[..|s| - 1];
      FilterUsersIncluded(pre, keep);
      assert Project(s, UserOf) == Project(pre, UserOf) + [UserOf(s[|s| - 1])];
      if keep(s[|s| - 1]) {
        assert Filter(s, keep) == Filter(pre, keep) + [s[|s| - 1]];
        var f := Filter(s, keep);
        assert f[..|f| - 1] == Filter(pre, keep);
        assert Project(f, UserOf) == Project(Filter(pre, keep), UserOf) + [UserOf(s[|s| - 1])];
      } else {
        assert Filter(s, keep) == Filter(pre, keep);
      }
    }
  }

  lemma {:induction false} AttachmentsAre(s: seq<Event>)
    ensures forall f :: f in Attachments(s) <==> f != "" && exists k :: 0 <= k < |s| && s[k].imageFile == Some(f)
    decreases |s|
  {
    if s != [] {
      var pre := s[..|s| - 1];
      AttachmentsAre(pre);
      assert forall k :: 0 <= k < |pre| ==> pre[k] == s[k];
    }
  }

  // ---- the aggregation loop as a fold (lib/parser.js:59-78) ----

  /** The counters the loop fills: userCounts, postsByDate, dayCounts, hourCounts, imageFiles and the two scoped user counters. */
  datatype Tallies = Tallies(
    users: Counts<string>,
    byDate: Counts<int>,
    byWeekday: seq<nat>,
    byHour: seq<nat>,
    images: seq<string>,
    today: Counts<string>,
    thisWeek: Counts<string>)

  /** `counts[b]++` */
  function Increment(h: seq<nat>, b: nat): (r: seq<nat>)
    requires b < |h|
    ensures |r| == |h|
  {
    h[b := h[b] + 1]
  }

  /** One iteration of the forEach callback for `e`. */
  function Step(t: Tallies, e: Event, today: int, startOfWeek: int): Tallies
    requires |t.byWeekday| == 7 && |t.byHour| == 24
  {
    var f := e.imageFile;
    Tallies(
      Bump(t.users, e.user),
      Bump(t.byDate, DayKey(e)),
      Increment(t.byWeekday, WeekdayOf(e)),
      Increment(t.byHour, HourBucket(e)),
      t.images + (if f.Some? && f.value != "" then [f.value] else []),
      if DayKey(e) == today then Bump(t.today, e.user) else t.today,
      if TimeKey(e) >= startOfWeek then Bump(t.thisWeek, e.user) else t.thisWeek)
  }

  /** `Array(n).fill(0)` */
  function Zeros(n: nat): (r: seq<nat>)
    ensures |r| == n && forall k :: 0 <= k < n ==> r[k] == 0
  {
    seq(n, _ => 0)
  }

  /** The counters after the callback has run for the first `n` events of `s`, in order. */
  function Aggregate(s: seq<Event>, n: nat, today: int, startOfWeek: int): (t: Tallies)
    requires n <= |s|
    ensures |t.byWeekday| == 7 && |t.byHour| == 24
  {
    if n == 0 then Tallies([], [], Zeros(7), Zeros(24), [], [], [])
    else Step(Aggregate(s, n - 1, today, startOfWeek), s[n - 1], today, startOfWeek)
  }

  // ---- the record day (lib/parser.js:91-98) ----

  /**
   * The record-day loop as a fold over the per-date entries: the largest count
   * and, when it is positive, the first date with it (only a strictly larger count
   * replaces the current record).
   */
  function Record(m: Counts<int>): (r: (nat, Option<int>))
    ensures r.1.None? <==> r.0 == 0
  {
    if m == [] then (0, None)
    else
      var prev := Record(m[..|m| - 1]);
      var e := m[|m| - 1];
      if e.1 > prev.0 then (e.1, Some(e.0)) else prev
  }

  /** The record count bounds every date's count and is reached first at the record day. */
  lemma {:induction false} RecordIsFirstMax(m: Counts<int>)
    ensures forall j :: 0 <= j < |m| ==> m[j].1 <= Record(m).0
    ensures Record(m).1.Some? ==> exists i :: IsFirstMax(m, i) && m[i] == (Record(m).1.value, Record(m).0)
    decreases |m|
  {
    if m != [] {
      var pre := m[..|m| - 1];
      RecordIsFirstMax(pre);
      var prev := Record(pre);
      var e := m[|m| - 1];
      assert forall j :: 0 <= j < |pre| ==> pre[j] == m[j];
      if e.1 > prev.0 {
        assert IsFirstMax(m, |m| - 1);
      } else if prev.1.Some? {
        var i :| IsFirstMax(pre, i) && pre[i] == (prev.1.value, prev.0);
        assert IsFirstMax(m, i);
      }
    }
  }

  /** The loop of lib/parser.js:91-98 over the entries of postsByDate. */
  method FindRecordDay(postsByDate: Counts<int>) returns (recordDayCount: nat, recordDay: Option<int>)
    ensures (recordDayCount, recordDay) == Record(postsByDate)
  {
    recordDayCount, recordDay := 0, None;
    for i := 0 to |postsByDate|
      invariant (recordDayCount, recordDay) == Record(postsByDate[..i])
    {
      assert postsByDate[..i + 1][..i] == postsByDate[..i];
      var (date, count) := postsByDate[i];
      if count > recordDayCount {
        recordDayCount := count;
        recordDay := Some(date);
      }
    }
    assert postsByDate[..|postsByDate|] == postsByDate;
  }

  // ---- the result (lib/parser.js:100-128) ----

  /** The (label, count) pairs the leaderboard chart shows. */
  function Pairs(labels: seq<string>, data: seq<nat>): Counts<string>
    requires |labels| == |data|
  {
    seq(|labels|, k requires 0 <= k < |labels| => (labels[k], data[k]))
  }

  /** Everything analyzeChat computes from the sorted events and the clock. */
  function Summarize(posts: seq<Event>, now: int): Summary
    requires posts != []
  {
    var t := Aggregate(posts, |posts|, DayOf(now), StartOfWeek(now));
    var sortedUsers := SortBy(t.users, CountDescending);
    var record := Record(t.byDate);
    Summary(
      |posts|,
      TimeKey(posts[|posts| - 1]),
      Keys(sortedUsers),
      Values(sortedUsers),
      t.byWeekday,
      t.byHour,
      Dedup(t.images),
      record.0,
      record.1,
      TopPoster(t.users),
      TopPoster(t.today),
      TopPoster(t.thisWeek))
  }

  // ---- one more event ----

  lemma ProjectSnoc<U>(s: seq<Event>, e: Event, f: Event -> U)
    ensures Project(s + [e], f) == Project(s, f) + [f(e)]
  {
    assert (s + [e])[..|s|] == s;
  }

  lemma FilterSnoc(s: seq<Event>, e: Event, keep: Event -> bool)
    ensures Filter(s + [e], keep) == Filter(s, keep) + (if keep(e) then [e] else [])
  {
    assert (s + [e])[..|s|] == s;
  }

  lemma AttachmentsSnoc(s: seq<Event>, e: Event)
    ensures Attachments(s + [e]) == Attachments(s) + (if e.imageFile.Some? && e.imageFile.value != "" then [e.imageFile.value] else [])
  {
    assert (s + [e])[..|s|] == s;
  }

  /** The users of the events that `keep` selects, counted, after one more event. */
  lemma ScopedTallySnoc(s: seq<Event>, e: Event, keep: Event -> bool)
    ensures Tally(Project(Filter(s + [e], keep), UserOf)) ==
      if keep(e) then Bump(Tally(Project(Filter(s, keep), UserOf)), e.user)
      else Tally(Project(Filter(s, keep), UserOf))
  {
    FilterSnoc(s, e, keep);
    if keep(e) {
      ProjectSnoc(Filter(s, keep), e, UserOf);
      TallySnoc(Project(Filter(s, keep), UserOf), e.user);
    } else {
      assert Filter(s, keep) + [] == Filter(s, keep);
    }
  }

  lemma AllValidPerm(a: seq<Event>, b: seq<Event>)
    requires multiset(a) == multiset(b)
    ensures AllValid(a) ==> AllValid(b)
  {
    if AllValid(a) {
      forall k | 0 <= k < |b|
        ensures b[k].when.Time?
      {
        assert b[k] in multiset(a);
        var j :| 0 <= j < |a| && a[j] == b[k];
      }
    }
  }

  lemma HistogramEmpty(n: nat)
    ensures Histogram([], n) == Zeros(n)
  {
  }

  // Each counter the callback fills holds the closed form it is meant to, for
  // the first `n` events.

  /** The counts of `f` over the first `n` events are the ones over the first `n - 1`, bumped at `f(s[n - 1])`. */
  lemma TallyProjectStep<K>(s: seq<Event>, n: nat, f: Event -> K)
    requires 0 < n <= |s|
    ensures Tally(Project(s[..n], f)) == Bump(Tally(Project(s[..n - 1], f)), f(s[n - 1]))
  {
    assert s[..n] == s[..n - 1] + [s[n - 1]];
    ProjectSnoc(s[..n - 1], s[n - 1], f);
    TallySnoc(Project(s[..n - 1], f), f(s[n - 1]));
  }

  /** userCounts counts the users of the events. */
  lemma {:induction false} AggregateUsers(s: seq<Event>, n: nat, today: int, startOfWeek: int)
    requires n <= |s|
    ensures Aggregate(s, n, today, startOfWeek).users == Tally(Project(s[..n], UserOf))
  {
    if n > 0 {
      AggregateUsers(s, n - 1, today, startOfWeek);
      TallyProjectStep(s, n, UserOf);
    }
  }

  /** postsByDate counts the calendar days of the events. */
  lemma {:induction false} AggregateDates(s: seq<Event>, n: nat, today: int, startOfWeek: int)
    requires n <= |s|
    ensures Aggregate(s, n, today, startOfWeek).byDate == Tally(Project(s[..n], DayKey))
  {
    if n > 0 {
      AggregateDates(s, n - 1, today, startOfWeek);
      TallyProjectStep(s, n, DayKey);
    }
  }

  /** The histogram of `f` over the first `n` events is the one over the first `n - 1`, bumped at `f(s[n - 1])`. */
  lemma HistogramProjectStep(s: seq<Event>, n: nat, f: Event -> nat, k: nat)
    requires 0 < n <= |s| && f(s[n - 1]) < k
    ensures Histogram(Project(s[..n], f), k) == Increment(Histogram(Project(s[..n - 1], f), k), f(s[n - 1]))
  {
    assert s[..n] == s[..n - 1] + [s[n - 1]];
    ProjectSnoc(s[..n - 1], s[n - 1], f);
    HistogramSnoc(Project(s[..n - 1], f), f(s[n - 1]), k);
  }

  /** dayCounts is the histogram of the events' weekdays. */
  lemma {:induction false} AggregateWeekdays(s: seq<Event>, n: nat, today: int, startOfWeek: int)
    requires n <= |s|
    ensures Aggregate(s, n, today, startOfWeek).byWeekday == Histogram(Project(s[..n], WeekdayOf), 7)
  {
    if n == 0 {
      assert Project(s[..0], WeekdayOf) == [];
      HistogramEmpty(7);
    } else {
      AggregateWeekdays(s, n - 1, today, startOfWeek);
      HistogramProjectStep(s, n, WeekdayOf, 7);
    }
  }

  /** hourCounts is the histogram of the events' hours. */
  lemma {:induction false} AggregateHours(s: seq<Event>, n: nat, today: int, startOfWeek: int)
    requires n <= |s|
    ensures Aggregate(s, n, today, startOfWeek).byHour == Histogram(Project(s[..n], HourBucket), 24)
  {
    if n == 0 {
      assert Project(s[..0], HourBucket) == [];
      HistogramEmpty(24);
    } else {
      AggregateHours(s, n - 1, today, startOfWeek);
      HistogramProjectStep(s, n, HourBucket, 24);
    }
  }

  lemma AttachmentsStep(s: seq<Event>, n: nat)
    requires 0 < n <= |s|
    ensures Attachments(s[..n]) == Attachments(s[..n - 1]) + (if s[n - 1].imageFile.Some? && s[n - 1].imageFile.value != "" then [s[n - 1].imageFile.value] else [])
  {
    assert s[..n] == s[..n - 1] + [s[n - 1]];
    AttachmentsSnoc(s[..n - 1], s[n - 1]);
  }

  /** imageFiles lists the non-empty attachment names in event order. */
  lemma {:induction false} AggregateImages(s: seq<Event>, n: nat, today: int, startOfWeek: int)
    requires n <= |s|
    ensures Aggregate(s, n, today, startOfWeek).images == Attachments(s[..n])
  {
    if n > 0 {
      AggregateImages(s, n - 1, today, startOfWeek);
      AttachmentsStep(s, n);
    }
  }

  /** The users of the first `n` events that `keep` selects, counted, from those of the first `n - 1`. */
  lemma ScopedTallyStep(s: seq<Event>, n: nat, keep: Event -> bool)
    requires 0 < n <= |s|
    ensures Tally(Project(Filter(s[..n], keep), UserOf)) ==
      if keep(s[n - 1]) then Bump(Tally(Project(Filter(s[..n - 1], keep), UserOf)), s[n - 1].user)
      else Tally(Project(Filter(s[..n - 1], keep), UserOf))
  {
    assert s[..n] == s[..n - 1] + [s[n - 1]];
    ScopedTallySnoc(s[..n - 1], s[n - 1], keep);
  }

  /** postsByUserToday counts the users of the events on day `today`. */
  lemma {:induction false} AggregateToday(s: seq<Event>, n: nat, today: int, startOfWeek: int)
    requires n <= |s|
    ensures Aggregate(s, n, today, startOfWeek).today == Tally(Project(Filter(s[..n], SentOn(today)), UserOf))
  {
    if n > 0 {
      AggregateToday(s, n - 1, today, startOfWeek);
      ScopedTallyStep(s, n, SentOn(today));
      assert SentOn(today)(s[n - 1]) == (DayKey(s[n - 1]) == today);
    }
  }

  /** postsByUserThisWeek counts the users of the events at or after `startOfWeek`. */
  lemma {:induction false} AggregateThisWeek(s: seq<Event>, n: nat, today: int, startOfWeek: int)
    requires n <= |s|
    ensures Aggregate(s, n, today, startOfWeek).thisWeek == Tally(Project(Filter(s[..n], SentSince(startOfWeek)), UserOf))
  {
    if n > 0 {
      AggregateThisWeek(s, n - 1, today, startOfWeek);
      ScopedTallyStep(s, n, SentSince(startOfWeek));
      assert SentSince(startOfWeek)(s[n - 1]) == (TimeKey(s[n - 1]) >= startOfWeek);
    }
  }

  /** After the loop, every counter holds its closed form over all the events. */
  lemma AggregateAll(posts: seq<Event>, today: int, startOfWeek: int)
    ensures Aggregate(posts, |posts|, today, startOfWeek) == Tallies(
      Tally(Project(posts, UserOf)),
      Tally(Project(posts, DayKey)),
      Histogram(Project(posts, WeekdayOf), 7),
      Histogram(Project(posts, HourBucket), 24),
      Attachments(posts),
      Tally(Project(Filter(posts, SentOn(today)), UserOf)),
      Tally(Project(Filter(posts, SentSince(startOfWeek)), UserOf)))
  {
    var n := |posts|;
    assert posts[..n] == posts;
    AggregateUsers(posts, n, today, startOfWeek);
    AggregateDates(posts, n, today, startOfWeek);
    AggregateWeekdays(posts, n, today, startOfWeek);
    AggregateHours(posts, n, today, startOfWeek);
    AggregateImages(posts, n, today, startOfWeek);
    AggregateToday(posts, n, today, startOfWeek);
    AggregateThisWeek(posts, n, today, startOfWeek);
  }

  /**
   * A user's count for today and for this week are the number of that user's
   * events in the scope, and neither exceeds the user's all-time count.
   */
  lemma ScopedCounts(posts: seq<Event>, today: int, startOfWeek: int)
    ensures var t := Aggregate(posts, |posts|, today, startOfWeek);
      forall u ::
        && Get(t.users, u) == multiset(Project(posts, UserOf))[u]
        && Get(t.today, u) == multiset(Project(Filter(posts, SentOn(today)), UserOf))[u] <= Get(t.users, u)
        && Get(t.thisWeek, u) == multiset(Project(Filter(posts, SentSince(startOfWeek)), UserOf))[u] <= Get(t.users, u)
  {
    AggregateAll(posts, today, startOfWeek);
    var users := Project(posts, UserOf);
    var onDay := Project(Filter(posts, SentOn(today)), UserOf);
    var inWeek := Project(Filter(posts, SentSince(startOfWeek)), UserOf);
    TallyCounts(users);
    TallyCounts(onDay);
    TallyCounts(inWeek);
    FilterUsersIncluded(posts, SentOn(today));
    FilterUsersIncluded(posts, SentSince(startOfWeek));
    forall u
      ensures Get(Tally(users), u) == multiset(users)[u]
      ensures Get(Tally(onDay), u) == multiset(onDay)[u]
      ensures Get(Tally(inWeek), u) == multiset(inWeek)[u]
    {
      TallyGet(Tally(users), users, u);
      TallyGet(Tally(onDay), onDay, u);
      TallyGet(Tally(inWeek), inWeek, u);
    }
  }

  // ---- what the summary promises ----

  /** totalPosts, the bucket counts and the leaderboard all account for every event once. */
  lemma SummaryTotals(posts: seq<Event>, now: int)
    requires posts != []
    ensures var r := Summarize(posts, now);
      && r.totalPosts == |posts|
      && |r.postsByDay| == 7 && |r.postsByHour| == 24
      && Sum(r.leaderboardData) == |posts|
      && Sum(r.postsByDay) == |posts|
      && Sum(r.postsByHour) == |posts|
  {
    AggregateAll(posts, DayOf(now), StartOfWeek(now));
    var users := Project(posts, UserOf);
    TallySum(users);
    SumValuesPerm(SortBy(Tally(users), CountDescending), Tally(users));
    ProjectAt(posts, WeekdayOf);
    HistogramSum(Project(posts, WeekdayOf), 7);
    ProjectAt(posts, HourBucket);
    HistogramSum(Project(posts, HourBucket), 24);
  }

  /** Bucket `b` of postsByDay (postsByHour) holds the number of events on weekday (in hour) `b`. */
  lemma SummaryBuckets(posts: seq<Event>, now: int)
    requires posts != []
    ensures var r := Summarize(posts, now);
      && (forall b :: 0 <= b < 7 ==> r.postsByDay[b] == multiset(Project(posts, WeekdayOf))[b])
      && (forall b :: 0 <= b < 24 ==> r.postsByHour[b] == multiset(Project(posts, HourBucket))[b])
  {
    AggregateAll(posts, DayOf(now), StartOfWeek(now));
    HistogramCounts(Project(posts, WeekdayOf), 7);
    HistogramCounts(Project(posts, HourBucket), 24);
  }

  /**
   * The leaderboard: labels and data pair up into a permutation of the all-time
   * user counts, sorted by non-increasing count; each label is a user who posted,
   * with that user's number of events, and every user who posted is listed.
   */
  lemma SummaryLeaderboard(posts: seq<Event>, now: int)
    requires posts != []
    ensures var r := Summarize(posts, now);
      var users := Project(posts, UserOf);
      && |r.leaderboardLabels| == |r.leaderboardData| >= 1
      && multiset(Pairs(r.leaderboardLabels, r.leaderboardData)) == multiset(Tally(users))
      && NonIncreasing(r.leaderboardData)
      && CountsOf(r.leaderboardLabels, r.leaderboardData, users)
      && (forall u :: u in r.leaderboardLabels <==> u in users)
  {
    var users := Project(posts, UserOf);
    var sorted := SortBy(Tally(users), CountDescending);
    TallyCounts(users);
    TallySum(users);
    Ranking(users, Tally(users), sorted);
    AggregateAll(posts, DayOf(now), StartOfWeek(now));
  }

  ghost predicate NonIncreasing(data: seq<nat>) {
    forall i, j :: 0 <= i < j < |data| ==> data[i] >= data[j]
  }

  /** Each label is paired with its number of occurrences in `users`, at least one. */
  ghost predicate CountsOf(labels: seq<string>, data: seq<nat>, users: seq<string>) {
    && |labels| == |data|
    && forall i :: 0 <= i < |labels| ==> 1 <= data[i] == multiset(users)[labels[i]]
  }

  /**
   * A count-descending rearrangement of the counts of `users`: non-increasing
   * counts, each entry a user with their number of occurrences, every user listed.
   */
  lemma Ranking(users: seq<string>, m: Counts<string>, sorted: Counts<string>)
    requires users != [] && IsTallyOf(m, users) && forall i :: 0 <= i < |m| ==> m[i].1 >= 1
    requires SortedBy(sorted, CountDescending) && multiset(sorted) == multiset(m)
    ensures var labels, data := Keys(sorted), Values(sorted);
      && |labels| == |data| >= 1
      && multiset(Pairs(labels, data)) == multiset(m)
      && NonIncreasing(data)
      && CountsOf(labels, data, users)
      && (forall u :: u in labels <==> u in users)
  {
    RearrangedTally(sorted, m, users);
    Ranked(sorted);
    assert users[0] in Keys(sorted);
  }

  /** Sorted count-descending, the counts are non-increasing; labels and data pair up again. */
  lemma Ranked(sorted: Counts<string>)
    requires SortedBy(sorted, CountDescending)
    ensures forall i, j :: 0 <= i < j < |sorted| ==> Values(sorted)[i] >= Values(sorted)[j]
    ensures Pairs(Keys(sorted), Values(sorted)) == sorted
  {
    forall i, j | 0 <= i < j < |sorted|
      ensures sorted[i].1 >= sorted[j].1
    {
      assert CountDescending(sorted[i]) <= CountDescending(sorted[j]);
    }
  }

  /** A rearrangement of the positive counts of `users` lists every user once with their count. */
  lemma RearrangedTally(sorted: Counts<string>, m: Counts<string>, users: seq<string>)
    requires multiset(sorted) == multiset(m) && IsTallyOf(m, users)
    requires forall i :: 0 <= i < |m| ==> m[i].1 >= 1
    ensures forall i :: 0 <= i < |sorted| ==> 1 <= sorted[i].1 == multiset(users)[sorted[i].0]
    ensures forall u :: u in Keys(sorted) <==> u in users
  {
    forall i | 0 <= i < |sorted|
      ensures 1 <= sorted[i].1 == multiset(users)[sorted[i].0]
    {
      assert sorted[i] in multiset(m);
      var j :| 0 <= j < |m| && m[j] == sorted[i];
    }
    forall u
      ensures u in Keys(sorted) <==> u in users
    {
      if u in users {
        assert u in Keys(m);
        var j :| 0 <= j < |m| && m[j].0 == u;
        assert m[j] in multiset(sorted);
        var i :| 0 <= i < |sorted| && sorted[i] == m[j];
        assert Keys(sorted)[i] == u;
      }
      if u in Keys(sorted) {
        var i :| 0 <= i < |sorted| && sorted[i].0 == u;
        assert multiset(users)[u] >= 1;
      }
    }
  }

  /**
   * imageFiles: every non-empty attachment name of the events, each once, in the
   * order in which the names first occur.
   */
  lemma SummaryImages(posts: seq<Event>, now: int)
    requires posts != []
    ensures var r := Summarize(posts, now);
      && Distinct(r.imageFiles)
      && AttachedNames(r.imageFiles, posts)
      && InFirstOccurrenceOrder(r.imageFiles, Attachments(posts))
  {
    AggregateAll(posts, DayOf(now), StartOfWeek(now));
    var files := Dedup(Attachments(posts));
    AttachmentsAre(posts);
    assert AttachedNames(files, posts);
    DedupOrder(Attachments(posts));
  }

  /** `files` holds exactly the non-empty attachment names of the events. */
  ghost predicate AttachedNames(files: seq<string>, posts: seq<Event>) {
    forall f :: f in files <==> f != "" && exists k :: 0 <= k < |posts| && posts[k].imageFile == Some(f)
  }

  /**
   * The record day: a day of some event, holding the largest number of events of
   * any day, and among the days with that many the one whose first event comes first.
   */
  lemma SummaryRecordDay(posts: seq<Event>, now: int)
    requires posts != []
    ensures var r := Summarize(posts, now);
      r.recordDay.Some? && IsMostFrequent(r.recordDay.value, r.recordDayCount, Project(posts, DayKey))
  {
    AggregateAll(posts, DayOf(now), StartOfWeek(now));
    var days := Project(posts, DayKey);
    var m := Tally(days);
    TallySum(days);
    RecordIsFirstMax(m);
    assert m[0].1 <= Record(m).0;
    var i :| IsFirstMax(m, i) && m[i] == (Record(m).1.value, Record(m).0);
    FirstMaxOfTally(days, i);
  }

  /**
   * A scoped top poster: 'N/A' with 0 exactly when no event is in the scope;
   * otherwise a most active user of the scope with their count there, which is at
   * most the all-time top count.
   */
  lemma ScopedTopPoster(posts: seq<Event>, keep: Event -> bool)
    ensures var scoped := Project(Filter(posts, keep), UserOf);
      var top := TopPoster(Tally(scoped));
      && (top == Poster("N/A", 0) <==> forall k :: 0 <= k < |posts| ==> !keep(posts[k]))
      && (top != Poster("N/A", 0) ==> IsMostFrequent(top.name, top.count, scoped))
      && top.count <= TopPoster(Tally(Project(posts, UserOf))).count
  {
    var scoped := Project(Filter(posts, keep), UserOf);
    var users := Project(posts, UserOf);
    FilterEmpty(posts, keep);
    FilterUsersIncluded(posts, keep);
    if scoped != [] {
      TopOfTally(scoped);
      TopOfTally(users);
      var top := TopPoster(Tally(scoped));
      assert multiset(scoped)[top.name] <= multiset(users)[top.name];
    }
  }

  lemma {:induction false} FilterEmpty(s: seq<Event>, keep: Event -> bool)
    ensures Filter(s, keep) == [] <==> forall k :: 0 <= k < |s| ==> !keep(s[k])
    decreases |s|
  {
    if s != [] {
      var pre := s[..|s| - 1];
      FilterEmpty(pre, keep);
      assert forall k :: 0 <= k < |pre| ==> pre[k] == s[k];
    }
  }

  /**
   * topPosterAllTime is the head of the leaderboard: a most active user, with the
   * number of their events, and among equally active users the one who posted first.
   */
  lemma SummaryTopPosterAllTime(posts: seq<Event>, now: int)
    requires posts != []
    ensures var r := Summarize(posts, now);
      var users := Project(posts, UserOf);
      var top := r.topPosterAllTime;
      && |r.leaderboardLabels| >= 1
      && top == Poster(r.leaderboardLabels[0], r.leaderboardData[0])
      && IsMostFrequent(top.name, top.count, users)
  {
    var users := Project(posts, UserOf);
    AggregateAll(posts, DayOf(now), StartOfWeek(now));
    assert users != [] by { ProjectAt(posts, UserOf); }
    TallySum(users);
    LeaderboardHead(Tally(users));
    TopOfTally(users);
  }

  /** The top poster heads the ranking the leaderboard is built from. */
  lemma LeaderboardHead(counts: Counts<string>)
    requires counts != []
    ensures var sorted := SortBy(counts, CountDescending);
      && |Keys(sorted)| == |Values(sorted)| >= 1
      && TopPoster(counts) == Poster(Keys(sorted)[0], Values(sorted)[0])
  {
    var sorted := SortBy(counts, CountDescending);
    RankingHead(counts);
    assert Keys(sorted)[0] == sorted[0].0 && Values(sorted)[0] == sorted[0].1;
  }

  /**
   * topPosterToday: 'N/A' with 0 exactly when no event falls on today's date;
   * otherwise a most active user of today, never ahead of the all-time top count.
   */
  lemma SummaryTopPosterToday(posts: seq<Event>, now: int)
    requires posts != []
    ensures var r := Summarize(posts, now);
      var today := Project(Filter(posts, SentOn(DayOf(now))), UserOf);
      var day := r.topPosterToday;
      && (day == Poster("N/A", 0) <==> forall k :: 0 <= k < |posts| ==> DayKey(posts[k]) != DayOf(now))
      && (day != Poster("N/A", 0) ==> IsMostFrequent(day.name, day.count, today))
      && day.count <= r.topPosterAllTime.count
  {
    AggregateAll(posts, DayOf(now), StartOfWeek(now));
    ScopedTopPoster(posts, SentOn(DayOf(now)));
    assert forall k :: 0 <= k < |posts| ==> (SentOn(DayOf(now))(posts[k]) <==> DayKey(posts[k]) == DayOf(now));
  }

  /**
   * topPosterThisWeek: 'N/A' with 0 exactly when no event is at or after the start
   * of the week (the boundary itself is inside); otherwise a most active user of the
   * week, never ahead of the all-time top count.
   */
  lemma SummaryTopPosterThisWeek(posts: seq<Event>, now: int)
    requires posts != []
    ensures var r := Summarize(posts, now);
      var thisWeek := Project(Filter(posts, SentSince(StartOfWeek(now))), UserOf);
      var week := r.topPosterThisWeek;
      && (week == Poster("N/A", 0) <==> forall k :: 0 <= k < |posts| ==> TimeKey(posts[k]) < StartOfWeek(now))
      && (week != Poster("N/A", 0) ==> IsMostFrequent(week.name, week.count, thisWeek))
      && week.count <= r.topPosterAllTime.count
  {
    AggregateAll(posts, DayOf(now), StartOfWeek(now));
    ScopedTopPoster(posts, SentSince(StartOfWeek(now)));
    assert forall k :: 0 <= k < |posts| ==> (SentSince(StartOfWeek(now))(posts[k]) <==> TimeKey(posts[k]) >= StartOfWeek(now));
  }

  /** `t` is the time of one of the events and no event is later. */
  ghost predicate IsLatest(t: int, posts: seq<Event>) {
    && (exists k :: 0 <= k < |posts| && TimeKey(posts[k]) == t)
    && (forall k :: 0 <= k < |posts| ==> TimeKey(posts[k]) <= t)
  }

  /** For events sorted by time, the last one is the latest. */
  lemma SortedLast(posts: seq<Event>)
    requires posts != [] && SortedBy(posts, TimeKey)
    ensures IsLatest(TimeKey(posts[|posts| - 1]), posts)
  {
    forall k | 0 <= k < |posts| - 1
      ensures TimeKey(posts[k]) <= TimeKey(posts[|posts| - 1])
    {
    }
  }

  /** latestTimestamp: the time of the last of the events sorted by time, which is the latest. */
  lemma SummaryLatest(posts: seq<Event>, now: int)
    requires posts != [] && SortedBy(posts, TimeKey)
    ensures IsLatest(Summarize(posts, now).latest, posts)
  {
    SortedLast(posts);
  }

  /**
   * The week starts on Sunday at the clock time of `now`, not at midnight: an
   * event on that Sunday is in the week exactly when its time of day is not earlier.
   */
  lemma WeekStartsAtClockTime(now: int, e: Event)
    requires DayKey(e) == DayOf(now) - Weekday(now)
    ensures SentSince(StartOfWeek(now))(e) <==> TimeKey(e) % MsPerDay >= now % MsPerDay
  {
    StartOfWeekFacts(now);
    var t, sow := TimeKey(e), StartOfWeek(now);
    assert t == DayOf(t) * MsPerDay + t % MsPerDay;
    assert sow == DayOf(sow) * MsPerDay + sow % MsPerDay;
  }

  // ---- analyzeChat (lib/parser.js:40-129) ----

  /**
   * analyzeChat with the clock reading `now`. No accepted line gives NoPosts; an
   * accepted line with an invalid date makes toISOString throw; otherwise the result
   * is the summary of the accepted events sorted by time.
   */
  method AnalyzeChat(text: string, now: int) returns (r: Analysis)
    ensures var events := AcceptedEvents(ChatLines(text));
      && (r.NoPosts? <==> events == [])
      && (r.NoPosts? <==> forall k :: 0 <= k < |ChatLines(text)| ==> ParseLine(ChatLines(text)[k]).Rejected?)
      && (r.InvalidTimeValue? <==> events != [] && !AllValid(events))
      && (r.Report? ==> r.summary == Summarize(SortBy(events, TimeKey), now))
      && (r.Report? ==> r.summary.totalPosts == CountAccepted(ParseAll(ChatLines(text))))
  {
    var lines := ChatLines(text);
    var messages := SortBy(AcceptedEvents(lines), TimeKey);
    AcceptedEventsAre(lines);
    AcceptedEventsInOrder(lines);
    if |messages| == 0 {
      return NoPosts;
    }
    r := Tabulate(messages, now);
    if r.Report? {
      SummaryTotals(messages, now);
    }
    AllValidPerm(messages, AcceptedEvents(lines));
    AllValidPerm(AcceptedEvents(lines), messages);
  }

  /**
   * The forEach callback of lib/parser.js:60-77 for one message whose date is
   * valid: it bumps the message's user, its date and, when they apply, the
   * today and this-week counters; it counts its weekday and hour; it collects
   * its attachment name.
   */
  method CountPost(counters: Tallies, msg: Event, today: int, startOfWeek: int) returns (r: Tallies)
    requires |counters.byWeekday| == 7 && |counters.byHour| == 24
    requires msg.when.Time?
    ensures r == Step(counters, msg, today, startOfWeek)
  {
    var msgDate := DayOf(msg.when.ms);
    var userCounts := Bump(counters.users, msg.user);
    var postsByDate := Bump(counters.byDate, msgDate);
    var weekday := Weekday(msg.when.ms);
    var dayCounts := counters.byWeekday[weekday := counters.byWeekday[weekday] + 1];
    var hour := HourOf(msg.when.ms);
    var hourCounts := counters.byHour[hour := counters.byHour[hour] + 1];
    var imageFiles := counters.images;
    if msg.imageFile.Some? && msg.imageFile.value != "" {
      imageFiles := imageFiles + [msg.imageFile.value];
    }
    var postsByUserToday := counters.today;
    if msgDate == today {
      postsByUserToday := Bump(postsByUserToday, msg.user);
    }
    var postsByUserThisWeek := counters.thisWeek;
    if msg.when.ms >= startOfWeek {
      postsByUserThisWeek := Bump(postsByUserThisWeek, msg.user);
    }
    r := Tallies(userCounts, postsByDate, dayCounts, hourCounts, imageFiles, postsByUserToday, postsByUserThisWeek);
  }

  /**
   * `messages.forEach(...)` (lib/parser.js:59-78) from the empty counters of
   * lib/parser.js:46-57. None stands for the RangeError that toISOString throws
   * at the first message whose date is invalid.
   */
  method CountPosts(messages: seq<Event>, today: int, startOfWeek: int) returns (r: Option<Tallies>)
    ensures r.Some? <==> AllValid(messages)
    ensures r.Some? ==> r.value == Aggregate(messages, |messages|, today, startOfWeek)
  {
    var counters := Tallies([], [], Zeros(7), Zeros(24), [], [], []);
    for i := 0 to |messages|
      invariant forall k :: 0 <= k < i ==> messages[k].when.Time?
      invariant counters == Aggregate(messages, i, today, startOfWeek)
    {
      var msg := messages[i];
      if msg.when.InvalidDate? {
        return None;
      }
      assert forall k :: 0 <= k < i + 1 ==> messages[k].when.Time?;
      counters := CountPost(counters, msg, today, startOfWeek);
    }
    assert AllValid(messages);
    return Some(counters);
  }

  /**
   * The body of analyzeChat after the early return (lib/parser.js:46-128): one pass
   * over the sorted messages fills the counters, then the records, top posters,
   * image list and leaderboard are read off them.
   */
  method Tabulate(messages: seq<Event>, now: int) returns (r: Analysis)
    requires messages != []
    ensures !r.NoPosts?
    ensures r.InvalidTimeValue? <==> !AllValid(messages)
    ensures r.Report? ==> r.summary == Summarize(messages, now)
  {
    var today := DayOf(now);
    var startOfWeek := StartOfWeek(now);
    var counted := CountPosts(messages, today, startOfWeek);
    if counted.None? {
      return InvalidTimeValue;
    }
    var t := counted.value;
    var latest := messages[|messages| - 1].when.ms;
    var recordDayCount, recordDay := FindRecordDay(t.byDate);
    var topPosterAllTime := TopPoster(t.users);
    var topPosterToday := TopPoster(t.today);
    var topPosterThisWeek := TopPoster(t.thisWeek);
    var images := Dedup(t.images);
    var sortedUsers := SortBy(t.users, CountDescending);
    r := Report(Summary(
      |messages|, latest, Keys(sortedUsers), Values(sortedUsers), t.byWeekday, t.byHour,
      images, recordDayCount, recordDay, topPosterAllTime, topPosterToday, topPosterThisWeek));
  }
}
