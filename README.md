# pint-chat chat analysis, modelled in Dafny

This project models the analysis core of pint-chat, `lib/parser.js`. The core
reads a WhatsApp chat export and turns each line into a post, or rejects it.
A line is accepted when it matches `[DD/MM/YYYY, HH:MM:SS] user: message` and
its message carries a media marker. The accepted posts are sorted by time and
counted in one pass:

- per user;
- per calendar day;
- per weekday and per hour of day;
- per user for today and for the current week.

The attachment names are collected along the way. The result holds:

- the total;
- the time of the latest post;
- the leaderboard (users by descending count);
- the two histograms;
- the de-duplicated file names;
- the record day and its count;
- three top-poster cards (all time, today, this week).

The model has seven modules:

- `Options` (`options.dfy`): the option type.
- `Text` (`text.dfy`): the JavaScript string operations the core uses. These are `trim`, `split`, `includes` and global `replace`, plus the character classes of JavaScript regular expressions.
- `Calendar` (`calendar.dfy`): JavaScript `Date` reduced to a time value in milliseconds. It covers the ISO date-time parse, the date key from `toISOString`, `getDay`, `getHours` and the start of the week.
- `Counters` (`counters.dfy`): counter objects as insertion-ordered lists of (key, count) entries. It covers `Bump`, `Tally`, the fixed-size histograms and `[...new Set(xs)]`.
- `Sorting` (`sorting.dfy`): `Array.prototype.sort` with a numeric comparator, which is stable. It is modelled as an insertion sort by key.
- `LineParser` (`line_parser.dfy`): `parseLine`. It includes the unanchored regular expression as a leftmost search, the media filter, user-name cleaning and the attachment name.
- `ChatAnalyzer` (`chat_analyzer.dfy`): `getTopPoster` and `analyzeChat`.
  - The aggregation loop is a fold, `Aggregate`, over the sorted posts. The methods `CountPosts`, `CountPost`, `FindRecordDay`, `Tabulate` and `AnalyzeChat` follow the source statement by statement and are proved equal to the functions.
  - `Summarize` reads the result off the fold.
  - The `Summary*` lemmas state what every field of the result means in terms of the posts alone.

Time-zone policy: the process time zone is fixed to UTC. The date key that
`toISOString` yields, `getDay` and `getHours` then read the same calendar.
The current time (`new Date()`, lib/parser.js:53) is the parameter `now`, in
milliseconds since 1970-01-01T00:00:00Z.

Behaviours of the code worth knowing:

- A line whose digits form an impossible date, such as `99/99/2024`, is not rejected by `parseLine`. Its timestamp is an Invalid Date, and `toISOString` at lib/parser.js:60 then throws a RangeError. `AnalyzeChat` returns `InvalidTimeValue` for this case.
  - `new Date` follows the ISO parse of V8: months 1..12, days 1..31 (a day past the month's end rolls into the next month), minutes and seconds 0..59, and hours 0..23 or exactly `24:00:00`.
- The start of the week is the last Sunday at the time of day of `now`, not at midnight (lib/parser.js:55). `WeekStartsAtClockTime` states the consequence.
- `imageFiles` keeps the order in which names first occur (`SummaryImages`).
- Ties for the top poster and the record day go to the key that was set first in its counter object.

## Model

| member | source | states |
|---|---|---|
| Text.Trim | lib/parser.js:41 | the result is one contiguous slice of the input with only whitespace outside it and no whitespace at either of its ends; every character of the result comes from the input, and every non-whitespace character of the input survives |
| Text.Split | lib/parser.js:41 | at least one part; no part contains the separator; joining the parts with the separator gives back the input |
| Text.RemoveAll | lib/parser.js:17 | removing `~ ` never lengthens the string and adds no character |
| Text.RemoveAllUncovered | lib/parser.js:17 | for a pattern that cannot overlap itself, such as `~ `, the global replace keeps exactly the characters that lie inside no occurrence of the pattern, in their order |
| Text.RemoveAllAbsent | lib/parser.js:17 | without an occurrence of the pattern nothing is removed |
| Text.Contains | lib/parser.js:11 | `includes`: the pattern occurs starting at some index; no contract of its own, its use is stated by `MediaIsNeverJustNumber`, `AttachedFile` and `CleanUser` |
| Text.AllDigits | lib/parser.js:12 | `/^\d+$/.test`: a non-empty run of ASCII digits; no contract of its own, see `MediaIsNeverJustNumber` |
| Text.Scan | lib/parser.js:6 | the first index at or after the start whose character stops the scan (the end if none), every character before it passing |
| Calendar.IsValidDateTime | lib/parser.js:16 | which field values `new Date` accepts: months 1..12, days 1..31, minutes and seconds 0..59, hours 0..23 or exactly `24:00:00`; no contract of its own, see the `MakeDateFields` and `MidnightRollsOver` rows |
| Calendar.MakeDate | lib/parser.js:15-16 | `new Date("YYYY-MM-DDTHH:MM:SS")`: a time value or an Invalid Date; no contract of its own, see the `MakeDateFields`, `MidnightRollsOver` and `February30` rows |
| Calendar.DayOf | lib/parser.js:60 | the day number behind `toISOString().slice(0, 10)`; no contract of its own, see `MakeDateFields`, `StartOfWeekFacts` and the date-key line under Left out |
| Calendar.Weekday | lib/parser.js:65 | `getDay` is a bucket index below 7 |
| Calendar.HourOf | lib/parser.js:66 | `getHours` is a bucket index below 24 |
| Calendar.June2024 | lib/parser.js:65 | bucket 0 is Sunday: 1 June 2024, a Saturday, lands in bucket 6 |
| Calendar.StartOfWeek | lib/parser.js:55 | `now.setDate(now.getDate() - now.getDay())`; no contract of its own, see the `StartOfWeekFacts` row |
| Calendar.StartOfWeekFacts | lib/parser.js:55 | the start of the week is a Sunday, at most six days before `now`, `getDay` days back by calendar date, at the same clock time as `now` |
| Calendar.MakeDateFields | lib/parser.js:15-16 | a valid `YYYY-MM-DDTHH:MM:SS` is a valid date on the day its fields name, in the hour bucket of its hour field |
| Calendar.MidnightRollsOver | lib/parser.js:15-16 | `24:00:00` is a valid time: midnight, hour bucket 0, of the following day, equal to `00:00:00` of the next day of the month |
| Calendar.February30 | lib/parser.js:15-16 | a day past the end of its month rolls over: 30 February 2024 is 1 March 2024 |
| LineParser.MatchAt | lib/parser.js:6-7 | what the pattern captures at one index has well-shaped groups: digit date and time, non-empty user without `:`, message without line terminators |
| LineParser.Leftmost | lib/parser.js:6-7 | the first index at which the pattern fits; it fits nowhere before |
| LineParser.Match | lib/parser.js:6-7 | `null` exactly when the pattern fits at no index; otherwise the groups at the leftmost index where it fits |
| LineParser.MatchAtSound | lib/parser.js:6-7 | what MatchAt returns spells out the line's text under the grammar, with the greedy message stopping at a line terminator or the end |
| LineParser.MatchAtComplete | lib/parser.js:6-7 | every grammatical match at an index is the one MatchAt finds |
| LineParser.MatchIsLeftmost | lib/parser.js:6-7 | `line.match` fails exactly when the grammar matches nowhere, and otherwise returns the groups of the leftmost grammatical match |
| LineParser.HasMedia | lib/parser.js:11 | the message includes `\u200Eimage omitted` or `<attached:`; no contract of its own, see the `ParseLine` and `MediaIsNeverJustNumber` rows |
| LineParser.IsJustNumber | lib/parser.js:12 | the trimmed message is a non-empty run of digits; no contract of its own, see the `MediaIsNeverJustNumber` row |
| LineParser.MediaIsNeverJustNumber | lib/parser.js:11-14 | a message with a media marker never passes the digits-only test, so that test never rejects an accepted line |
| LineParser.CleanUser | lib/parser.js:17 | the cleaned name is the trim of the characters of the captured name that lie inside no `~ `, in order; it has no whitespace at either end and only characters of the captured name; without a `~ ` marker it is the trimmed name |
| LineParser.CleanUserExample | lib/parser.js:17 | `"~ Carol "` cleans to `"Carol"` |
| LineParser.CleanUserCanKeepMarker | lib/parser.js:17 | a single left-to-right removal pass can leave a `~ ` behind: `"a~~  b"` cleans to `"a~ b"` |
| LineParser.AttachedAt | lib/parser.js:18 | one try of `/<attached: (.*?)>/` at one index: the name up to the first `>`, none if a line terminator or the end comes first; no contract of its own, see the `AttachedAtSound`, `AttachedAtComplete` and `AttachedAtExact` rows |
| LineParser.AttachedFrom | lib/parser.js:18-19 | no name exactly when `<attached: …>` closes at no index from the start on; otherwise the name at the first such index |
| LineParser.AttachedAtSound | lib/parser.js:18 | a name found at an index spells `<attached: name>` there, with no `>` and no line terminator in the name |
| LineParser.AttachedAtComplete | lib/parser.js:18 | every `<attached: x>` at an index, with `x` free of `>` and line terminators, is what the attempt at that index finds |
| LineParser.AttachedAtExact | lib/parser.js:18 | the attempt at an index fails exactly when no `<attached: x>` of that form starts there |
| LineParser.AttachedFromIsLeftmost | lib/parser.js:18-19 | the search from the start finds nothing exactly when no `<attached: x>` of that form occurs, and otherwise the `x` of the leftmost one |
| LineParser.AttachedFile | lib/parser.js:18-19 | `null` exactly when no `<attached: x>` with `x` free of `>` and line terminators occurs; otherwise the `x` of the leftmost such occurrence; a found name occurs as `<attached: name>` in the message; no `<attached: ` means no name |
| LineParser.AttachedFileFound | lib/parser.js:18-19 | any `<attached: x>` with `x` free of `>` and line terminators yields a name |
| LineParser.DateOf | lib/parser.js:15-16 | the captured `DD/MM/YYYY` and `HH:MM:SS` reordered into the ISO date-time and parsed; no contract of its own, see the `MakeDate` and `ParseLine` rows |
| LineParser.ParseLine | lib/parser.js:5-25 | accepted exactly when the pattern matches and the message carries a media marker; the event is built from the leftmost match's groups: the UTC date of its date and time, the cleaned user and the attachment name of its message; the accepted user holds no `:` and no edge whitespace; a file name holds no `>` and comes from the message's `<attached: …>` |
| Counters.Keys | lib/parser.js:111 | `sortedUsers.map(user => user[0])`, the labels in entry order; no contract of its own, see the `SummaryLeaderboard` and `Ranked` rows |
| Counters.Values | lib/parser.js:112 | `sortedUsers.map(user => user[1])`, the counts in entry order; no contract of its own, see the `SummaryLeaderboard`, `Ranked` and `SumValuesPerm` rows |
| Counters.Get | lib/parser.js:63 | a key's count, 0 when the key is absent, as each bump (also at lines 71 and 76) reads it; no contract of its own, see the `TallyGet` row |
| Counters.Bump | lib/parser.js:63-64 | one more for a key: a present key keeps its place, a new key goes last with count 1 (also at lines 71 and 76); no contract of its own, see the `TallySnoc` row |
| Counters.Tally | lib/parser.js:63 | the counter object after bumping the keys in order; no contract of its own, see the `TallyCounts`, `TallyGet` and `TallySum` rows |
| Counters.TallyCounts | lib/parser.js:63 | the counter object holds each key once, in first-occurrence order, with its number of occurrences |
| Counters.TallyGet | lib/parser.js:63 | the count read for `k`, 0 when it is absent, is the number of occurrences of `k` |
| Counters.TallySum | lib/parser.js:63 | every count is at least 1 and the counts add up to the number of keys counted |
| Counters.TallySnoc | lib/parser.js:63 | counting one more key is one bump of the counter object |
| Counters.Histogram | lib/parser.js:65-66 | the arrays of lines 47-48, `Array(n).fill(0)`, with one `++` per in-range value: exactly `n` buckets; their contents are stated by the `HistogramSnoc`, `HistogramCounts` and `HistogramSum` rows |
| Counters.HistogramSnoc | lib/parser.js:65-66 | counting one more in-range value increments exactly its bucket |
| Counters.HistogramCounts | lib/parser.js:65-66 | bucket `b` holds the number of occurrences of `b` |
| Counters.HistogramSum | lib/parser.js:65-66 | with every value in range, the buckets add up to the number of values |
| Counters.SumValuesPerm | lib/parser.js:105 | reordering entries does not change the total count |
| Counters.Dedup | lib/parser.js:104 | `[...new Set(xs)]` has no repetitions and holds exactly the elements of `xs` |
| Counters.DedupOrder | lib/parser.js:104 | the elements keep the order of their first occurrences |
| Counters.FirstIndexIsFirst | lib/parser.js:104 | no index before the one found holds the element, so it is the first occurrence that every tie-break refers to |
| Counters.FirstIndexIn | lib/parser.js:104 | the first-occurrence index is in range exactly for elements that occur |
| Counters.FirstMaxOfTally | lib/parser.js:33-37 | the first entry with the largest count is a most frequent key with its count, occurring no later than any other equally frequent key |
| Sorting.Insert | lib/parser.js:42 | inserting into a sorted sequence keeps it sorted and adds exactly the element |
| Sorting.SortBy | lib/parser.js:42 | sorted by key and a permutation of the input |
| Sorting.SortByHead | lib/parser.js:33-37 | the head of the sorted sequence is the first element with the least key, as a stable sort puts it |
| ChatAnalyzer.CountDescending | lib/parser.js:105 | the sort key of `(a, b) => b[1] - a[1]` (also at line 33): the larger count sorts first; no contract of its own, see the `RankingHead`, `Ranked` and `SummaryLeaderboard` rows |
| ChatAnalyzer.RankingHead | lib/parser.js:33-37 | the head of the count-descending sort is the first entry with the largest count |
| ChatAnalyzer.TopPoster | lib/parser.js:32-38 | `N/A` with 0 for no entries; otherwise the first entry with the largest count |
| ChatAnalyzer.TopOfTally | lib/parser.js:32-38 | the top poster of the counts of a non-empty user list is a most frequent user, the first-occurring one among ties, with its number of posts |
| ChatAnalyzer.LeaderboardHead | lib/parser.js:100-111 | the top poster is the first label of the leaderboard with its count |
| ChatAnalyzer.ChatLines | lib/parser.js:41 | `text.trim().split('\n')`; no contract of its own, see the `Trim` and `Split` rows |
| ChatAnalyzer.ParseAll | lib/parser.js:42 | one parse result per line, result `k` being the parse of line `k` |
| ChatAnalyzer.Kept | lib/parser.js:42 | `.filter(Boolean)` keeps at most one post per result; which posts and in what order is stated by the `KeptPlaces` and `KeptAre` rows |
| ChatAnalyzer.CountAccepted | lib/parser.js:42 | the number of accepted results, counted from the back, never more than the results; the reference that `KeptPlaces` and `AnalyzeChat` compare with |
| ChatAnalyzer.CountAcceptedCons | lib/parser.js:42 | counting accepted results from the front agrees with counting them from the back |
| ChatAnalyzer.KeptPlaces | lib/parser.js:42 | `.filter(Boolean)` keeps as many posts as there are accepted results, and the post of the accepted result at `k` sits at the index given by the number of accepted results before `k`, so each is kept once and in order |
| ChatAnalyzer.KeptAre | lib/parser.js:42 | `.filter(Boolean)` is empty exactly when every result is `null`; every kept post came from an accepted line |
| ChatAnalyzer.AcceptedEvents | lib/parser.js:42 | `lines.map(parseLine).filter(Boolean)`; no contract of its own, see the `AcceptedEventsAre` and `AcceptedEventsInOrder` rows |
| ChatAnalyzer.AcceptedEventsAre | lib/parser.js:41-44 | no post survives exactly when every line of the trimmed, split text is rejected; every post is the parse of one line |
| ChatAnalyzer.AcceptedEventsInOrder | lib/parser.js:41-42 | one post per accepted line, each accepted line's post in its place in line order |
| ChatAnalyzer.TimeKey | lib/parser.js:42 | the sort key of `(a, b) => a.timestamp - b.timestamp`; no contract of its own, see the `SortBy` and `SummaryLatest` rows |
| ChatAnalyzer.Project | lib/parser.js:59-66 | what the callback reads from each post, one entry per post; the entries are stated by the `ProjectAt` row |
| ChatAnalyzer.ProjectAt | lib/parser.js:59-66 | entry `k` of a per-post projection is the projection of post `k` |
| ChatAnalyzer.DayKey | lib/parser.js:60 | the day behind `msg.timestamp.toISOString().slice(0, 10)`; no contract of its own, see the `AggregateDates` and `AggregateToday` rows and the date-key line under Left out |
| ChatAnalyzer.SentOn | lib/parser.js:70 | the today test `msgDateStr === todayStr`, as equal day numbers; no contract of its own, see the `AggregateToday` and `SummaryTopPosterToday` rows |
| ChatAnalyzer.SentSince | lib/parser.js:75 | the week test `msg.timestamp >= startOfWeek`, boundary included; no contract of its own, see the `AggregateThisWeek`, `SummaryTopPosterThisWeek` and `WeekStartsAtClockTime` rows |
| ChatAnalyzer.Filter | lib/parser.js:69-77 | the posts a scope condition keeps, in order; no contract of its own, see the `FilterUsersIncluded` and `FilterEmpty` rows |
| ChatAnalyzer.Attachments | lib/parser.js:67 | the truthy file names in post order; no contract of its own, see the `AttachmentsAre` row |
| ChatAnalyzer.FilterUsersIncluded | lib/parser.js:69-77 | the users counted in a scope are a sub-multiset of all the users |
| ChatAnalyzer.FilterEmpty | lib/parser.js:69-77 | a scope is empty exactly when no post satisfies its condition |
| ChatAnalyzer.AttachmentsAre | lib/parser.js:67 | the collected names are exactly the non-empty file names of the posts |
| ChatAnalyzer.Record | lib/parser.js:91-98 | no record day exactly when the record count is 0 |
| ChatAnalyzer.RecordIsFirstMax | lib/parser.js:91-98 | the record count bounds every date's count and is first reached at the record day |
| ChatAnalyzer.FindRecordDay | lib/parser.js:91-98 | the loop over the date entries ends with the record count and day of the fold |
| ChatAnalyzer.Zeros | lib/parser.js:47-48 | `Array(n).fill(0)`: `n` buckets, each 0 |
| ChatAnalyzer.Increment | lib/parser.js:65-66 | `counts[b]++` on an in-range bucket, the length kept; which bucket changes is stated by the `HistogramSnoc` and `Aggregate*` rows |
| ChatAnalyzer.Step | lib/parser.js:60-77 | one run of the forEach callback on all seven counters; no contract of its own, see the `CountPost` row and the `Aggregate*` rows |
| ChatAnalyzer.Aggregate | lib/parser.js:59-78 | the counters after the callback has run over the first `n` posts: 7 and 24 buckets; what each counter holds is stated by the `Aggregate*` rows |
| ChatAnalyzer.AggregateUsers | lib/parser.js:63 | after `n` posts, userCounts is the counter object of their users |
| ChatAnalyzer.AggregateDates | lib/parser.js:64 | after `n` posts, postsByDate is the counter object of their dates |
| ChatAnalyzer.AggregateWeekdays | lib/parser.js:65 | after `n` posts, dayCounts is the 7-bucket histogram of their weekdays |
| ChatAnalyzer.AggregateHours | lib/parser.js:66 | after `n` posts, hourCounts is the 24-bucket histogram of their hours |
| ChatAnalyzer.AggregateImages | lib/parser.js:67 | after `n` posts, imageFiles lists their non-empty file names in order |
| ChatAnalyzer.AggregateToday | lib/parser.js:70-72 | after `n` posts, postsByUserToday counts the users of those on today's date |
| ChatAnalyzer.AggregateThisWeek | lib/parser.js:75-77 | after `n` posts, postsByUserThisWeek counts the users of those at or after the start of the week, the boundary included |
| ChatAnalyzer.AggregateAll | lib/parser.js:59-78 | after the loop every counter holds its closed form over all the posts |
| ChatAnalyzer.ScopedCounts | lib/parser.js:59-78 | each user's all-time, today and this-week counts are that user's numbers of posts in the scope; today's and this week's never exceed all time |
| ChatAnalyzer.Summarize | lib/parser.js:80-128 | the result object read off the fold; no contract of its own, see the `Summary*` rows |
| ChatAnalyzer.SummaryTotals | lib/parser.js:107-121 | totalPosts is the number of posts; 7 and 24 buckets; leaderboard data, weekday and hour buckets each add up to totalPosts |
| ChatAnalyzer.SummaryBuckets | lib/parser.js:65-66 | weekday bucket `b` and hour bucket `b` hold the numbers of posts on weekday `b` and in hour `b` |
| ChatAnalyzer.SummaryLeaderboard | lib/parser.js:105-113 | labels and data have one equal length of at least 1; their pairs are a permutation of the user counts; counts are non-increasing; each label is a poster with their count; every poster is listed |
| ChatAnalyzer.Ranking | lib/parser.js:105 | any count-descending rearrangement of a tally has the leaderboard's properties |
| ChatAnalyzer.Ranked | lib/parser.js:105-113 | a count-descending sort has non-increasing counts, and labels and data zip back into it |
| ChatAnalyzer.RearrangedTally | lib/parser.js:105-113 | a rearranged tally lists each user with their count, at least 1, and every user |
| ChatAnalyzer.SummaryImages | lib/parser.js:104 | imageFiles has no repetitions, holds exactly the non-empty attachment names, in first-occurrence order |
| ChatAnalyzer.SummaryRecordDay | lib/parser.js:91-98 | there is a record day; it is a most frequent date, the first-occurring one among ties, and recordDayCount is its number of posts |
| ChatAnalyzer.ScopedTopPoster | lib/parser.js:100-102 | a scoped top poster is `N/A` with 0 exactly when the scope is empty; otherwise a most frequent user of the scope; never above the all-time top count |
| ChatAnalyzer.SummaryTopPosterAllTime | lib/parser.js:100 | the all-time top poster is the first leaderboard entry and a most frequent user, the first-occurring one among ties |
| ChatAnalyzer.SummaryTopPosterToday | lib/parser.js:101 | `N/A` with 0 exactly when no post is on today's date; otherwise a most frequent user of today; count at most the all-time top count |
| ChatAnalyzer.SummaryTopPosterThisWeek | lib/parser.js:102 | `N/A` with 0 exactly when no post is at or after the start of the week; otherwise a most frequent user of the week; count at most the all-time top count |
| ChatAnalyzer.SortedLast | lib/parser.js:80-81 | in time order the last post is a latest one |
| ChatAnalyzer.SummaryLatest | lib/parser.js:80-81 | latestTimestamp's time is that of a post and no post is later |
| ChatAnalyzer.WeekStartsAtClockTime | lib/parser.js:55 | a post on the week's Sunday is in the week exactly when its time of day is not before that of `now` |
| ChatAnalyzer.AnalyzeChat | lib/parser.js:40-129 | `null` exactly when no post survives, which is exactly when every line is rejected; the RangeError exactly when a surviving post has an invalid date; otherwise the summary of the posts sorted by time, whose totalPosts is the number of accepted lines |
| ChatAnalyzer.CountPost | lib/parser.js:60-77 | the callback for one post with a valid date is one step of the fold |
| ChatAnalyzer.CountPosts | lib/parser.js:59-78 | the loop completes exactly when every post has a valid date, and then leaves the fold over all posts |
| ChatAnalyzer.Tabulate | lib/parser.js:46-128 | never `null`; the RangeError exactly when some post has an invalid date; otherwise the summary of the posts |

## Left out

- Date formatting: `latestTimestamp` (lib/parser.js:81-87) and `recordDayDate` (lib/parser.js:96) are en-GB locale strings. The model keeps the time value and the day number behind them.
- The chart labels `Sun`..`Sat` and `0:00`..`23:00` (lib/parser.js:115, 119) are constants and are left out.
- Time zones: the model fixes UTC. In any other zone the source takes the date key in UTC but `getDay`/`getHours` in local time. That mismatch is not modelled.
- The clock: `new Date()` is the parameter `now`. The model compares day numbers for the today test, which matches the source's `YYYY-MM-DD` comparison while `now` lies in the years 0 to 9999. For a `now` from 2 to 31 January 10000, the source's `todayStr` is `+010000-01`, which is also the key of a post stamped `31/12/9999, 24:00:00`. The source then counts that post as today's and the model does not. No real clock reads such a date.
- Strings: JavaScript strings are sequences of UTF-16 code units, while the model's `string` is a sequence of Unicode scalar values, so a lone surrogate cannot be represented. On well-formed text, `trim`, the regular expressions (which have no `u` flag), `includes`, `replace`, `split`, `Set` and the object keys all give the same results either way, so no output of the model differs.
- Counter objects: JavaScript enumerates integer-like keys (a user named `42`) before other keys, and a user named `__proto__` does not become an own key. The model keeps plain insertion order for every key.
- Counter objects: a user named after an inherited `Object.prototype` member (`constructor`, `toString`, `valueOf`, `hasOwnProperty`, …) reads a function, not `undefined`, in `(userCounts[u] || 0) + 1` at lib/parser.js:63, 71 and 76, so the source stores a string instead of a count. The model counts such a user like any other.
- Date keys: postsByDate is keyed by the day number, not the `YYYY-MM-DD` string that `toISOString` yields. The two key the same entries: the string is a function of the day number, and distinct days give distinct strings. This includes the one day outside four-digit years a line can reach, 1 January 10000 from `31/12/9999, 24:00:00`. Its `toISOString` starts `+010000-01-01`, so `slice(0, 10)` at lib/parser.js:60 keys it `+010000-01`, a string no other reachable day has. The model does not build the strings.
- Sorting.SortBy: the contract states sortedness and permutation. Stability is stated only for the head (`SortByHead`), which is what the top-poster ties depend on. The full tie order of the leaderboard and of posts with equal times is not stated.
- Sorting.SortBy: a post with an invalid date has a NaN timestamp, which the comparator treats as equal to everything. The model sorts it at time 0. This cannot change the outcome, because any such post makes the analysis end in the RangeError.
- dayCounts and hourCounts are updated in place in the source. The model keeps them as sequences that each step replaces.
- ChatAnalyzer.Aggregate, ChatAnalyzer.Project and ChatAnalyzer.Increment state only lengths in their own contracts. Their meaning is stated by the `Aggregate*` lemmas and by `ProjectAt`.
