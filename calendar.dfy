/**
 * JavaScript Date, reduced to what lib/parser.js reads from it. A time value is
 * an integer number of milliseconds since 1970-01-01T00:00:00. The model fixes
 * the process time zone to UTC, so the date key taken from toISOString and the
 * local getDay/getHours read the same calendar.
 */
module Calendar {

  const MsPerSecond: int := 1000
  const MsPerHour: int := 3_600_000
  const MsPerDay: int := 86_400_000

  /** A Date object: a time value, or the NaN time value of an Invalid Date. */
  datatype JsDate = Time(ms: int) | InvalidDate

  /** Days from 1970-01-01 to the given day of the proleptic Gregorian calendar. */
  function DaysFromCivil(year: int, month: int, day: int): int
    requires 1 <= month <= 12
  {
    var y := if month <= 2 then year - 1 else year;
    var era := y / 400;
    var yoe := y - era * 400;
    var mp := if month > 2 then month - 3 else month + 9;
    var doy := (153 * mp + 2) / 5 + day - 1;
    var doe := yoe * 365 + yoe / 4 - yoe / 100 + doy;
    era * 146097 + doe - 719468
  }

  /**
   * Whether `new Date("YYYY-MM-DDTHH:MM:SS")` yields a valid date: months 1..12,
   * days 1..31 whatever the month, minutes and seconds 0..59, hours 0..23 or
   * exactly 24:00:00.
   */
  predicate IsValidDateTime(month: nat, day: nat, hour: nat, minute: nat, second: nat) {
    && 1 <= month <= 12 && 1 <= day <= 31 && minute <= 59 && second <= 59
    && (hour <= 23 || (hour == 24 && minute == 0 && second == 0))
  }

  /**
   * `new Date("YYYY-MM-DDTHH:MM:SS")`. A day past the end of its month rolls
   * over into the next month and 24:00:00 is midnight of the next day.
   */
  function MakeDate(year: nat, month: nat, day: nat, hour: nat, minute: nat, second: nat): JsDate
  {
    if IsValidDateTime(month, day, hour, minute, second) then
      Time((DaysFromCivil(year, month, 1) + day - 1) * MsPerDay + ((hour * 60 + minute) * 60 + second) * MsPerSecond)
    else
      InvalidDate
  }

  /** The calendar day of a time value: the `YYYY-MM-DD` that toISOString starts with. */
  function DayOf(t: int): int {
    t / MsPerDay
  }

  /** Date.prototype.getDay: 0 is Sunday; 1970-01-01 was a Thursday. */
  function Weekday(t: int): (w: nat)
    ensures w < 7
  {
    (DayOf(t) + 4) % 7
  }

  /** Date.prototype.getHours. */
  function HourOf(t: int): (h: nat)
    ensures h < 24
  {
    (t % MsPerDay) / MsPerHour
  }

  /** `now.setDate(now.getDate() - now.getDay())`: back to Sunday, time of day kept. */
  function StartOfWeek(now: int): int {
    now - Weekday(now) * MsPerDay
  }

  /** The start of the week is a Sunday, at most six days back, at the same clock time as `now`. */
  lemma StartOfWeekFacts(now: int)
    ensures Weekday(StartOfWeek(now)) == 0
    ensures StartOfWeek(now) <= now < StartOfWeek(now) + 7 * MsPerDay
    ensures DayOf(now) - DayOf(StartOfWeek(now)) == Weekday(now)
    ensures StartOfWeek(now) % MsPerDay == now % MsPerDay
  {
    var w := Weekday(now);
    var d := DayOf(now);
    var r := now % MsPerDay;
    assert now == d * MsPerDay + r;
    var sow := StartOfWeek(now);
    assert sow == (d - w) * MsPerDay + r;
    assert DayOf(sow) == d - w && sow % MsPerDay == r;
    assert (d + 4) % 7 == w;
    assert (d - w + 4) % 7 == 0;
  }

  /** A valid date lands on the day its fields name and in the bucket of its hour field. */
  lemma MakeDateFields(year: nat, month: nat, day: nat, hour: nat, minute: nat, second: nat)
    requires IsValidDateTime(month, day, hour, minute, second) && hour <= 23
    ensures MakeDate(year, month, day, hour, minute, second).Time?
    ensures DayOf(MakeDate(year, month, day, hour, minute, second).ms) == DaysFromCivil(year, month, 1) + day - 1
    ensures HourOf(MakeDate(year, month, day, hour, minute, second).ms) == hour
  {
    var d := DaysFromCivil(year, month, 1) + day - 1;
    var w := ((hour * 60 + minute) * 60 + second) * MsPerSecond;
    assert 0 <= w < MsPerDay;
    var t := d * MsPerDay + w;
    assert t / MsPerDay == d && t % MsPerDay == w;
    assert w / MsPerHour == hour;
  }

  /** `24:00:00` is midnight at the start of the following day. */
  lemma MidnightRollsOver(year: nat, month: nat, day: nat)
    requires 1 <= month <= 12 && 1 <= day <= 31
    ensures MakeDate(year, month, day, 24, 0, 0).Time?
    ensures DayOf(MakeDate(year, month, day, 24, 0, 0).ms) == DaysFromCivil(year, month, 1) + day
    ensures HourOf(MakeDate(year, month, day, 24, 0, 0).ms) == 0
    ensures day < 31 ==> MakeDate(year, month, day, 24, 0, 0) == MakeDate(year, month, day + 1, 0, 0, 0)
  {
    var d := DaysFromCivil(year, month, 1) + day;
    assert MakeDate(year, month, day, 24, 0, 0).ms == d * MsPerDay;
    assert (d * MsPerDay) / MsPerDay == d && (d * MsPerDay) % MsPerDay == 0;
  }

  /** A day past the end of its month rolls over: 30 February 2024 is 1 March 2024. */
  lemma February30()
    ensures MakeDate(2024, 2, 30, 0, 0, 0) == MakeDate(2024, 3, 1, 0, 0, 0)
  {
  }

  /** 1 June 2024 was a Saturday. */
  lemma June2024()
    ensures Weekday(MakeDate(2024, 6, 1, 10, 0, 0).ms) == 6
  {
    MakeDateFields(2024, 6, 1, 10, 0, 0);
  }
}
