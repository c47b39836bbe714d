/**
 * Two of the text slots of the current-weather view: "Last updated"
 * (`format_time_ago`) and "Sun" (the next sunrise or sunset). Times are
 * integers: milliseconds for the update age, the weather service's epoch
 * seconds for sunrise and sunset.
 */
module Slots {
  import opened Wrappers
  import opened Text

  const MinuteMs: nat := 60_000
  const HourMs: nat := 3_600_000
  const DayMs: nat := 86_400_000

  /** Length of the unit named by the letter of an "Updated <n><unit> ago" text. */
  function UnitMs(unit: char): nat {
    if unit == 'm' then MinuteMs else if unit == 'h' then HourMs else DayMs
  }

  /** `"Updated {n}{unit} ago"`. */
  function Ago(n: nat, unit: char): string {
    "Updated " + NatToString(n) + [unit] + " ago"
  }

  /**
   * `format_time_ago(timestamp)` at clock `now`: nothing before the first
   * update (a timestamp of 0), "Just updated" within the first minute, and
   * otherwise the whole minutes, hours or days elapsed.
   */
  function FormatTimeAgo(timestamp: int, now: int): (r: string)
    ensures timestamp == 0 <==> r == ""
  {
    if timestamp == 0 then ""
    else
      var diff := now - timestamp;
      if diff < MinuteMs then "Just updated"
      else if diff < HourMs then Ago(diff / MinuteMs, 'm')
      else if diff < DayMs then Ago(diff / HourMs, 'h')
      else Ago(diff / DayMs, 'd')
  }

  /** The count and unit can be read back from an "Updated ... ago" text. */
  lemma AgoInjective(n: nat, u: char, n': nat, u': char)
    requires Ago(n, u) == Ago(n', u')
    ensures n == n' && u == u'
  {
    var s := Ago(n, u);
    var a, a' := NatToString(n), NatToString(n');
    assert |a| == |a'|;
    assert s[8..8 + |a|] == a;
    assert Ago(n', u')[8..8 + |a'|] == a';
    assert s[8 + |a|] == u;
    assert Ago(n', u')[8 + |a'|] == u';
    NatToStringInjective(n, n');
  }

  /** "Just updated" is shown exactly when less than a minute has passed since a real update. */
  lemma JustUpdatedIffUnderAMinute(timestamp: int, now: int)
    requires timestamp != 0
    ensures FormatTimeAgo(timestamp, now) == "Just updated" <==> now - timestamp < MinuteMs
  {
    var diff := now - timestamp;
    if diff >= MinuteMs {
      var n, u := if diff < HourMs then diff / MinuteMs else if diff < DayMs then diff / HourMs else diff / DayMs,
                  if diff < HourMs then 'm' else if diff < DayMs then 'h' else 'd';
      assert FormatTimeAgo(timestamp, now) == Ago(n, u);
      assert Ago(n, u)[0] == 'U';
    }
  }

  /** From a minute on, the slot always shows an "Updated <n><unit> ago" text. */
  lemma AgoForAMinuteOrMore(timestamp: int, now: int)
    requires timestamp != 0 && now - timestamp >= MinuteMs
    ensures exists n: nat, u: char :: FormatTimeAgo(timestamp, now) == Ago(n, u)
  {
    var diff := now - timestamp;
    var n, u := if diff < HourMs then diff / MinuteMs else if diff < DayMs then diff / HourMs else diff / DayMs,
                if diff < HourMs then 'm' else if diff < DayMs then 'h' else 'd';
    assert FormatTimeAgo(timestamp, now) == Ago(n, u);
  }

  /**
   * Reading an "Updated <n><unit> ago" text back: `n` is the number of whole
   * units elapsed, at least one, and the unit is the largest that fits
   * (fewer than 60 minutes, fewer than 24 hours).
   */
  lemma AgoCountsWholeUnits(timestamp: int, now: int, n: nat, unit: char)
    requires timestamp != 0
    requires FormatTimeAgo(timestamp, now) == Ago(n, unit)
    ensures unit == 'm' || unit == 'h' || unit == 'd'
    ensures 1 <= n
    ensures n * UnitMs(unit) <= now - timestamp < (n + 1) * UnitMs(unit)
    ensures unit == 'm' ==> n < 60
    ensures unit == 'h' ==> n < 24
  {
    var diff := now - timestamp;
    assert Ago(n, unit)[0] == 'U';
    if diff < MinuteMs {
      assert false;
    }
    var n0, u0 := if diff < HourMs then diff / MinuteMs else if diff < DayMs then diff / HourMs else diff / DayMs,
                  if diff < HourMs then 'm' else if diff < DayMs then 'h' else 'd';
    assert FormatTimeAgo(timestamp, now) == Ago(n0, u0);
    AgoInjective(n, unit, n0, u0);
  }

  /** Which sun event the "Sun" slot announces. */
  datatype SunEvent = Sunrise | Sunset

  /**
   * The "Sun" slot: the sunset while it is still ahead, otherwise the
   * sunrise. A missing time counts as now.
   */
  function NextSunEvent(now: int, sunrise: Option<int>, sunset: Option<int>): (r: (SunEvent, int))
    ensures r.0 == Sunset ==> sunset.Some? && r.1 == sunset.value && now < r.1
    ensures r.0 == Sunrise ==> sunset.GetOr(now) <= now && r.1 == sunrise.GetOr(now)
  {
    var rise := sunrise.GetOr(now);
    var setting := sunset.GetOr(now);
    if now < setting then (Sunset, setting) else (Sunrise, rise)
  }
}
