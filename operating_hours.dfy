/**
 * The operating-hours window `H1-H2` that gates the whole frame loop.
 * Hours are whole hours of the local clock; a window whose start is after
 * its end wraps past midnight, and a specification that cannot be read
 * keeps the display on.
 */
module OperatingHours {
  import opened Wrappers
  import opened Text

  /**
   * Python's `int(part)` on ASCII text: surrounding whitespace, an optional
   * `+` (a `-` cannot survive the split on `-`), then a numeral.
   */
  function ParseInt(part: string): (r: Option<int>)
    ensures r.Some? ==> r.value >= 0
  {
    var t := Strip(part);
    var digits := if |t| > 0 && t[0] == '+' then t[1..] else t;
    if WellFormedNumeral(digits) then Some(NumeralValue(digits)) else None
  }

  /** `start, end = map(int, spec.split('-'))`: exactly two pieces, both numbers. */
  function ParseHours(spec: string): (r: Option<(int, int)>)
    ensures var parts := Split(spec, '-');
      r.Some? <==> |parts| == 2 && ParseInt(parts[0]).Some? && ParseInt(parts[1]).Some?
    ensures r.Some? ==> var parts := Split(spec, '-');
      |parts| == 2 && ParseInt(parts[0]) == Some(r.value.0) && ParseInt(parts[1]) == Some(r.value.1)
  {
    var parts := Split(spec, '-');
    if |parts| != 2 then None
    else
      match (ParseInt(parts[0]), ParseInt(parts[1]))
      case (Some(s), Some(e)) => Some((s, e))
      case _ => None
  }

  /** Whether the display should be on at `hour` under the window `spec`. */
  function IsWithinOperatingHours(spec: string, hour: int): (active: bool)
    ensures ParseHours(spec).None? ==> active
  {
    match ParseHours(spec)
    case None => true
    case Some((s, e)) => if s <= e then s <= hour < e else hour >= s || hour < e
  }

  /** The canonical text of a window, as a configuration would write it. */
  function FormatHours(s: nat, e: nat): string {
    NatToString(s) + "-" + NatToString(e)
  }

  /** A window written as `S-E` reads back as the pair (S, E). */
  lemma ParseFormatRoundTrip(s: nat, e: nat)
    ensures ParseHours(FormatHours(s, e)) == Some((s, e))
  {
    var a, b := NatToString(s), NatToString(e);
    SplitTwoPieces(a, b, '-');
    assert FormatHours(s, e) == a + ['-'] + b;
    NatToStringRoundTrip(s);
    NatToStringRoundTrip(e);
    StripUntouched(a);
    StripUntouched(b);
  }

  /** The length in hours of the window from `s` to `e`, wrapping past midnight when `e` comes before `s`. */
  function WindowLength(s: int, e: int): int {
    if s <= e then e - s else e - s + 24
  }

  /**
   * The reference reading of a window: counting hours round the clock from
   * the start hour, the display is on while fewer hours have passed than the
   * window is long. Both the plain and the wrapping branch agree with it,
   * including windows ending at 24 such as "8-24" and "0-24".
   */
  lemma ActiveIffInsideCyclicWindow(spec: string, hour: int, s: int, e: int)
    requires ParseHours(spec) == Some((s, e))
    requires 0 <= s <= 24 && 0 <= e <= 24 && 0 <= hour < 24
    ensures IsWithinOperatingHours(spec, hour) <==> (hour - s) % 24 < WindowLength(s, e)
  {
    if s <= e {
      if hour >= s {
        assert (hour - s) % 24 == hour - s;
      } else {
        assert (hour - s) % 24 == hour - s + 24;
      }
    } else {
      if hour >= s {
        assert (hour - s) % 24 == hour - s;
      } else {
        assert (hour - s) % 24 == hour - s + 24;
      }
    }
  }

  /** A window text with no `-` at all cannot be read, so the display stays on at every hour. */
  lemma NoSeparatorMeansAlwaysOn(spec: string, hour: int)
    requires forall i :: 0 <= i < |spec| ==> spec[i] != '-'
    ensures IsWithinOperatingHours(spec, hour)
  {
    SplitNoSeparator(spec, '-');
  }

  /** The overnight window "22-6" is on at 23:00 and at 05:00, and off at 10:00. */
  lemma OvernightWindowExample()
    ensures IsWithinOperatingHours("22-6", 23)
    ensures IsWithinOperatingHours("22-6", 5)
    ensures !IsWithinOperatingHours("22-6", 10)
  {
    assert FormatHours(22, 6) == "22-6";
    ParseFormatRoundTrip(22, 6);
  }

  /** The default window "8-22" is on from 08:00 up to, but not including, 22:00. */
  lemma DefaultWindowExample()
    ensures !IsWithinOperatingHours("8-22", 7)
    ensures IsWithinOperatingHours("8-22", 8)
    ensures IsWithinOperatingHours("8-22", 21)
    ensures !IsWithinOperatingHours("8-22", 22)
  {
    assert FormatHours(8, 22) == "8-22";
    ParseFormatRoundTrip(8, 22);
  }
}
