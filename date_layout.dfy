/**
 * The header date and the layout fitter that chooses it
 * (`get_ordinal_suffix`, `get_display_date_str`). Three renderings of the
 * date are tried, most informative first; the first whose width leaves room
 * for the clock and, when shown, the umbrella icon is used, and the last is
 * used when none leaves room.
 */
module DateLayout {
  import opened Text

  /** English ordinal suffix of a day of the month, as the header writes it. */
  function OrdinalSuffix(day: int): (s: string)
    ensures s == "st" <==> day % 10 == 1 && !(11 <= day <= 13)
    ensures s == "nd" <==> day % 10 == 2 && !(11 <= day <= 13)
    ensures s == "rd" <==> day % 10 == 3 && !(11 <= day <= 13)
    ensures s == "th" <==> 11 <= day <= 13 || !(1 <= day % 10 <= 3)
  {
    if 11 <= day <= 13 then "th"
    else if day % 10 == 1 then "st"
    else if day % 10 == 2 then "nd"
    else if day % 10 == 3 then "rd"
    else "th"
  }

  /** The school-book rule: "th" whenever the tens digit is 1, otherwise by the last digit. */
  function EnglishOrdinalSuffix(n: nat): string {
    if (n / 10) % 10 == 1 then "th"
    else if n % 10 == 1 then "st"
    else if n % 10 == 2 then "nd"
    else if n % 10 == 3 then "rd"
    else "th"
  }

  /** For every number below 100, and so for every day of a month, the suffix follows the school-book rule. */
  lemma OrdinalSuffixIsEnglish(n: nat)
    requires n < 100
    ensures OrdinalSuffix(n) == EnglishOrdinalSuffix(n)
  {
    if 10 <= n < 20 {
      assert n / 10 == 1;
    } else if n < 10 {
      assert n / 10 == 0;
    } else {
      assert 2 <= n / 10 <= 9;
    }
  }

  /** Beyond the days of a month the two rules part: 111 is written "111st". */
  lemma OrdinalSuffixDiffersAt111()
    ensures OrdinalSuffix(111) == "st" && EnglishOrdinalSuffix(111) == "th"
  {
    assert (111 / 10) % 10 == 1;
  }

  /** `DAY_ABBREVIATIONS.get(name, '----')`. */
  function AbbreviateDay(fullName: string): (r: string)
    ensures IsWeekdayName(fullName) ==> |r| < |fullName|
    ensures !IsWeekdayName(fullName) ==> r == "----"
  {
    match fullName
    case "Monday" => "Mon"
    case "Tuesday" => "Tues"
    case "Wednesday" => "Weds"
    case "Thursday" => "Thur"
    case "Friday" => "Fri"
    case "Saturday" => "Sat"
    case "Sunday" => "Sun"
    case _ => "----"
  }

  predicate IsWeekdayName(s: string) {
    s in {"Monday", "Tuesday", "Wednesday", "Thursday", "Friday", "Saturday", "Sunday"}
  }

  /** The parts of the current date the header uses: the day number and the locale's names. */
  datatype DateParts = DateParts(day: nat, weekday: string, month: string, year: string)

  /** `"<day><suffix> <month>"`, the part all three renderings share. */
  function DayAndMonth(d: DateParts): string {
    NatToString(d.day) + OrdinalSuffix(d.day) + " " + d.month
  }

  /**
   * The three renderings, most informative first: full weekday with year,
   * full weekday without year, abbreviated weekday without year.
   */
  function DateCandidates(d: DateParts): (cs: seq<string>)
    ensures |cs| == 3
    ensures cs[0] == cs[1] + " " + d.year
    ensures cs[1] == d.weekday + ", " + DayAndMonth(d)
    ensures cs[2] == AbbreviateDay(d.weekday) + ", " + DayAndMonth(d)
    ensures |cs[0]| > |cs[1]|
    ensures IsWeekdayName(d.weekday) ==> |cs[1]| > |cs[2]|
  {
    var dayAndMonth := DayAndMonth(d);
    var withWeekday := d.weekday + ", " + dayAndMonth;
    [withWeekday + " " + d.year, withWeekday, AbbreviateDay(d.weekday) + ", " + dayAndMonth]
  }

  /** Room the umbrella icon needs: its width plus a 10-pixel margin, or none when it is hidden. */
  function IconSpace(umbrellaVisible: bool, umbrellaWidth: nat): (r: nat)
    ensures umbrellaVisible ==> r == umbrellaWidth + 10
    ensures !umbrellaVisible ==> r == 0
  {
    if umbrellaVisible then umbrellaWidth + 10 else 0
  }

  /**
   * A rendering of width `measure(s)` placed flush right on a display
   * `deviceWidth` wide leaves at least `iconSpace` pixels between itself and
   * the widest possible clock.
   */
  predicate Fits(measure: string -> nat, deviceWidth: int, maxClockWidth: int, iconSpace: int, s: string) {
    (deviceWidth - measure(s)) - maxClockWidth >= iconSpace
  }

  /**
   * The layout rule: `r` is one of the renderings of `d`; if it fits beside
   * the clock and an icon space of `gap`, no earlier rendering fits; if it
   * does not fit, none fits and it is the last rendering.
   */
  predicate ChosenDate(d: DateParts, gap: int, measure: string -> nat, deviceWidth: int, maxClockWidth: int, r: string) {
    var cs := DateCandidates(d);
    && r in cs
    && (Fits(measure, deviceWidth, maxClockWidth, gap, r) ==>
          exists k :: 0 <= k < |cs| && cs[k] == r && forall j :: 0 <= j < k ==> !Fits(measure, deviceWidth, maxClockWidth, gap, cs[j]))
    && (!Fits(measure, deviceWidth, maxClockWidth, gap, r) ==>
          r == cs[|cs| - 1] && forall j :: 0 <= j < |cs| ==> !Fits(measure, deviceWidth, maxClockWidth, gap, cs[j]))
  }

  /** The layout rule leaves no choice: at most one rendering satisfies it. */
  lemma ChosenDateIsUnique(d: DateParts, gap: int, measure: string -> nat, deviceWidth: int, maxClockWidth: int, r1: string, r2: string)
    requires ChosenDate(d, gap, measure, deviceWidth, maxClockWidth, r1)
    requires ChosenDate(d, gap, measure, deviceWidth, maxClockWidth, r2)
    ensures r1 == r2
  {
    var cs := DateCandidates(d);
    var fit1 := Fits(measure, deviceWidth, maxClockWidth, gap, r1);
    var fit2 := Fits(measure, deviceWidth, maxClockWidth, gap, r2);
    if fit1 && fit2 {
      var k1 :| 0 <= k1 < |cs| && cs[k1] == r1 && forall j :: 0 <= j < k1 ==> !Fits(measure, deviceWidth, maxClockWidth, gap, cs[j]);
      var k2 :| 0 <= k2 < |cs| && cs[k2] == r2 && forall j :: 0 <= j < k2 ==> !Fits(measure, deviceWidth, maxClockWidth, gap, cs[j]);
      assert Fits(measure, deviceWidth, maxClockWidth, gap, cs[k1]);
      assert Fits(measure, deviceWidth, maxClockWidth, gap, cs[k2]);
      assert k1 == k2;
    }
  }

  /**
   * `get_display_date_str`: the first rendering that fits, or the last one
   * when none does. `measure` is the width the header font gives a text.
   */
  method DisplayDateString(d: DateParts, umbrellaVisible: bool, umbrellaWidth: nat,
                           measure: string -> nat, deviceWidth: int, maxClockWidth: int)
    returns (r: string)
    ensures ChosenDate(d, IconSpace(umbrellaVisible, umbrellaWidth), measure, deviceWidth, maxClockWidth, r)
  {
    var formats := DateCandidates(d);
    var iconSpaceNeeded := IconSpace(umbrellaVisible, umbrellaWidth);
    r := formats[|formats| - 1];
    var i := 0;
    while i < |formats|
      invariant 0 <= i <= |formats|
      invariant r == formats[|formats| - 1]
      invariant forall j :: 0 <= j < i ==> !Fits(measure, deviceWidth, maxClockWidth, iconSpaceNeeded, formats[j])
    {
      var dateWidth := measure(formats[i]);
      var availableGap := (deviceWidth - dateWidth) - maxClockWidth;
      if availableGap >= iconSpaceNeeded {
        r := formats[i];
        return;
      }
      i := i + 1;
    }
  }
}
