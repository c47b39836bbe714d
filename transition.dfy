/**
 * The view transition controller: a three-phase machine (idle, out, in)
 * that swaps the display between the current-weather view and the forecast
 * view. A switch starts either after a fixed display duration or, when that
 * duration is 0, a while after the tip marquee has finished scrolling. The
 * view flips at the single instant the out phase ends. Times are
 * milliseconds.
 */
module Transition {
  import opened Text

  datatype Phase = Idle | Out | In

  /** An effect name other than the two the display animates. */
  type OtherEffectName = name: string | name != "wipe" && name != "blink" witness ""

  /** The configured effect; only wipe and blink have an entry ("in") animation. */
  datatype Effect = Wipe | Blink | OtherEffect(name: OtherEffectName) {
    predicate HasEntryAnimation() {
      Wipe? || Blink?
    }
  }

  /** The effect named by the configuration string, which is lower-cased when read. */
  function EffectOf(setting: string): (e: Effect)
    ensures e == Wipe <==> Lower(setting) == "wipe"
    ensures e == Blink <==> Lower(setting) == "blink"
    ensures e.HasEntryAnimation() <==> Lower(setting) in ["wipe", "blink"]
    ensures e.OtherEffect? ==> e.name == Lower(setting)
  {
    var name := Lower(setting);
    if name == "wipe" then Wipe
    else if name == "blink" then Blink
    else OtherEffect(name)
  }

  /**
   * `transition_state`, `transition_start_time`, `last_view_switch_time`,
   * `scroll_off_event_time` and `is_showing_forecast`. A scroll-off time of
   * 0 means "not recorded".
   */
  datatype Switch = Switch(phase: Phase, start: int, lastViewSwitch: int, scrollOffTime: int, showForecast: bool)

  /** The state at program start, at clock `now`. */
  function Initial(now: int): (s: Switch)
    ensures s.phase == Idle && !s.showForecast && s.scrollOffTime == 0 && s.lastViewSwitch == now
  {
    Switch(Idle, 0, now, 0, false)
  }

  /**
   * The two entry triggers. With a positive display duration, a switch
   * starts once more than that duration has passed since the last one; with
   * a duration of 0, the moment the marquee's completion flag `fired` is
   * first seen is recorded, and a switch starts once more than `offWait`
   * has passed since then, clearing the record and the flag. Returns the new
   * state and the new completion flag.
   */
  function Schedule(s: Switch, fired: bool, now: int, displayDuration: int, offWait: int): (r: (Switch, bool))
    ensures r.0.phase == s.phase || (s.phase == Idle && r.0.phase == Out)
    ensures r.0.phase != s.phase ==> r.0.start == now
    ensures r.0.phase == s.phase ==> r.0.start == s.start && r.0.lastViewSwitch == s.lastViewSwitch
    ensures r.0.showForecast == s.showForecast
    ensures displayDuration > 0 ==>
      (r.0.phase != s.phase <==> s.phase == Idle && now - s.lastViewSwitch > displayDuration)
    ensures displayDuration > 0 && r.0.phase != s.phase ==> r.0.lastViewSwitch == now
    ensures displayDuration == 0 && r.0.phase != s.phase ==>
      (fired || s.scrollOffTime != 0) && r.0.scrollOffTime == 0 && !r.1
    ensures r.1 != fired ==> !r.1 && r.0.phase != s.phase
    ensures displayDuration < 0 ==> r == (s, fired)
    ensures displayDuration > 0 ==> r.1 == fired && r.0.scrollOffTime == s.scrollOffTime
    ensures displayDuration == 0 ==>
      var off := if fired && s.scrollOffTime == 0 then now else s.scrollOffTime;
      && (r.0.phase != s.phase <==> s.phase == Idle && off != 0 && now - off > offWait)
      && (r.0.phase == s.phase ==> r.0.scrollOffTime == off && r.1 == fired)
  {
    if displayDuration > 0 && now - s.lastViewSwitch > displayDuration && s.phase == Idle then
      (s.(phase := Out, start := now, lastViewSwitch := now), fired)
    else if displayDuration == 0 then
      var off := if fired && s.scrollOffTime == 0 then now else s.scrollOffTime;
      if off != 0 && now - off > offWait && s.phase == Idle then
        (s.(phase := Out, start := now, scrollOffTime := 0), false)
      else
        (s.(scrollOffTime := off), fired)
    else
      (s, fired)
  }

  /**
   * The marquee-driven trigger with the default one-second wait: the
   * completion seen at 10 s is recorded; one second later nothing starts
   * yet, and one millisecond after that the out phase starts and the
   * record and the flag are cleared.
   */
  lemma OffScreenWaitExample()
    ensures var (s1, f1) := Schedule(Switch(Idle, 0, 0, 0, false), true, 10_000, 0, 1_000);
      && s1 == Switch(Idle, 0, 0, 10_000, false) && f1
      && Schedule(s1, f1, 11_000, 0, 1_000) == (s1, true)
      && Schedule(s1, f1, 11_001, 0, 1_000) == (Switch(Out, 11_001, 0, 0, false), false)
  {
  }

  /**
   * The end of a phase: once at least `duration` has passed since the phase
   * started, an out phase flips the view and hands over to the in phase
   * (or straight to idle when the effect has no entry animation), and an in
   * phase returns to idle. Returns the new state and whether the marquee is
   * reset.
   */
  function Complete(s: Switch, now: int, duration: int, effect: Effect): (r: (Switch, bool))
    ensures s.phase == Idle || now - s.start < duration ==> r == (s, false)
    ensures r.0.showForecast != s.showForecast <==> s.phase == Out && now - s.start >= duration
    ensures r.1 <==> s.phase == Out && now - s.start >= duration
    ensures s.phase == Out ==> r.0.phase != Idle || !effect.HasEntryAnimation()
    ensures s.phase == Out && r.0.phase != Out ==> r.0.phase != In || effect.HasEntryAnimation()
    ensures s.phase == Out && r.0.phase == In ==> r.0.start == now
    ensures s.phase == In ==> r.0.phase != Out
    ensures r.0.phase != s.phase ==> now - s.start >= duration
    ensures r.0.lastViewSwitch == s.lastViewSwitch && r.0.scrollOffTime == s.scrollOffTime
    ensures s.phase == Out && now - s.start >= duration ==>
      r.0.phase == (if effect.HasEntryAnimation() then In else Idle) && r.0.start == now
    ensures s.phase == In && now - s.start >= duration ==> r.0.phase == Idle
  {
    if s.phase == Idle || now - s.start < duration then (s, false)
    else if s.phase == Out then
      (s.(showForecast := !s.showForecast,
          phase := if effect.HasEntryAnimation() then In else Idle,
          start := now), true)
    else
      (s.(phase := Idle), false)
  }

  /** One tick of the controller: the entry triggers, then the phase end. */
  function Step(s: Switch, fired: bool, now: int, displayDuration: int, offWait: int, duration: int, effect: Effect): (Switch, bool, bool)
  {
    var (s1, fired1) := Schedule(s, fired, now, displayDuration, offWait);
    var (s2, reset) := Complete(s1, now, duration, effect);
    (s2, fired1, reset)
  }

  /** The clock reading and the marquee's completion flag at one tick. */
  datatype Tick = Tick(now: int, fired: bool)

  /** The state after a series of ticks. */
  function Run(s: Switch, ticks: seq<Tick>, displayDuration: int, offWait: int, duration: int, effect: Effect): Switch
    decreases |ticks|
  {
    if ticks == [] then s
    else Run(Step(s, ticks[0].fired, ticks[0].now, displayDuration, offWait, duration, effect).0,
             ticks[1..], displayDuration, offWait, duration, effect)
  }

  /** How many ticks of a series enter the out phase. */
  function Entries(s: Switch, ticks: seq<Tick>, displayDuration: int, offWait: int, duration: int, effect: Effect): nat
    decreases |ticks|
  {
    if ticks == [] then 0
    else
      var s1 := Schedule(s, ticks[0].fired, ticks[0].now, displayDuration, offWait).0;
      var next := Step(s, ticks[0].fired, ticks[0].now, displayDuration, offWait, duration, effect).0;
      Indicator(s1.phase != s.phase) + Entries(next, ticks[1..], displayDuration, offWait, duration, effect)
  }

  /** How many ticks of a series flip the view. */
  function Flips(s: Switch, ticks: seq<Tick>, displayDuration: int, offWait: int, duration: int, effect: Effect): nat
    decreases |ticks|
  {
    if ticks == [] then 0
    else
      var next := Step(s, ticks[0].fired, ticks[0].now, displayDuration, offWait, duration, effect).0;
      Indicator(next.showForecast != s.showForecast) + Flips(next, ticks[1..], displayDuration, offWait, duration, effect)
  }

  /** 1 for true, 0 for false. */
  function Indicator(b: bool): nat {
    if b then 1 else 0
  }

  /**
   * One tick's balance: a flip happens only by leaving an out phase, and
   * an out phase is left only by a flip.
   */
  lemma OneTickBalance(s: Switch, fired: bool, now: int, displayDuration: int, offWait: int, duration: int, effect: Effect)
    ensures var s1 := Schedule(s, fired, now, displayDuration, offWait).0;
      var next := Step(s, fired, now, displayDuration, offWait, duration, effect).0;
      Indicator(next.showForecast != s.showForecast) + Indicator(next.phase == Out)
        == Indicator(s1.phase != s.phase) + Indicator(s.phase == Out)
  {
  }

  /**
   * The view flips exactly once per out phase: over any series of ticks,
   * the flips equal the out phases entered, plus one if the series starts
   * inside an out phase, minus one if it ends inside one.
   */
  lemma {:induction false} OneFlipPerOutPhase(s: Switch, ticks: seq<Tick>, displayDuration: int, offWait: int, duration: int, effect: Effect)
    ensures Flips(s, ticks, displayDuration, offWait, duration, effect)
              + Indicator(Run(s, ticks, displayDuration, offWait, duration, effect).phase == Out)
            == Entries(s, ticks, displayDuration, offWait, duration, effect) + Indicator(s.phase == Out)
    decreases |ticks|
  {
    if ticks != [] {
      var t := ticks[0];
      var next := Step(s, t.fired, t.now, displayDuration, offWait, duration, effect).0;
      OneTickBalance(s, t.fired, t.now, displayDuration, offWait, duration, effect);
      OneFlipPerOutPhase(next, ticks[1..], displayDuration, offWait, duration, effect);
    }
  }

  /** The view shown after a series of ticks is the starting view flipped as many times as the series flips it. */
  lemma {:induction false} FlipsDecideView(s: Switch, ticks: seq<Tick>, displayDuration: int, offWait: int, duration: int, effect: Effect)
    ensures Run(s, ticks, displayDuration, offWait, duration, effect).showForecast == s.showForecast
            <==> Flips(s, ticks, displayDuration, offWait, duration, effect) % 2 == 0
    decreases |ticks|
  {
    if ticks != [] {
      var t := ticks[0];
      var next := Step(s, t.fired, t.now, displayDuration, offWait, duration, effect).0;
      FlipsDecideView(next, ticks[1..], displayDuration, offWait, duration, effect);
    }
  }

  /**
   * The drawn background during a transition. Both phases pick the
   * background of the view the selector names at that moment.
   */
  function TransitionBackground<B>(phase: Phase, showForecast: bool, currentBg: B, forecastBg: B): (b: B)
    ensures showForecast ==> b == forecastBg
    ensures !showForecast ==> b == currentBg
  {
    if phase == Out then (if showForecast then forecastBg else currentBg)
    else (if showForecast then forecastBg else currentBg)
  }

  /**
   * Why selecting by the same rule in both phases still shows the right
   * views: the selector does not move while the out phase runs, and it has
   * already flipped when the in phase starts. So out frames show the view
   * being left and in frames the view being entered.
   */
  lemma OutShowsOldViewInShowsNew<B>(s: Switch, now: int, duration: int, effect: Effect, currentBg: B, forecastBg: B)
    requires s.phase == Out
    ensures var next := Complete(s, now, duration, effect).0;
      && (next.phase == Out ==>
            TransitionBackground(next.phase, next.showForecast, currentBg, forecastBg)
            == TransitionBackground(Out, s.showForecast, currentBg, forecastBg))
      && (next.phase == In ==>
            TransitionBackground(next.phase, next.showForecast, currentBg, forecastBg)
            == TransitionBackground(In, !s.showForecast, currentBg, forecastBg))
  {
  }

  /**
   * Wipe: the left edge of the black curtain at `elapsed` of `duration`.
   * Going out, the curtain grows from the right edge over `elapsed/duration`
   * of the width; coming in, its left edge moves right by that share.
   */
  function WipeCurtainLeft(phase: Phase, width: nat, elapsed: int, duration: int): (x: int)
    requires duration > 0 && 0 <= elapsed < duration
    ensures 0 <= x <= width
    ensures elapsed == 0 ==> x == (if phase == Out then width else 0)
  {
    ScaledBelow(width, elapsed, duration);
    if phase == Out then width - width * elapsed / duration else width * elapsed / duration
  }

  lemma MulMonotone(x: int, y: int, k: nat)
    requires x <= y
    ensures x * k <= y * k
  {
    assert y * k - x * k == (y - x) * k;
  }

  lemma DivMonotone(a: int, b: int, d: int)
    requires d > 0 && a <= b
    ensures a / d <= b / d
  {
    var q1, q2 := a / d, b / d;
    assert a == q1 * d + a % d;
    assert b == q2 * d + b % d;
    assert (q2 + 1) * d == q2 * d + d;
    if q1 > q2 {
      MulMonotone(q2 + 1, q1, d);
    }
  }

  lemma MulDivCancel(c: nat, d: int)
    requires d > 0
    ensures c * d / d == c
  {
    var q := c * d / d;
    assert c * d == q * d + c * d % d;
    assert (q + 1) * d == q * d + d;
    assert (c + 1) * d == c * d + d;
    if q < c {
      MulMonotone(q + 1, c, d);
    } else if q > c {
      MulMonotone(c + 1, q, d);
    }
  }

  /** `width * part / whole` stays between 0 and `width` when the part is a share of the whole. */
  lemma ScaledBelow(width: nat, part: int, whole: int)
    requires whole > 0 && 0 <= part <= whole
    ensures 0 <= width * part / whole <= width
  {
    MulMonotone(part, whole, width);
    assert part * width == width * part && whole * width == width * whole;
    DivMonotone(width * part, width * whole, whole);
    assert width * whole == width * whole;
    MulDivCancel(width, whole);
    DivMonotone(0, width * part, whole);
  }

  lemma ScaledMonotone(width: nat, e1: int, e2: int, duration: int)
    requires duration > 0 && 0 <= e1 <= e2
    ensures width * e1 / duration <= width * e2 / duration
  {
    MulMonotone(e1, e2, width);
    assert e1 * width == width * e1 && e2 * width == width * e2;
    DivMonotone(width * e1, width * e2, duration);
  }

  /**
   * The curtain only moves one way in each phase: going out it covers more
   * and more of the screen, coming in less and less.
   */
  lemma WipeCurtainMonotone(phase: Phase, width: nat, e1: int, e2: int, duration: int)
    requires duration > 0 && 0 <= e1 <= e2 < duration
    ensures phase == Out ==> WipeCurtainLeft(phase, width, e1, duration) >= WipeCurtainLeft(phase, width, e2, duration)
    ensures phase != Out ==> WipeCurtainLeft(phase, width, e1, duration) <= WipeCurtainLeft(phase, width, e2, duration)
  {
    ScaledMonotone(width, e1, e2, duration);
  }

  /** Halfway through an out wipe of a 256-pixel display, the curtain covers exactly half the width. */
  lemma WipeHalfwayExample()
    ensures WipeCurtainLeft(Out, 256, 100, 200) == 128
  {
  }

  /**
   * Blink: half the width (or height) of the window left visible around the
   * screen centre `centre`, at `elapsed` of `duration`. Going out the window
   * closes from the whole screen towards the centre; coming in it opens again.
   */
  function BlinkHalfOpening(phase: Phase, centre: nat, elapsed: int, duration: int): (h: int)
    requires duration > 0 && 0 <= elapsed < duration
    ensures 0 <= h <= centre
    ensures phase == Out && elapsed == 0 ==> h == centre
  {
    ScaledBelow(centre, duration - elapsed, duration);
    ScaledBelow(centre, elapsed, duration);
    MulDivCancel(centre, duration);
    if phase == Out then centre * (duration - elapsed) / duration else centre * elapsed / duration
  }

  /** The in phase plays the out phase backwards: the opening at `elapsed` coming in is the opening at `duration - elapsed` going out. */
  lemma BlinkInMirrorsOut(centre: nat, elapsed: int, duration: int)
    requires duration > 0 && 0 < elapsed < duration
    ensures BlinkHalfOpening(In, centre, elapsed, duration) == BlinkHalfOpening(Out, centre, duration - elapsed, duration)
  {
  }
}
