/**
 * The frame loop of the display: the process-wide animation, transition,
 * refresh and header state, advanced one tick at a time by `Tick`. Each
 * tick checks the operating hours, refreshes stale data, runs the view
 * transition controller, and draws either a transition frame (marquee
 * frozen) or a steady frame (marquee advanced). One clock reading `now`, in
 * milliseconds, serves the whole tick.
 */
module Display {
  import opened Wrappers
  import opened Text
  import opened RasterCache
  import Marquee
  import opened Transition
  import opened Refresh
  import opened DateLayout
  import OperatingHours

  /** The configuration the loop reads, with durations in milliseconds. */
  datatype Config = Config(
    location: string,
    updateInterval: int,
    forceRefresh: bool,
    displayDuration: int,
    scrollPause: int,
    offScreenWait: int,
    transitionDuration: int,
    effect: Effect,
    showUmbrella: bool,
    debug: bool,
    operatingHours: string,
    deviceWidth: nat,
    maxClockWidth: int,
    umbrellaWidth: Option<nat>)

  /**
   * The defaults of the environment configuration on a 256-pixel-wide
   * display. The clock width and the umbrella icon come from the fonts and
   * the icon file.
   */
  function DefaultConfig(maxClockWidth: int, umbrellaWidth: Option<nat>): (c: Config)
    ensures c.updateInterval == 1_800_000 && c.displayDuration == 0
    ensures c.scrollPause == 2_000 && c.offScreenWait == 1_000 && c.transitionDuration == 200
    ensures c.effect == Wipe && c.operatingHours == "8-22" && c.deviceWidth == 256
  {
    Config("London", 1_800_000, false, 0, 2_000, 1_000, 200, Wipe, true, false, "8-22", 256, maxClockWidth, umbrellaWidth)
  }

  /** The umbrella icon is shown when enabled and loaded, and the tip mentions an umbrella (or in debug mode). */
  function UmbrellaVisible(cfg: Config, tip: string): (v: bool)
    ensures v ==> cfg.showUmbrella && cfg.umbrellaWidth.Some?
    ensures v ==> Contains(Lower(tip), "umbrella") || cfg.debug
    ensures cfg.showUmbrella && cfg.umbrellaWidth.Some? && Contains(Lower(tip), "umbrella") ==> v
    ensures cfg.showUmbrella && cfg.umbrellaWidth.Some? && cfg.debug ==> v
  {
    cfg.showUmbrella && cfg.umbrellaWidth.Some? && (Contains(Lower(tip), "umbrella") || cfg.debug)
  }

  /**
   * Whether a frame carries the forecast title: the drawn background is
   * compared by identity with the forecast background.
   */
  function IsForecastView(background: Option<nat>, forecastBg: Option<nat>): bool {
    background == forecastBg
  }

  /**
   * The forecast title is shown in the forecast view, and also in the
   * current-weather view while neither view has a background yet.
   */
  lemma ForecastTitleWithoutBackgrounds(showForecast: bool, currentBg: Option<nat>, forecastBg: Option<nat>)
    requires currentBg.Some? && forecastBg.Some? ==> currentBg.value != forecastBg.value
    ensures IsForecastView(if showForecast then forecastBg else currentBg, forecastBg)
      <==> showForecast || (currentBg.None? && forecastBg.None?)
  {
  }

  /** What one tick put on the screen. */
  datatype Frame =
    | Asleep
    | NoFrame
    | Steady(background: Option<nat>, header: string, tipOffset: Option<(int, int)>)
    | TransitionFrame(phase: Phase, elapsed: int, background: Option<nat>, header: string, tipOffset: Option<(int, int)>)

  /** The results of the fetches a refresh would make at this tick. */
  datatype Fetched = Fetched(weather: Reply, forecast: Reply, tip: string)

  class App {
    const cfg: Config
    /** The small font's extent for a text, as the raster memo table answers it. */
    const tipExtent: string -> Extent
    /** The header font's width for a text, as the raster memo table answers it. */
    const headerWidth: string -> nat

    /** The five marquee variables. */
    var marquee: Marquee.Marquee
    /** The five view transition variables. */
    var switch: Switch
    // refreshed data; backgrounds are identified by the serial of their render
    var lastUpdate: int
    var weather: Option<Record>
    var forecast: Option<Record>
    var tip: string
    var currentBg: Option<nat>
    var forecastBg: Option<nat>
    var renders: nat
    // per-day header date
    var cachedDateStr: string
    var cachedDateDay: int

    /**
     * The marquee is consistent with the current tip, except that while a
     * switch driven by the marquee is in its out phase the completion flag
     * has already been cleared.
     */
    ghost predicate MarqueeFitsTip()
      reads this
    {
      var ext := tipExtent(tip);
      if switch.phase == Out then Marquee.Inv(marquee, ext) || Marquee.Inv(marquee.(fired := true), ext)
      else Marquee.Inv(marquee, ext)
    }

    /** Distinct renders have distinct serials. */
    ghost predicate BackgroundsDistinct()
      reads this
    {
      && (currentBg.Some? ==> currentBg.value < renders)
      && (forecastBg.Some? ==> forecastBg.value < renders)
      && (currentBg.Some? && forecastBg.Some? ==> currentBg.value != forecastBg.value)
    }

    /** The state invariant; an in phase exists only for effects with an entry animation. */
    ghost predicate Valid()
      reads this
    {
      && (switch.phase == In ==> cfg.effect.HasEntryAnimation())
      && MarqueeFitsTip()
      && BackgroundsDistinct()
    }

    /**
     * Start-up at clock `now`: seed the refresh state from the weather cache
     * file, load the forecast cache file, render the backgrounds of what was
     * loaded, and start on the current-weather view.
     */
    constructor (cfg: Config, tipExtent: string -> Extent, headerWidth: string -> nat, now: int,
                 weatherFile: Option<CacheFile>, forecastFile: Option<Record>)
      ensures Valid()
      ensures this.cfg == cfg && this.tipExtent == tipExtent && this.headerWidth == headerWidth
      ensures var seeded := Seed(weatherFile, cfg.forceRefresh);
        weather == seeded.weather && lastUpdate == seeded.lastUpdate && tip == seeded.tip
      ensures forecast == forecastFile
      ensures currentBg.Some? <==> weather.Some?
      ensures forecastBg.Some? <==> forecast.Some?
      ensures marquee == Marquee.Initial
      ensures switch == Transition.Initial(now)
      ensures cachedDateStr == "" && cachedDateDay == -1
    {
      this.cfg := cfg;
      this.tipExtent := tipExtent;
      this.headerWidth := headerWidth;
      marquee := Marquee.Initial;
      switch := Switch(Idle, 0, now, 0, false);
      var seeded := Seed(weatherFile, cfg.forceRefresh);
      weather, lastUpdate, tip := seeded.weather, seeded.lastUpdate, seeded.tip;
      forecast := forecastFile;
      var serial: nat := 0;
      var current: Option<nat> := None;
      var fore: Option<nat> := None;
      if seeded.weather.Some? {
        current, serial := Some(serial), serial + 1;
      }
      if forecastFile.Some? {
        fore, serial := Some(serial), serial + 1;
      }
      currentBg, forecastBg, renders := current, fore, serial;
      cachedDateStr, cachedDateDay := "", -1;
    }

    /** Whether a refresh at `now` with these fetch results would accept a new tip, and so reset the marquee. */
    predicate RefreshAcceptsTip(now: int, fetched: Fetched)
      reads this
    {
      IsStale(now, lastUpdate, cfg.updateInterval) && fetched.weather.Body? && NextTip(tip, fetched.tip) != tip
    }

    /**
     * A weather document arrived: it replaces the cached one; the fetched
     * tip replaces the shown one under the tip rule, resetting the marquee;
     * the document is saved with the tip unless the tip is a placeholder,
     * and its background is rendered afresh.
     */
    method StoreWeather(doc: Record, fetchedTip: string) returns (saved: SavedWeather)
      requires Valid()
      modifies this
      ensures Valid()
      ensures weather == Some(doc)
      ensures tip == NextTip(old(tip), fetchedTip)
      ensures marquee == (if tip != old(tip) then Marquee.Reset(old(marquee)) else old(marquee))
      ensures saved == SavedWeather(lastUpdate, doc, SavedTip(tip))
      ensures currentBg == Some(old(renders)) && renders == old(renders) + 1
      ensures switch == old(switch) && lastUpdate == old(lastUpdate)
      ensures forecast == old(forecast) && forecastBg == old(forecastBg)
      ensures cachedDateStr == old(cachedDateStr) && cachedDateDay == old(cachedDateDay)
    {
      weather := Some(doc);
      if fetchedTip != "" && fetchedTip != tip && !IsUnavailable(fetchedTip) {
        tip := fetchedTip;
        marquee := marquee.(pixelsUp := 0, hasElevated := false, scrollX := 0, fired := false);
      }
      var keptTip := if !IsUnavailable(tip) && !Contains(tip, "Fetching") then Some(tip) else None;
      saved := SavedWeather(lastUpdate, doc, keptTip);
      currentBg, renders := Some(renders), renders + 1;
    }

    /** A forecast document arrived: it replaces the cached one and its background is rendered afresh. */
    method StoreForecast(doc: Record)
      requires Valid()
      modifies this
      ensures Valid()
      ensures forecast == Some(doc)
      ensures forecastBg == Some(old(renders)) && renders == old(renders) + 1
      ensures marquee == old(marquee) && switch == old(switch)
      ensures lastUpdate == old(lastUpdate) && weather == old(weather) && tip == old(tip) && currentBg == old(currentBg)
      ensures cachedDateStr == old(cachedDateStr) && cachedDateDay == old(cachedDateDay)
    {
      forecast := Some(doc);
      forecastBg, renders := Some(renders), renders + 1;
    }

    /**
     * The refresh step of a tick. When the data is stale, the weather and
     * forecast results are applied independently: any weather response
     * that passes `raise_for_status` after the retries (status below 400)
     * moves the last update to `now`, a weather document is
     * stored with the fetched tip and saved, and a forecast document is
     * stored and saved.
     */
    method Refresh(now: int, fetched: Fetched) returns (saved: Option<SavedWeather>, savedForecast: Option<Record>)
      requires Valid()
      modifies this
      ensures Valid()
      ensures switch == old(switch)
      ensures cachedDateStr == old(cachedDateStr) && cachedDateDay == old(cachedDateDay)
      ensures !IsStale(now, old(lastUpdate), cfg.updateInterval) ==>
        && saved.None? && savedForecast.None?
        && lastUpdate == old(lastUpdate) && weather == old(weather) && forecast == old(forecast) && tip == old(tip)
        && currentBg == old(currentBg) && forecastBg == old(forecastBg)
      ensures IsStale(now, old(lastUpdate), cfg.updateInterval) ==>
        && lastUpdate == (if fetched.weather.NoReply? then old(lastUpdate) else now)
        && weather == (if fetched.weather.Body? then Some(fetched.weather.doc) else old(weather))
        && tip == (if fetched.weather.Body? then NextTip(old(tip), fetched.tip) else old(tip))
        && saved == (if fetched.weather.Body? then Some(SavedWeather(now, fetched.weather.doc, SavedTip(tip))) else None)
        && (fetched.weather.Body? <==> currentBg != old(currentBg))
        && forecast == (if fetched.forecast.Body? then Some(fetched.forecast.doc) else old(forecast))
        && savedForecast == (if fetched.forecast.Body? then Some(fetched.forecast.doc) else None)
        && (fetched.forecast.Body? <==> forecastBg != old(forecastBg))
      ensures marquee == (if old(RefreshAcceptsTip(now, fetched)) then Marquee.Reset(old(marquee)) else old(marquee))
    {
      saved, savedForecast := None, None;
      if now - lastUpdate > cfg.updateInterval {
        if !fetched.weather.NoReply? {
          lastUpdate := now;
        }
        if fetched.weather.Body? {
          var s := StoreWeather(fetched.weather.doc, fetched.tip);
          saved := Some(s);
        }
        if fetched.forecast.Body? {
          StoreForecast(fetched.forecast.doc);
          savedForecast := Some(fetched.forecast.doc);
        }
      }
    }

    /** The entry triggers of the transition controller, at clock `now`. */
    method ScheduleTransition(now: int)
      requires Valid()
      modifies this
      ensures Valid()
      ensures (switch, marquee.fired) == Schedule(old(switch), old(marquee.fired), now, cfg.displayDuration, cfg.offScreenWait)
      ensures marquee == old(marquee).(fired := marquee.fired)
      ensures lastUpdate == old(lastUpdate) && weather == old(weather) && forecast == old(forecast) && tip == old(tip)
      ensures currentBg == old(currentBg) && forecastBg == old(forecastBg) && renders == old(renders)
      ensures cachedDateStr == old(cachedDateStr) && cachedDateDay == old(cachedDateDay)
    {
      var duration := cfg.displayDuration;
      if duration > 0 && now - switch.lastViewSwitch > duration && switch.phase == Idle {
        switch := switch.(phase := Out, start := now, lastViewSwitch := now);
      } else if duration == 0 {
        if marquee.fired && switch.scrollOffTime == 0 {
          switch := switch.(scrollOffTime := now);
        }
        if switch.scrollOffTime != 0 && now - switch.scrollOffTime > cfg.offScreenWait && switch.phase == Idle {
          switch := switch.(phase := Out, start := now, scrollOffTime := 0);
          marquee := marquee.(fired := false);
        }
      }
    }

    /**
     * The end of a running phase, once the transition duration has passed:
     * the out phase flips the view, resets the marquee and hands over to the
     * in phase or to idle; the in phase returns to idle.
     */
    method EndPhase(now: int)
      requires Valid()
      requires switch.phase != Idle && now - switch.start >= cfg.transitionDuration
      modifies this
      ensures Valid()
      ensures var (s, reset) := Complete(old(switch), now, cfg.transitionDuration, cfg.effect);
        && switch == s
        && marquee == (if reset then Marquee.Reset(old(marquee)) else old(marquee))
      ensures lastUpdate == old(lastUpdate) && weather == old(weather) && forecast == old(forecast) && tip == old(tip)
      ensures currentBg == old(currentBg) && forecastBg == old(forecastBg) && renders == old(renders)
      ensures cachedDateStr == old(cachedDateStr) && cachedDateDay == old(cachedDateDay)
    {
      if switch.phase == Out {
        marquee := marquee.(pixelsUp := 0, hasElevated := false, scrollX := 0, fired := false);
        switch := switch.(showForecast := !switch.showForecast,
                          phase := if cfg.effect.HasEntryAnimation() then In else Idle,
                          start := now);
      } else {
        switch := switch.(phase := Idle);
      }
    }

    /** The space the date string leaves for the umbrella icon with the current tip. */
    function HeaderGap(): int
      reads this
    {
      IconSpace(UmbrellaVisible(cfg, tip), cfg.umbrellaWidth.GetOr(0))
    }

    /**
     * `header` is the header drawn over `background` on `date`, given the
     * date cache `oldDateStr`/`oldDateDay` before the frame: the forecast
     * title over the forecast background (cache untouched); otherwise the
     * cached date string, kept on the same day and re-chosen by the layout
     * rule (beside the clock and the umbrella gap) on a new day.
     */
    ghost predicate DrewHeader(date: DateParts, background: Option<nat>, header: string, oldDateStr: string, oldDateDay: int)
      reads this
    {
      if IsForecastView(background, forecastBg) then
        header == cfg.location + " 24h forecast" && cachedDateStr == oldDateStr && cachedDateDay == oldDateDay
      else
        && header == cachedDateStr && cachedDateDay == date.day
        && (date.day == oldDateDay ==> cachedDateStr == oldDateStr)
        && (date.day != oldDateDay ==>
              ChosenDate(date, HeaderGap(), headerWidth, cfg.deviceWidth, cfg.maxClockWidth, cachedDateStr))
    }

    /**
     * The header of a frame over `background`: the forecast title over the
     * forecast background, otherwise the date string, recomputed (and
     * fitted beside the clock and the umbrella icon) only when the day of
     * the month has changed since it was last computed.
     */
    method Header(date: DateParts, background: Option<nat>) returns (header: string)
      modifies this
      ensures DrewHeader(date, background, header, old(cachedDateStr), old(cachedDateDay))
      ensures marquee == old(marquee) && switch == old(switch)
      ensures lastUpdate == old(lastUpdate) && weather == old(weather) && forecast == old(forecast) && tip == old(tip)
      ensures currentBg == old(currentBg) && forecastBg == old(forecastBg) && renders == old(renders)
    {
      var umbrellaVisible := UmbrellaVisible(cfg, tip);
      if background == forecastBg {
        header := cfg.location + " 24h forecast";
      } else {
        if date.day != cachedDateDay {
          cachedDateStr := DisplayDateString(date, umbrellaVisible, cfg.umbrellaWidth.GetOr(0), headerWidth, cfg.deviceWidth, cfg.maxClockWidth);
          cachedDateDay := date.day;
        }
        header := cachedDateStr;
      }
    }

    /**
     * The tip marquee of a frame at clock `now`: it advances one frame
     * unless a transition is being drawn. Returns where the tip bitmap is
     * pasted in its viewport, or nothing when there is no tip.
     */
    method AnimateTip(now: int, transitioning: bool) returns (tipOffset: Option<(int, int)>)
      requires Valid()
      requires !transitioning ==> switch.phase == Idle
      modifies this
      ensures Valid()
      ensures marquee ==
        (if tip != "" && !transitioning then Marquee.Advance(old(marquee), now, tipExtent(tip), cfg.scrollPause)
         else old(marquee))
      ensures tipOffset == (if tip != "" then Some(Marquee.PasteOffset(marquee, tipExtent(tip))) else None)
      ensures tipOffset.Some? ==> var ext := tipExtent(tip);
        -(ext.width + 1) <= tipOffset.value.0 <= 0 && 0 <= tipOffset.value.1 <= ext.height
      ensures switch == old(switch)
      ensures lastUpdate == old(lastUpdate) && weather == old(weather) && forecast == old(forecast) && tip == old(tip)
      ensures currentBg == old(currentBg) && forecastBg == old(forecastBg) && renders == old(renders)
      ensures cachedDateStr == old(cachedDateStr) && cachedDateDay == old(cachedDateDay)
    {
      tipOffset := None;
      if tip != "" {
        var ext := tipExtent(tip);
        if !transitioning {
          var m := marquee;
          if m.pixelsUp < ext.height {
            m := m.(pixelsUp := m.pixelsUp + 1);
          } else if !m.hasElevated {
            m := m.(hasElevated := true, pauseTimer := now);
          }
          if m.hasElevated && now - m.pauseTimer > cfg.scrollPause && !m.fired {
            m := m.(scrollX := m.scrollX + 1);
            if m.scrollX > ext.width {
              m := m.(fired := true);
            }
          }
          marquee := m;
        }
        tipOffset := Some((-marquee.scrollX, ext.height - marquee.pixelsUp));
      }
    }

    /**
     * What a tick does after the entry triggers: a running phase whose
     * duration is over ends without drawing; a running phase otherwise draws
     * a transition frame over the background of its view with the marquee
     * frozen; with no transition running, a steady frame is drawn over the
     * background of the view shown and the marquee advances.
     */
    method Present(now: int, date: DateParts) returns (frame: Frame)
      requires Valid()
      modifies this
      ensures Valid()
      ensures switch == Complete(old(switch), now, cfg.transitionDuration, cfg.effect).0
      ensures frame.NoFrame? <==> old(switch.phase) != Idle && now - old(switch.start) >= cfg.transitionDuration
      ensures frame.Steady? <==> old(switch.phase) == Idle
      ensures frame != Asleep
      ensures frame.Steady? ==> frame.background == (if switch.showForecast then forecastBg else currentBg)
      ensures frame.TransitionFrame? ==>
        && frame.phase == switch.phase && frame.phase != Idle
        && frame.elapsed == now - switch.start && frame.elapsed < cfg.transitionDuration
        && frame.background == TransitionBackground(switch.phase, switch.showForecast, currentBg, forecastBg)
        && switch == old(switch)
      ensures frame.NoFrame? ==>
        && marquee == (if Complete(old(switch), now, cfg.transitionDuration, cfg.effect).1 then Marquee.Reset(old(marquee)) else old(marquee))
        && cachedDateStr == old(cachedDateStr) && cachedDateDay == old(cachedDateDay)
      ensures frame.TransitionFrame? ==> marquee == old(marquee)
      ensures frame.Steady? ==>
        marquee == (if tip != "" then Marquee.Advance(old(marquee), now, tipExtent(tip), cfg.scrollPause) else old(marquee))
      ensures frame.Steady? || frame.TransitionFrame? ==>
        && frame.tipOffset == (if tip != "" then Some(Marquee.PasteOffset(marquee, tipExtent(tip))) else None)
        && DrewHeader(date, frame.background, frame.header, old(cachedDateStr), old(cachedDateDay))
      ensures lastUpdate == old(lastUpdate) && weather == old(weather) && forecast == old(forecast) && tip == old(tip)
      ensures currentBg == old(currentBg) && forecastBg == old(forecastBg) && renders == old(renders)
    {
      if switch.phase != Idle {
        var elapsed := now - switch.start;
        if elapsed >= cfg.transitionDuration {
          EndPhase(now);
          frame := NoFrame;
        } else {
          var bg := TransitionBackground(switch.phase, switch.showForecast, currentBg, forecastBg);
          var header := Header(date, bg);
          var tipOffset := AnimateTip(now, true);
          frame := TransitionFrame(switch.phase, elapsed, bg, header, tipOffset);
        }
      } else {
        var bg := if switch.showForecast then forecastBg else currentBg;
        var header := Header(date, bg);
        var tipOffset := AnimateTip(now, false);
        frame := Steady(bg, header, tipOffset);
      }
    }

    /**
     * One pass of the frame loop at clock `now` and local hour `hour`, with
     * `date` the current date and `fetched` what the fetches return if a
     * refresh is due. Returns what was drawn and what was written to the two
     * cache files.
     */
    method Tick(now: int, hour: int, date: DateParts, fetched: Fetched)
      returns (frame: Frame, saved: Option<SavedWeather>, savedForecast: Option<Record>)
      requires Valid()
      modifies this
      ensures Valid()
      ensures !OperatingHours.IsWithinOperatingHours(cfg.operatingHours, hour) ==>
        frame == Asleep && saved.None? && savedForecast.None?
        && marquee == old(marquee) && switch == old(switch)
        && lastUpdate == old(lastUpdate) && tip == old(tip) && weather == old(weather) && forecast == old(forecast)
        && currentBg == old(currentBg) && forecastBg == old(forecastBg) && renders == old(renders)
      ensures frame == Asleep || frame.NoFrame? ==> cachedDateStr == old(cachedDateStr) && cachedDateDay == old(cachedDateDay)
      ensures OperatingHours.IsWithinOperatingHours(cfg.operatingHours, hour) ==>
        var m1 := if old(RefreshAcceptsTip(now, fetched)) then Marquee.Reset(old(marquee)) else old(marquee);
        var s1 := Schedule(old(switch), m1.fired, now, cfg.displayDuration, cfg.offScreenWait).0;
        var (s2, fired, reset) := Step(old(switch), m1.fired, now, cfg.displayDuration, cfg.offScreenWait, cfg.transitionDuration, cfg.effect);
        && (frame.NoFrame? <==> s1.phase != Idle && now - s1.start >= cfg.transitionDuration)
        && (frame.Steady? <==> s1.phase == Idle)
        && frame != Asleep
        && switch == s2
        && marquee == (if frame.Steady? && tip != "" then Marquee.Advance(m1.(fired := fired), now, tipExtent(tip), cfg.scrollPause)
                       else if reset then Marquee.Reset(m1)
                       else m1.(fired := fired))
      ensures OperatingHours.IsWithinOperatingHours(cfg.operatingHours, hour) ==>
        if IsStale(now, old(lastUpdate), cfg.updateInterval) then
          && lastUpdate == (if fetched.weather.NoReply? then old(lastUpdate) else now)
          && weather == (if fetched.weather.Body? then Some(fetched.weather.doc) else old(weather))
          && tip == (if fetched.weather.Body? then NextTip(old(tip), fetched.tip) else old(tip))
          && saved == (if fetched.weather.Body? then Some(SavedWeather(now, fetched.weather.doc, SavedTip(tip))) else None)
          && forecast == (if fetched.forecast.Body? then Some(fetched.forecast.doc) else old(forecast))
          && savedForecast == (if fetched.forecast.Body? then Some(fetched.forecast.doc) else None)
          && (fetched.weather.Body? <==> currentBg != old(currentBg))
          && (fetched.forecast.Body? <==> forecastBg != old(forecastBg))
        else
          && saved.None? && savedForecast.None?
          && lastUpdate == old(lastUpdate) && weather == old(weather) && forecast == old(forecast) && tip == old(tip)
          && currentBg == old(currentBg) && forecastBg == old(forecastBg)
      ensures frame.Steady? || frame.TransitionFrame? ==>
        && frame.tipOffset == (if tip != "" then Some(Marquee.PasteOffset(marquee, tipExtent(tip))) else None)
        && DrewHeader(date, frame.background, frame.header, old(cachedDateStr), old(cachedDateDay))
      ensures frame.Steady? ==> switch.phase == Idle && frame.background == (if switch.showForecast then forecastBg else currentBg)
      ensures frame.TransitionFrame? ==>
        && frame.phase == switch.phase && frame.phase != Idle
        && frame.elapsed == now - switch.start && frame.elapsed < cfg.transitionDuration
        && frame.background == TransitionBackground(switch.phase, switch.showForecast, currentBg, forecastBg)
    {
      if !OperatingHours.IsWithinOperatingHours(cfg.operatingHours, hour) {
        frame, saved, savedForecast := Asleep, None, None;
        return;
      }
      saved, savedForecast := Refresh(now, fetched);
      ScheduleTransition(now);
      frame := Present(now, date);
    }
  }
}
