# weather-display: frame loop, marquee, view transitions and refresh, in Dafny

This project models the core of `src/main.py` of weather-display. The program
drives a 256-pixel-wide OLED panel. Each pass of its frame loop does four things:

1. It checks the configured operating hours.
2. It refreshes the weather, the forecast and the AI weather tip once the
   data is stale, and writes them to the JSON cache files.
3. It runs a three-phase view transition controller (idle, out, in) that
   switches between the current-weather view and the 24-hour forecast view.
4. It draws a frame: a header (a date string fitted beside the clock and
   the umbrella icon, or the forecast title) and the tip marquee, which
   rises, pauses and scrolls.

The model is split into these modules:

- `RasterCache`: the text raster memo table `cachedBitmapText`. It is a
  pure memo function, a run of calls over it, and a `BitmapCache` class
  whose `Render` updates the table in place.
- `DateLayout`: `get_ordinal_suffix`, the weekday abbreviations and the
  layout fitter `get_display_date_str`. The fitter is a method with a loop
  and an early exit.
- `Marquee`: the five marquee variables as a value, one animation frame
  `Advance`, and lemmas about runs of frames.
- `Transition`: the entry triggers `Schedule`, the phase end `Complete`,
  which background a transition frame shows, and the wipe and blink
  geometry.
- `Refresh`: the staleness gate, the tip acceptance rule, what is saved to
  the weather cache file, and seeding from that file at start-up.
- `OperatingHours`, `Slots` and `Text`: `is_within_operating_hours`,
  `format_time_ago`, the "Sun" slot, and the few Python string builtins
  these use (`split`, `strip`, `int`, `lower`, `in`).
- `Display`: the program state as a class `App`. Its fields are the
  process globals. `Tick` is one pass of the loop, made of `Refresh`,
  `ScheduleTransition` and `Present`. `Present` is built from `EndPhase`,
  `Header` and `AnimateTip`. Each method's postcondition states its new
  marquee, controller, data and date cache through the pure functions above
  (`Advance`, `Reset`, `Schedule`, `Complete`, `NextTip`, `ChosenDate`).
  The pixels drawn are described only by their background, header text and
  tip offset. The invariant `Valid` keeps the marquee consistent with the tip
  it animates.

Modelling choices:

- **Time.** All times are integer milliseconds, except sunrise and sunset
  in `Slots.NextSunEvent`, which stay in the weather service's epoch
  seconds. Configured seconds are converted: 1800 s becomes 1 800 000 and
  0.2 s becomes 200. One clock
  reading `now` serves a whole tick.
- **Fonts.** A font's measurement of a text is a function value. This is
  justified by the memo lemmas: every answer for a key equals the first
  measurement of that key. The caveat about font sizes is under "Left out".
- **Backgrounds.** A rendered background is identified by the serial
  number of its render. This way the source's identity test
  `background is forecast_bg` becomes an equality.

Behaviour of the code that a reader might not expect, and which the model
keeps:

- The refresh gate is strict (`>`). With the default 30-minute interval,
  a refresh is due one millisecond after the half hour, not at it
  (`Refresh.StaleBoundaryExample`).
- Any response to the weather request that passes `raise_for_status`
  after the retries (status below 400) moves the last-update time, even
  when its decoded body is empty. Error statuses, timeouts and transport
  errors count as no response (`NoReply`). An empty body is otherwise ignored.
- A fetched tip is adopted only if it is non-empty, different from the
  current tip and does not contain "unavailable".
- The out and in phases pick the transition background by the same rule.
  This is not a mistake: the view selector flips exactly when the out phase
  ends, so out frames show the view being left and in frames show the view
  being entered (`Transition.OutShowsOldViewInShowsNew`).
- While neither background has been rendered, the current-weather view
  carries the forecast title, because `None is None`
  (`Display.ForecastTitleWithoutBackgrounds`).
- The switch that starts after the marquee completes clears the completion
  flag but leaves `scroll_x` where it was. The state invariant
  (`Display.App.MarqueeFitsTip`) allows exactly this state during an out
  phase, and the end of the out phase resets the marquee.
- The raster key is the text followed by the font name, with no separator,
  so two different (text, font) pairs can share an entry
  (`RasterCache.KeyIsNotInjective`). The key also leaves out the font
  size; the consequences are described under "Left out".

## Model

| member | source | states |
|---|---|---|
| RasterCache.Key | src/main.py:118-120 | the key is the text followed by the joined font name; both parts can be read back by position |
| RasterCache.KeyIsNotInjective | src/main.py:120 | the key does not separate text from font: ("ab","c") and ("a","bc") share an entry |
| RasterCache.Memo | src/main.py:116-130 | a hit returns the stored extent and leaves the table alone; a miss stores the measurement and returns it; existing entries never change |
| RasterCache.Run | src/main.py:116-130 | a series of calls returns one extent per call; the table ends with exactly its old keys plus the keys called, and every old entry is kept unchanged |
| RasterCache.RunKeepsEntries | src/main.py:121-123 | after any series of calls every earlier entry is still present, unchanged |
| RasterCache.RunAnswersFirstMeasurement | src/main.py:120-130 | every call answers the stored entry, or else the first measurement ever made for its key |
| RasterCache.FirstAnswerAfterMemo | src/main.py:120-130 | storing one key does not change the first answer for any other key |
| RasterCache.FirstAnswerIgnoresOtherKeys | src/main.py:120-130 | the first answer for a key absent from the table does not depend on the rest of the table |
| RasterCache.SameKeySameAnswer | src/main.py:120-130 | two calls with the same key always return the same extent, whatever the font would measure later |
| RasterCache.BitmapCache.constructor | src/main.py:74 | the table starts empty |
| RasterCache.BitmapCache.Render | src/main.py:116-130 | the table and the result are those of `Memo` on the old table; no entry is lost or changed |
| DateLayout.OrdinalSuffix | src/main.py:252-254 | "st", "nd" and "rd" exactly for last digits 1, 2 and 3 outside 11 to 13; "th" exactly otherwise |
| DateLayout.OrdinalSuffixIsEnglish | src/main.py:252-254 | below 100, so for every day of a month, the suffix agrees with the rule "th whenever the tens digit is 1" |
| DateLayout.OrdinalSuffixDiffersAt111 | src/main.py:254 | the special case only covers 11 to 13, so 111 would get "st" |
| DateLayout.AbbreviateDay | src/main.py:38-46 | a weekday name gets a strictly shorter abbreviation; any other name gets "----" |
| DateLayout.DateCandidates | src/main.py:393-399 | three renderings; the first is the second plus the year, the third uses the abbreviation; the first is longer than the second, and the second longer than the third for a real weekday name |
| DateLayout.IconSpace | src/main.py:407 | the umbrella needs exactly its width plus 10 pixels when shown, and nothing otherwise |
| DateLayout.ChosenDateIsUnique | src/main.py:401-410 | the layout rule leaves no choice: two strings it accepts for the same date and space are equal |
| DateLayout.DisplayDateString | src/main.py:386-412 | the result satisfies `ChosenDate` for the icon space `IconSpace(umbrellaVisible, umbrellaWidth)`: the first fitting candidate, or the last candidate when none fits |
| OperatingHours.ParseHours | src/main.py:259 | a window parses exactly when it splits on '-' into two integer pieces, and the result is the pair of their parsed values |
| OperatingHours.IsWithinOperatingHours | src/main.py:256-267 | a malformed window means always on |
| OperatingHours.ParseFormatRoundTrip | src/main.py:259 | every "s-e" written with non-negative hours parses back to (s, e) |
| OperatingHours.ActiveIffInsideCyclicWindow | src/main.py:261-264 | for start and end hours 0 to 24 and a clock hour 0 to 23, the display is on exactly when fewer hours have passed since the start, counted round the clock, than the window is long (`WindowLength`); an overnight window wraps past midnight, and "0-24" (the loop's fallback, main.py:516) is always on |
| OperatingHours.NoSeparatorMeansAlwaysOn | src/main.py:259-267 | a window without '-' fails to parse, so the display is always on |
| OperatingHours.OvernightWindowExample | src/main.py:263-264 | "22-6" is on at 23 and 5 and off at 10 |
| OperatingHours.DefaultWindowExample | src/config.py:26 | the default "8-22" is on from 8:00 up to, but not at, 22:00 |
| Slots.FormatTimeAgo | src/main.py:242-249 | the text is empty exactly when nothing has been fetched yet (timestamp 0) |
| Slots.AgoInjective | src/main.py:247-249 | the count and unit of an "Updated ... ago" text are recoverable from the text |
| Slots.AgoForAMinuteOrMore | src/main.py:245-249 | from a minute on, the slot shows an "Updated <n><unit> ago" text |
| Slots.JustUpdatedIffUnderAMinute | src/main.py:244-246 | "Just updated" is shown exactly when less than a minute has passed |
| Slots.AgoCountsWholeUnits | src/main.py:245-249 | "Updated n<u> ago" means n whole units (at least 1) have passed, fewer than n+1, with under 60 minutes and under 24 hours |
| Slots.NextSunEvent | src/main.py:287-294 | the sunset is announced exactly while it is ahead, otherwise the sunrise; a missing time counts as now |
| Marquee.Reset | src/main.py:532 | rise, elevation, scroll and completion go back to zero; the pause timer is kept |
| Marquee.ResetIsConsistent | src/main.py:560 | a reset state is consistent for any tip extent |
| Marquee.Advance | src/main.py:463-472 | one frame rises one pixel until the text height; the first frame that starts at full height elevates and starts the pause timer at `now`, once; once the pause has passed and before completion the scroll moves exactly one pixel, and the flag rises exactly when the scroll passes the text width; consistency is preserved |
| Marquee.PasteOffset | src/main.py:475 | for a consistent state the bitmap is shifted left by at most width+1 and down by at most the height, and not down at all once elevated |
| Marquee.FramesKeepInv | src/main.py:463-472 | any number of frames keeps a consistent state consistent |
| Marquee.RiseIsOnePixelPerFrame | src/main.py:464-465 | k frames of the rise raise the text by exactly k pixels and change nothing else |
| Marquee.RiseThenElevate | src/main.py:464-468 | from the start of a rise, height-minus-rise+1 frames reach the full height and elevate, starting the pause timer at the last frame's clock, and change nothing else |
| Marquee.CompletionIsFinal | src/main.py:470-472 | once complete, the flag stays up and the scroll stops, whatever frames follow |
| Marquee.CompletionFiresAtMostOnce | src/main.py:470-472 | over any run of frames the completion flag goes up at most once |
| Marquee.ScrollCompletesAfterWidth | src/main.py:470-472 | after the pause, exactly width+1-scroll frames complete the scroll, and the flag goes up once |
| Transition.OffScreenWaitExample | src/main.py:548-552 | with a 1 s wait, a completion at 10 s is recorded; no switch at 11 s; the switch starts at 11.001 s and clears the record and the flag |
| Transition.EffectOf | src/config.py:35 | the lower-cased setting names wipe or blink exactly when the effect is that one, so the effect has an entry animation exactly for "wipe" and "blink" (main.py:561); any other name is kept as given |
| Transition.Initial | src/main.py:511-512 | the loop starts idle on the current-weather view, with no scroll-off time recorded and the last switch at start-up |
| Transition.Schedule | src/main.py:545-552 | only idle can change, and only to out; with a positive duration, a switch starts exactly when the duration has elapsed since the last one; with 0, the completion is first recorded as the scroll-off time, and a switch starts exactly when idle and more than the wait has passed since it, clearing both; otherwise the recorded time and the flag are kept |
| Transition.Complete | src/main.py:554-564 | nothing happens before the phase duration; after it, out goes to in for effects with an entry animation and to idle otherwise, restarting the clock, and in goes to idle; the view flips exactly when an out phase ends, and the marquee is reset then |
| Transition.OneTickBalance | src/main.py:545-564 | in one tick, a flip happens exactly when an out phase is left |
| Transition.OneFlipPerOutPhase | src/main.py:545-564 | over any run of ticks, flips equal out phases entered, adjusted by one for an out phase running at the start or at the end |
| Transition.FlipsDecideView | src/main.py:559 | the view at the end of a run is the starting view exactly when the number of flips is even |
| Transition.TransitionBackground | src/main.py:571-578 | both phases draw the background of the view the selector names |
| Transition.OutShowsOldViewInShowsNew | src/main.py:557-578 | out frames keep showing the view being left; the in frames after it show the view being entered |
| Transition.WipeCurtainLeft | src/main.py:585-591 | the curtain edge stays on screen; the out wipe starts fully open and the in wipe fully covered |
| Transition.WipeCurtainMonotone | src/main.py:585-591 | the out curtain only closes and the in curtain only opens as time passes |
| Transition.WipeHalfwayExample | src/main.py:587-588 | halfway through an out wipe on 256 pixels, exactly 128 are covered |
| Transition.BlinkHalfOpening | src/main.py:592-594 | the opening stays between 0 and the centre and starts fully open going out |
| Transition.BlinkInMirrorsOut | src/main.py:593 | the in blink is the out blink played backwards |
| Refresh.StaleBoundaryExample | src/main.py:525 | with a 30-minute interval the refresh is not due at exactly 30 minutes but is one millisecond later |
| Refresh.NextTip | src/main.py:530-531 | the tip changes exactly when the fetched tip is non-empty, new and not "unavailable", and then it becomes the fetched tip |
| Refresh.RealTipIsNeverLost | src/main.py:530-531 | once a real tip is shown, no run of fetches brings back an empty or "unavailable" tip |
| Refresh.PlaceholdersAreNeverAdopted | src/main.py:530-531 | after any run of fetches, the tip is the starting one or a real fetched one |
| Refresh.SavedTip | src/main.py:535-536 | the tip is saved, unchanged, exactly when it contains neither "unavailable" nor "Fetching" |
| Refresh.PlaceholdersAreNotSaved | src/main.py:535-536 | neither the start-up placeholder nor the missing-cache placeholder is ever written |
| Refresh.Written | src/main.py:534-537 | a written cache file is never read back as empty |
| Refresh.Seed | src/main.py:499-504 | a forced refresh or a missing or empty file zeroes the last update; with no usable file the tip is the fetching placeholder; otherwise the cached weather and tip are loaded (the "unavailable" placeholder when the tip is missing), and the cached timestamp too unless the refresh is forced |
| Refresh.ForcedRefreshOnlyZeroesLastUpdate | src/main.py:500-504 | a forced refresh at start-up loads the same weather and tip as an unforced one and differs only in a last update of 0 |
| Refresh.SaveThenSeedRestores | src/main.py:499-504 | saving and restarting restores the data, the timestamp and the saved tip; a tip left out comes back as the "unavailable" placeholder |
| Display.DefaultConfig | src/config.py:22-36 | the defaults: 30-minute interval, switch on marquee completion, 2 s pause, 1 s wait, 0.2 s wipe, hours "8-22" |
| Display.UmbrellaVisible | src/main.py:433 | the icon shows exactly when it is enabled and loaded and the lower-cased tip mentions an umbrella or debug mode is on |
| Display.ForecastTitleWithoutBackgrounds | src/main.py:420 | with distinct backgrounds the forecast title shows exactly in the forecast view, or when neither background exists |
| Display.App.constructor | src/main.py:498-512 | the state is seeded from the cache files by `Seed`, backgrounds exist for the data loaded, the marquee and controller are at their start values, and the invariant holds |
| Display.App.StoreWeather | src/main.py:527-538 | the weather is replaced, the tip follows `NextTip`, the marquee is reset exactly when the tip changed, the saved document carries `SavedTip`, and a new background is rendered |
| Display.App.StoreForecast | src/main.py:540-543 | the forecast is replaced and a new background is rendered; nothing else changes |
| Display.App.Refresh | src/main.py:525-543 | nothing changes unless stale; otherwise any weather response that passes `raise_for_status` (status below 400) moves the last update to now, a document updates the weather, tip and saved file, a forecast document updates the forecast, and the marquee is reset exactly when a new tip is accepted |
| Display.App.ScheduleTransition | src/main.py:545-552 | the controller and the completion flag move as `Schedule` says; the rest of the marquee and the data are untouched |
| Display.App.EndPhase | src/main.py:557-564 | the controller moves as `Complete` says, and the marquee is reset exactly when `Complete` asks |
| Display.App.Header | src/main.py:432-442 | `DrewHeader`: the forecast title over the forecast background with the date cache untouched; otherwise the cached date string, kept on the same day and re-chosen by `ChosenDate` with gap `HeaderGap()` and the header font on a new day |
| Display.App.AnimateTip | src/main.py:454-475 | with a tip, the marquee advances one `Advance` frame unless transitioning, and the paste offset stays within the viewport bounds; without a tip nothing moves |
| Display.App.Present | src/main.py:554-600 | the controller moves as `Complete` says; an ended phase draws nothing and resets the marquee exactly when `Complete` asks; a running phase draws a transition frame over `TransitionBackground` with the marquee frozen; idle draws a steady frame over the view shown and advances the marquee one `Advance` frame; drawn frames carry `DrewHeader` and the marquee's paste offset |
| Display.App.Tick | src/main.py:515-600 | outside the hours nothing changes and nothing is drawn; otherwise the frame kind follows the controller after `Schedule` (nothing drawn when its phase has just run its duration, a steady frame when idle, a transition frame otherwise), the controller moves one `Step` from the refreshed marquee flag, and the marquee is the refresh reset, then `Schedule`'s flag, then the frame's `Advance` or `Reset`; the data, backgrounds and both cache writes follow the staleness gate and `NextTip`; ticks that draw nothing keep the date cache; drawn frames carry `DrewHeader`, the paste offset and the right background, and the invariant is kept |

## Left out

- HTTP requests, their retries and the API key check (lines 177-219 and
  488-494). Each fetch's outcome is a parameter of `Tick`. The "API Key
  Not Set!" screen and its half-hour sleep are not part of this model.
- JSON encoding and the cache files themselves (lines 94-114). A file is a
  value. A document's fields are opaque, and an empty decoded forecast
  document is modelled as an absent one.
- The hardware, the frame-rate regulator, the framerate log, `time.sleep`,
  and the one-minute sleep outside operating hours. The model returns
  `Asleep` for that tick.
- Pixels: PIL images, fonts, the clock digits, the icon placement, and
  `render_current_weather_bg` and `render_forecast_bg`. A background is
  the serial of its render, and a text's extent is the font's measurement.
- The other weather slots ("Desc", "Humidity", "Pressure", "Location",
  "Wind speed", "Wind direction") and the forecast view's contents. Only
  "Sun" and "Last updated" are modelled.
- `strftime`, time zones and `DEBUG_DATE`. The date and the local hour are
  parameters of `Tick`, and one clock stands for both `time.time()` and
  `get_current_timestamp()`.
- Floating-point time. Durations are integer milliseconds, and the wipe
  and blink progress `int(width * elapsed / duration)` is computed exactly
  rather than in floating point.
- Text.Lower, Text.Strip and OperatingHours.ParseInt: these cover ASCII
  only. Python's Unicode case mapping, Unicode whitespace and non-ASCII
  digits are not modelled.
- OperatingHours.IsWithinOperatingHours: its own contract states only the
  malformed case. The cyclic-window meaning is proved separately, in
  `ActiveIffInsideCyclicWindow`, for start and end hours 0 to 24 and clock
  hours 0 to 23. Windows with hours past 24 are covered only by the
  function itself.
- Slots.FormatTimeAgo: its own contract states only the empty case. The
  meaning of the texts is in the lemmas beside it: under a minute
  (`JustUpdatedIffUnderAMinute`), from a minute on always an "ago" text
  (`AgoForAMinuteOrMore`), and its count and unit (`AgoCountsWholeUnits`).
- Font sizes in the raster key. `font.getname()` gives family and style
  only, so `font_large` (Dot Matrix Bold at 16, main.py:151) shares its
  keys with `font_medium` and `font_medium_tall` (the same file at 10,
  main.py:149-150). Fonts are function values here, one per use, so the
  model does not show this sharing. No drawn text suffers from it:
  `font_large` draws only "HH:MM" (main.py:158, 426); `font_medium` draws
  ":59", ":SS" and "API Key Not Set!" (main.py:159, 427, 491);
  `font_medium_tall` draws date strings and the forecast title (main.py:404,
  443). These sets of texts do not overlap.
- The umbrella icon's thumbnailing and loading: the icon is present or
  absent, with a width.
