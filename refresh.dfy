/**
 * The refresh scheduler's rules: when cached data is stale, which fetched
 * tip replaces the shown one, what is written to the weather cache file,
 * and how the state is seeded from that file at start-up. Times are
 * milliseconds.
 */
module Refresh {
  import opened Wrappers
  import opened Text

  /** A decoded weather or forecast document; its fields are read only by the renderers. */
  datatype Record = Record(json: string)

  /**
   * What a fetch produced: no accepted response after the retries (a
   * timeout, a transport error or an error status of 400 or more, which
   * `raise_for_status` rejects), a response whose decoded body is empty
   * (falsy), or a document.
   */
  datatype Reply = NoReply | EmptyBody | Body(doc: Record)

  /** The tip shown before any tip has been fetched or loaded. */
  const FetchingTip: string := "Fetching weather tip..."

  /** The tip assumed when the cache file has no tip. */
  const MissingCachedTip: string := "Weather tip unavailable."

  /** Data is refreshed only once strictly more than `interval` has passed since the last successful weather fetch. */
  predicate IsStale(now: int, lastUpdate: int, interval: int) {
    now - lastUpdate > interval
  }

  /** With the default interval of 30 minutes and a last update at 0, a refresh is due one millisecond after the half hour and not at it. */
  lemma StaleBoundaryExample()
    ensures !IsStale(1_800_000, 0, 1_800_000)
    ensures IsStale(1_800_001, 0, 1_800_000)
  {
  }

  /** A tip is a failure placeholder when it says "unavailable". */
  predicate IsUnavailable(tip: string) {
    Contains(tip, "unavailable")
  }

  /**
   * The tip kept after a tip fetch: the fetched one replaces the current one
   * only if it is non-empty, different and not a failure placeholder.
   */
  function NextTip(current: string, fetched: string): (r: string)
    ensures r == current || r == fetched
    ensures r != current <==> fetched != "" && fetched != current && !IsUnavailable(fetched)
  {
    if fetched != "" && fetched != current && !IsUnavailable(fetched) then fetched else current
  }

  /** The tip after a series of tip fetches. */
  function TipAfter(current: string, fetched: seq<string>): string
    decreases |fetched|
  {
    if fetched == [] then current else TipAfter(NextTip(current, fetched[0]), fetched[1..])
  }

  /**
   * Tip retention: once a real tip is shown, no series of fetches, however
   * many fail or return placeholders, ever brings back an empty tip or a
   * placeholder; the tip shown is the starting one or one of the fetched.
   */
  lemma {:induction false} RealTipIsNeverLost(current: string, fetched: seq<string>)
    requires current != "" && !IsUnavailable(current)
    ensures var r := TipAfter(current, fetched);
      r != "" && !IsUnavailable(r) && (r == current || r in fetched)
    decreases |fetched|
  {
    if fetched != [] {
      var next := NextTip(current, fetched[0]);
      RealTipIsNeverLost(next, fetched[1..]);
    }
  }

  /** A placeholder is never adopted: after any series of fetches the tip is the starting one or a fetched real tip. */
  lemma {:induction false} PlaceholdersAreNeverAdopted(current: string, fetched: seq<string>)
    ensures var r := TipAfter(current, fetched);
      r == current || (r in fetched && r != "" && !IsUnavailable(r))
    decreases |fetched|
  {
    if fetched != [] {
      var next := NextTip(current, fetched[0]);
      PlaceholdersAreNeverAdopted(next, fetched[1..]);
    }
  }

  /** The tip written to the weather cache file: left out while it is a placeholder. */
  function SavedTip(tip: string): (r: Option<string>)
    ensures r.Some? ==> r.value == tip
    ensures r.Some? <==> !IsUnavailable(tip) && !Contains(tip, "Fetching")
  {
    if !IsUnavailable(tip) && !Contains(tip, "Fetching") then Some(tip) else None
  }

  /** Neither placeholder the program itself uses is ever saved. */
  lemma PlaceholdersAreNotSaved()
    ensures SavedTip(FetchingTip).None?
    ensures SavedTip(MissingCachedTip).None?
  {
    ContainsAt(FetchingTip, "Fetching", 0);
    assert MissingCachedTip[12..23] == "unavailable";
    ContainsAt(MissingCachedTip, "unavailable", 12);
  }

  /** The document written to the weather cache file. */
  datatype SavedWeather = SavedWeather(timestamp: int, data: Record, tip: Option<string>)

  /**
   * The weather cache file as read back: each key may be missing, and
   * `otherKeys` records keys this program does not read. An empty document
   * reads as "no cache".
   */
  datatype CacheFile = CacheFile(data: Option<Record>, timestamp: Option<int>, tip: Option<string>, otherKeys: bool) {
    predicate IsEmpty() {
      data.None? && timestamp.None? && tip.None? && !otherKeys
    }
  }

  /** The file the program writes for a saved document. */
  function Written(saved: SavedWeather): (f: CacheFile)
    ensures !f.IsEmpty()
  {
    CacheFile(Some(saved.data), Some(saved.timestamp), saved.tip, false)
  }

  /** The refresh state seeded at start-up. */
  datatype Seeded = Seeded(weather: Option<Record>, lastUpdate: int, tip: string)

  /**
   * Start-up seeding from the weather cache file (absent, unreadable or
   * empty: `None` or an empty document). A usable file supplies the
   * weather, the last update and the tip; a forced refresh, or no usable
   * file, sets the last update to 0 so the first tick refreshes.
   */
  function Seed(file: Option<CacheFile>, forceRefresh: bool): (r: Seeded)
    ensures forceRefresh ==> r.lastUpdate == 0
    ensures (file.None? || file.value.IsEmpty()) ==> r == Seeded(None, 0, FetchingTip)
    ensures file.Some? && !file.value.IsEmpty() ==>
      && r.weather == file.value.data
      && r.tip == file.value.tip.GetOr(MissingCachedTip)
      && (!forceRefresh ==> r.lastUpdate == file.value.timestamp.GetOr(0))
  {
    var usable := file.Some? && !file.value.IsEmpty();
    var loaded :=
      if usable then Seeded(file.value.data, file.value.timestamp.GetOr(0), file.value.tip.GetOr(MissingCachedTip))
      else Seeded(None, 0, FetchingTip);
    if forceRefresh || !usable then loaded.(lastUpdate := 0) else loaded
  }

  /** A forced refresh at start-up changes nothing but the last update: the cached weather and tip are still loaded. */
  lemma ForcedRefreshOnlyZeroesLastUpdate(file: Option<CacheFile>)
    ensures Seed(file, true) == Seed(file, false).(lastUpdate := 0)
  {
  }

  /**
   * Saving and restarting without a forced refresh restores the weather
   * document and the time of the last update, and the tip when it was
   * saved; a tip left out comes back as the "unavailable" placeholder,
   * which is itself never saved again.
   */
  lemma SaveThenSeedRestores(saved: SavedWeather)
    ensures Seed(Some(Written(saved)), false)
      == Seeded(Some(saved.data), saved.timestamp, saved.tip.GetOr(MissingCachedTip))
  {
  }
}
