/**
 * The text raster memo table (`bitmapRenderCache` with `cachedBitmapText`).
 * An entry is keyed by the text followed by the font's joined name and holds
 * the width and height the font measured for that text; the bitmap stored
 * beside them is left abstract. Entries are added on a miss and never
 * changed or removed afterwards.
 */
module RasterCache {

  /** Width and height of a rendered text: the right and bottom of the font's bounding box. */
  datatype Extent = Extent(width: nat, height: nat)

  /** The table key: the text immediately followed by the font name. */
  function Key(text: string, fontName: string): (k: string)
    ensures |k| == |text| + |fontName|
    ensures k[..|text|] == text && k[|text|..] == fontName
  {
    text + fontName
  }

  /** Two different (text, font name) pairs can land on the same entry. */
  lemma KeyIsNotInjective()
    ensures Key("ab", "c") == Key("a", "bc")
  {
  }

  /**
   * One call of `cachedBitmapText`: the new table and the extent returned.
   * `measured` is what the font would measure on a miss.
   */
  function Memo(entries: map<string, Extent>, key: string, measured: Extent): (r: (map<string, Extent>, Extent))
    ensures key in r.0 && r.0[key] == r.1
    ensures r.0.Keys == entries.Keys + {key}
    ensures forall k :: k in entries ==> r.0[k] == entries[k]
    ensures key in entries ==> r.1 == entries[key]
    ensures key !in entries ==> r.1 == measured
  {
    if key in entries then (entries, entries[key]) else (entries[key := measured], measured)
  }

  /** A call of `cachedBitmapText`: the key it uses and what the font measures for it. */
  datatype Call = Call(key: string, measured: Extent)

  /** The table after a series of calls, and the extent each call returned. */
  function Run(entries: map<string, Extent>, calls: seq<Call>): (r: (map<string, Extent>, seq<Extent>))
    ensures |r.1| == |calls|
    ensures r.0.Keys == entries.Keys + set c | c in calls :: c.key
    ensures forall k :: k in entries ==> r.0[k] == entries[k]
    decreases |calls|
  {
    if calls == [] then (entries, [])
    else
      var (m, e) := Memo(entries, calls[0].key, calls[0].measured);
      var (m', es) := Run(m, calls[1..]);
      (m', [e] + es)
  }

  /**
   * What the table answers for `key` after `calls`: the stored extent if
   * present, otherwise the measurement of the first call with that key.
   */
  function FirstAnswer(entries: map<string, Extent>, calls: seq<Call>, key: string): Extent
    requires key in entries || exists i :: 0 <= i < |calls| && calls[i].key == key
    decreases |calls|
  {
    if key in entries then entries[key]
    else if calls[0].key == key then calls[0].measured
    else FirstAnswer(entries, calls[1..], key)
  }

  /** Entries already in the table survive any series of calls unchanged. */
  lemma {:induction false} RunKeepsEntries(entries: map<string, Extent>, calls: seq<Call>)
    ensures entries.Keys <= Run(entries, calls).0.Keys
    ensures forall k :: k in entries ==> Run(entries, calls).0[k] == entries[k]
    decreases |calls|
  {
    if calls != [] {
      var (m, _) := Memo(entries, calls[0].key, calls[0].measured);
      RunKeepsEntries(m, calls[1..]);
    }
  }

  /**
   * Idempotent memoisation: every call in a series returns, for its key, the
   * extent the table held before the series or else the measurement of the
   * first call with that key, whatever later calls measure.
   */
  lemma {:induction false} RunAnswersFirstMeasurement(entries: map<string, Extent>, calls: seq<Call>, i: nat)
    requires i < |calls|
    ensures Run(entries, calls).1[i] == FirstAnswer(entries, calls, calls[i].key)
    decreases |calls|
  {
    var (m, e) := Memo(entries, calls[0].key, calls[0].measured);
    if i > 0 {
      var key := calls[i].key;
      assert calls[1..][i - 1] == calls[i];
      RunAnswersFirstMeasurement(m, calls[1..], i - 1);
      FirstAnswerAfterMemo(entries, calls, key);
    }
  }

  lemma FirstAnswerAfterMemo(entries: map<string, Extent>, calls: seq<Call>, key: string)
    requires |calls| > 0
    requires exists i :: 1 <= i < |calls| && calls[i].key == key
    ensures var m := Memo(entries, calls[0].key, calls[0].measured).0;
      (key in m || exists i :: 0 <= i < |calls[1..]| && calls[1..][i].key == key) &&
      FirstAnswer(m, calls[1..], key) == FirstAnswer(entries, calls, key)
  {
    var i :| 1 <= i < |calls| && calls[i].key == key;
    assert calls[1..][i - 1].key == key;
    var m := Memo(entries, calls[0].key, calls[0].measured).0;
    if key !in entries && calls[0].key != key {
      FirstAnswerIgnoresOtherKeys(m, entries, calls[1..], key);
    }
  }

  /** Only the entry for `key` itself matters to the answer for `key`. */
  lemma {:induction false} FirstAnswerIgnoresOtherKeys(m1: map<string, Extent>, m2: map<string, Extent>, calls: seq<Call>, key: string)
    requires key !in m1 && key !in m2
    requires exists i :: 0 <= i < |calls| && calls[i].key == key
    ensures FirstAnswer(m1, calls, key) == FirstAnswer(m2, calls, key)
    decreases |calls|
  {
    if calls[0].key != key {
      var i :| 0 <= i < |calls| && calls[i].key == key;
      assert calls[1..][i - 1].key == key;
      FirstAnswerIgnoresOtherKeys(m1, m2, calls[1..], key);
    }
  }

  /** Two calls with the same key in one series return the same extent. */
  lemma SameKeySameAnswer(entries: map<string, Extent>, calls: seq<Call>, i: nat, j: nat)
    requires i < |calls| && j < |calls| && calls[i].key == calls[j].key
    ensures Run(entries, calls).1[i] == Run(entries, calls).1[j]
  {
    RunAnswersFirstMeasurement(entries, calls, i);
    RunAnswersFirstMeasurement(entries, calls, j);
  }

  /** The process-wide memo table. */
  class BitmapCache {
    var entries: map<string, Extent>

    constructor ()
      ensures entries == map[]
    {
      entries := map[];
    }

    /**
     * `cachedBitmapText(text, font)`: `measured` is the font's measurement
     * of `text`, used only on a miss.
     */
    method Render(text: string, fontName: string, measured: Extent) returns (e: Extent)
      modifies this
      ensures (entries, e) == Memo(old(entries), Key(text, fontName), measured)
      ensures old(entries).Keys <= entries.Keys
      ensures forall k :: k in old(entries) ==> entries[k] == old(entries)[k]
    {
      var key := text + fontName;
      if key in entries {
        e := entries[key];
      } else {
        e := measured;
        entries := entries[key := e];
      }
    }
  }
}
