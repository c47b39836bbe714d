/**
 * The tip marquee: the tip text first rises into its viewport one pixel per
 * frame, then waits for the scroll pause, then scrolls left one pixel per
 * frame until it has passed its own width, when the completion flag is
 * raised. The state is advanced once per frame that is not a transition
 * frame; times are milliseconds.
 */
module Marquee {
  import opened RasterCache

  /**
   * The five animation variables: `pixelsUp`, `hasElevated`, `scroll_x`,
   * `animation_pause_timer` and `scroll_completion_event_fired`.
   */
  datatype Marquee = Marquee(pixelsUp: int, hasElevated: bool, scrollX: int, pauseTimer: int, fired: bool)

  /** The values at program start. */
  const Initial: Marquee := Marquee(0, false, 0, 0, false)

  /**
   * The reset done when a new tip is accepted or a view switch happens:
   * four variables go back to zero; the pause timer is left as it was.
   */
  function Reset(m: Marquee): (r: Marquee)
    ensures r.pixelsUp == 0 && !r.hasElevated && r.scrollX == 0 && !r.fired
    ensures r.pauseTimer == m.pauseTimer
  {
    m.(pixelsUp := 0, hasElevated := false, scrollX := 0, fired := false)
  }

  /**
   * The consistent states for a tip of extent `ext`: the rise stays within
   * the text height and is complete once elevated, scrolling only happens
   * after elevation, and the completion flag is up exactly when the scroll
   * has passed the text width, by one pixel.
   */
  predicate Inv(m: Marquee, ext: Extent) {
    && 0 <= m.pixelsUp <= ext.height
    && (m.hasElevated ==> m.pixelsUp == ext.height)
    && 0 <= m.scrollX <= ext.width + 1
    && (m.scrollX > 0 ==> m.hasElevated)
    && (m.fired <==> m.scrollX == ext.width + 1)
  }

  lemma ResetIsConsistent(m: Marquee, ext: Extent)
    ensures Inv(Reset(m), ext)
  {
  }

  /**
   * One frame of the animation at clock `now` for a tip of extent `ext`,
   * with a scroll pause of `pause` milliseconds.
   */
  function Advance(m: Marquee, now: int, ext: Extent, pause: int): (r: Marquee)
    ensures m.pixelsUp < ext.height ==> r.pixelsUp == m.pixelsUp + 1
    ensures m.pixelsUp >= ext.height ==> r.pixelsUp == m.pixelsUp
    ensures r.hasElevated != m.hasElevated ==> !m.hasElevated && m.pixelsUp >= ext.height && r.pauseTimer == now
    ensures r.pauseTimer != m.pauseTimer ==> !m.hasElevated && r.hasElevated
    ensures m.hasElevated ==> r.hasElevated
    ensures !m.hasElevated && m.pixelsUp >= ext.height ==> r.hasElevated && r.pauseTimer == now
    ensures r.hasElevated && now - r.pauseTimer > pause && !m.fired ==>
      r.scrollX == m.scrollX + 1 && (r.fired <==> r.scrollX > ext.width)
    ensures r.scrollX != m.scrollX ==> r.scrollX == m.scrollX + 1 && r.hasElevated && now - r.pauseTimer > pause && !m.fired
    ensures r.fired != m.fired ==> !m.fired && r.scrollX > ext.width
    ensures m.fired ==> r.fired && r.scrollX == m.scrollX
    ensures Inv(m, ext) ==> Inv(r, ext)
  {
    var risen :=
      if m.pixelsUp < ext.height then m.(pixelsUp := m.pixelsUp + 1)
      else if !m.hasElevated then m.(hasElevated := true, pauseTimer := now)
      else m;
    if risen.hasElevated && now - risen.pauseTimer > pause && !risen.fired then
      var x := risen.scrollX + 1;
      risen.(scrollX := x, fired := risen.fired || x > ext.width)
    else
      risen
  }

  /**
   * Where the tip bitmap is pasted in its viewport: shifted left by the
   * scroll and down by the part of the height not yet risen.
   */
  function PasteOffset(m: Marquee, ext: Extent): (r: (int, int))
    ensures Inv(m, ext) ==> -(ext.width + 1) <= r.0 <= 0 && 0 <= r.1 <= ext.height
    ensures Inv(m, ext) && m.hasElevated ==> r.1 == 0
  {
    (-m.scrollX, ext.height - m.pixelsUp)
  }

  /** The animation after one frame at each of the clock readings `nows`, in order. */
  function Frames(m: Marquee, nows: seq<int>, ext: Extent, pause: int): Marquee
    decreases |nows|
  {
    if nows == [] then m else Frames(Advance(m, nows[0], ext, pause), nows[1..], ext, pause)
  }

  /** The number of frames among `nows` at which the completion flag goes up. */
  function Completions(m: Marquee, nows: seq<int>, ext: Extent, pause: int): nat
    decreases |nows|
  {
    if nows == [] then 0
    else
      var next := Advance(m, nows[0], ext, pause);
      (if !m.fired && next.fired then 1 else 0) + Completions(next, nows[1..], ext, pause)
  }

  /** Any number of frames keeps a consistent state consistent. */
  lemma {:induction false} FramesKeepInv(m: Marquee, nows: seq<int>, ext: Extent, pause: int)
    requires Inv(m, ext)
    ensures Inv(Frames(m, nows, ext, pause), ext)
    decreases |nows|
  {
    if nows != [] {
      FramesKeepInv(Advance(m, nows[0], ext, pause), nows[1..], ext, pause);
    }
  }

  /**
   * The rise: from a state that has not yet fully risen or scrolled, each
   * frame raises the text by exactly one pixel, so `k` frames raise it by
   * `k` as long as that stays within the text height, and nothing else moves.
   */
  lemma {:induction false} RiseIsOnePixelPerFrame(m: Marquee, nows: seq<int>, ext: Extent, pause: int)
    requires 0 <= m.pixelsUp && m.pixelsUp + |nows| <= ext.height
    requires !m.hasElevated && m.scrollX == 0 && !m.fired
    ensures Frames(m, nows, ext, pause) == m.(pixelsUp := m.pixelsUp + |nows|)
    decreases |nows|
  {
    if nows != [] {
      var next := Advance(m, nows[0], ext, pause);
      assert next == m.(pixelsUp := m.pixelsUp + 1);
      RiseIsOnePixelPerFrame(next, nows[1..], ext, pause);
    }
  }

  /**
   * The end of the rise: from a state that has neither elevated nor
   * scrolled, the frames that finish the rise and one frame more leave the
   * text at full height, elevated once, with the pause timer started at
   * that last frame and no scroll yet.
   */
  lemma {:induction false} RiseThenElevate(m: Marquee, nows: seq<int>, ext: Extent, pause: int)
    requires pause >= 0
    requires 0 <= m.pixelsUp <= ext.height && |nows| == ext.height - m.pixelsUp + 1
    requires !m.hasElevated && m.scrollX == 0 && !m.fired
    ensures Frames(m, nows, ext, pause)
      == m.(pixelsUp := ext.height, hasElevated := true, pauseTimer := nows[|nows| - 1])
    decreases |nows|
  {
    var next := Advance(m, nows[0], ext, pause);
    if m.pixelsUp < ext.height {
      assert next == m.(pixelsUp := m.pixelsUp + 1);
      assert nows[1..][|nows[1..]| - 1] == nows[|nows| - 1];
      RiseThenElevate(next, nows[1..], ext, pause);
    } else {
      assert next == m.(hasElevated := true, pauseTimer := nows[0]);
      assert Frames(next, nows[1..], ext, pause) == next;
    }
  }

  /** Once raised, the completion flag stays up and the scroll stops. */
  lemma {:induction false} CompletionIsFinal(m: Marquee, nows: seq<int>, ext: Extent, pause: int)
    requires m.fired
    ensures Frames(m, nows, ext, pause).fired
    ensures Frames(m, nows, ext, pause).scrollX == m.scrollX
    ensures Completions(m, nows, ext, pause) == 0
    decreases |nows|
  {
    if nows != [] {
      CompletionIsFinal(Advance(m, nows[0], ext, pause), nows[1..], ext, pause);
    }
  }

  /** However many frames run, the completion flag goes up at most once, and never if it is already up. */
  lemma {:induction false} CompletionFiresAtMostOnce(m: Marquee, nows: seq<int>, ext: Extent, pause: int)
    ensures Completions(m, nows, ext, pause) <= (if m.fired then 0 else 1)
    decreases |nows|
  {
    if nows != [] {
      var next := Advance(m, nows[0], ext, pause);
      if next.fired {
        CompletionIsFinal(next, nows[1..], ext, pause);
      } else {
        CompletionFiresAtMostOnce(next, nows[1..], ext, pause);
      }
    }
  }

  /**
   * The scroll: once the text has risen and the pause is over at every
   * frame, it takes exactly `width + 1 - scrollX` more frames for the scroll
   * to pass the text width, and the completion flag goes up once, at the
   * last of them.
   */
  lemma {:induction false} ScrollCompletesAfterWidth(m: Marquee, nows: seq<int>, ext: Extent, pause: int)
    requires Inv(m, ext) && m.hasElevated && !m.fired
    requires |nows| == ext.width + 1 - m.scrollX
    requires forall i :: 0 <= i < |nows| ==> nows[i] - m.pauseTimer > pause
    ensures Frames(m, nows, ext, pause).fired
    ensures Frames(m, nows, ext, pause).scrollX == ext.width + 1
    ensures Completions(m, nows, ext, pause) == 1
    decreases |nows|
  {
    var next := Advance(m, nows[0], ext, pause);
    assert next.scrollX == m.scrollX + 1;
    if |nows| == 1 {
      assert next.fired;
    } else {
      assert !next.fired;
      forall i | 0 <= i < |nows[1..]|
        ensures nows[1..][i] - next.pauseTimer > pause
      {
        assert nows[1..][i] == nows[i + 1];
      }
      ScrollCompletesAfterWidth(next, nows[1..], ext, pause);
    }
  }
}
