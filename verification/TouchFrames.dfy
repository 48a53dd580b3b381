/** What a press shows, when frames are ready and when the timed watchdog bits are set. */
module TouchFrames {
  import opened Prelude
  import opened TouchSpec

  // ----- presses and lifts

  /** The nearest number from 0 to `most`. */
  predicate Nearest(out: int, v: int, most: int) {
    && (0 <= v <= most ==> out == v)
    && (v < 0 ==> out == 0)
    && (v > most ==> out == most)
  }

  /**
   MAIN: a press of a controller that is not latched shows one contact in slot 0, swapped and mirrored from the
   landscape screen to the portrait panel, and remembers where the host pressed. The first press makes a frame ready
   and arms the stall; a move under a stall makes none.
   */
  lemma PressShows(s: Touch, x: int, y: int)
    requires !s.phantom.latch
    ensures
      var a := TouchStep(s, InjectTouch(x, y, true));
      && a.points[0].Some? && a.points[1..] == s.points[1..]
      && a.points[0].value.trackId == 0 && a.points[0].value.size == s.contactSize
      && Nearest(a.points[0].value.x, y, 239) && Nearest(319 - a.points[0].value.y, x, 319)
      && a.lastRaw.Some? && Nearest(a.lastRaw.value.0, x, 65535) && Nearest(a.lastRaw.value.1, y, 65535)
      && a.lastMapped == Some((a.points[0].value.x, a.points[0].value.y))
      && (!IsPressed(s) ==>
            && a.frame == Frame(true, true, Some(s.nowMs))
            && a.stall.until == if s.stall.ms == 0 then None else Some(Min(s.nowMs + s.stall.ms, U64_MAX)))
      && (IsPressed(s) ==>
            && a.stall == s.stall
            && a.frame == if s.stall.until.Some? && s.nowMs < s.stall.until.value then s.frame
                          else Frame(true, true, Some(s.nowMs)))
  {
    var a := TouchStep(s, InjectTouch(x, y, true));
    assert a.points[0].Some?;
  }

  /** A lift of a controller that is not latched empties slot 0, ends the stall and makes a frame ready. */
  lemma LiftClears(s: Touch, x: int, y: int)
    requires !s.phantom.latch
    ensures
      var a := TouchStep(s, InjectTouch(x, y, false));
      && a.points == s.points[0 := None] && a.physical == None
      && a.frame == Frame(true, true, Some(s.nowMs)) && a.stall.until == None && a.stall.started == None
      && a.lastRaw == s.lastRaw && a.lastMapped == s.lastMapped
  {}

  /** Acknowledging takes the frame and the interrupt away, and nothing else. */
  lemma AcknowledgeClears(s: Touch)
    ensures
      var a := TouchStep(s, Acknowledge);
      !a.frame.ready && !a.frame.intAsserted && a == s.(frame := Frame(false, false, s.frame.lastMs))
  {}

  // ----- scan frames

  /** A tick finds a new frame due: 10 ms after the last one and not before the stall is over. */
  predicate FrameDue(s: Touch, now: U64) {
    && (s.frame.lastMs.Some? ==> s.frame.lastMs.value + 10 <= now)
    && (s.stall.until.Some? ==> s.stall.until.value <= now)
  }

  /** A tick makes a frame ready exactly if a finger is down, none is waiting, and one is due. */
  lemma TickMakesFrame(s: Touch, now: U64)
    ensures
      var a := TouchStep(s, TickTouch(now));
      && a.nowMs == now && a.points == s.points
      && a.frame == if IsPressed(s) && !s.frame.ready && FrameDue(s, now) then Frame(true, true, Some(now)) else s.frame
  {
    assert IsPressed(s) <==> IsPressed(s.(nowMs := now));
  }

  function Ticks(times: seq<U64>): seq<TouchOp> {
    seq(|times|, i requires 0 <= i < |times| => TickTouch(times[i]))
  }

  /**
   MAIN: with a finger held and no frame waiting, any run of ticks has made a frame ready if and only if one of them
   came 10 ms after the last frame or later, and not before the end of the stall.
   */
  lemma {:induction false} HeldFingerIsScanned(s: Touch, times: seq<U64>)
    requires IsPressed(s) && !s.frame.ready
    ensures
      var a := TouchRun(s, Ticks(times));
      && a.points == s.points && a.stall.until == s.stall.until
      && (a.frame.ready <==> exists i :: 0 <= i < |times| && FrameDue(s, times[i]))
      && (!a.frame.ready ==> a.frame == s.frame)
  {
    if times != [] {
      var before, now := times[..|times| - 1], times[|times| - 1];
      assert Ticks(times)[..|times| - 1] == Ticks(before);
      HeldFingerIsScanned(s, before);
      var r := TouchRun(s, Ticks(before));
      assert IsPressed(r);
      TickMakesFrame(r, now);
      TickKeepsStall(r, now);
      if i :| 0 <= i < |before| && FrameDue(s, before[i]) {
        assert FrameDue(s, times[i]);
      }
      if i :| 0 <= i < |times| && FrameDue(s, times[i]) {
        assert i < |before| ==> FrameDue(s, before[i]);
      }
    }
  }

  lemma TickKeepsStall(s: Touch, now: U64)
    ensures
      var a := TouchStep(s, TickTouch(now));
      a.stall == s.stall.(fired := a.stall.fired) && a.phantom == s.phantom.(fired := a.phantom.fired)
  {}

  // ----- watchdog bits

  /**
   MAIN: a tick with a finger down sets the frame bit exactly when more than 250 ms have passed since the stall
   started, the stall is longer than that and no frame waits; and the phantom bit exactly when the latch has held
   a point for more than 10 s. Without a finger it sets neither, and it clears none.
   */
  lemma TickWatchdogs(s: Touch, now: U64)
    ensures
      var a := TouchStep(s, TickTouch(now));
      && (a.stall.fired
          <==> s.stall.fired
               || (&& IsPressed(s) && !s.frame.ready && s.stall.started.Some? && s.stall.until.Some?
                   && s.stall.started.value + 250 < s.stall.until.value && s.stall.started.value + 250 < now))
      && (a.phantom.fired
          <==> s.phantom.fired
               || (&& IsPressed(s) && s.phantom.latch && s.phantom.started.Some?
                   && s.phantom.started.value + 10000 < now))
      && a.injector == s.injector
  {
    assert IsPressed(s) <==> IsPressed(s.(nowMs := now));
  }

  /** A new stall runs from now exactly if a finger is down and it has a length; its bit is cleared. */
  lemma StallRunsFromNow(s: Touch, ms: U32)
    ensures
      var a := TouchStep(s, SetFrameStall(ms));
      && a.stall.ms == ms && !a.stall.fired
      && (if ms > 0 && IsPressed(s) then
            a.stall.started == Some(s.nowMs) && a.stall.until == Some(Min(s.nowMs + ms, U64_MAX))
          else a.stall.started == None && a.stall.until == None)
  {
    assert IsPressed(s) <==> IsPressed(s.(stall := s.stall.(ms := ms, fired := false)));
  }

  /**
   Switching the latch on holds the first occupied slot from now on. Switching it off lets go and, if it was on,
   shows what the finger really does in a new frame.
   */
  lemma LatchSwitches(s: Touch)
    ensures
      var on, off := TouchStep(s, SetPhantomLatch(true)), TouchStep(s, SetPhantomLatch(false));
      && on.phantom.latch && !on.phantom.fired && on.points == s.points && on.frame == s.frame
      && (forall k :: 0 <= k < MAX_TOUCHES && s.points[k].Some? && (forall j :: 0 <= j < k ==> s.points[j].None?) ==>
            on.phantom.point == s.points[k] && on.phantom.started == Some(s.nowMs))
      && (!IsPressed(s) ==> on.phantom.point == None && on.phantom.started == None)
      && off.phantom == Phantom(false, None, None, false) && off.points[1..] == s.points[1..]
      && (if s.phantom.latch then
            && off.frame == Frame(true, true, Some(s.nowMs))
            && off.points[0] == (if s.physical.Some? then Some(s.physical.value.1) else None)
          else off.frame == s.frame && off.points == s.points)
  {}

  // ----- registers in numbers

  /** The eight registers of a contact: its track, and x, y and size, low byte first. */
  lemma PointInNumbers(p: Point)
    ensures PointByte(p, 0) == p.trackId && PointByte(p, 7) == 0
    ensures
      var x0: int, x1: int, y0: int, y1: int, z0: int, z1: int :=
        PointByte(p, 1), PointByte(p, 2), PointByte(p, 3), PointByte(p, 4), PointByte(p, 5), PointByte(p, 6);
      x0 + 256 * x1 == p.x && y0 + 256 * y1 == p.y && z0 + 256 * z1 == p.size
  {}

  /** The product id reads "911", closed by a zero byte. */
  lemma ProductId(s: Touch)
    ensures RegisterByte(s, 0x8140) == '9' as int && RegisterByte(s, 0x8141) == '1' as int
    ensures RegisterByte(s, 0x8142) == '1' as int && RegisterByte(s, 0x8143) == 0
  {}
}
