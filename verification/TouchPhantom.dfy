/** The phantom latch freezes what is reported; once it is off, the contacts are as if it had never been on. */
module TouchPhantom {
  import opened Prelude
  import opened Sequences
  import opened TouchSpec

  function PhysicalPoint(s: Touch): Option<Point> {
    if s.physical.Some? then Some(s.physical.value.1) else None
  }

  /** Slot 0 shows the finger, unless the latch holds a point, which is then what is reported. */
  ghost predicate Coherent(s: Touch) {
    && (!s.phantom.latch ==> s.phantom.point.None?)
    && (s.phantom.point.None? ==> s.points[0] == PhysicalPoint(s) && s.phantom.started.None?)
    && (s.phantom.point.Some? ==> PrimaryOf(s.points) == s.phantom.point && s.phantom.started.Some?)
  }

  lemma StepCoherent(s: Touch, op: TouchOp)
    requires Coherent(s)
    ensures Coherent(TouchStep(s, op))
  {
    hide FrameIsStalled, IsPressed, FrameFires, PhantomFires, NextInjector;
  }

  // ----- frozen while latched

  predicate NeverOff(ops: seq<TouchOp>) {
    forall i :: 0 <= i < |ops| ==> ops[i] != SetPhantomLatch(false)
  }

  lemma StepFrozen(s: Touch, op: TouchOp, p: Point)
    requires Coherent(s) && s.phantom.latch && s.phantom.point == Some(p) && op != SetPhantomLatch(false)
    ensures
      var t := TouchStep(s, op);
      Coherent(t) && t.phantom.latch && t.phantom.point == Some(p)
  {
    hide FrameIsStalled, IsPressed, FrameFires, PhantomFires, NextInjector;
    StepCoherent(s, op);
  }

  /** MAIN: once a point is latched, it is the reported contact until the latch is off, whatever the finger does. */
  lemma {:induction false} FrozenWhileLatched(s: Touch, ops: seq<TouchOp>, p: Point)
    requires Coherent(s) && s.phantom.latch && s.phantom.point == Some(p) && NeverOff(ops)
    ensures
      var t := TouchRun(s, ops);
      Coherent(t) && t.phantom.latch && t.phantom.point == Some(p) && PrimaryOf(t.points) == Some(p)
  {
    hide TouchStep, PrimaryOf;
    if ops != [] {
      FrozenWhileLatched(s, ops[..|ops| - 1], p);
      StepFrozen(TouchRun(s, ops[..|ops| - 1]), ops[|ops| - 1], p);
    }
  }

  /** The first press under the latch is the one that freezes. */
  lemma FirstPressFreezes(s: Touch, x: int, y: int)
    requires Coherent(s) && s.phantom.latch && s.phantom.point.None?
    ensures TouchStep(s, InjectTouch(x, y, true)).phantom.point == Some(MappedPoint(x, y, s.contactSize))
  {
    hide FrameIsStalled, IsPressed;
  }

  // ----- a twin that was never latched

  function NotLatchOp(): TouchOp -> bool { (op: TouchOp) => !op.SetPhantomLatch? }

  function WithoutLatch(ops: seq<TouchOp>): seq<TouchOp> { Filter(ops, NotLatchOp()) }

  /** `t` has lived the same life as `s`, but for the latch. */
  ghost predicate Twins(s: Touch, t: Touch) {
    && Coherent(s) && Coherent(t) && !t.phantom.latch
    && s.physical == t.physical && s.contactSize == t.contactSize
    && s.points[1..] == t.points[1..]
    && (!s.phantom.latch ==> s.physical.Some? ==> s.lastRaw == t.lastRaw && s.lastMapped == t.lastMapped)
    && (t.physical.Some? ==> t.lastRaw == Some(t.physical.value.0)
                             && t.lastMapped == Some((t.physical.value.1.x, t.physical.value.1.y)))
  }

  /** What a touch changes, whatever the latch. */
  lemma InjectFields(s: Touch, x: int, y: int, pressed: bool)
    ensures
      var r := TouchInjected(s, x, y, pressed);
      && r.points[1..] == s.points[1..] && r.contactSize == s.contactSize && r.phantom.latch == s.phantom.latch
      && r.physical == (if pressed then Some((RawOf(x, y), MappedPoint(x, y, s.contactSize))) else None)
  {
    hide FrameIsStalled, IsPressed, RawOf, MappedPoint;
  }

  lemma InjectPosition(s: Touch, x: int, y: int, pressed: bool)
    requires !s.phantom.latch
    ensures
      var r := TouchInjected(s, x, y, pressed);
      var p := MappedPoint(x, y, s.contactSize);
      && r.lastRaw == (if pressed then Some(RawOf(x, y)) else s.lastRaw)
      && r.lastMapped == (if pressed then Some((p.x, p.y)) else s.lastMapped)
  {
    hide FrameIsStalled, IsPressed, RawOf, MappedPoint;
  }

  lemma BothInject(s: Touch, t: Touch, x: int, y: int, pressed: bool)
    requires Twins(s, t)
    ensures Twins(TouchInjected(s, x, y, pressed), TouchInjected(t, x, y, pressed))
  {
    hide TouchInjected, RawOf, MappedPoint, Coherent;
    StepCoherent(s, InjectTouch(x, y, pressed));
    StepCoherent(t, InjectTouch(x, y, pressed));
    InjectFields(s, x, y, pressed);
    InjectFields(t, x, y, pressed);
    InjectPosition(t, x, y, pressed);
    if !s.phantom.latch {
      InjectPosition(s, x, y, pressed);
    }
  }

  lemma BothStep(s: Touch, t: Touch, op: TouchOp)
    requires Twins(s, t) && !op.SetPhantomLatch?
    ensures Twins(TouchStep(s, op), TouchStep(t, op))
  {
    hide FrameIsStalled, IsPressed, PrimaryOf, FrameFires, PhantomFires, NextInjector, Coherent, TouchInjected;
    StepCoherent(s, op);
    StepCoherent(t, op);
    if op.InjectTouch? {
      BothInject(s, t, op.mouseX, op.mouseY, op.pressed);
    }
  }

  lemma LatchStep(s: Touch, t: Touch, enabled: bool)
    requires Twins(s, t)
    ensures Twins(TouchStep(s, SetPhantomLatch(enabled)), t)
  {
    hide PrimaryOf;
    StepCoherent(s, SetPhantomLatch(enabled));
  }

  lemma {:induction false} TwinsRun(s: Touch, ops: seq<TouchOp>)
    requires Twins(s, s)
    ensures Twins(TouchRun(s, ops), TouchRun(s, WithoutLatch(ops)))
  {
    hide TouchStep, Twins;
    if ops != [] {
      var before, op := ops[..|ops| - 1], ops[|ops| - 1];
      assert ops == before + [op];
      TwinsRun(s, before);
      FilterAppend(before, op, NotLatchOp());
      if op.SetPhantomLatch? {
        LatchStep(TouchRun(s, before), TouchRun(s, WithoutLatch(before)), op.enabled);
      } else {
        BothStep(TouchRun(s, before), TouchRun(s, WithoutLatch(before)), op);
        var w := WithoutLatch(before);
        assert (w + [op])[..|w|] == w;
      }
    }
  }

  /**
   MAIN: whatever mix of touches, ticks, acknowledgements, status reads and latch switches has happened,
   whenever the latch is off the five contact slots are those of a twin that was never latched; and if a
   finger is down, so are the raw and mapped positions.
   */
  lemma LatchIsTransparent(s: Touch, ops: seq<TouchOp>)
    requires Twins(s, s) && !TouchRun(s, ops).phantom.latch
    ensures
      var a, b := TouchRun(s, ops), TouchRun(s, WithoutLatch(ops));
      && a.points == b.points && a.physical == b.physical
      && (a.physical.Some? ==> a.lastRaw == b.lastRaw && a.lastMapped == b.lastMapped)
  {
    TwinsRun(s, ops);
    var a, b := TouchRun(s, ops), TouchRun(s, WithoutLatch(ops));
    assert a.points[0] == b.points[0];
    forall i | 0 <= i < MAX_TOUCHES ensures a.points[i] == b.points[i] {
      if i > 0 {
        assert a.points[i] == a.points[1..][i - 1] && b.points[i] == b.points[1..][i - 1];
      }
    }
  }

  /** A controller fresh from `new`. */
  function Fresh(): Touch {
    Touch([None, None, None, None, None], 50, 320, 240, 0, Frame(false, false, None), None, None, None,
          Injector(0, 0, 0, false), Stall(0, None, None, false), Phantom(false, None, None, false))
  }

  lemma FreshIsTwin()
    ensures Twins(Fresh(), Fresh())
  {}

  /**
   With the finger up the last position can differ: a move made under the latch is never recorded when the finger
   lifts before the latch goes off. So after a press at p, a move to q and a lift the latched controller knows p
   and its twin q.
   */
  lemma LiftedPositionCanDiffer(px: int, py: int, qx: int, qy: int)
    ensures
      var ops := [SetPhantomLatch(true), InjectTouch(px, py, true), InjectTouch(qx, qy, true),
                  InjectTouch(0, 0, false), SetPhantomLatch(false)];
      var a, b := TouchRun(Fresh(), ops), TouchRun(Fresh(), WithoutLatch(ops));
      && a.lastRaw == Some(RawOf(px, py)) && b.lastRaw == Some(RawOf(qx, qy))
      && (a.lastRaw == b.lastRaw <==> RawOf(px, py) == RawOf(qx, qy))
  {
    hide TouchRun, TouchStep, RawOf;
    var on, p, q, up, off := SetPhantomLatch(true), InjectTouch(px, py, true), InjectTouch(qx, qy, true),
                             InjectTouch(0, 0, false), SetPhantomLatch(false);
    RunFive(Fresh(), on, p, q, up, off);
    WithoutFive(on, p, q, up, off);
    RunThree(Fresh(), p, q, up);
    LatchedLife(px, py, qx, qy);
    UnlatchedLife(px, py, qx, qy);
  }

  lemma LatchedLife(px: int, py: int, qx: int, qy: int)
    ensures
      var s2 := TouchStep(TouchStep(Fresh(), SetPhantomLatch(true)), InjectTouch(px, py, true));
      var s4 := TouchStep(TouchStep(s2, InjectTouch(qx, qy, true)), InjectTouch(0, 0, false));
      TouchStep(s4, SetPhantomLatch(false)).lastRaw == Some(RawOf(px, py))
  {
    hide FrameIsStalled, IsPressed, RawOf, MappedPoint;
    var s1 := TouchStep(Fresh(), SetPhantomLatch(true));
    assert s1.phantom == Phantom(true, None, None, false);
    var s2 := TouchStep(s1, InjectTouch(px, py, true));
    assert s2.lastRaw == Some(RawOf(px, py));
    assert s2.phantom.point.Some? && s2.phantom.latch && s2.phantom.started.Some?;
    var s3 := TouchStep(s2, InjectTouch(qx, qy, true));
    assert s3.lastRaw == s2.lastRaw && s3.phantom == s2.phantom;
    var s4 := TouchStep(s3, InjectTouch(0, 0, false));
    assert s4.lastRaw == s2.lastRaw && s4.phantom == s2.phantom && s4.physical.None?;
  }

  lemma UnlatchedLife(px: int, py: int, qx: int, qy: int)
    ensures
      var t2 := TouchStep(TouchStep(Fresh(), InjectTouch(px, py, true)), InjectTouch(qx, qy, true));
      TouchStep(t2, InjectTouch(0, 0, false)).lastRaw == Some(RawOf(qx, qy))
  {
    hide FrameIsStalled, IsPressed, RawOf, MappedPoint;
    var t1 := TouchStep(Fresh(), InjectTouch(px, py, true));
    assert t1.phantom == Fresh().phantom;
    var t2 := TouchStep(t1, InjectTouch(qx, qy, true));
    assert t2.phantom == Fresh().phantom && t2.lastRaw == Some(RawOf(qx, qy));
  }

  lemma RunThree(s: Touch, a: TouchOp, b: TouchOp, c: TouchOp)
    ensures TouchRun(s, [a, b, c]) == TouchStep(TouchStep(TouchStep(s, a), b), c)
  {
    hide TouchStep;
    assert [a, b, c][..2] == [a, b] && [a, b][..1] == [a] && [a][..0] == [];
    assert TouchRun(s, [a]) == TouchStep(s, a);
    assert TouchRun(s, [a, b]) == TouchStep(TouchStep(s, a), b);
  }

  lemma RunFive(s: Touch, a: TouchOp, b: TouchOp, c: TouchOp, d: TouchOp, e: TouchOp)
    ensures TouchRun(s, [a, b, c, d, e]) == TouchStep(TouchStep(TouchStep(TouchStep(TouchStep(s, a), b), c), d), e)
  {
    hide TouchStep;
    assert [a, b, c, d, e][..4] == [a, b, c, d] && [a, b, c, d][..3] == [a, b, c];
    RunThree(s, a, b, c);
    assert TouchRun(s, [a, b, c, d]) == TouchStep(TouchRun(s, [a, b, c]), d);
  }

  lemma WithoutFive(a: TouchOp, b: TouchOp, c: TouchOp, d: TouchOp, e: TouchOp)
    requires a.SetPhantomLatch? && e.SetPhantomLatch?
    requires !b.SetPhantomLatch? && !c.SetPhantomLatch? && !d.SetPhantomLatch?
    ensures WithoutLatch([a, b, c, d, e]) == [b, c, d]
  {
    hide Filter;
    assert [a] == [] + [a] && [a, b] == [a] + [b] && [a, b, c] == [a, b] + [c];
    assert [a, b, c, d] == [a, b, c] + [d] && [a, b, c, d, e] == [a, b, c, d] + [e];
    FilterNone([a], NotLatchOp());
    FilterAppend([a], b, NotLatchOp());
    FilterAppend([a, b], c, NotLatchOp());
    FilterAppend([a, b, c], d, NotLatchOp());
    FilterAppend([a, b, c, d], e, NotLatchOp());
  }
}
