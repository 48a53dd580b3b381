/** The meaning of every GT911 call, as functions from controller state to controller state. */
module TouchSpec {
  import opened Prelude

  const MAX_TOUCHES := 5
  const STATUS_REGISTER: U16 := 0x814E
  const PRODUCT_ID_REGISTER: U16 := 0x8140
  const CONFIG_X_REGISTER: U16 := 0x8048
  const CONFIG_Y_REGISTER: U16 := 0x804A
  const PRODUCT_ID: seq<Byte> := [0x39, 0x31, 0x31, 0]  // "911\0"
  const SCAN_INTERVAL_MS := 10
  const BUS_WATCHDOG_FAILURES := 8
  const FRAME_WATCHDOG_MS := 250
  const PHANTOM_WATCHDOG_MS := 10_000

  datatype Point = Point(trackId: Byte, x: U16, y: U16, size: U16)

  type Slots = s: seq<Option<Point>> | |s| == MAX_TOUCHES witness [None, None, None, None, None]

  type Raw = (U16, U16)

  /** The status-read fault injector and its sticky watchdog bit. */
  datatype Injector = Injector(rate: Byte, accumulator: U16, consecutive: Byte, fired: bool)

  /** Suppression of held-touch frames after a press. */
  datatype Stall = Stall(ms: U32, started: Option<U64>, until: Option<U64>, fired: bool)

  /** The latch that keeps reporting the first pressed point. */
  datatype Phantom = Phantom(latch: bool, point: Option<Point>, started: Option<U64>, fired: bool)

  datatype Frame = Frame(intAsserted: bool, ready: bool, lastMs: Option<U64>)

  datatype Touch = Touch(
    points: Slots,
    contactSize: U16,
    maxX: U16,
    maxY: U16,
    nowMs: U64,
    frame: Frame,
    lastRaw: Option<Raw>,
    lastMapped: Option<Raw>,
    physical: Option<(Raw, Point)>,
    injector: Injector,
    stall: Stall,
    phantom: Phantom)

  datatype TouchOp =
    | SetFailureRate(pct: Byte)
    | SetFrameStall(ms: U32)
    | SetPhantomLatch(enabled: bool)
    | InjectTouch(mouseX: int, mouseY: int, pressed: bool)
    | TickTouch(nowMs: U64)
    | StatusRead
    | Acknowledge

  // ----- small readers

  function Clamp(v: int, lo: int, hi: int): int
    requires lo <= hi
  {
    Max(lo, Min(v, hi))
  }

  /** The occupied slots, in slot order. */
  function Occupied(points: seq<Option<Point>>): (contacts: seq<Point>)
    ensures |contacts| <= |points|
  {
    if points == [] then []
    else
      match points[0]
      case None => Occupied(points[1..])
      case Some(p) => [p] + Occupied(points[1..])
  }

  predicate IsPressed(s: Touch) {
    exists i :: 0 <= i < MAX_TOUCHES && s.points[i].Some?
  }

  /** The first occupied slot: the contact reported to a firmware that tracks one finger. */
  function PrimaryOf(points: Slots): Option<Point> {
    if points[0].Some? then points[0]
    else if points[1].Some? then points[1]
    else if points[2].Some? then points[2]
    else if points[3].Some? then points[3]
    else points[4]
  }

  predicate FrameIsStalled(s: Touch) {
    s.stall.until.Some? && s.nowMs < s.stall.until.value
  }

  function MarkFrameReady(s: Touch): Touch {
    s.(frame := Frame(true, true, Some(s.nowMs)))
  }

  function ArmFrameStall(s: Touch): Touch {
    if s.stall.ms == 0 || !IsPressed(s) then s.(stall := s.stall.(started := None, until := None))
    else s.(stall := s.stall.(started := Some(s.nowMs), until := Some(SaturatingAdd(s.nowMs, s.stall.ms))))
  }

  // ----- calls

  function RateSet(s: Touch, pct: Byte): Touch {
    s.(injector := Injector(Min(pct, 100), 0, 0, false))
  }

  function StallSet(s: Touch, ms: U32): Touch {
    ArmFrameStall(s.(stall := s.stall.(ms := ms, fired := false)))
  }

  function LatchSet(s: Touch, enabled: bool): Touch {
    if enabled then
      var p := PrimaryOf(s.points);
      s.(phantom := Phantom(true, p, if p.Some? then Some(s.nowMs) else None, false))
    else
      var t := s.(phantom := Phantom(false, None, None, false));
      if !s.phantom.latch then t
      else
        match s.physical
        case Some((raw, point)) =>
          MarkFrameReady(t.(points := s.points[0 := Some(point)], lastRaw := Some(raw),
                            lastMapped := Some((point.x, point.y))))
        case None => MarkFrameReady(t.(points := s.points[0 := None]))
  }

  function RawOf(mouseX: int, mouseY: int): Raw {
    (Clamp(mouseX, 0, U16_MAX), Clamp(mouseY, 0, U16_MAX))
  }

  /** The landscape host coordinate in the portrait coordinates of the panel. */
  function MappedPoint(mouseX: int, mouseY: int, size: U16): Point {
    Point(0, Clamp(mouseY, 0, 239), Clamp(319 - mouseX, 0, 319), size)
  }

  function Pressed(s: Touch, raw: Raw, point: Point): Touch {
    var t := s.(physical := Some((raw, point)));
    if !s.phantom.latch then
      t.(points := s.points[0 := Some(point)], lastRaw := Some(raw), lastMapped := Some((point.x, point.y)))
    else
      var latched := if s.phantom.point.Some? then s.phantom.point.value else point;
      var u := t.(points := s.points[0 := Some(latched)]);
      if s.phantom.started.Some? then u.(phantom := s.phantom.(point := Some(latched)))
      else
        u.(phantom := s.phantom.(point := Some(latched), started := Some(s.nowMs)),
           lastRaw := Some(raw), lastMapped := Some((latched.x, latched.y)))
  }

  function TouchInjected(s: Touch, mouseX: int, mouseY: int, pressed: bool): Touch {
    if pressed then
      var t := Pressed(s, RawOf(mouseX, mouseY), MappedPoint(mouseX, mouseY, s.contactSize));
      if !IsPressed(s) then MarkFrameReady(ArmFrameStall(t))
      else if !FrameIsStalled(s) then MarkFrameReady(t)
      else t
    else if s.phantom.latch && s.phantom.point.Some? then
      var t := s.(physical := None, points := s.points[0 := s.phantom.point]);
      if !FrameIsStalled(s) then MarkFrameReady(t) else t
    else
      MarkFrameReady(s.(physical := None, points := s.points[0 := None],
                        stall := s.stall.(started := None, until := None),
                        phantom := s.phantom.(point := None, started := None)))
  }

  /** The frame watchdog: a stall longer than 250 ms has left firmware without a frame for that long. */
  predicate FrameFires(s: Touch, now: U64) {
    && s.stall.started.Some? && s.stall.until.Some?
    && (var watchdogAt := SaturatingAdd(s.stall.started.value, FRAME_WATCHDOG_MS);
        s.stall.until.value > watchdogAt && now > watchdogAt && !s.frame.ready)
  }

  predicate PhantomFires(s: Touch, now: U64) {
    s.phantom.latch && s.phantom.started.Some? && Max(now - s.phantom.started.value, 0) > PHANTOM_WATCHDOG_MS
  }

  function Ticked(s: Touch, now: U64): Touch {
    var t := s.(nowMs := now);
    if !IsPressed(t) then t
    else
      var u := t.(stall := s.stall.(fired := s.stall.fired || FrameFires(s, now)),
                  phantom := s.phantom.(fired := s.phantom.fired || PhantomFires(s, now)));
      if u.frame.ready || FrameIsStalled(u) then u
      else if u.frame.lastMs.None? || Max(now - u.frame.lastMs.value, 0) >= SCAN_INTERVAL_MS then MarkFrameReady(u)
      else u
  }

  /** Whether the next status read fails. */
  predicate ReadFails(s: Touch) {
    Min(s.injector.accumulator + s.injector.rate, U16_MAX) >= 100
  }

  function NextInjector(i: Injector, pressed: bool): Injector {
    var acc := Min(i.accumulator + i.rate, U16_MAX);
    if acc < 100 then i.(accumulator := acc, consecutive := 0)
    else if pressed then
      var c := Min(i.consecutive + 1, 255);
      i.(accumulator := acc - 100, consecutive := c, fired := i.fired || c >= BUS_WATCHDOG_FAILURES)
    else i.(accumulator := acc - 100, consecutive := 0)
  }

  function AfterStatusRead(s: Touch): Touch {
    s.(injector := NextInjector(s.injector, IsPressed(s)))
  }

  function Acknowledged(s: Touch): Touch {
    s.(frame := s.frame.(ready := false, intAsserted := false))
  }

  function TouchStep(s: Touch, op: TouchOp): Touch {
    match op
    case SetFailureRate(pct) => RateSet(s, pct)
    case SetFrameStall(ms) => StallSet(s, ms)
    case SetPhantomLatch(enabled) => LatchSet(s, enabled)
    case InjectTouch(x, y, pressed) => TouchInjected(s, x, y, pressed)
    case TickTouch(now) => Ticked(s, now)
    case StatusRead => AfterStatusRead(s)
    case Acknowledge => Acknowledged(s)
  }

  function TouchRun(s: Touch, ops: seq<TouchOp>): Touch {
    if ops == [] then s else TouchStep(TouchRun(s, ops[..|ops| - 1]), ops[|ops| - 1])
  }

  // ----- the register map

  function PointByte(p: Point, k: nat): Byte {
    match k
    case 0 => p.trackId
    case 1 => Low(p.x)
    case 2 => High(p.x)
    case 3 => Low(p.y)
    case 4 => High(p.y)
    case 5 => Low(p.size)
    case 6 => High(p.size)
    case _ => 0
  }

  function RegisterByte(s: Touch, address: U16): Byte {
    if PRODUCT_ID_REGISTER <= address < PRODUCT_ID_REGISTER + |PRODUCT_ID| then
      PRODUCT_ID[address - PRODUCT_ID_REGISTER]
    else if CONFIG_X_REGISTER <= address < CONFIG_X_REGISTER + 2 then
      if address == CONFIG_X_REGISTER then Low(s.maxX) else High(s.maxX)
    else if CONFIG_Y_REGISTER <= address < CONFIG_Y_REGISTER + 2 then
      if address == CONFIG_Y_REGISTER then Low(s.maxY) else High(s.maxY)
    else if address == STATUS_REGISTER then
      if !s.frame.ready then 0 else 0x80 + |Occupied(s.points)|
    else if address < STATUS_REGISTER + 1 then 0
    else
      var offset := address - (STATUS_REGISTER + 1);
      if offset / 8 < |Occupied(s.points)| then PointByte(Occupied(s.points)[offset / 8], offset % 8) else 0
  }
}
