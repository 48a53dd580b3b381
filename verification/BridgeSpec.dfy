/** How firmware reaches the bus: a monotone clock, deep sleep, and a second receive queue per radio. */
module BridgeSpec {
  import opened Prelude
  import opened RadioTypes
  import opened RadioSpec
  import opened Sequences
  import opened RadioPruning
  import opened RadioBusy
  import Airtime

  datatype Handle = Handle(
    channel: RadioChannel,
    txPowerDbm: real,
    pending: seq<RxPacket>,
    lastRx: Option<(Positive, Positive)>)

  datatype Bridge = Bridge(bus: Bus, nowMs: U64, handles: map<NodeId, Handle>)

  datatype Call =
    | Create(id: NodeId, channel: RadioChannel, txPowerDbm: real, position: Position)
    | StartSend(id: NodeId, data: seq<Byte>)
    | RecvRaw(id: NodeId, maxLen: int)
    | SetPosition(id: NodeId, position: Position)
    | SetDio2Config(id: NodeId, asRfSwitch: bool)
    | Destroy(id: NodeId)
    | BusTick(nowMs: U64)
    | DeepSleep(id: NodeId, sleepSecs: U32)

  /** The length of the packet copied out, zero for none, or minus the length of one that did not fit. */
  datatype Received = Received(code: int, truncated: bool, packet: Option<RxPacket>)

  predicate ValidChannel(ch: RadioChannel) {
    150.0 <= ch.freqMhz <= 960.0 && Airtime.Supported(ch.spreadingFactor, ch.bandwidthKhz, ch.codingRate)
  }

  /** What an SX1262 can put out. */
  predicate ValidPower(dbm: real) {
    -17.0 <= dbm <= 22.0
  }

  predicate ValidPosition(p: Position) {
    -90.0 <= p.0 <= 90.0 && -180.0 <= p.1 <= 180.0
  }

  predicate Creates(b: Bridge, call: Call)
    requires call.Create?
  {
    && ValidChannel(call.channel) && ValidPower(call.txPowerDbm) && ValidPosition(call.position)
    && call.id != "" && call.id !in b.handles
  }

  function Outgoing(b: Bridge, id: NodeId, data: seq<Byte>): TxEvent
    requires id in b.handles
  {
    var h := b.handles[id];
    TxEvent(id, h.channel, data, b.bus.config.milliwatts(h.txPowerDbm),
            Airtime.PacketAirtime(|data|, h.channel.spreadingFactor, h.channel.bandwidthKhz, h.channel.codingRate),
            (0.0, 0.0), b.nowMs)
  }

  function WakeAt(b: Bridge, sleepSecs: U32): U64 {
    SaturatingAdd(b.nowMs, sleepSecs * 1000)
  }

  /** The bus calls one bridge call makes, in order. */
  function Lower(b: Bridge, call: Call): seq<Op> {
    match call
    case Create(id, channel, dbm, position) =>
      if Creates(b, call) then [Register(id, position, b.bus.config.milliwatts(dbm), channel)] else []
    case StartSend(id, data) =>
      if id in b.handles && |data| <= 255 then [Broadcast(Outgoing(b, id, data))] else []
    case RecvRaw(id, maxLen) =>
      if id in b.handles && maxLen > 0 && b.handles[id].pending == [] then [Poll(id)] else []
    case SetPosition(id, position) =>
      if id in b.handles && ValidPosition(position) then [UpdatePosition(id, position)] else []
    case SetDio2Config(id, on) => if id in b.handles then [SetDio2(id, on)] else []
    case Destroy(id) => if id in b.handles then [Unregister(id)] else []
    case BusTick(now) => [Tick(Max(b.nowMs, now))]
    case DeepSleep(id, secs) => [SetReceiveEnabled(id, false), Tick(WakeAt(b, secs)), SetReceiveEnabled(id, true)]
  }

  function NowAfter(b: Bridge, call: Call): U64 {
    match call
    case BusTick(now) => Max(b.nowMs, now)
    case DeepSleep(_, secs) => WakeAt(b, secs)
    case _ => b.nowMs
  }

  /** The receive queue `recv_raw` works on: refilled from the bus once it has run dry. */
  function Refilled(b: Bridge, id: NodeId): seq<RxPacket>
    requires id in b.handles
  {
    if b.handles[id].pending == [] then Inbox(b.bus, id) else b.handles[id].pending
  }

  function RecvResult(b: Bridge, id: NodeId, maxLen: int): Received {
    if id !in b.handles || maxLen <= 0 || Refilled(b, id) == [] then Received(0, false, None)
    else
      var p := Refilled(b, id)[0];
      if |p.data| > maxLen then Received(-|p.data|, true, None) else Received(|p.data|, false, Some(p))
  }

  function HandleAfterRecv(b: Bridge, id: NodeId, maxLen: int): Handle
    requires id in b.handles
  {
    var h := b.handles[id];
    if maxLen <= 0 then h
    else
      match RecvResult(b, id, maxLen).packet
      case None => h.(pending := Refilled(b, id))
      case Some(p) => h.(pending := Refilled(b, id)[1..], lastRx := Some((p.rssi, p.snr)))
  }

  function HandlesAfter(b: Bridge, call: Call): map<NodeId, Handle> {
    match call
    case Create(id, channel, dbm, _) =>
      if Creates(b, call) then b.handles[id := Handle(channel, dbm, [], None)] else b.handles
    case RecvRaw(id, maxLen) =>
      if id in b.handles then b.handles[id := HandleAfterRecv(b, id, maxLen)] else b.handles
    case Destroy(id) => b.handles - {id}
    case _ => b.handles
  }

  function BridgeStep(b: Bridge, call: Call, prune: bool): Bridge {
    Bridge(Run(b.bus, Lower(b, call), prune), NowAfter(b, call), HandlesAfter(b, call))
  }

  function BridgeRun(b: Bridge, calls: seq<Call>, prune: bool): Bridge {
    if calls == [] then b
    else BridgeStep(BridgeRun(b, calls[..|calls| - 1], prune), calls[|calls| - 1], prune)
  }

  // ----- the clock

  lemma RunOne(s: Bus, op: Op, prune: bool)
    ensures Run(s, [op], prune) == Step(s, op, prune)
  {
    assert [] + [op] == [op];
    RunAppend(s, [], op, prune);
  }

  lemma RunThree(s: Bus, x: Op, y: Op, z: Op, prune: bool)
    ensures Run(s, [x, y, z], prune) == Step(Step(Step(s, x, prune), y, prune), z, prune)
  {
    hide Step;
    assert [x] + [y] == [x, y] && [x, y] + [z] == [x, y, z];
    RunOne(s, x, prune);
    RunAppend(s, [x], y, prune);
    RunAppend(s, [x, y], z, prune);
  }

  lemma TimelyOne(op: Op, clock: U64)
    ensures Timely([op], clock) <==> InTime(op, clock)
    ensures ClockAfter(clock, [op]) == Advance(clock, op)
  {
    assert [] + [op] == [op];
    TimelyAppend([], op, clock);
  }

  lemma TimelyThree(x: Op, y: Op, z: Op, clock: U64)
    ensures Timely([x, y, z], clock) <==>
            InTime(x, clock) && InTime(y, Advance(clock, x)) && InTime(z, Advance(Advance(clock, x), y))
    ensures ClockAfter(clock, [x, y, z]) == Advance(Advance(Advance(clock, x), y), z)
  {
    TimelyOne(x, clock);
    TimelyAppend([x], y, clock);
    TimelyAppend([x, y], z, clock);
    assert [x] + [y] == [x, y] && [x, y] + [z] == [x, y, z];
  }

  /** Every bridge call reaches the bus in time, and the bridge clock keeps up with the bus and never runs back. */
  lemma LowerIsTimely(b: Bridge, call: Call)
    ensures Timely(Lower(b, call), b.nowMs)
    ensures ClockAfter(b.nowMs, Lower(b, call)) == NowAfter(b, call) >= b.nowMs
  {
    var ops := Lower(b, call);
    if |ops| == 1 {
      assert ops == [ops[0]];
      TimelyOne(ops[0], b.nowMs);
    } else if call.DeepSleep? {
      TimelyThree(ops[0], ops[1], ops[2], b.nowMs);
    }
  }

  /** MAIN: firmware cannot tell the pruned bus from one that keeps everything, whatever it calls. */
  lemma {:induction false} BridgePruningIsInvisible(b: Bridge, calls: seq<Call>)
    requires SettledBy(b.bus.transmissions, b.nowMs)
    ensures
      var p, h := BridgeRun(b, calls, true), BridgeRun(b, calls, false);
      Agree(p.bus, h.bus, p.nowMs) && p.nowMs == h.nowMs && p.handles == h.handles
  {
    if calls != [] {
      var before, call := calls[..|calls| - 1], calls[|calls| - 1];
      BridgePruningIsInvisible(b, before);
      BridgeStepAgrees(BridgeRun(b, before, true), BridgeRun(b, before, false), call);
    }
  }

  lemma BridgeStepAgrees(p: Bridge, h: Bridge, call: Call)
    requires Agree(p.bus, h.bus, p.nowMs) && p.nowMs == h.nowMs && p.handles == h.handles
    ensures
      var p', h' := BridgeStep(p, call, true), BridgeStep(h, call, false);
      Agree(p'.bus, h'.bus, p'.nowMs) && p'.nowMs == h'.nowMs && p'.handles == h'.handles
  {
    hide Run, Timely, ClockAfter;
    LowerIsTimely(p, call);
    assert Lower(p, call) == Lower(h, call);
    RunAgrees(p.bus, h.bus, Lower(p, call), p.nowMs);
  }

  // ----- what firmware receives

  /** The packets the bus puts into the inbox of `id` while it runs `ops`. */
  function Arrivals(s: Bus, ops: seq<Op>, id: NodeId, prune: bool): seq<RxPacket> {
    if ops == [] then []
    else
      var before, op := ops[..|ops| - 1], ops[|ops| - 1];
      var r := Run(s, before, prune);
      if op.Tick? && id in r.nodes then
        Arrivals(s, before, id, prune)
        + Heard(r.config, Due(Unfinished(r.transmissions), op.nowMs), id, r.nodes[id].front, Events(r.transmissions))
      else Arrivals(s, before, id, prune)
  }

  /** The packets delivered to `id` during the run, in delivery order. */
  function Delivered(b: Bridge, calls: seq<Call>, id: NodeId, prune: bool): seq<RxPacket> {
    if calls == [] then []
    else
      var before := calls[..|calls| - 1];
      var r := BridgeRun(b, before, prune);
      Delivered(b, before, id, prune) + Arrivals(r.bus, Lower(r, calls[|calls| - 1]), id, prune)
  }

  /** The packets `recv_raw` handed to the firmware of `id` during the run. */
  function Popped(b: Bridge, calls: seq<Call>, id: NodeId, prune: bool): seq<RxPacket> {
    if calls == [] then []
    else
      var before, call := calls[..|calls| - 1], calls[|calls| - 1];
      var got := if call.RecvRaw? && call.id == id then RecvResult(BridgeRun(b, before, prune), id, call.maxLen).packet
                 else None;
      Popped(b, before, id, prune) + if got.Some? then [got.value] else []
  }

  function Pending(b: Bridge, id: NodeId): seq<RxPacket> {
    if id in b.handles then b.handles[id].pending else []
  }

  /** Neither destroyed, created again nor put to sleep. */
  predicate Undisturbed(call: Call, id: NodeId) {
    match call
    case Create(x, _, _, _) => x != id
    case Destroy(x) => x != id
    case DeepSleep(x, _) => x != id
    case _ => true
  }

  predicate AllUndisturbed(calls: seq<Call>, id: NodeId) {
    forall i :: 0 <= i < |calls| ==> Undisturbed(calls[i], id)
  }

  lemma ArrivalsAppend(s: Bus, ops: seq<Op>, op: Op, id: NodeId, prune: bool)
    ensures
      var r := Run(s, ops, prune);
      Arrivals(s, ops + [op], id, prune)
      == if op.Tick? && id in r.nodes then
           Arrivals(s, ops, id, prune)
           + Heard(r.config, Due(Unfinished(r.transmissions), op.nowMs), id, r.nodes[id].front, Events(r.transmissions))
         else Arrivals(s, ops, id, prune)
  {
    assert (ops + [op])[..|ops|] == ops;
  }

  /** A bus call that is not about `id` only ever appends to its inbox, and exactly what arrives. */
  lemma StepInbox(s: Bus, op: Op, id: NodeId, prune: bool)
    requires id in s.nodes
    requires op.Register? || op.Unregister? || op.SetReceiveEnabled? || op.Poll? ==> op.id != id
    ensures id in Step(s, op, prune).nodes
    ensures Inbox(Step(s, op, prune), id)
         == Inbox(s, id)
            + if !op.Tick? then []
              else
                var due := Due(Unfinished(s.transmissions), op.nowMs);
                Heard(s.config, due, id, s.nodes[id].front, Events(s.transmissions))
  {
    hide Heard;
    if !op.Tick? {
      assert Inbox(s, id) + [] == Inbox(s, id);
    }
  }

  lemma OneOpInbox(s: Bus, op: Op, id: NodeId, prune: bool)
    requires id in s.nodes
    requires op.Register? || op.Unregister? || op.SetReceiveEnabled? || op.Poll? ==> op.id != id
    ensures id in Run(s, [op], prune).nodes
    ensures Inbox(Run(s, [op], prune), id) == Inbox(s, id) + Arrivals(s, [op], id, prune)
  {
    hide Run, Arrivals, Heard, Step, Inbox;
    assert [] + [op] == [op];
    RunOne(s, op, prune);
    NoArrivals(s, id, prune);
    ArrivalsAppend(s, [], op, id, prune);
    StepInbox(s, op, id, prune);
  }

  lemma PollOneInbox(s: Bus, id: NodeId, prune: bool)
    requires id in s.nodes
    ensures id in Run(s, [Poll(id)], prune).nodes
    ensures Inbox(Run(s, [Poll(id)], prune), id) == [] && Arrivals(s, [Poll(id)], id, prune) == []
  {
    hide Run, Arrivals, Heard;
    assert [] + [Poll(id)] == [Poll(id)];
    RunOne(s, Poll(id), prune);
    NoArrivals(s, id, prune);
    ArrivalsAppend(s, [], Poll(id), id, prune);
  }

  lemma SleepInbox(s: Bus, sleeper: NodeId, wake: U64, id: NodeId, prune: bool)
    requires id in s.nodes && id != sleeper
    ensures
      var ops := [SetReceiveEnabled(sleeper, false), Tick(wake), SetReceiveEnabled(sleeper, true)];
      id in Run(s, ops, prune).nodes && Inbox(Run(s, ops, prune), id) == Inbox(s, id) + Arrivals(s, ops, id, prune)
  {
    hide Step, Heard, Inbox;
    var x, y, z := SetReceiveEnabled(sleeper, false), Tick(wake), SetReceiveEnabled(sleeper, true);
    assert [] + [x] == [x] && [x] + [y] == [x, y] && [x, y] + [z] == [x, y, z];
    RunAppend(s, [], x, prune);
    RunAppend(s, [x], y, prune);
    RunAppend(s, [x, y], z, prune);
    StepInbox(s, x, id, prune);
    StepInbox(Run(s, [x], prune), y, id, prune);
    StepInbox(Run(s, [x, y], prune), z, id, prune);
    ArrivalsAppend(s, [], x, id, prune);
    ArrivalsAppend(s, [x], y, id, prune);
    ArrivalsAppend(s, [x, y], z, id, prune);
  }

  /** One undisturbed call moves packets along inbox, pending queue and firmware without losing or reordering any. */
  lemma CallConserves(b: Bridge, call: Call, id: NodeId, prune: bool)
    requires id in b.handles && id in b.bus.nodes && Undisturbed(call, id)
    ensures
      var a := BridgeStep(b, call, prune);
      var got := if call.RecvRaw? && call.id == id then RecvResult(b, id, call.maxLen).packet else None;
      && id in a.handles && id in a.bus.nodes
      && (if got.Some? then [got.value] else []) + Pending(a, id) + Inbox(a.bus, id)
         == Pending(b, id) + Inbox(b.bus, id) + Arrivals(b.bus, Lower(b, call), id, prune)
  {
    hide Run, Step, Arrivals, Heard, Inbox, RecvResult;
    if call.RecvRaw? && call.id == id {
      RecvConserves(b, id, call.maxLen, prune);
    } else {
      LowerConserves(b, call, id, prune);
      assert Pending(BridgeStep(b, call, prune), id) == Pending(b, id);
      assert [] + Pending(b, id) == Pending(b, id);
      assert Pending(b, id) + (Inbox(b.bus, id) + Arrivals(b.bus, Lower(b, call), id, prune))
          == Pending(b, id) + Inbox(b.bus, id) + Arrivals(b.bus, Lower(b, call), id, prune);
    }
  }

  /** Any other call only adds to the bus inbox of `id`. */
  lemma LowerConserves(b: Bridge, call: Call, id: NodeId, prune: bool)
    requires id in b.bus.nodes && Undisturbed(call, id) && !(call.RecvRaw? && call.id == id)
    ensures
      var ops := Lower(b, call);
      id in Run(b.bus, ops, prune).nodes
      && Inbox(Run(b.bus, ops, prune), id) == Inbox(b.bus, id) + Arrivals(b.bus, ops, id, prune)
  {
    hide Run, Step, Arrivals, Heard, Inbox;
    var ops := Lower(b, call);
    NoArrivals(b.bus, id, prune);
    if call.DeepSleep? {
      SleepInbox(b.bus, call.id, WakeAt(b, call.sleepSecs), id, prune);
    } else if ops != [] {
      assert ops == [ops[0]];
      OneOpInbox(b.bus, ops[0], id, prune);
    } else {
      assert Inbox(b.bus, id) + [] == Inbox(b.bus, id);
    }
  }

  /** `recv_raw` takes the oldest packet, or none. */
  lemma RecvConserves(b: Bridge, id: NodeId, maxLen: int, prune: bool)
    requires id in b.handles && id in b.bus.nodes
    ensures
      var call := RecvRaw(id, maxLen);
      var a, got := BridgeStep(b, call, prune), RecvResult(b, id, maxLen).packet;
      && id in a.bus.nodes && Arrivals(b.bus, Lower(b, call), id, prune) == []
      && (if got.Some? then [got.value] else []) + Pending(a, id) + Inbox(a.bus, id)
         == Pending(b, id) + Inbox(b.bus, id)
  {
    hide Run, Step, Arrivals, Heard;
    NoArrivals(b.bus, id, prune);
    PollOneInbox(b.bus, id, prune);
  }

  lemma NoArrivals(s: Bus, id: NodeId, prune: bool)
    ensures Arrivals(s, [], id, prune) == [] && Run(s, [], prune) == s
  {}

  /**
   MAIN: while a radio is neither destroyed nor put to sleep, what its firmware has received, then its
   pending queue, then its inbox on the bus are together exactly what was there before and what has been
   delivered since, in delivery order, whatever buffer sizes were offered.
   */
  lemma {:induction false} ReceiveConservation(b: Bridge, calls: seq<Call>, id: NodeId, prune: bool)
    requires id in b.handles && id in b.bus.nodes && AllUndisturbed(calls, id)
    ensures
      var a := BridgeRun(b, calls, prune);
      && id in a.handles && id in a.bus.nodes
      && Popped(b, calls, id, prune) + Pending(a, id) + Inbox(a.bus, id)
         == Pending(b, id) + Inbox(b.bus, id) + Delivered(b, calls, id, prune)
  {
    if calls != [] {
      var before, call := calls[..|calls| - 1], calls[|calls| - 1];
      ReceiveConservation(b, before, id, prune);
      var r := BridgeRun(b, before, prune);
      CallConserves(r, call, id, prune);
      var a := BridgeStep(r, call, prune);
      var got := if call.RecvRaw? && call.id == id then RecvResult(r, id, call.maxLen).packet else None;
      Regroup(Popped(b, before, id, prune), if got.Some? then [got.value] else [], Pending(a, id), Inbox(a.bus, id),
              Pending(r, id), Inbox(r.bus, id), Pending(b, id) + Inbox(b.bus, id),
              Delivered(b, before, id, prune), Arrivals(r.bus, Lower(r, call), id, prune));
    }
  }

  lemma Regroup<T>(popped: seq<T>, got: seq<T>, pend': seq<T>, inb': seq<T>, pend: seq<T>, inb: seq<T>,
                   first: seq<T>, delivered: seq<T>, more: seq<T>)
    requires popped + pend + inb == first + delivered
    requires got + pend' + inb' == pend + inb + more
    ensures (popped + got) + pend' + inb' == first + (delivered + more)
  {
    assert (popped + got) + pend' + inb' == popped + (got + pend' + inb');
    assert popped + (pend + inb + more) == (popped + pend + inb) + more;
  }

  // ----- deep sleep

  /** A radio wakes from deep sleep with an empty inbox and its receiver on; what had been queued for firmware stays. */
  lemma DeepSleepDrops(b: Bridge, id: NodeId, secs: U32, prune: bool)
    requires id in b.handles && id in b.bus.nodes
    ensures
      var a := BridgeStep(b, DeepSleep(id, secs), prune);
      && id in a.bus.nodes && Inbox(a.bus, id) == [] && a.bus.nodes[id].front.rxEnabled
      && Pending(a, id) == Pending(b, id) && a.nowMs == SaturatingAdd(b.nowMs, secs * 1000)
  {
    hide Run, Step, Inbox;
    var x, y, z := SetReceiveEnabled(id, false), Tick(WakeAt(b, secs)), SetReceiveEnabled(id, true);
    assert [] + [x] == [x] && [x] + [y] == [x, y] && [x, y] + [z] == [x, y, z];
    NoArrivals(b.bus, id, prune);
    RunAppend(b.bus, [], x, prune);
    RunAppend(b.bus, [x], y, prune);
    RunAppend(b.bus, [x, y], z, prune);
    SwitchReceiver(b.bus, id, false, prune);
    TickDeaf(Step(b.bus, x, prune), id, y.nowMs, prune);
    SwitchReceiver(Step(Step(b.bus, x, prune), y, prune), id, true, prune);
  }

  lemma SwitchReceiver(s: Bus, id: NodeId, on: bool, prune: bool)
    requires id in s.nodes
    ensures
      var a := Step(s, SetReceiveEnabled(id, on), prune);
      id in a.nodes && a.nodes[id].front.rxEnabled == on && Inbox(a, id) == if on then Inbox(s, id) else []
  {}

  /** A receiver that is switched off gains nothing from a tick. */
  lemma TickDeaf(s: Bus, id: NodeId, now: U64, prune: bool)
    requires id in s.nodes && !s.nodes[id].front.rxEnabled
    ensures
      var a := Step(s, Tick(now), prune);
      id in a.nodes && a.nodes[id].front == s.nodes[id].front && Inbox(a, id) == Inbox(s, id)
  {
    hide Heard;
    DeafHearsNothing(s.config, Due(Unfinished(s.transmissions), now), id, s.nodes[id].front, Events(s.transmissions));
    assert Inbox(s, id) + [] == Inbox(s, id);
  }

  lemma {:induction false} DeafHearsNothing(c: Config, done: seq<TxEvent>, id: NodeId, f: FrontEnd, all: seq<TxEvent>)
    requires !f.rxEnabled
    ensures Heard(c, done, id, f, all) == []
  {
    if done != [] {
      DeafHearsNothing(c, done[..|done| - 1], id, f, all);
    }
  }

  // ----- airtimes

  ghost predicate RealAirtimes(b: Bridge) {
    && (forall id :: id in b.handles ==> ValidChannel(b.handles[id].channel))
    && (forall t :: t in b.bus.transmissions ==> 7 <= t.event.airtimeMs <= 14033)
  }

  lemma StepAirtimes(s: Bus, op: Op, prune: bool)
    requires forall t :: t in s.transmissions ==> 7 <= t.event.airtimeMs <= 14033
    requires op.Broadcast? ==> 7 <= op.tx.airtimeMs <= 14033
    ensures forall t :: t in Step(s, op, prune).transmissions ==> 7 <= t.event.airtimeMs <= 14033
  {
    if op.Tick? {
      var marked := Mark(s.transmissions, op.nowMs);
      forall t | t in marked ensures 7 <= t.event.airtimeMs <= 14033 {
        var i :| 0 <= i < |marked| && marked[i] == t;
        assert s.transmissions[i] in s.transmissions;
      }
      forall t | t in Step(s, op, true).transmissions ensures t in marked {
        FilterElements(marked, KeptFor(Unfinished(marked)), t);
      }
    }
  }

  lemma {:induction false} RunAirtimes(s: Bus, ops: seq<Op>, prune: bool)
    requires forall t :: t in s.transmissions ==> 7 <= t.event.airtimeMs <= 14033
    requires forall op :: op in ops && op.Broadcast? ==> 7 <= op.tx.airtimeMs <= 14033
    ensures forall t :: t in Run(s, ops, prune).transmissions ==> 7 <= t.event.airtimeMs <= 14033
  {
    if ops != [] {
      RunAirtimes(s, ops[..|ops| - 1], prune);
      StepAirtimes(Run(s, ops[..|ops| - 1], prune), ops[|ops| - 1], prune);
    }
  }

  /** Everything firmware puts on the air stays there for 7 to 14033 ms. */
  lemma {:induction false} BridgeAirtimes(b: Bridge, calls: seq<Call>, prune: bool)
    requires RealAirtimes(b)
    ensures RealAirtimes(BridgeRun(b, calls, prune))
  {
    if calls != [] {
      var before, call := calls[..|calls| - 1], calls[|calls| - 1];
      BridgeAirtimes(b, before, prune);
      var r := BridgeRun(b, before, prune);
      forall op | op in Lower(r, call) && op.Broadcast? ensures 7 <= op.tx.airtimeMs <= 14033 {
        var ch := r.handles[call.id].channel;
        Airtime.PacketAirtimeBounds(|call.data|, ch.spreadingFactor, ch.bandwidthKhz, ch.codingRate);
      }
      RunAirtimes(r.bus, Lower(r, call), prune);
    }
  }

  /** MAIN: once time has moved on, the bus remembers no transmission that ended 14033 ms ago or earlier. */
  lemma PruningForgets(b: Bridge, calls: seq<Call>, call: Call)
    requires RealAirtimes(b) && (call.BusTick? || call.DeepSleep?)
    ensures
      var a := BridgeStep(BridgeRun(b, calls, true), call, true);
      forall t :: t in a.bus.transmissions ==> TransmissionEnd(t.event) + 14033 > a.nowMs
  {
    hide TransmissionEnd, Mark, Retain, Events, Deliver;
    BridgeAirtimes(b, calls, true);
    var r := BridgeRun(b, calls, true);
    var now, ops := NowAfter(r, call), Lower(r, call);
    var s := if call.BusTick? then r.bus else Step(r.bus, ops[0], true);
    if call.BusTick? {
      RunOne(r.bus, ops[0], true);
    } else {
      RunThree(r.bus, ops[0], ops[1], ops[2], true);
    }
    forall t | t in TickBus(s, now).transmissions ensures TransmissionEnd(t.event) + 14033 > now {
      OldIsForgotten(s, now, 14033, t);
    }
  }

  // ----- sends are told apart

  /** The bus calls behind a run of bridge calls. */
  function BusCalls(b: Bridge, calls: seq<Call>, prune: bool): seq<Op> {
    if calls == [] then []
    else
      var before := calls[..|calls| - 1];
      BusCalls(b, before, prune) + Lower(BridgeRun(b, before, prune), calls[|calls| - 1])
  }

  lemma {:induction false} RunConcat(s: Bus, ops: seq<Op>, more: seq<Op>, prune: bool)
    ensures Run(s, ops + more, prune) == Run(Run(s, ops, prune), more, prune)
  {
    if more == [] {
      assert ops + more == ops;
    } else {
      RunConcat(s, ops, more[..|more| - 1], prune);
      assert (ops + more)[..|ops + more| - 1] == ops + more[..|more| - 1];
    }
  }

  /** The bus of a bridge does what those calls say. */
  lemma {:induction false} BusFollows(b: Bridge, calls: seq<Call>, prune: bool)
    ensures BridgeRun(b, calls, prune).bus == Run(b.bus, BusCalls(b, calls, prune), prune)
  {
    if calls != [] {
      var before := calls[..|calls| - 1];
      BusFollows(b, before, prune);
      RunConcat(b.bus, BusCalls(b, before, prune), Lower(BridgeRun(b, before, prune), calls[|calls| - 1]), prune);
    }
  }

  /** The transmissions of radio `id` that the run of calls puts on the air, in order. */
  function Sent(b: Bridge, calls: seq<Call>, id: NodeId, prune: bool): seq<TxEvent> {
    SentBy(b.bus, BusCalls(b, calls, prune), id, prune)
  }

  predicate NeverDestroys(calls: seq<Call>, id: NodeId) {
    forall i :: 0 <= i < |calls| ==> calls[i] != Destroy(id)
  }

  lemma CallKeeps(b: Bridge, call: Call, id: NodeId, prune: bool)
    requires id in b.handles && call != Destroy(id)
    ensures id in BridgeStep(b, call, prune).handles && AllKeep(Lower(b, call), id)
  {
    hide Run;
  }

  /** A live radio cannot be created again, so it stays registered until it is destroyed. */
  lemma {:induction false} StaysRegistered(b: Bridge, calls: seq<Call>, id: NodeId, prune: bool)
    requires id in b.handles && NeverDestroys(calls, id)
    ensures id in BridgeRun(b, calls, prune).handles && AllKeep(BusCalls(b, calls, prune), id)
  {
    hide BridgeStep, Lower;
    if calls != [] {
      var before, call := calls[..|calls| - 1], calls[|calls| - 1];
      StaysRegistered(b, before, id, prune);
      CallKeeps(BridgeRun(b, before, prune), call, id, prune);
    }
  }

  /** Every broadcast behind a run of calls has a real airtime, and a stamp the clock has reached. */
  lemma {:induction false} BroadcastsAreReal(b: Bridge, calls: seq<Call>, prune: bool)
    requires RealAirtimes(b)
    ensures forall op :: op in BusCalls(b, calls, prune) && op.Broadcast? ==>
              7 <= op.tx.airtimeMs <= 14033 && op.tx.timestampMs <= BridgeRun(b, calls, prune).nowMs
  {
    if calls != [] {
      var before, call := calls[..|calls| - 1], calls[|calls| - 1];
      BroadcastsAreReal(b, before, prune);
      BridgeAirtimes(b, before, prune);
      var r := BridgeRun(b, before, prune);
      LowerIsTimely(r, call);
      forall op | op in Lower(r, call) && op.Broadcast?
        ensures 7 <= op.tx.airtimeMs <= 14033 && op.tx.timestampMs <= r.nowMs
      {
        var ch := r.handles[call.id].channel;
        Airtime.PacketAirtimeBounds(|call.data|, ch.spreadingFactor, ch.bandwidthKhz, ch.codingRate);
      }
    }
  }

  lemma {:induction false} SentWasBroadcast(s: Bus, ops: seq<Op>, n: NodeId, prune: bool, i: nat) returns (tx: TxEvent)
    requires i < |SentBy(s, ops, n, prune)|
    ensures Broadcast(tx) in ops
    ensures
      var e := SentBy(s, ops, n, prune)[i];
      tx.airtimeMs == e.airtimeMs && tx.timestampMs == e.timestampMs
  {
    var before, op := ops[..|ops| - 1], ops[|ops| - 1];
    if i < |SentBy(s, before, n, prune)| {
      tx := SentWasBroadcast(s, before, n, prune, i);
    } else {
      tx := op.tx;
    }
  }

  /**
   MAIN: two sends of one radio that is not destroyed in between are taken for the same transmission exactly when
   the clock had run out before the first one; on any clock that has not, they never are.
   */
  lemma SendsAreToldApart(b: Bridge, calls: seq<Call>, id: NodeId, prune: bool, i: nat, j: nat)
    requires RealAirtimes(b) && id in b.handles && id in b.bus.nodes && NeverDestroys(calls, id)
    requires i < j < |Sent(b, calls, id, prune)|
    ensures
      var first, second := Sent(b, calls, id, prune)[i], Sent(b, calls, id, prune)[j];
      && (SameTransmission(first, second) <==> first.timestampMs == U64_MAX)
      && (BridgeRun(b, calls, prune).nowMs < U64_MAX ==> !SameTransmission(first, second))
  {
    hide SentBy, SameTransmission, BridgeRun, BusCalls;
    var ops := BusCalls(b, calls, prune);
    StaysRegistered(b, calls, id, prune);
    BroadcastsAreReal(b, calls, prune);
    var tx := SentWasBroadcast(b.bus, ops, id, prune, i);
    assert Broadcast(tx).tx == tx;
    SameTransmissionIsIdentity(b.bus, ops, id, prune, i, j);
  }

  /**
   Destroying and creating a radio again resets its busy time: an idle radio can then send twice in one
   millisecond, and the bus has two unfinished transmissions that it takes for the same one.
   */
  lemma RecreatedRadioIsConfused(b: Bridge, id: NodeId, position: Position, d: seq<Byte>, d': seq<Byte>, prune: bool)
    requires id in b.handles && id != "" && |d| <= 255 && |d'| <= 255 && ValidPosition(position)
    requires ValidChannel(b.handles[id].channel) && ValidPower(b.handles[id].txPowerDbm)
    requires id in b.bus.nodes && b.bus.nodes[id].txBusyUntilMs <= b.nowMs
    requires b.bus.nodes[id].front.channel == b.handles[id].channel
    ensures
      var h := b.handles[id];
      var r := BridgeStep(BridgeStep(b, StartSend(id, d), prune), Destroy(id), prune);
      var r' := BridgeStep(r, Create(id, h.channel, h.txPowerDbm, position), prune);
      var a := BridgeStep(r', StartSend(id, d'), prune);
      && |a.bus.transmissions| == |b.bus.transmissions| + 2
      && var x, y := a.bus.transmissions[|b.bus.transmissions|], a.bus.transmissions[|b.bus.transmissions| + 1];
         !x.finalized && !y.finalized && SameTransmission(x.event, y.event)
  {
    var h := b.handles[id];
    var b1 := BridgeStep(b, StartSend(id, d), prune);
    RunOne(b.bus, Lower(b, StartSend(id, d))[0], prune);
    var b2 := BridgeStep(b1, Destroy(id), prune);
    RunOne(b1.bus, Unregister(id), prune);
    var create := Create(id, h.channel, h.txPowerDbm, position);
    var b3 := BridgeStep(b2, create, prune);
    RunOne(b2.bus, Lower(b2, create)[0], prune);
    RunOne(b3.bus, Lower(b3, StartSend(id, d'))[0], prune);
  }
}
