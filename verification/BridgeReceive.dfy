/** When firmware gets a packet: out of the queue, and from one radio to another through quiet air. */
module BridgeReceive {
  import opened Prelude
  import opened RadioTypes
  import opened RadioSpec
  import opened Sequences
  import opened RadioPruning
  import opened RadioReception
  import opened BridgeSpec
  import Airtime

  /** What waits for radio `id`, oldest first: its pending queue and then its bus inbox. */
  function Waiting(b: Bridge, id: NodeId): seq<RxPacket> {
    Pending(b, id) + Inbox(b.bus, id)
  }

  lemma PoppedOne(b: Bridge, call: Call, id: NodeId, prune: bool)
    requires call.RecvRaw? && call.id == id
    ensures
      var packet := RecvResult(b, id, call.maxLen).packet;
      Popped(b, [call], id, prune) == if packet.Some? then [packet.value] else []
  {
    hide RecvResult;
    assert [call][..0] == [];
    assert BridgeRun(b, [], prune) == b && Popped(b, [], id, prune) == [];
  }

  /**
   MAIN: a call hands out the oldest waiting packet if and only if the buffer has room for it. If it does not, the
   call tells the length and leaves everything waiting; without a buffer or a packet it returns zero.
   */
  lemma HandsOutIff(b: Bridge, id: NodeId, maxLen: int, prune: bool)
    requires id in b.handles
    ensures
      var call, waiting := RecvRaw(id, maxLen), Waiting(b, id);
      var a, r, got := BridgeStep(b, call, prune), RecvResult(b, id, maxLen), Popped(b, [call], id, prune);
      id in a.handles &&
      if maxLen > 0 && waiting != [] && |waiting[0].data| <= maxLen then
        && got == [waiting[0]] && r == Received(|waiting[0].data|, false, Some(waiting[0]))
        && Waiting(a, id) == waiting[1..]
        && a.handles[id].lastRx == Some((waiting[0].rssi, waiting[0].snr))
      else
        && got == []
        && r == (if maxLen > 0 && waiting != [] then Received(-|waiting[0].data|, true, None)
                 else Received(0, false, None))
        && Waiting(a, id) == waiting && a.handles[id].lastRx == b.handles[id].lastRx
  {
    var call := RecvRaw(id, maxLen);
    hide Run;
    PoppedOne(b, call, id, prune);
    StillWaiting(b, id, maxLen, prune);
  }

  /** What a call does not hand out keeps waiting. */
  lemma StillWaiting(b: Bridge, id: NodeId, maxLen: int, prune: bool)
    requires id in b.handles
    ensures
      var a, packet := BridgeStep(b, RecvRaw(id, maxLen), prune), RecvResult(b, id, maxLen).packet;
      (if packet.Some? then [packet.value] else []) + Waiting(a, id) == Waiting(b, id)
  {
    if id in b.bus.nodes {
      RecvConserves(b, id, maxLen, prune);
    } else {
      UnknownStays(b, id, maxLen, prune);
    }
  }

  /** A call for a radio whose node is gone finds and leaves an empty inbox. */
  lemma UnknownStays(b: Bridge, id: NodeId, maxLen: int, prune: bool)
    requires id in b.handles && id !in b.bus.nodes
    ensures BridgeStep(b, RecvRaw(id, maxLen), prune).bus == b.bus
  {
    if Lower(b, RecvRaw(id, maxLen)) != [] {
      RunOne(b.bus, Poll(id), prune);
    }
  }

  /** After `n` calls with the firmware's own buffer size, the `n` oldest packets are out and the rest still waits. */
  lemma {:induction false} RecvInOrder(b: Bridge, id: NodeId, n: nat, prune: bool)
    requires id in b.handles && n <= |Waiting(b, id)|
    requires forall p :: p in Waiting(b, id) ==> |p.data| <= 255
    ensures
      var calls := seq(n, i => RecvRaw(id, 255));
      && id in BridgeRun(b, calls, prune).handles
      && Popped(b, calls, id, prune) == Waiting(b, id)[..n]
      && Waiting(BridgeRun(b, calls, prune), id) == Waiting(b, id)[n..]
  {
    hide Waiting, BridgeStep, RecvResult;
    if n > 0 {
      var calls := seq(n, i => RecvRaw(id, 255));
      assert calls[..n - 1] == seq(n - 1, i => RecvRaw(id, 255));
      RecvInOrder(b, id, n - 1, prune);
      var r := BridgeRun(b, calls[..n - 1], prune);
      HandsOutIff(r, id, 255, prune);
      PoppedOne(r, RecvRaw(id, 255), id, prune);
      assert Waiting(r, id)[0] == Waiting(b, id)[n - 1];
    }
  }

  /** MAIN: as many calls as there are waiting packets hand out all of them, pending and inbox, in order. */
  lemma RecvDrains(b: Bridge, id: NodeId, prune: bool)
    requires id in b.handles && forall p :: p in Waiting(b, id) ==> |p.data| <= 255
    ensures
      var calls := seq(|Waiting(b, id)|, i => RecvRaw(id, 255));
      Popped(b, calls, id, prune) == Waiting(b, id) && Waiting(BridgeRun(b, calls, prune), id) == []
  {
    RecvInOrder(b, id, |Waiting(b, id)|, prune);
  }

  // ----- from one radio to another

  /** What radio `from` puts on the air when it sends `data` now. */
  function OnTheAir(b: Bridge, from: NodeId, data: seq<Byte>): TxEvent
    requires from in b.handles && from in b.bus.nodes
  {
    Stamped(b.bus.config, b.bus.nodes[from].front, Outgoing(b, from, data))
  }

  /** The air is quiet, `from` is idle and within reach of `to`, and time does not run out. */
  predicate Reaches(b: Bridge, from: NodeId, to: NodeId, data: seq<Byte>) {
    && from in b.handles && from in b.bus.nodes && to in b.bus.nodes && |data| <= 255
    && ValidChannel(b.handles[from].channel) && b.nowMs + 14033 < U64_MAX
    && b.bus.transmissions == [] && b.bus.nodes[from].txBusyUntilMs <= b.nowMs
    && Listens(OnTheAir(b, from, data), to, b.bus.nodes[to].front, [OnTheAir(b, from, data)])
    && LoudEnough(b.bus.config, OnTheAir(b, from, data), b.bus.nodes[to].front)
  }

  lemma FilterOne<T>(x: T, p: T -> bool)
    ensures Filter([x], p) == if p(x) then [x] else []
  {
    FilterAppend([], x, p);
    assert [] + [x] == [x];
  }

  /** The only transmission on the air sounds at everyone it reaches. */
  lemma OnlySound(c: Config, e: TxEvent, id: NodeId, f: FrontEnd)
    requires Listens(e, id, f, [e]) && LoudEnough(c, e, f)
    ensures Receive(c, e, id, f, Overlapping([e], e)).Some?
  {
    hide ReceivedPower, Receive;
    FilterOne(e, OverlapWith(e));
    AloneIsReceived(c, e, id, f, Overlapping([e], e));
  }

  /** One transmission on the air: a tick before its end delivers nothing, any other delivers it. */
  lemma OneOnAir(s: Bus, e: TxEvent, now: U64, id: NodeId, prune: bool)
    requires s.transmissions == [Scheduled(e, false)] && id in s.nodes
    requires Receive(s.config, e, id, s.nodes[id].front, Overlapping([e], e)).Some?
    ensures
      var packet := Receive(s.config, e, id, s.nodes[id].front, Overlapping([e], e)).value;
      var a := Step(s, Tick(now), prune);
      id in a.nodes && a.nodes[id].inbox == s.nodes[id].inbox + if TransmissionEnd(e) <= now then [packet] else []
  {
    hide Receive, Overlapping, Step, Unfinished, Due, Events, TransmissionEnd, Heard;
    StepInbox(s, Tick(now), id, prune);
    OneDue(e, now);
    var c, f, due := s.config, s.nodes[id].front, Due([e], now);
    if due == [e] {
      assert [] + [e] == [e];
      HeardAppend(c, [], e, id, f, [e]);
    }
    NothingHeard(c, id, f, [e]);
  }

  lemma NothingHeard(c: Config, id: NodeId, f: FrontEnd, all: seq<TxEvent>)
    ensures Heard(c, [], id, f, all) == []
  {}

  lemma OneDue(e: TxEvent, now: U64)
    ensures Events([Scheduled(e, false)]) == [e] == Unfinished([Scheduled(e, false)])
    ensures Due([e], now) == if TransmissionEnd(e) <= now then [e] else []
  {
    hide Filter;
    FilterOne(Scheduled(e, false), Live());
    FilterOne(e, EndsBy(now));
  }

  /**
   MAIN: over quiet air a packet sent by one radio waits at the other one, with its sender, data and time of arrival,
   from the tick on that ends its airtime, behind whatever waited there before; until then nothing has changed.
   */
  lemma QuietAirDelivers(b: Bridge, from: NodeId, to: NodeId, data: seq<Byte>, now: U64, prune: bool)
    requires Reaches(b, from, to, data) && from != to
    ensures
      var ch := b.handles[from].channel;
      var arrival := b.nowMs + Airtime.PacketAirtime(|data|, ch.spreadingFactor, ch.bandwidthKhz, ch.codingRate);
      var a := BridgeStep(BridgeStep(b, StartSend(from, data), prune), BusTick(now), prune);
      if now < arrival then Waiting(a, to) == Waiting(b, to)
      else
        && |Waiting(a, to)| == |Waiting(b, to)| + 1 && Waiting(b, to) <= Waiting(a, to)
        && var packet := Waiting(a, to)[|Waiting(b, to)|];
           packet.fromNode == from && packet.data == data && packet.timestampMs == arrival
  {
    hide Listens, LoudEnough, Step, Receive, Overlapping;
    SendPuts(b, from, to, data, prune);
    var e, sent := OnTheAir(b, from, data), BridgeStep(b, StartSend(from, data), prune);
    OnlySound(b.bus.config, e, to, b.bus.nodes[to].front);
    RunOne(sent.bus, Op.Tick(Max(b.nowMs, now)), prune);
    OneOnAir(sent.bus, e, Max(b.nowMs, now), to, prune);
    Arrives(b, from, to, data);
  }

  /** After the send its transmission is the only one on the air, and nobody else has noticed. */
  lemma SendPuts(b: Bridge, from: NodeId, to: NodeId, data: seq<Byte>, prune: bool)
    requires Reaches(b, from, to, data) && from != to
    ensures
      var sent := BridgeStep(b, StartSend(from, data), prune);
      && sent.bus.transmissions == [Scheduled(OnTheAir(b, from, data), false)]
      && sent.bus.config == b.bus.config && to in sent.bus.nodes && sent.bus.nodes[to] == b.bus.nodes[to]
      && sent.nowMs == b.nowMs && sent.handles == b.handles
  {
    hide Listens, LoudEnough, TransmissionEnd;
    RunOne(b.bus, Op.Broadcast(Outgoing(b, from, data)), prune);
  }

  lemma Arrives(b: Bridge, from: NodeId, to: NodeId, data: seq<Byte>)
    requires Reaches(b, from, to, data)
    ensures
      var e, f, ch := OnTheAir(b, from, data), b.bus.nodes[to].front, b.handles[from].channel;
      var packet := Receive(b.bus.config, e, to, f, Overlapping([e], e));
      && TransmissionEnd(e)
         == b.nowMs + Airtime.PacketAirtime(|data|, ch.spreadingFactor, ch.bandwidthKhz, ch.codingRate) > b.nowMs
      && (packet.Some? ==>
            && packet.value.fromNode == from && packet.value.data == data
            && packet.value.timestampMs == TransmissionEnd(e))
  {
    hide Listens, LoudEnough, Overlapping, ReceivedPower, Interference, Captures;
    var ch := b.handles[from].channel;
    Airtime.PacketAirtimeBounds(|data|, ch.spreadingFactor, ch.bandwidthKhz, ch.codingRate);
  }

  // ----- such a pair of radios

  const CHANNEL := RadioChannel(868.0, 125, 9, 5)
  const FRONT := FrontEnd((0.0, 0.0), 1.0, CHANNEL, true, true)

  /** Every path has gain one and nothing is too faint. */
  const NEAR := Config((a: Position, b: Position, f: real) => Some(1.0), 1.0, (dbm: real) => 1.0,
                       (ch: RadioChannel) => Some(1.0), (w: U16) => 1.0, 2.0, 1.0, 1.0, 0.0, true)

  function TwoRadios(now: U64): Bridge {
    Bridge(Bus(map["a" := Node(FRONT, [], 0), "b" := Node(FRONT, [], 0)], [], NEAR), now,
           map["a" := Handle(CHANNEL, 0.0, [], None), "b" := Handle(CHANNEL, 0.0, [], None)])
  }

  /** Two radios side by side reach each other, whatever one of them sends and whenever. */
  lemma SideBySide(now: U64, data: seq<Byte>)
    requires |data| <= 255 && now + 14033 < U64_MAX
    ensures Reaches(TwoRadios(now), "a", "b", data)
  {
    hide Outgoing;
    var e := OnTheAir(TwoRadios(now), "a", data);
    SentByA(now, data);
    assert e.channel == CHANNEL && e.txPower == 1.0;
    assert ReceivedPower(NEAR, e, FRONT) == Some(1.0);
  }

  lemma SentByA(now: U64, data: seq<Byte>)
    ensures Outgoing(TwoRadios(now), "a", data).nodeId == "a"
  {}
}
