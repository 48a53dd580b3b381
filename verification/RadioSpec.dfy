/** The meaning of every bus call, as functions from state to state. */
module RadioSpec {
  import opened Prelude
  import opened RadioTypes
  import opened Sequences

  // ----- intervals

  function TransmissionEnd(e: TxEvent): U64 {
    SaturatingAdd(e.timestampMs, e.airtimeMs)
  }

  predicate Overlap(a: TxEvent, b: TxEvent) {
    && a.airtimeMs != 0 && b.airtimeMs != 0
    && a.timestampMs < TransmissionEnd(b)
    && b.timestampMs < TransmissionEnd(a)
  }

  predicate SameTransmission(a: TxEvent, b: TxEvent) {
    a.nodeId == b.nodeId && a.timestampMs == b.timestampMs && a.channel == b.channel
  }

  // ----- views of the transmission list

  function Events(ts: seq<Scheduled>): (es: seq<TxEvent>)
    ensures |es| == |ts| && forall i :: 0 <= i < |ts| ==> es[i] == ts[i].event
  {
    seq(|ts|, i requires 0 <= i < |ts| => ts[i].event)
  }

  function Live(): Scheduled -> bool { (t: Scheduled) => !t.finalized }

  function Unfinished(ts: seq<Scheduled>): seq<TxEvent> { Events(Filter(ts, Live())) }

  function EndsBy(now: U64): TxEvent -> bool { (e: TxEvent) => TransmissionEnd(e) <= now }

  function EndsAfter(now: U64): TxEvent -> bool { (e: TxEvent) => TransmissionEnd(e) > now }

  function Due(es: seq<TxEvent>, now: U64): seq<TxEvent> { Filter(es, EndsBy(now)) }

  function NotDue(es: seq<TxEvent>, now: U64): seq<TxEvent> { Filter(es, EndsAfter(now)) }

  function OverlapWith(e: TxEvent): TxEvent -> bool { (o: TxEvent) => Overlap(e, o) }

  function Overlapping(es: seq<TxEvent>, e: TxEvent): seq<TxEvent> { Filter(es, OverlapWith(e)) }

  function MarkOne(t: Scheduled, now: U64): Scheduled {
    if TransmissionEnd(t.event) <= now then t.(finalized := true) else t
  }

  function Mark(ts: seq<Scheduled>, now: U64): seq<Scheduled> {
    seq(|ts|, i requires 0 <= i < |ts| => MarkOne(ts[i], now))
  }

  predicate OverlapsAny(e: TxEvent, live: seq<TxEvent>) {
    exists i :: 0 <= i < |live| && Overlap(e, live[i])
  }

  function KeptFor(live: seq<TxEvent>): Scheduled -> bool {
    (t: Scheduled) => !t.finalized || OverlapsAny(t.event, live)
  }

  /** Drops finalized transmissions that overlap nothing in `live`. */
  function Retain(ts: seq<Scheduled>, live: seq<TxEvent>): seq<Scheduled> { Filter(ts, KeptFor(live)) }

  // ----- reception

  predicate FrequencyOverlaps(firstMhz: real, secondMhz: real, toleranceKhz: real) {
    var d := firstMhz - secondMhz;
    (if d < 0.0 then -d else d) * 1000.0 <= toleranceKhz
  }

  function Times(a: Positive, b: Positive): Positive {
    a * b
  }

  function ReceivedPower(c: Config, e: TxEvent, f: FrontEnd): Option<Positive> {
    match c.gain(e.position, f.position, e.channel.freqMhz)
    case None => None
    case Some(g) => Some(Times(Times(Times(e.txPower, g), c.systemGain), if f.dio2 then 1.0 else c.rxLoss))
  }

  /** What one transmission adds to the interference `f` suffers while listening to `e`. */
  function Contribution(c: Config, e: TxEvent, f: FrontEnd, other: TxEvent): (p: real)
    ensures p >= 0.0
  {
    if SameTransmission(e, other)
       || !FrequencyOverlaps(other.channel.freqMhz, f.channel.freqMhz, c.toleranceKhz) then 0.0
    else
      match ReceivedPower(c, other, f)
      case None => 0.0
      case Some(p) => p
  }

  function Interference(c: Config, e: TxEvent, f: FrontEnd, over: seq<TxEvent>): (p: real)
    ensures p >= 0.0
  {
    if over == [] then 0.0
    else Interference(c, e, f, over[..|over| - 1]) + Contribution(c, e, f, over[|over| - 1])
  }

  /** SX1262 is half-duplex: `id` is sending during one of `over`. */
  predicate Sending(id: NodeId, over: seq<TxEvent>) {
    exists i :: 0 <= i < |over| && over[i].nodeId == id
  }

  /** The wanted signal is more than `k` times as strong as the interference, if there is any. */
  predicate Captures(k: AboveOne, p: Positive, interference: real) {
    interference > 0.0 ==> p > k * interference
  }

  /** Noise and interference share the denominator, so the reported SNR is in fact SINR. */
  function Sinr(p: Positive, noise: Positive, interference: real): Positive
    requires interference >= 0.0
  {
    p / (noise + interference)
  }

  /** The packet made of a signal of strength `p` amid `interference`, unless it is too faint or drowned. */
  function Decode(c: Config, e: TxEvent, p: Positive, interference: real): Option<RxPacket>
    requires interference >= 0.0
  {
    if c.sensitivity(e.channel).None? || p < c.sensitivity(e.channel).value then None
    else if !Captures(c.capture, p, interference) then None
    else
      var snr := Sinr(p, c.noise(e.channel.bandwidthKhz), interference);
      Some(RxPacket(e.nodeId, e.data, p, snr, e.channel, TransmissionEnd(e)))
  }

  /** The packet node `id` gets from `e`, given the transmissions `over` that overlap `e`. */
  function Receive(c: Config, e: TxEvent, id: NodeId, f: FrontEnd, over: seq<TxEvent>): Option<RxPacket> {
    if id == e.nodeId || !f.rxEnabled || f.channel != e.channel then None
    else if Sending(id, over) then None
    else
      match ReceivedPower(c, e, f)
      case None => None
      case Some(p) => Decode(c, e, p, Interference(c, e, f, over))
  }

  /** What the end of `e` adds to the inbox of node `id`: one packet or nothing. */
  function Sound(c: Config, e: TxEvent, id: NodeId, f: FrontEnd, all: seq<TxEvent>): seq<RxPacket> {
    match Receive(c, e, id, f, Overlapping(all, e)) case None => [] case Some(p) => [p]
  }

  /** The packets node `id` gets when the transmissions `done` end, in that order. */
  function Heard(c: Config, done: seq<TxEvent>, id: NodeId, f: FrontEnd, all: seq<TxEvent>): seq<RxPacket> {
    if done == [] then []
    else Heard(c, done[..|done| - 1], id, f, all) + Sound(c, done[|done| - 1], id, f, all)
  }

  function Deliver(c: Config, nodes: map<NodeId, Node>, done: seq<TxEvent>, all: seq<TxEvent>): map<NodeId, Node> {
    map id | id in nodes :: nodes[id].(inbox := nodes[id].inbox + Heard(c, done, id, nodes[id].front, all))
  }

  // ----- calls

  /** Delivers everything that has ended by `now` and marks it finalized, dropping nothing. */
  function Settle(s: Bus, now: U64): Bus {
    s.(nodes := Deliver(s.config, s.nodes, Due(Unfinished(s.transmissions), now), Events(s.transmissions)),
       transmissions := Mark(s.transmissions, now))
  }

  function Prune(s: Bus): Bus {
    s.(transmissions := Retain(s.transmissions, Unfinished(s.transmissions)))
  }

  function TickBus(s: Bus, now: U64): Bus {
    Prune(Settle(s, now))
  }

  predicate Accepts(s: Bus, tx: TxEvent) {
    tx.nodeId in s.nodes && tx.timestampMs >= s.nodes[tx.nodeId].txBusyUntilMs
  }

  /** The event as it goes on air: the registered front end overrides what the caller filled in. */
  function Stamped(c: Config, f: FrontEnd, tx: TxEvent): TxEvent {
    tx.(position := f.position,
        txPower := Times(f.txPower, if f.dio2 then 1.0 else c.txLoss),
        channel := f.channel)
  }

  function BroadcastBus(s: Bus, tx: TxEvent): Bus {
    if !Accepts(s, tx) then s
    else
      var n := s.nodes[tx.nodeId];
      s.(nodes := s.nodes[tx.nodeId := n.(txBusyUntilMs := TransmissionEnd(tx))],
         transmissions := s.transmissions + [Scheduled(Stamped(s.config, n.front, tx), false)])
  }

  function IsSendComplete(s: Bus, id: NodeId, now: U64): bool {
    id in s.nodes && now >= s.nodes[id].txBusyUntilMs
  }

  function Inbox(s: Bus, id: NodeId): seq<RxPacket> {
    if id in s.nodes then s.nodes[id].inbox else []
  }

  function WithFront(s: Bus, id: NodeId, front: FrontEnd): Bus
    requires id in s.nodes
  {
    s.(nodes := s.nodes[id := s.nodes[id].(front := front)])
  }

  function SetReceiveEnabledBus(s: Bus, id: NodeId, enabled: bool): Bus {
    if id !in s.nodes then s
    else
      var n := s.nodes[id];
      s.(nodes := s.nodes[id := n.(front := n.front.(rxEnabled := enabled), inbox := if enabled then n.inbox else [])])
  }

  function RegisterBus(s: Bus, id: NodeId, position: Position, txPower: Positive, channel: RadioChannel): Bus {
    s.(nodes := s.nodes[id := Node(FrontEnd(position, txPower, channel, true, s.config.dio2Default), [], 0)])
  }

  function PollBus(s: Bus, id: NodeId): Bus {
    if id !in s.nodes then s else s.(nodes := s.nodes[id := s.nodes[id].(inbox := [])])
  }

  /** One call. With `prune` false this is the simple bus that never drops a transmission. */
  function Step(s: Bus, op: Op, prune: bool): Bus {
    match op
    case Register(id, position, txPower, channel) => RegisterBus(s, id, position, txPower, channel)
    case Unregister(id) => s.(nodes := s.nodes - {id})
    case UpdatePosition(id, position) =>
      if id in s.nodes then WithFront(s, id, s.nodes[id].front.(position := position)) else s
    case SetReceiveEnabled(id, enabled) => SetReceiveEnabledBus(s, id, enabled)
    case SetDio2(id, on) =>
      if id in s.nodes then WithFront(s, id, s.nodes[id].front.(dio2 := on)) else s
    case Configure(config) => s.(config := config)
    case Broadcast(tx) => BroadcastBus(s, tx)
    case Poll(id) => PollBus(s, id)
    case Tick(now) => if prune then TickBus(s, now) else Settle(s, now)
  }

  function ReplyTo(s: Bus, op: Op): Reply {
    match op
    case Broadcast(tx) => Accepted(Accepts(s, tx))
    case Poll(id) => Packets(Inbox(s, id))
    case _ => Silent
  }

  function Run(s: Bus, ops: seq<Op>, prune: bool): Bus {
    if ops == [] then s
    else Step(Run(s, ops[..|ops| - 1], prune), ops[|ops| - 1], prune)
  }

  function Replies(s: Bus, ops: seq<Op>, prune: bool): seq<Reply> {
    if ops == [] then []
    else
      var before := ops[..|ops| - 1];
      Replies(s, before, prune) + [ReplyTo(Run(s, before, prune), ops[|ops| - 1])]
  }

  function Advance(clock: U64, op: Op): U64 {
    match op case Tick(now) => Max(clock, now) case _ => clock
  }

  /** The latest time ticked so far, starting from `clock`. */
  function ClockAfter(clock: U64, ops: seq<Op>): U64 {
    if ops == [] then clock else Advance(ClockAfter(clock, ops[..|ops| - 1]), ops[|ops| - 1])
  }

  /** The call does not broadcast into time that has already been ticked. */
  predicate InTime(op: Op, clock: U64) {
    op.Broadcast? ==> op.tx.timestampMs >= clock
  }

  predicate Timely(ops: seq<Op>, clock: U64) {
    ops == [] ||
    (var before := ops[..|ops| - 1];
     Timely(before, clock) && InTime(ops[|ops| - 1], ClockAfter(clock, before)))
  }

  /** Every finalized transmission had ended by `clock`. */
  predicate SettledBy(ts: seq<Scheduled>, clock: U64) {
    forall i :: 0 <= i < |ts| && ts[i].finalized ==> TransmissionEnd(ts[i].event) <= clock
  }
}
