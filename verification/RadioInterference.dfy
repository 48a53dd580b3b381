/** One more transmitter never helps anybody else's packets. */
module RadioInterference {
  import opened Prelude
  import opened RadioTypes
  import opened RadioSpec
  import opened Sequences
  import opened RadioPruning

  // ----- a run without node x

  function About(op: Op): Option<NodeId> {
    match op
    case Register(id, _, _, _) => Some(id)
    case Unregister(id) => Some(id)
    case UpdatePosition(id, _) => Some(id)
    case SetReceiveEnabled(id, _) => Some(id)
    case SetDio2(id, _) => Some(id)
    case Broadcast(tx) => Some(tx.nodeId)
    case Poll(id) => Some(id)
    case Configure(_) => None
    case Tick(_) => None
  }

  function NotAbout(x: NodeId): Op -> bool { (op: Op) => About(op) != Some(x) }

  function NotBy(x: NodeId): TxEvent -> bool { (e: TxEvent) => e.nodeId != x }

  function NotScheduledBy(x: NodeId): Scheduled -> bool { (t: Scheduled) => t.event.nodeId != x }

  function NotFrom(x: NodeId): RxPacket -> bool { (p: RxPacket) => p.fromNode != x }

  /** The run with every call made by or for node `x` taken out. */
  function Strip(ops: seq<Op>, x: NodeId): seq<Op> { Filter(ops, NotAbout(x)) }

  function Without(es: seq<TxEvent>, x: NodeId): seq<TxEvent> { Filter(es, NotBy(x)) }

  function WithoutScheduled(ts: seq<Scheduled>, x: NodeId): seq<Scheduled> { Filter(ts, NotScheduledBy(x)) }

  function WithoutFrom(ps: seq<RxPacket>, x: NodeId): seq<RxPacket> { Filter(ps, NotFrom(x)) }

  // ----- what "no better" means

  /** The same packet, heard at the same strength, with an SNR that is no higher. */
  predicate NoClearer(q: RxPacket, p: RxPacket) {
    q == p.(snr := q.snr) && q.snr <= p.snr
  }

  /** `bs` is `as` with some packets missing and none clearer. */
  predicate Fainter(bs: seq<RxPacket>, as_: seq<RxPacket>) {
    if bs == [] then true
    else if as_ == [] then false
    else
      var b, a := bs[|bs| - 1], as_[|as_| - 1];
      || (NoClearer(b, a) && Fainter(bs[..|bs| - 1], as_[..|as_| - 1]))
      || Fainter(bs, as_[..|as_| - 1])
  }

  /** `b` is the bus `a` would be had node `x` been there as well. */
  ghost predicate Busier(b: Bus, a: Bus, x: NodeId) {
    && a.config == b.config
    && a.nodes.Keys == b.nodes.Keys - {x}
    && a.transmissions == WithoutScheduled(b.transmissions, x)
    && forall id :: id in a.nodes ==>
         && a.nodes[id].front == b.nodes[id].front
         && a.nodes[id].txBusyUntilMs == b.nodes[id].txBusyUntilMs
         && Fainter(WithoutFrom(b.nodes[id].inbox, x), a.nodes[id].inbox)
  }

  // ----- the views of the two lists

  lemma EventsWithout(ts: seq<Scheduled>, x: NodeId)
    ensures Events(WithoutScheduled(ts, x)) == Without(Events(ts), x)
    ensures Unfinished(WithoutScheduled(ts, x)) == Without(Unfinished(ts), x)
  {
    EventsFilter(ts, NotScheduledBy(x), NotBy(x));
    EventsFilter(Filter(ts, Live()), NotScheduledBy(x), NotBy(x));
    FilterSwap(ts, NotScheduledBy(x), Live());
  }

  lemma {:induction false} MarkWithout(ts: seq<Scheduled>, now: U64, x: NodeId)
    ensures Mark(WithoutScheduled(ts, x), now) == WithoutScheduled(Mark(ts, now), x)
  {
    if ts != [] {
      var before, t := ts[..|ts| - 1], ts[|ts| - 1];
      assert ts == before + [t];
      MarkWithout(before, now, x);
      MarkAppend(before, t, now);
      FilterAppend(Mark(before, now), MarkOne(t, now), NotScheduledBy(x));
      MarkAppend(WithoutScheduled(before, x), t, now);
    }
  }

  // ----- one reception

  /** Taking transmissions away leaves no more interference. */
  lemma {:induction false} LessInterference(c: Config, e: TxEvent, f: FrontEnd, over: seq<TxEvent>, x: NodeId)
    ensures Interference(c, e, f, Without(over, x)) <= Interference(c, e, f, over)
  {
    if over != [] {
      var before, o := over[..|over| - 1], over[|over| - 1];
      assert over == before + [o];
      LessInterference(c, e, f, before, x);
      if o.nodeId != x {
        assert (Without(before, x) + [o])[..|Without(before, x)|] == Without(before, x);
      }
    }
  }

  lemma SendingWithout(id: NodeId, over: seq<TxEvent>, x: NodeId)
    requires id != x
    ensures Sending(id, Without(over, x)) == Sending(id, over)
  {
    SendingIn(id, over);
    SendingIn(id, Without(over, x));
    forall o ensures o in Without(over, x) <==> o in over && o.nodeId != x {
      FilterElements(over, NotBy(x), o);
    }
  }

  lemma MoreNoiseLessSnr(p: Positive, n: Positive, less: real, more: real)
    requires 0.0 <= less <= more
    ensures Sinr(p, n, more) <= Sinr(p, n, less)
  {
    var a, b := n + less, n + more;
    assert (p / a) * a == p && (p / b) * b == p;
    if p / b > p / a {
      assert (p / b - p / a) * a > 0.0;
      assert (p / b) * (b - a) >= 0.0;
    }
  }

  lemma StillCaptures(k: AboveOne, p: Positive, less: real, more: real)
    requires less <= more && Captures(k, p, more)
    ensures Captures(k, p, less)
  {
    if less > 0.0 {
      assert k * (more - less) >= 0.0;
    }
  }

  lemma DecodeQuieter(c: Config, e: TxEvent, p: Positive, less: real, more: real)
    requires 0.0 <= less <= more && Decode(c, e, p, more).Some?
    ensures Decode(c, e, p, less).Some?
    ensures NoClearer(Decode(c, e, p, more).value, Decode(c, e, p, less).value)
  {
    StillCaptures(c.capture, p, less, more);
    MoreNoiseLessSnr(p, c.noise(e.channel.bandwidthKhz), less, more);
  }

  /** What gets through the busier air gets through the quieter air, at least as clear. */
  lemma ReceiveWithout(c: Config, e: TxEvent, id: NodeId, f: FrontEnd, over: seq<TxEvent>, x: NodeId)
    requires id != x && Receive(c, e, id, f, over).Some?
    ensures Receive(c, e, id, f, Without(over, x)).Some?
    ensures NoClearer(Receive(c, e, id, f, over).value, Receive(c, e, id, f, Without(over, x)).value)
  {
    SendingWithout(id, over, x);
    LessInterference(c, e, f, over, x);
    var p := ReceivedPower(c, e, f).value;
    DecodeQuieter(c, e, p, Interference(c, e, f, Without(over, x)), Interference(c, e, f, over));
  }

  // ----- one tick

  lemma FainterAppend(bs: seq<RxPacket>, as_: seq<RxPacket>, b: seq<RxPacket>, a: seq<RxPacket>)
    requires Fainter(bs, as_) && |b| <= |a| <= 1
    requires |b| == 1 ==> NoClearer(b[0], a[0])
    ensures Fainter(bs + b, as_ + a)
  {
    if |a| == 1 {
      assert (as_ + a)[..|as_|] == as_;
      if |b| == 1 {
        assert (bs + b)[..|bs|] == bs;
      } else {
        assert bs + b == bs;
      }
    } else {
      assert bs + b == bs && as_ + a == as_;
    }
  }

  /** One event ends: whatever the busier inbox gains from another sender, the quieter one gains too. */
  lemma SoundFainter(c: Config, e: TxEvent, id: NodeId, f: FrontEnd, all: seq<TxEvent>, x: NodeId)
    requires id != x && e.nodeId != x
    ensures
      var b, a := Sound(c, e, id, f, all), Sound(c, e, id, f, Without(all, x));
      |b| <= |a| <= 1 && (|b| == 1 ==> NoClearer(b[0], a[0]) && b[0].fromNode != x)
  {
    FilterSwap(all, NotBy(x), OverlapWith(e));
    if Receive(c, e, id, f, Overlapping(all, e)).Some? {
      ReceiveWithout(c, e, id, f, Overlapping(all, e), x);
    }
  }

  lemma OwnSound(c: Config, e: TxEvent, id: NodeId, f: FrontEnd, all: seq<TxEvent>)
    ensures |Sound(c, e, id, f, all)| <= 1
    ensures |Sound(c, e, id, f, all)| == 1 ==> Sound(c, e, id, f, all)[0].fromNode == e.nodeId
  {}

  lemma InboxFainter(bs: seq<RxPacket>, as_: seq<RxPacket>, b: seq<RxPacket>, a: seq<RxPacket>, x: NodeId)
    requires Fainter(WithoutFrom(bs, x), as_) && |b| <= |a| <= 1
    requires |b| == 1 ==> NoClearer(b[0], a[0]) && b[0].fromNode != x
    ensures Fainter(WithoutFrom(bs + b, x), as_ + a)
  {
    hide Fainter;
    FainterAppend(WithoutFrom(bs, x), as_, b, a);
    if |b| == 1 {
      assert b == [b[0]];
      FilterAppend(bs, b[0], NotFrom(x));
    } else {
      assert bs + b == bs && WithoutFrom(bs, x) + b == WithoutFrom(bs, x);
    }
  }

  /** A packet from `x` itself is filtered out again. */
  lemma OwnInbox(c: Config, e: TxEvent, id: NodeId, f: FrontEnd, all: seq<TxEvent>, bs: seq<RxPacket>)
    ensures WithoutFrom(bs + Sound(c, e, id, f, all), e.nodeId) == WithoutFrom(bs, e.nodeId)
  {
    var b := Sound(c, e, id, f, all);
    OwnSound(c, e, id, f, all);
    if |b| == 1 {
      assert b == [b[0]];
      FilterAppend(bs, b[0], NotFrom(e.nodeId));
    } else {
      assert bs + b == bs;
    }
  }

  /** One event ends, and both inboxes gain what they hear of it. */
  lemma StepFainter(
      c: Config, e: TxEvent, id: NodeId, f: FrontEnd, all: seq<TxEvent>, x: NodeId, b: seq<RxPacket>, a: seq<RxPacket>)
    requires id != x && Fainter(WithoutFrom(b, x), a)
    ensures Fainter(WithoutFrom(b + Sound(c, e, id, f, all), x),
                    if e.nodeId == x then a else a + Sound(c, e, id, f, Without(all, x)))
  {
    if e.nodeId == x {
      OwnInbox(c, e, id, f, all, b);
    } else {
      SoundFainter(c, e, id, f, all, x);
      InboxFainter(b, a, Sound(c, e, id, f, all), Sound(c, e, id, f, Without(all, x)), x);
    }
  }

  lemma HeardOnto(
      c: Config, done: seq<TxEvent>, e: TxEvent, id: NodeId, f: FrontEnd, all: seq<TxEvent>, inbox: seq<RxPacket>)
    ensures inbox + Heard(c, done + [e], id, f, all) == (inbox + Heard(c, done, id, f, all)) + Sound(c, e, id, f, all)
  {
    HeardAppend(c, done, e, id, f, all);
  }

  lemma {:induction false} HeardFainter(
      c: Config, done: seq<TxEvent>, id: NodeId, f: FrontEnd, all: seq<TxEvent>, x: NodeId,
      bs: seq<RxPacket>, as_: seq<RxPacket>)
    requires id != x && Fainter(WithoutFrom(bs, x), as_)
    ensures Fainter(WithoutFrom(bs + Heard(c, done, id, f, all), x),
                    as_ + Heard(c, Without(done, x), id, f, Without(all, x)))
  {
    hide Fainter, Sound, WithoutFrom;
    if done == [] {
      assert bs + [] == bs && as_ + [] == as_;
    } else {
      var before, e := done[..|done| - 1], done[|done| - 1];
      assert done == before + [e];
      HeardFainter(c, before, id, f, all, x, bs, as_);
      StepFainter(c, e, id, f, all, x,
                  bs + Heard(c, before, id, f, all), as_ + Heard(c, Without(before, x), id, f, Without(all, x)));
      HeardOnto(c, before, e, id, f, all, bs);
      HeardOnto(c, Without(before, x), e, id, f, Without(all, x), as_);
      FilterAppend(before, e, NotBy(x));
    }
  }

  lemma SettleBusier(b: Bus, a: Bus, x: NodeId, now: U64)
    requires Busier(b, a, x)
    ensures Busier(Settle(b, now), Settle(a, now), x)
  {
    hide Fainter, WithoutFrom, Heard, Mark, Events;
    var ts := b.transmissions;
    EventsWithout(ts, x);
    FilterSwap(Unfinished(ts), NotBy(x), EndsBy(now));
    MarkWithout(ts, now, x);
    forall id | id in a.nodes
      ensures Fainter(WithoutFrom(Settle(b, now).nodes[id].inbox, x), Settle(a, now).nodes[id].inbox)
    {
      HeardFainter(b.config, Due(Unfinished(ts), now), id, b.nodes[id].front, Events(ts), x,
                   b.nodes[id].inbox, a.nodes[id].inbox);
    }
  }

  // ----- whole runs

  /** A call by or for `x` does not show in the run without `x`. */
  lemma OwnStepBusier(b: Bus, a: Bus, x: NodeId, op: Op)
    requires Busier(b, a, x) && About(op) == Some(x)
    ensures Busier(Step(b, op, false), a, x)
  {
    if op.Broadcast? && Accepts(b, op.tx) {
      FilterAppend(b.transmissions, Scheduled(Stamped(b.config, b.nodes[x].front, op.tx), false), NotScheduledBy(x));
    }
  }

  lemma BroadcastBusier(b: Bus, a: Bus, x: NodeId, tx: TxEvent)
    requires Busier(b, a, x) && tx.nodeId != x
    ensures Busier(BroadcastBus(b, tx), BroadcastBus(a, tx), x)
  {
    if Accepts(a, tx) {
      var e := Stamped(b.config, b.nodes[tx.nodeId].front, tx);
      FilterAppend(b.transmissions, Scheduled(e, false), NotScheduledBy(x));
    }
  }

  /** Node state apart from the inbox evolves alike. */
  lemma NodeStepBusier(b: Bus, a: Bus, x: NodeId, op: Op)
    requires Busier(b, a, x) && About(op) != Some(x) && !op.Tick? && !op.Broadcast?
    ensures Busier(Step(b, op, false), Step(a, op, false), x)
  {
    NothingFainter(x);
    hide Fainter, WithoutFrom, WithoutScheduled;
  }

  lemma NothingFainter(x: NodeId)
    ensures Fainter(WithoutFrom([], x), [])
  {}

  lemma OtherStepBusier(b: Bus, a: Bus, x: NodeId, op: Op)
    requires Busier(b, a, x) && About(op) != Some(x)
    ensures Busier(Step(b, op, false), Step(a, op, false), x)
  {
    match op
    case Tick(now) => SettleBusier(b, a, x, now);
    case Broadcast(tx) => BroadcastBusier(b, a, x, tx);
    case _ => NodeStepBusier(b, a, x, op);
  }

  lemma {:induction false} RunBusier(s: Bus, ops: seq<Op>, x: NodeId)
    requires Busier(s, s, x)
    ensures Busier(Run(s, ops, false), Run(s, Strip(ops, x), false), x)
  {
    if ops != [] {
      var before, op := ops[..|ops| - 1], ops[|ops| - 1];
      assert ops == before + [op];
      RunBusier(s, before, x);
      FilterAppend(before, op, NotAbout(x));
      if About(op) == Some(x) {
        OwnStepBusier(Run(s, before, false), Run(s, Strip(before, x), false), x, op);
      } else {
        OtherStepBusier(Run(s, before, false), Run(s, Strip(before, x), false), x, op);
        RunAppend(s, Strip(before, x), op, false);
      }
    }
  }

  lemma {:induction false} StripTimely(ops: seq<Op>, x: NodeId, clock: U64)
    requires Timely(ops, clock)
    ensures Timely(Strip(ops, x), clock) && ClockAfter(clock, Strip(ops, x)) == ClockAfter(clock, ops)
  {
    if ops != [] {
      var before, op := ops[..|ops| - 1], ops[|ops| - 1];
      assert ops == before + [op];
      TimelyAppend(before, op, clock);
      StripTimely(before, x, clock);
      FilterAppend(before, op, NotAbout(x));
      TimelyAppend(Strip(before, x), op, clock);
    }
  }

  lemma {:induction false} FainterSelf(ps: seq<RxPacket>)
    ensures Fainter(ps, ps)
  {
    if ps != [] {
      FainterSelf(ps[..|ps| - 1]);
    }
  }

  /** Node `x` is new to the bus: unknown, unheard, and nothing of its is on the air. */
  ghost predicate Fresh(s: Bus, x: NodeId) {
    && x !in s.nodes
    && (forall i :: 0 <= i < |s.transmissions| ==> s.transmissions[i].event.nodeId != x)
    && (forall id, i :: id in s.nodes && 0 <= i < |s.nodes[id].inbox| ==> s.nodes[id].inbox[i].fromNode != x)
  }

  lemma FreshBusier(s: Bus, x: NodeId)
    requires Fresh(s, x)
    ensures Busier(s, s, x)
  {
    FilterAll(s.transmissions, NotScheduledBy(x));
    forall id | id in s.nodes ensures Fainter(WithoutFrom(s.nodes[id].inbox, x), s.nodes[id].inbox) {
      FilterAll(s.nodes[id].inbox, NotFrom(x));
      FainterSelf(s.nodes[id].inbox);
    }
  }

  /**
   MAIN: take any run of the pruned bus that never broadcasts into ticked time, and a node `x` that
   was not there at its start. Leaving out everything `x` did keeps the same other nodes, and each
   of their inboxes held, of other senders' packets, the same ones and perhaps more, none with a
   lower SNR.
   */
  lemma InterferenceNeverHelps(s: Bus, ops: seq<Op>, clock: U64, x: NodeId)
    requires SettledBy(s.transmissions, clock) && Timely(ops, clock) && Fresh(s, x)
    ensures
      var busy, quiet := Run(s, ops, true), Run(s, Strip(ops, x), true);
      && quiet.nodes.Keys == busy.nodes.Keys - {x}
      && forall id :: id in quiet.nodes ==>
           Fainter(WithoutFrom(busy.nodes[id].inbox, x), quiet.nodes[id].inbox)
  {
    StripTimely(ops, x, clock);
    FreshBusier(s, x);
    RunBusier(s, ops, x);
    PruningIsInvisible(s, ops, clock);
    PruningIsInvisible(s, Strip(ops, x), clock);
  }
}
