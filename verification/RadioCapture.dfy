/** Over a whole run, a receiver that stays put never decodes two overlapping transmissions. */
module RadioCapture {
  import opened Prelude
  import opened RadioTypes
  import opened RadioSpec
  import opened Sequences
  import opened RadioPruning

  // ----- what has been delivered to one receiver

  predicate Lands(c: Config, e: TxEvent, id: NodeId, f: FrontEnd, all: seq<TxEvent>) {
    Receive(c, e, id, f, Overlapping(all, e)).Some?
  }

  function LandsAt(c: Config, id: NodeId, f: FrontEnd, all: seq<TxEvent>): TxEvent -> bool {
    (e: TxEvent) => Lands(c, e, id, f, all)
  }

  /** The events of `done` that reach node `id`. */
  function Landed(c: Config, done: seq<TxEvent>, id: NodeId, f: FrontEnd, all: seq<TxEvent>): seq<TxEvent> {
    Filter(done, LandsAt(c, id, f, all))
  }

  /** The events whose packets one call puts into the inbox of `id`. */
  function Reception(s: Bus, op: Op, id: NodeId): seq<TxEvent> {
    if op.Tick? && id in s.nodes then
      Landed(s.config, Due(Unfinished(s.transmissions), op.nowMs), id, s.nodes[id].front, Events(s.transmissions))
    else []
  }

  function Receptions(s: Bus, ops: seq<Op>, id: NodeId, prune: bool): seq<TxEvent> {
    if ops == [] then []
    else
      var before := ops[..|ops| - 1];
      Receptions(s, before, id, prune) + Reception(Run(s, before, prune), ops[|ops| - 1], id)
  }

  /** `Landed` lists one event for every packet `Heard` lists. */
  lemma {:induction false} LandedIsHeard(c: Config, done: seq<TxEvent>, id: NodeId, f: FrontEnd, all: seq<TxEvent>)
    ensures |Landed(c, done, id, f, all)| == |Heard(c, done, id, f, all)|
    ensures forall i :: 0 <= i < |Landed(c, done, id, f, all)| ==>
              var e := Landed(c, done, id, f, all)[i];
              Receive(c, e, id, f, Overlapping(all, e)) == Some(Heard(c, done, id, f, all)[i])
  {
    if done != [] {
      LandedIsHeard(c, done[..|done| - 1], id, f, all);
    }
  }

  lemma ReceptionAgrees(p: Bus, h: Bus, clock: U64, op: Op, id: NodeId)
    requires Agree(p, h, clock)
    ensures Reception(p, op, id) == Reception(h, op, id)
  {
    if op.Tick? && id in p.nodes {
      var live, f := Unfinished(p.transmissions), p.nodes[id].front;
      var a, b := Events(p.transmissions), Events(h.transmissions);
      forall e | e in Due(live, op.nowMs)
        ensures LandsAt(p.config, id, f, a)(e) == LandsAt(p.config, id, f, b)(e)
      {
        FilterElements(live, EndsBy(op.nowMs), e);
      }
      FilterSame(Due(live, op.nowMs), LandsAt(p.config, id, f, a), LandsAt(p.config, id, f, b));
    }
  }

  lemma {:induction false} ReceptionsAgree(s: Bus, ops: seq<Op>, clock: U64, id: NodeId)
    requires SettledBy(s.transmissions, clock) && Timely(ops, clock)
    ensures Receptions(s, ops, id, true) == Receptions(s, ops, id, false)
  {
    if ops != [] {
      var before := ops[..|ops| - 1];
      ReceptionsAgree(s, before, clock, id);
      RunAgrees(s, s, before, clock);
      ReceptionAgrees(Run(s, before, true), Run(s, before, false), ClockAfter(clock, before), ops[|ops| - 1], id);
    }
  }

  // ----- one reception beats every rival

  /** Both reach `f` on its channel, at the same time, from different nodes. */
  ghost predicate Rivals(c: Config, e: TxEvent, o: TxEvent, f: FrontEnd) {
    && Overlap(e, o) && e.nodeId != o.nodeId
    && e.channel == f.channel && o.channel == f.channel
    && ReceivedPower(c, e, f).Some? && ReceivedPower(c, o, f).Some?
  }

  ghost predicate Beats(c: Config, e: TxEvent, o: TxEvent, f: FrontEnd) {
    Rivals(c, e, o, f) ==> ReceivedPower(c, e, f).value > c.capture * ReceivedPower(c, o, f).value
  }

  lemma {:induction false} InterferenceCovers(c: Config, e: TxEvent, f: FrontEnd, over: seq<TxEvent>, o: TxEvent)
    requires o in over
    ensures Interference(c, e, f, over) >= Contribution(c, e, f, o)
  {
    if o != over[|over| - 1] {
      InterferenceCovers(c, e, f, over[..|over| - 1], o);
    }
  }

  lemma LouderThanPart(k: AboveOne, p: real, part: real, whole: real)
    requires part <= whole && p > k * whole
    ensures p > k * part
  {
    assert k * (whole - part) >= 0.0;
  }

  lemma SameChannelInterferes(c: Config, e: TxEvent, o: TxEvent, f: FrontEnd)
    requires c.toleranceKhz >= 0.0 && Rivals(c, e, o, f)
    ensures Contribution(c, e, f, o) == ReceivedPower(c, o, f).value
  {
    assert FrequencyOverlaps(o.channel.freqMhz, f.channel.freqMhz, c.toleranceKhz);
  }

  /** Turning the receiver on or off does not change how loud anything is at its antenna. */
  lemma SamePower(c: Config, o: TxEvent, f: FrontEnd, enabled: bool)
    ensures ReceivedPower(c, o, f) == ReceivedPower(c, o, f.(rxEnabled := enabled))
  {}

  lemma LandsClear(c: Config, e: TxEvent, id: NodeId, f: FrontEnd, all: seq<TxEvent>)
    requires Lands(c, e, id, f, all)
    ensures ReceivedPower(c, e, f).Some?
    ensures Captures(c.capture, ReceivedPower(c, e, f).value, Interference(c, e, f, Overlapping(all, e)))
  {
    hide ReceivedPower, Captures, Interference;
  }

  /** A landed event beats everything on the air with it. */
  lemma LandingBeats(c: Config, e: TxEvent, o: TxEvent, id: NodeId, f: FrontEnd, all: seq<TxEvent>)
    requires c.toleranceKhz >= 0.0
    requires Lands(c, e, id, f, all) && o in all
    ensures Beats(c, e, o, f)
  {
    hide Lands, Interference, Contribution, ReceivedPower;
    LandsClear(c, e, id, f, all);
    if Rivals(c, e, o, f) {
      FilterElements(all, OverlapWith(e), o);
      var over := Overlapping(all, e);
      InterferenceCovers(c, e, f, over, o);
      SameChannelInterferes(c, e, o, f);
      var p, q := ReceivedPower(c, e, f).value, ReceivedPower(c, o, f).value;
      LouderThanPart(c.capture, p, q, Interference(c, e, f, over));
    }
  }

  // ----- the invariant

  /** `op` leaves the position, RF switch and channel of `id`, and the configuration, alone. */
  predicate Pins(op: Op, id: NodeId) {
    match op
    case Register(x, _, _, _) => x != id
    case Unregister(x) => x != id
    case UpdatePosition(x, _) => x != id
    case SetDio2(x, _) => x != id
    case Configure(_) => false
    case _ => true
  }

  predicate AllPin(ops: seq<Op>, id: NodeId) {
    forall i :: 0 <= i < |ops| ==> Pins(ops[i], id)
  }

  ghost predicate Exclusive(h: Bus, got: seq<TxEvent>, c: Config, id: NodeId, f: FrontEnd, clock: U64) {
    && h.config == c
    && id in h.nodes && h.nodes[id].front == f.(rxEnabled := h.nodes[id].front.rxEnabled)
    && (forall e :: e in got ==>
         && e in Events(h.transmissions) && TransmissionEnd(e) <= clock
         && e.channel == f.channel && ReceivedPower(c, e, f).Some?)
    && (forall e, o :: e in got && o in Events(h.transmissions) ==> Beats(c, e, o, f))
  }

  lemma BroadcastExclusive(h: Bus, got: seq<TxEvent>, c: Config, id: NodeId, f: FrontEnd, clock: U64, tx: TxEvent)
    requires Exclusive(h, got, c, id, f, clock) && tx.timestampMs >= clock
    ensures Exclusive(BroadcastBus(h, tx), got, c, id, f, clock)
  {
    if Accepts(h, tx) {
      var x := Stamped(c, h.nodes[tx.nodeId].front, tx);
      assert Events(BroadcastBus(h, tx).transmissions) == Events(h.transmissions) + [x];
      forall e | e in got ensures Beats(c, e, x, f) {
        assert !Overlap(e, x);
      }
    }
  }

  lemma ReceptionKnown(h: Bus, now: U64, id: NodeId, e: TxEvent)
    requires id in h.nodes && e in Reception(h, Tick(now), id)
    ensures e in Events(h.transmissions) && TransmissionEnd(e) <= now
    ensures Lands(h.config, e, id, h.nodes[id].front, Events(h.transmissions))
  {
    var es := Unfinished(h.transmissions);
    FilterElements(Due(es, now), LandsAt(h.config, id, h.nodes[id].front, Events(h.transmissions)), e);
    FilterElements(es, EndsBy(now), e);
    UnfinishedElements(h.transmissions, e);
    var i :| 0 <= i < |h.transmissions| && h.transmissions[i].event == e;
    assert Events(h.transmissions)[i] == e;
  }

  lemma LandsWhere(c: Config, e: TxEvent, id: NodeId, f: FrontEnd, all: seq<TxEvent>)
    requires Lands(c, e, id, f, all)
    ensures e.channel == f.channel && ReceivedPower(c, e, f).Some?
  {}

  lemma SettleExclusive(h: Bus, got: seq<TxEvent>, c: Config, id: NodeId, f: FrontEnd, clock: U64, now: U64)
    requires Exclusive(h, got, c, id, f, clock) && c.toleranceKhz >= 0.0
    ensures Exclusive(Settle(h, now), got + Reception(h, Tick(now), id), c, id, f, Max(clock, now))
  {
    var all, front := Events(h.transmissions), h.nodes[id].front;
    var more := Reception(h, Tick(now), id);
    EventsMark(h.transmissions, now);
    forall e | e in more
      ensures e in all && TransmissionEnd(e) <= now && e.channel == f.channel && ReceivedPower(c, e, f).Some?
    {
      ReceptionKnown(h, now, id, e);
      LandsWhere(c, e, id, front, all);
      SamePower(c, e, f, front.rxEnabled);
    }
    forall e, o | e in more && o in all ensures Beats(c, e, o, f) {
      ReceptionKnown(h, now, id, e);
      LandingBeats(c, e, o, id, front, all);
      SamePower(c, e, f, front.rxEnabled);
      SamePower(c, o, f, front.rxEnabled);
    }
  }

  lemma StepExclusive(h: Bus, got: seq<TxEvent>, c: Config, id: NodeId, f: FrontEnd, clock: U64, op: Op)
    requires Exclusive(h, got, c, id, f, clock) && c.toleranceKhz >= 0.0
    requires InTime(op, clock) && Pins(op, id)
    ensures Exclusive(Step(h, op, false), got + Reception(h, op, id), c, id, f, Advance(clock, op))
  {
    if op.Tick? {
      SettleExclusive(h, got, c, id, f, clock, op.nowMs);
    } else {
      assert got + Reception(h, op, id) == got;
      if op.Broadcast? {
        BroadcastExclusive(h, got, c, id, f, clock, op.tx);
      }
    }
  }

  lemma {:induction false} RunExclusive(s: Bus, ops: seq<Op>, id: NodeId, clock: U64)
    requires id in s.nodes && s.config.toleranceKhz >= 0.0
    requires Timely(ops, clock) && AllPin(ops, id)
    ensures
      var got := Receptions(s, ops, id, false);
      Exclusive(Run(s, ops, false), got, s.config, id, s.nodes[id].front, ClockAfter(clock, ops))
  {
    if ops != [] {
      var before, op := ops[..|ops| - 1], ops[|ops| - 1];
      RunExclusive(s, before, id, clock);
      StepExclusive(Run(s, before, false), Receptions(s, before, id, false), s.config, id, s.nodes[id].front,
                    ClockAfter(clock, before), op);
    }
  }

  lemma ScalesUp(k: AboveOne, p: Positive)
    ensures k * p > p
  {
    var d: real := k - 1.0;
    assert d * p > 0.0;
    assert k * p == d * p + p;
  }

  lemma Chain(p: real, kq: real, q: real, kp: real)
    requires kq > q && kp > p
    ensures p <= kq || q <= kp
  {}

  lemma NotBothLouder(k: AboveOne, p: Positive, q: Positive)
    ensures p <= k * q || q <= k * p
  {
    ScalesUp(k, p);
    ScalesUp(k, q);
    Chain(p, k * q, q, k * p);
  }

  lemma NotBothBeat(c: Config, e1: TxEvent, e2: TxEvent, f: FrontEnd)
    requires Beats(c, e1, e2, f) && Beats(c, e2, e1, f)
    requires e1.nodeId != e2.nodeId && e1.channel == f.channel && e2.channel == f.channel
    requires ReceivedPower(c, e1, f).Some? && ReceivedPower(c, e2, f).Some?
    ensures !Overlap(e1, e2)
  {
    NotBothLouder(c.capture, ReceivedPower(c, e1, f).value, ReceivedPower(c, e2, f).value);
    assert Overlap(e1, e2) ==> Rivals(c, e1, e2, f) && Rivals(c, e2, e1, f);
  }

  /**
   MAIN: in a run of the pruned bus that never broadcasts into ticked time, while a receiver keeps
   its registration, position and RF switch and the configuration stays, no two events delivered
   to it from different nodes overlap, whichever ticks delivered them.
   */
  lemma CaptureIsExclusive(s: Bus, ops: seq<Op>, id: NodeId, clock: U64, e1: TxEvent, e2: TxEvent)
    requires SettledBy(s.transmissions, clock) && Timely(ops, clock)
    requires id in s.nodes && s.config.toleranceKhz >= 0.0 && AllPin(ops, id)
    requires e1 in Receptions(s, ops, id, true) && e2 in Receptions(s, ops, id, true)
    requires e1.nodeId != e2.nodeId
    ensures !Overlap(e1, e2)
  {
    ReceptionsAgree(s, ops, clock, id);
    RunExclusive(s, ops, id, clock);
    NotBothBeat(s.config, e1, e2, s.nodes[id].front);
  }
}
