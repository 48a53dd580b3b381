/** Every transmission that goes on the air is resolved exactly once, once its airtime is over. */
module RadioResolution {
  import opened Prelude
  import opened RadioTypes
  import opened RadioSpec
  import opened Sequences
  import opened RadioPruning

  /** The transmissions one call puts on the air. */
  function Started(s: Bus, op: Op): seq<TxEvent> {
    if op.Broadcast? && Accepts(s, op.tx) then [Stamped(s.config, s.nodes[op.tx.nodeId].front, op.tx)] else []
  }

  /** The transmissions one call resolves, delivering or dropping them. */
  function Resolved(s: Bus, op: Op): seq<TxEvent> {
    if op.Tick? then Due(Unfinished(s.transmissions), op.nowMs) else []
  }

  function AllStarted(s: Bus, ops: seq<Op>, prune: bool): seq<TxEvent> {
    if ops == [] then []
    else AllStarted(s, ops[..|ops| - 1], prune) + Started(Run(s, ops[..|ops| - 1], prune), ops[|ops| - 1])
  }

  function AllResolved(s: Bus, ops: seq<Op>, prune: bool): seq<TxEvent> {
    if ops == [] then []
    else AllResolved(s, ops[..|ops| - 1], prune) + Resolved(Run(s, ops[..|ops| - 1], prune), ops[|ops| - 1])
  }

  lemma {:induction false} DuePartitions(es: seq<TxEvent>, now: U64)
    ensures multiset(es) == multiset(Due(es, now)) + multiset(NotDue(es, now))
  {
    if es != [] {
      var before, e := es[..|es| - 1], es[|es| - 1];
      assert es == before + [e];
      DuePartitions(before, now);
    }
  }

  /** What was unfinished before a call or starts with it is resolved by it or unfinished after it. */
  lemma StepResolves(s: Bus, op: Op, prune: bool)
    ensures multiset(Unfinished(s.transmissions)) + multiset(Started(s, op))
         == multiset(Resolved(s, op)) + multiset(Unfinished(Step(s, op, prune).transmissions))
  {
    hide Filter;
    match op
    case Tick(now) =>
      UnfinishedMark(s.transmissions, now);
      DuePartitions(Unfinished(s.transmissions), now);
      var settled := Mark(s.transmissions, now);
      UnfinishedRetain(settled, Unfinished(settled));
    case Broadcast(tx) =>
      if Accepts(s, tx) {
        UnfinishedAppend(s.transmissions, Scheduled(Stamped(s.config, s.nodes[tx.nodeId].front, tx), false));
      }
    case _ =>
  }

  /**
   MAIN: over any run, the transmissions unfinished at the start and those accepted since are, each as
   often as it was sent, the ones resolved by some tick and the ones still unfinished.
   */
  lemma {:induction false} ResolvedExactlyOnce(s: Bus, ops: seq<Op>, prune: bool)
    ensures multiset(Unfinished(s.transmissions)) + multiset(AllStarted(s, ops, prune))
         == multiset(AllResolved(s, ops, prune)) + multiset(Unfinished(Run(s, ops, prune).transmissions))
  {
    if ops != [] {
      var before, op := ops[..|ops| - 1], ops[|ops| - 1];
      var r := Run(s, before, prune);
      ResolvedExactlyOnce(s, before, prune);
      StepResolves(r, op, prune);
      Shift(multiset(Unfinished(s.transmissions)), multiset(AllStarted(s, before, prune)), multiset(Started(r, op)),
            multiset(AllResolved(s, before, prune)), multiset(Resolved(r, op)),
            multiset(Unfinished(r.transmissions)), multiset(Unfinished(Step(r, op, prune).transmissions)));
    }
  }

  lemma Shift<T>(first: multiset<T>, started: multiset<T>, starts: multiset<T>,
                 resolved: multiset<T>, resolves: multiset<T>, mid: multiset<T>, last: multiset<T>)
    requires first + started == resolved + mid
    requires mid + starts == resolves + last
    ensures first + (started + starts) == (resolved + resolves) + last
  {
    assert first + (started + starts) == (first + started) + starts;
    assert (resolved + mid) + starts == resolved + (mid + starts);
  }

  /** After a tick nothing that has ended is left unresolved, and nothing was resolved early. */
  lemma TickResolvesInTime(s: Bus, now: U64, prune: bool)
    ensures forall e :: e in Unfinished(Step(s, Tick(now), prune).transmissions) ==> TransmissionEnd(e) > now
    ensures forall e :: e in Resolved(s, Tick(now)) ==> TransmissionEnd(e) <= now && e in Unfinished(s.transmissions)
  {
    var es, settled := Unfinished(s.transmissions), Mark(s.transmissions, now);
    UnfinishedMark(s.transmissions, now);
    UnfinishedRetain(settled, Unfinished(settled));
    forall e ensures e in NotDue(es, now) <==> e in es && TransmissionEnd(e) > now {
      FilterElements(es, EndsAfter(now), e);
    }
    forall e ensures e in Due(es, now) <==> e in es && TransmissionEnd(e) <= now {
      FilterElements(es, EndsBy(now), e);
    }
  }

  /**
   What a delivered packet says and when it may exist: the sender is another node on the receiver's
   channel, the receiver was listening and not itself sending at any time during the packet, the time
   is the end of the airtime, and the strength is the sender's power through the path and both
   antenna switches, whatever the caller had filled in.
   */
  lemma PacketTells(
      c: Config, e: TxEvent, id: NodeId, f: FrontEnd, all: seq<TxEvent>, p: RxPacket, sender: FrontEnd, tx: TxEvent)
    requires e == Stamped(c, sender, tx)
    requires Receive(c, e, id, f, Overlapping(all, e)) == Some(p)
    ensures p.fromNode == tx.nodeId != id && p.data == tx.data && p.channel == sender.channel == f.channel
    ensures p.timestampMs == TransmissionEnd(tx) && f.rxEnabled
    ensures forall o :: o in all && o.nodeId == id ==> !Overlap(e, o)
    ensures c.gain(sender.position, f.position, sender.channel.freqMhz).Some?
    ensures
      var g := c.gain(sender.position, f.position, sender.channel.freqMhz).value;
      var sent := sender.txPower * (if sender.dio2 then 1.0 else c.txLoss);
      p.rssi == sent * g * c.systemGain * (if f.dio2 then 1.0 else c.rxLoss)
  {
    SendingIn(id, Overlapping(all, e));
    forall o | o in all && o.nodeId == id ensures !Overlap(e, o) {
      FilterElements(all, OverlapWith(e), o);
    }
  }
}
