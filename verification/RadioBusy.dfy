/** A node that stays registered has one transmission on the air at a time. */
module RadioBusy {
  import opened Prelude
  import opened RadioTypes
  import opened RadioSpec
  import opened Sequences
  import opened RadioPruning

  /** The events of node `n` that the run put on the air, in order. */
  function SentBy(s: Bus, ops: seq<Op>, n: NodeId, prune: bool): seq<TxEvent> {
    if ops == [] then []
    else
      var before, op := ops[..|ops| - 1], ops[|ops| - 1];
      var r := Run(s, before, prune);
      if op.Broadcast? && op.tx.nodeId == n && Accepts(r, op.tx) then
        SentBy(s, before, n, prune) + [Stamped(r.config, r.nodes[n].front, op.tx)]
      else SentBy(s, before, n, prune)
  }

  /** `op` neither registers nor unregisters `n`. */
  predicate Keeps(op: Op, n: NodeId) {
    !(op.Register? && op.id == n) && !(op.Unregister? && op.id == n)
  }

  predicate AllKeep(ops: seq<Op>, n: NodeId) {
    forall i :: 0 <= i < |ops| ==> Keeps(ops[i], n)
  }

  /** Transmissions of `n` follow one another, and `n` is busy until the last one ends. */
  ghost predicate InLine(r: Bus, sent: seq<TxEvent>, n: NodeId, since: U64, channel: RadioChannel) {
    && n in r.nodes && r.nodes[n].front.channel == channel
    && r.nodes[n].txBusyUntilMs == (if sent == [] then since else TransmissionEnd(sent[|sent| - 1]))
    && since <= r.nodes[n].txBusyUntilMs
    && (forall i :: 0 <= i < |sent| ==>
         && sent[i].nodeId == n && sent[i].channel == channel
         && TransmissionEnd(sent[i]) <= r.nodes[n].txBusyUntilMs)
    && (forall i, j :: 0 <= i < j < |sent| ==> TransmissionEnd(sent[i]) <= sent[j].timestampMs)
  }

  lemma {:induction false} RunInLine(s: Bus, ops: seq<Op>, n: NodeId, prune: bool)
    requires n in s.nodes && AllKeep(ops, n)
    ensures InLine(Run(s, ops, prune), SentBy(s, ops, n, prune), n, s.nodes[n].txBusyUntilMs, s.nodes[n].front.channel)
  {
    if ops != [] {
      var before, op := ops[..|ops| - 1], ops[|ops| - 1];
      RunInLine(s, before, n, prune);
      assert Keeps(op, n);
      var r, sent := Run(s, before, prune), SentBy(s, before, n, prune);
      StepInLine(r, sent, n, s.nodes[n].txBusyUntilMs, s.nodes[n].front.channel, op, prune);
    }
  }

  lemma StepInLine(r: Bus, sent: seq<TxEvent>, n: NodeId, since: U64, channel: RadioChannel, op: Op, prune: bool)
    requires InLine(r, sent, n, since, channel) && Keeps(op, n)
    ensures
      var more := op.Broadcast? && op.tx.nodeId == n && Accepts(r, op.tx);
      var sent' := if more then sent + [Stamped(r.config, r.nodes[n].front, op.tx)] else sent;
      InLine(Step(r, op, prune), sent', n, since, channel)
  {}

  /**
   MAIN: the accepted transmissions of a registered node never overlap, and a send is reported
   complete exactly when all of them (and whatever kept the node busy before) have ended.
   */
  lemma OneTransmissionAtATime(s: Bus, ops: seq<Op>, n: NodeId, prune: bool)
    requires n in s.nodes && AllKeep(ops, n)
    ensures
      var sent := SentBy(s, ops, n, prune);
      && (forall i, j :: 0 <= i < j < |sent| ==> !Overlap(sent[i], sent[j]))
      && (forall now: U64 ::
            IsSendComplete(Run(s, ops, prune), n, now)
            <==> s.nodes[n].txBusyUntilMs <= now && forall i :: 0 <= i < |sent| ==> TransmissionEnd(sent[i]) <= now)
  {
    RunInLine(s, ops, n, prune);
  }

  /**
   MAIN: `same_transmission` takes two accepted transmissions of one node for the same one exactly when the
   earlier one starts at the last representable millisecond, or has no airtime and the later one starts with it.
   */
  lemma SameTransmissionIsIdentity(s: Bus, ops: seq<Op>, n: NodeId, prune: bool, i: nat, j: nat)
    requires n in s.nodes && AllKeep(ops, n)
    requires i < j < |SentBy(s, ops, n, prune)|
    ensures
      var a, b := SentBy(s, ops, n, prune)[i], SentBy(s, ops, n, prune)[j];
      && (SameTransmission(a, b) <==> a.timestampMs == b.timestampMs)
      && (SameTransmission(a, b) <==> a.timestampMs == U64_MAX || (a.airtimeMs == 0 && a.timestampMs == b.timestampMs))
  {
    RunInLine(s, ops, n, prune);
  }

  /** What the run has sent after `ops` stays what it sent first, whatever follows. */
  lemma {:induction false} SentByGrows(s: Bus, ops: seq<Op>, more: seq<Op>, n: NodeId, prune: bool)
    ensures SentBy(s, ops, n, prune) <= SentBy(s, ops + more, n, prune)
  {
    if more == [] {
      assert ops + more == ops;
    } else {
      var before := more[..|more| - 1];
      SentByGrows(s, ops, before, n, prune);
      assert (ops + more)[..|ops + more| - 1] == ops + before;
    }
  }

  lemma SentByAppend(s: Bus, ops: seq<Op>, tx: TxEvent, n: NodeId, prune: bool)
    requires tx.nodeId == n && Accepts(Run(s, ops, prune), tx)
    ensures
      var r := Run(s, ops, prune);
      SentBy(s, ops + [Broadcast(tx)], n, prune) == SentBy(s, ops, n, prune) + [Stamped(r.config, r.nodes[n].front, tx)]
  {
    assert (ops + [Broadcast(tx)])[..|ops|] == ops;
  }

  /** The run can go on, with `n` registered throughout, to a later accepted send that is taken for the `i`th one. */
  ghost predicate Confusable(s: Bus, ops: seq<Op>, n: NodeId, i: nat, prune: bool) {
    exists more: seq<Op>, j: nat :: ConfusedBy(s, ops + more, n, i, j, prune) && AllKeep(more, n)
  }

  ghost predicate ConfusedBy(s: Bus, ops: seq<Op>, n: NodeId, i: nat, j: nat, prune: bool) {
    var sent := SentBy(s, ops, n, prune);
    i < j < |sent| && SameTransmission(sent[i], sent[j])
  }

  /**
   MAIN: a send that has just been accepted can be confused with a later one of the same registered node if and
   only if it has no airtime or starts at the last representable millisecond.
   */
  lemma ConfusableIff(s: Bus, before: seq<Op>, tx: TxEvent, n: NodeId, prune: bool)
    requires n in s.nodes && AllKeep(before, n) && tx.nodeId == n && Accepts(Run(s, before, prune), tx)
    ensures Confusable(s, before + [Broadcast(tx)], n, |SentBy(s, before, n, prune)|, prune)
       <==> tx.airtimeMs == 0 || tx.timestampMs == U64_MAX
  {
    hide SentBy, Run, Step, SameTransmission;
    var ops, i := before + [Broadcast(tx)], |SentBy(s, before, n, prune)|;
    SentByAppend(s, before, tx, n, prune);
    if Confusable(s, ops, n, i, prune) {
      var more, j: nat :| ConfusedBy(s, ops + more, n, i, j, prune) && AllKeep(more, n);
      SentByGrows(s, ops, more, n, prune);
      SameTransmissionIsIdentity(s, ops + more, n, prune, i, j);
    }
    if tx.airtimeMs == 0 || tx.timestampMs == U64_MAX {
      SendAgain(s, before, tx, n, prune);
      assert ConfusedBy(s, ops + [Broadcast(tx)], n, i, i + 1, prune);
    }
  }

  /** A send that ends when it starts does not keep its node busy: the very same send is accepted again. */
  lemma SendAgain(s: Bus, before: seq<Op>, tx: TxEvent, n: NodeId, prune: bool)
    requires tx.nodeId == n && Accepts(Run(s, before, prune), tx)
    requires tx.airtimeMs == 0 || tx.timestampMs == U64_MAX
    ensures ConfusedBy(s, before + [Broadcast(tx)] + [Broadcast(tx)], n, |SentBy(s, before, n, prune)|,
                       |SentBy(s, before, n, prune)| + 1, prune)
  {
    hide SentBy, Run;
    var ops := before + [Broadcast(tx)];
    RunAppend(s, before, Broadcast(tx), prune);
    SentByAppend(s, before, tx, n, prune);
    SentByAppend(s, ops, tx, n, prune);
  }

  function By(n: NodeId): TxEvent -> bool { (e: TxEvent) => e.nodeId == n }

  /** One call adds to the record of `n` what `SentBy` says it adds. */
  lemma StepOnAir(r: Bus, op: Op, n: NodeId)
    ensures
      var more := op.Broadcast? && op.tx.nodeId == n && Accepts(r, op.tx);
      Filter(Events(Step(r, op, false).transmissions), By(n))
      == if more then Filter(Events(r.transmissions), By(n)) + [Stamped(r.config, r.nodes[n].front, op.tx)]
         else Filter(Events(r.transmissions), By(n))
  {
    match op
    case Tick(now) => EventsMark(r.transmissions, now);
    case Broadcast(tx) =>
      if Accepts(r, tx) {
        var x := Stamped(r.config, r.nodes[tx.nodeId].front, tx);
        EventsAppend(r.transmissions, Scheduled(x, false));
        FilterAppend(Events(r.transmissions), x, By(n));
      }
    case _ =>
  }

  /** `SentBy` is what the bus that keeps everything has on record for `n`. */
  lemma {:induction false} SentIsOnAir(s: Bus, ops: seq<Op>, n: NodeId)
    ensures Filter(Events(Run(s, ops, false).transmissions), By(n))
         == Filter(Events(s.transmissions), By(n)) + SentBy(s, ops, n, false)
  {
    if ops == [] {
      assert Filter(Events(s.transmissions), By(n)) + [] == Filter(Events(s.transmissions), By(n));
    } else {
      var before, op := ops[..|ops| - 1], ops[|ops| - 1];
      SentIsOnAir(s, before, n);
      StepOnAir(Run(s, before, false), op, n);
    }
  }

  // ----- both exceptions exist

  const QUIET := Config((a, b, f) => None, 1.0, dbm => 1.0, c => None, w => 1.0, 2.0, 1.0, 1.0, 0.0, true)
  const CHANNEL := RadioChannel(868.0, 125, 9, 5)
  const ONE_NODE := Bus(map["n" := Node(FrontEnd((0.0, 0.0), 1.0, CHANNEL, true, true), [], 0)], [], QUIET)

  function Sample(airtime: U32, at: U64): TxEvent {
    TxEvent("n", CHANNEL, [], 1.0, airtime, (0.0, 0.0), at)
  }

  /** Without airtime, one node can send two transmissions that the bus cannot tell apart. */
  lemma ZeroAirtimeIsAmbiguous()
    ensures ConfusedBy(ONE_NODE, [Broadcast(Sample(0, 5)), Broadcast(Sample(0, 5))], "n", 0, 1, true)
  {
    var e := Broadcast(Sample(0, 5));
    assert [] + [e] + [e] == [e, e];
    SendAgain(ONE_NODE, [], e.tx, "n", true);
  }

  /** With airtime too, at the end of time. */
  lemma LastMillisecondIsAmbiguous()
    ensures ConfusedBy(ONE_NODE, [Broadcast(Sample(7, U64_MAX)), Broadcast(Sample(7, U64_MAX))], "n", 0, 1, true)
  {
    var e := Broadcast(Sample(7, U64_MAX));
    assert [] + [e] + [e] == [e, e];
    SendAgain(ONE_NODE, [], e.tx, "n", true);
  }
}
