/** Pruning collision history cannot be seen by any caller. */
module RadioPruning {
  import opened Prelude
  import opened RadioTypes
  import opened RadioSpec
  import opened Sequences

  /**
   `p` (pruned) and `h` (never forgets) are in the same situation: same nodes, same unfinished
   events, and each unfinished event overlaps the same transmissions in both.
   */
  ghost predicate Agree(p: Bus, h: Bus, clock: U64) {
    && p.nodes == h.nodes
    && p.config == h.config
    && SettledBy(p.transmissions, clock)
    && SettledBy(h.transmissions, clock)
    && Unfinished(p.transmissions) == Unfinished(h.transmissions)
    && SameOverlaps(Unfinished(p.transmissions), Events(p.transmissions), Events(h.transmissions))
  }

  ghost predicate SameOverlaps(live: seq<TxEvent>, a: seq<TxEvent>, b: seq<TxEvent>) {
    forall i :: 0 <= i < |live| ==> Overlapping(a, live[i]) == Overlapping(b, live[i])
  }

  // ----- views of the list under marking, pruning and appending

  lemma EventsAppend(ts: seq<Scheduled>, t: Scheduled)
    ensures Events(ts + [t]) == Events(ts) + [t.event]
  {}

  lemma {:induction false} EventsFilter(ts: seq<Scheduled>, p: Scheduled -> bool, q: TxEvent -> bool)
    requires forall t :: p(t) == q(t.event)
    ensures Events(Filter(ts, p)) == Filter(Events(ts), q)
  {
    if ts != [] {
      var before, last := ts[..|ts| - 1], ts[|ts| - 1];
      EventsFilter(before, p, q);
      assert Events(ts) == Events(before) + [last.event];
      FilterAppend(Events(before), last.event, q);
    }
  }

  lemma UnfinishedAppend(ts: seq<Scheduled>, t: Scheduled)
    ensures Unfinished(ts + [t]) == if t.finalized then Unfinished(ts) else Unfinished(ts) + [t.event]
  {
    FilterAppend(ts, t, Live());
  }

  lemma UnfinishedElements(ts: seq<Scheduled>, e: TxEvent)
    ensures e in Unfinished(ts) <==> exists i :: 0 <= i < |ts| && !ts[i].finalized && ts[i].event == e
  {
    if e in Unfinished(ts) {
      var i :| 0 <= i < |Unfinished(ts)| && Unfinished(ts)[i] == e;
      var t := Filter(ts, Live())[i];
      FilterElements(ts, Live(), t);
      var j :| 0 <= j < |ts| && ts[j] == t;
    }
    if i :| 0 <= i < |ts| && !ts[i].finalized && ts[i].event == e {
      FilterElements(ts, Live(), ts[i]);
      var j :| 0 <= j < |Filter(ts, Live())| && Filter(ts, Live())[j] == ts[i];
      assert Unfinished(ts)[j] == e;
    }
  }

  lemma MarkAppend(ts: seq<Scheduled>, t: Scheduled, now: U64)
    ensures Mark(ts + [t], now) == Mark(ts, now) + [MarkOne(t, now)]
  {}

  lemma EventsMark(ts: seq<Scheduled>, now: U64)
    ensures Events(Mark(ts, now)) == Events(ts)
  {}

  lemma {:induction false} UnfinishedMark(ts: seq<Scheduled>, now: U64)
    ensures Unfinished(Mark(ts, now)) == NotDue(Unfinished(ts), now)
  {
    if ts != [] {
      var before, last := ts[..|ts| - 1], ts[|ts| - 1];
      assert ts == before + [last];
      UnfinishedMark(before, now);
      MarkAppend(before, last, now);
      UnfinishedAppend(Mark(before, now), MarkOne(last, now));
      UnfinishedAppend(before, last);
      FilterAppend(Unfinished(before), last.event, EndsAfter(now));
    }
  }

  lemma UnfinishedRetain(ts: seq<Scheduled>, live: seq<TxEvent>)
    ensures Unfinished(Retain(ts, live)) == Unfinished(ts)
  {
    FilterImplied(ts, KeptFor(live), Live());
  }

  /** What pruning drops, no live event overlaps. */
  lemma OverlappingRetain(ts: seq<Scheduled>, live: seq<TxEvent>, e: TxEvent)
    requires e in live
    ensures Overlapping(Events(Retain(ts, live)), e) == Overlapping(Events(ts), e)
  {
    var over := (t: Scheduled) => Overlap(e, t.event);
    EventsFilter(Retain(ts, live), over, OverlapWith(e));
    EventsFilter(ts, over, OverlapWith(e));
    var i :| 0 <= i < |live| && live[i] == e;
    forall t: Scheduled | over(t) ensures KeptFor(live)(t) {
      assert Overlap(t.event, live[i]);
    }
    FilterImplied(ts, KeptFor(live), over);
  }

  /** An event that starts at `clock` or later overlaps only unfinished transmissions. */
  lemma FreshOverlapsUnfinished(ts: seq<Scheduled>, clock: U64, e: TxEvent)
    requires SettledBy(ts, clock) && e.timestampMs >= clock
    ensures Overlapping(Events(ts), e) == Overlapping(Unfinished(ts), e)
  {
    var over := (t: Scheduled) => Overlap(e, t.event);
    EventsFilter(ts, over, OverlapWith(e));
    EventsFilter(Filter(ts, Live()), over, OverlapWith(e));
    FilterImplied(ts, Live(), over);
  }

  lemma HeardAppend(c: Config, done: seq<TxEvent>, e: TxEvent, id: NodeId, f: FrontEnd, all: seq<TxEvent>)
    ensures Heard(c, done + [e], id, f, all) == Heard(c, done, id, f, all) + Sound(c, e, id, f, all)
  {
    assert (done + [e])[..|done|] == done;
  }

  lemma SendingIn(id: NodeId, over: seq<TxEvent>)
    ensures Sending(id, over) <==> exists o :: o in over && o.nodeId == id
  {
    if Sending(id, over) {
      var i :| 0 <= i < |over| && over[i].nodeId == id;
      assert over[i] in over;
    }
  }

  lemma {:induction false} HeardAgrees(
      c: Config, done: seq<TxEvent>, id: NodeId, f: FrontEnd, a: seq<TxEvent>, b: seq<TxEvent>)
    requires forall e :: e in done ==> Overlapping(a, e) == Overlapping(b, e)
    ensures Heard(c, done, id, f, a) == Heard(c, done, id, f, b)
  {
    if done != [] {
      HeardAgrees(c, done[..|done| - 1], id, f, a, b);
    }
  }

  lemma DeliverAgrees(c: Config, nodes: map<NodeId, Node>, done: seq<TxEvent>, a: seq<TxEvent>, b: seq<TxEvent>)
    requires forall e :: e in done ==> Overlapping(a, e) == Overlapping(b, e)
    ensures Deliver(c, nodes, done, a) == Deliver(c, nodes, done, b)
  {
    forall id | id in nodes
      ensures Heard(c, done, id, nodes[id].front, a) == Heard(c, done, id, nodes[id].front, b)
    {
      HeardAgrees(c, done, id, nodes[id].front, a, b);
    }
  }

  // ----- what pruning drops

  /** A tick keeps a transmission exactly when it is unfinished or overlaps one that is. */
  lemma KeptExactly(s: Bus, now: U64, t: Scheduled)
    ensures t in TickBus(s, now).transmissions
       <==> t in Mark(s.transmissions, now)
            && (!t.finalized || OverlapsAny(t.event, NotDue(Unfinished(s.transmissions), now)))
  {
    var live := NotDue(Unfinished(s.transmissions), now);
    UnfinishedMark(s.transmissions, now);
    FilterElements(Mark(s.transmissions, now), KeptFor(live), t);
  }

  /** With airtimes of at most `longest`, nothing that ended that long before the tick is remembered. */
  lemma OldIsForgotten(s: Bus, now: U64, longest: nat, t: Scheduled)
    requires forall x :: x in s.transmissions ==> x.event.airtimeMs <= longest
    requires t in TickBus(s, now).transmissions
    ensures TransmissionEnd(t.event) + longest > now
  {
    var live := NotDue(Unfinished(s.transmissions), now);
    KeptExactly(s, now, t);
    var k :| 0 <= k < |s.transmissions| && Mark(s.transmissions, now)[k] == t;
    if t.finalized {
      var i :| 0 <= i < |live| && Overlap(t.event, live[i]);
      FilterElements(Unfinished(s.transmissions), EndsAfter(now), live[i]);
      UnfinishedElements(s.transmissions, live[i]);
      var j :| 0 <= j < |s.transmissions| && !s.transmissions[j].finalized && s.transmissions[j].event == live[i];
      assert s.transmissions[j] in s.transmissions;
    }
  }

  // ----- one step

  lemma SettleAgrees(p: Bus, h: Bus, clock: U64, now: U64)
    requires Agree(p, h, clock)
    ensures Agree(Settle(p, now), Settle(h, now), Max(clock, now))
  {
    var live := Unfinished(p.transmissions);
    forall e | e in Due(live, now)
      ensures Overlapping(Events(p.transmissions), e) == Overlapping(Events(h.transmissions), e)
    {
      FilterElements(live, EndsBy(now), e);
    }
    DeliverAgrees(p.config, p.nodes, Due(live, now), Events(p.transmissions), Events(h.transmissions));
    UnfinishedMark(p.transmissions, now);
    UnfinishedMark(h.transmissions, now);
    EventsMark(p.transmissions, now);
    EventsMark(h.transmissions, now);
    forall i | 0 <= i < |NotDue(live, now)|
      ensures Overlapping(Events(p.transmissions), NotDue(live, now)[i])
           == Overlapping(Events(h.transmissions), NotDue(live, now)[i])
    {
      FilterElements(live, EndsAfter(now), NotDue(live, now)[i]);
    }
  }

  lemma PruneAgrees(p: Bus, h: Bus, clock: U64)
    requires Agree(p, h, clock)
    ensures Agree(Prune(p), h, clock)
  {
    var live := Unfinished(p.transmissions);
    UnfinishedRetain(p.transmissions, live);
    forall i | 0 <= i < |live|
      ensures Overlapping(Events(Prune(p).transmissions), live[i]) == Overlapping(Events(h.transmissions), live[i])
    {
      OverlappingRetain(p.transmissions, live, live[i]);
    }
    forall i | 0 <= i < |Prune(p).transmissions| && Prune(p).transmissions[i].finalized
      ensures TransmissionEnd(Prune(p).transmissions[i].event) <= clock
    {
      FilterElements(p.transmissions, KeptFor(live), Prune(p).transmissions[i]);
    }
  }

  lemma OneMoreOverlap(a: seq<TxEvent>, b: seq<TxEvent>, x: TxEvent, e: TxEvent)
    requires Overlapping(a, e) == Overlapping(b, e)
    ensures Overlapping(a + [x], e) == Overlapping(b + [x], e)
  {
    FilterAppend(a, x, OverlapWith(e));
    FilterAppend(b, x, OverlapWith(e));
  }

  lemma BroadcastAgrees(p: Bus, h: Bus, clock: U64, tx: TxEvent)
    requires Agree(p, h, clock) && tx.timestampMs >= clock
    ensures Agree(BroadcastBus(p, tx), BroadcastBus(h, tx), clock)
  {
    hide Overlapping, Filter, Times;
    if Accepts(p, tx) {
      var x := Scheduled(Stamped(p.config, p.nodes[tx.nodeId].front, tx), false);
      var live := Unfinished(p.transmissions);
      UnfinishedAppend(p.transmissions, x);
      UnfinishedAppend(h.transmissions, x);
      EventsAppend(p.transmissions, x);
      EventsAppend(h.transmissions, x);
      FreshOverlapsUnfinished(p.transmissions, clock, x.event);
      FreshOverlapsUnfinished(h.transmissions, clock, x.event);
      forall i | 0 <= i < |live + [x.event]|
        ensures Overlapping(Events(p.transmissions) + [x.event], (live + [x.event])[i])
             == Overlapping(Events(h.transmissions) + [x.event], (live + [x.event])[i])
      {
        OneMoreOverlap(Events(p.transmissions), Events(h.transmissions), x.event, (live + [x.event])[i]);
      }
    }
  }

  lemma StepAgrees(p: Bus, h: Bus, clock: U64, op: Op)
    requires Agree(p, h, clock)
    requires InTime(op, clock)
    ensures Agree(Step(p, op, true), Step(h, op, false), Advance(clock, op))
  {
    match op
    case Broadcast(tx) => BroadcastAgrees(p, h, clock, tx);
    case Tick(now) =>
      SettleAgrees(p, h, clock, now);
      PruneAgrees(Settle(p, now), Settle(h, now), Max(clock, now));
    case _ =>
  }

  // ----- whole runs

  lemma RunAppend(s: Bus, ops: seq<Op>, op: Op, prune: bool)
    ensures Run(s, ops + [op], prune) == Step(Run(s, ops, prune), op, prune)
  {
    assert (ops + [op])[..|ops|] == ops;
  }

  lemma TimelyAppend(ops: seq<Op>, op: Op, clock: U64)
    ensures Timely(ops + [op], clock) <==> Timely(ops, clock) && InTime(op, ClockAfter(clock, ops))
    ensures ClockAfter(clock, ops + [op]) == Advance(ClockAfter(clock, ops), op)
  {
    assert (ops + [op])[..|ops|] == ops;
  }

  lemma {:induction false} RunAgrees(p: Bus, h: Bus, ops: seq<Op>, clock: U64)
    requires Agree(p, h, clock) && Timely(ops, clock)
    ensures Agree(Run(p, ops, true), Run(h, ops, false), ClockAfter(clock, ops))
    ensures Replies(p, ops, true) == Replies(h, ops, false)
  {
    if ops != [] {
      var before, op := ops[..|ops| - 1], ops[|ops| - 1];
      RunAgrees(p, h, before, clock);
      StepAgrees(Run(p, before, true), Run(h, before, false), ClockAfter(clock, before), op);
    }
  }

  /**
   MAIN: in every run that never broadcasts into ticked time, the pruned bus and the bus that
   keeps everything hold the same nodes, inboxes included, and answer every call alike.
   */
  lemma PruningIsInvisible(s: Bus, ops: seq<Op>, clock: U64)
    requires SettledBy(s.transmissions, clock) && Timely(ops, clock)
    ensures Run(s, ops, true).nodes == Run(s, ops, false).nodes
    ensures Replies(s, ops, true) == Replies(s, ops, false)
  {
    RunAgrees(s, s, ops, clock);
  }
}
