/** How often time is ticked does not matter. */
module RadioGranularity {
  import opened Prelude
  import opened RadioTypes
  import opened RadioSpec
  import opened Sequences
  import opened RadioPruning

  /** Equal but for the order of packets inside each inbox. */
  ghost predicate SameUpToOrder(a: Bus, b: Bus) {
    && a.transmissions == b.transmissions
    && a.config == b.config
    && a.nodes.Keys == b.nodes.Keys
    && forall id :: id in a.nodes ==>
         && a.nodes[id].front == b.nodes[id].front
         && a.nodes[id].txBusyUntilMs == b.nodes[id].txBusyUntilMs
         && multiset(a.nodes[id].inbox) == multiset(b.nodes[id].inbox)
  }

  /** `Heard` with the reception rule abstracted to an arbitrary function. */
  function Collect(sound: TxEvent -> seq<RxPacket>, done: seq<TxEvent>): seq<RxPacket> {
    if done == [] then [] else Collect(sound, done[..|done| - 1]) + sound(done[|done| - 1])
  }

  lemma {:induction false} HeardCollects(
      c: Config, done: seq<TxEvent>, id: NodeId, f: FrontEnd, all: seq<TxEvent>, sound: TxEvent -> seq<RxPacket>)
    requires forall e :: sound(e) == Sound(c, e, id, f, all)
    ensures Heard(c, done, id, f, all) == Collect(sound, done)
  {
    if done != [] {
      HeardCollects(c, done[..|done| - 1], id, f, all, sound);
    }
  }

  /** The packets of `Collect`, order forgotten. */
  function Bag(sound: TxEvent -> seq<RxPacket>, done: seq<TxEvent>): multiset<RxPacket> {
    if done == [] then multiset{} else Bag(sound, done[..|done| - 1]) + multiset(sound(done[|done| - 1]))
  }

  lemma {:induction false} BagOfCollect(sound: TxEvent -> seq<RxPacket>, done: seq<TxEvent>)
    ensures multiset(Collect(sound, done)) == Bag(sound, done)
  {
    if done != [] {
      BagOfCollect(sound, done[..|done| - 1]);
    }
  }

  lemma BagAppend(sound: TxEvent -> seq<RxPacket>, done: seq<TxEvent>, e: TxEvent)
    ensures Bag(sound, done + [e]) == Bag(sound, done) + multiset(sound(e))
  {
    assert (done + [e])[..|done|] == done;
  }

  lemma AddToEither<T>(whole: multiset<T>, left: multiset<T>, right: multiset<T>, more: multiset<T>)
    requires whole == left + right
    ensures whole + more == (left + more) + right
    ensures whole + more == left + (right + more)
  {}

  /** What ends by `a`, and of the rest what ends by `b`, is together what ends by `b`. */
  lemma {:induction false} BagSplits(sound: TxEvent -> seq<RxPacket>, es: seq<TxEvent>, a: U64, b: U64)
    requires a <= b
    ensures Bag(sound, Due(es, b)) == Bag(sound, Due(es, a)) + Bag(sound, Due(NotDue(es, a), b))
  {
    if es != [] {
      var before, e := es[..|es| - 1], es[|es| - 1];
      assert es == before + [e];
      BagSplits(sound, before, a, b);
      BagSplitsStep(sound, before, e, a, b);
    }
  }

  lemma BagSplitsStep(sound: TxEvent -> seq<RxPacket>, es: seq<TxEvent>, e: TxEvent, a: U64, b: U64)
    requires a <= b
    requires Bag(sound, Due(es, b)) == Bag(sound, Due(es, a)) + Bag(sound, Due(NotDue(es, a), b))
    ensures Bag(sound, Due(es + [e], b))
         == Bag(sound, Due(es + [e], a)) + Bag(sound, Due(NotDue(es + [e], a), b))
  {
    FilterAppend(es, e, EndsBy(a));
    FilterAppend(es, e, EndsBy(b));
    FilterAppend(es, e, EndsAfter(a));
    FilterAppend(NotDue(es, a), e, EndsBy(b));
    AddToEither(Bag(sound, Due(es, b)), Bag(sound, Due(es, a)), Bag(sound, Due(NotDue(es, a), b)), multiset(sound(e)));
    if TransmissionEnd(e) <= a {
      BagAppend(sound, Due(es, b), e);
      BagAppend(sound, Due(es, a), e);
    } else if TransmissionEnd(e) <= b {
      BagAppend(sound, Due(es, b), e);
      BagAppend(sound, Due(NotDue(es, a), b), e);
    }
  }

  lemma HeardSplits(c: Config, es: seq<TxEvent>, a: U64, b: U64, id: NodeId, f: FrontEnd, all: seq<TxEvent>)
    requires a <= b
    ensures multiset(Heard(c, Due(es, b), id, f, all))
         == multiset(Heard(c, Due(es, a), id, f, all)) + multiset(Heard(c, Due(NotDue(es, a), b), id, f, all))
  {
    var sound := e => Sound(c, e, id, f, all);
    HeardCollects(c, Due(es, b), id, f, all, sound);
    HeardCollects(c, Due(es, a), id, f, all, sound);
    HeardCollects(c, Due(NotDue(es, a), b), id, f, all, sound);
    BagOfCollect(sound, Due(es, b));
    BagOfCollect(sound, Due(es, a));
    BagOfCollect(sound, Due(NotDue(es, a), b));
    BagSplits(sound, es, a, b);
  }

  /** Pruning early, for a larger set of live events, loses nothing pruning late would keep. */
  lemma {:induction false} RetainTwice(ts: seq<Scheduled>, a: U64, b: U64, liveA: seq<TxEvent>, liveB: seq<TxEvent>)
    requires a <= b
    requires forall e :: OverlapsAny(e, liveB) ==> OverlapsAny(e, liveA)
    ensures Retain(Mark(Retain(Mark(ts, a), liveA), b), liveB) == Retain(Mark(ts, b), liveB)
  {
    if ts != [] {
      var before, last := ts[..|ts| - 1], ts[|ts| - 1];
      assert ts == before + [last];
      RetainTwice(before, a, b, liveA, liveB);
      RetainTwiceStep(before, last, a, b, liveA, liveB);
    }
  }

  lemma RetainTwiceStep(ts: seq<Scheduled>, t: Scheduled, a: U64, b: U64, liveA: seq<TxEvent>, liveB: seq<TxEvent>)
    requires a <= b
    requires forall e :: OverlapsAny(e, liveB) ==> OverlapsAny(e, liveA)
    requires Retain(Mark(Retain(Mark(ts, a), liveA), b), liveB) == Retain(Mark(ts, b), liveB)
    ensures Retain(Mark(Retain(Mark(ts + [t], a), liveA), b), liveB) == Retain(Mark(ts + [t], b), liveB)
  {
    MarkAppend(ts, t, a);
    MarkAppend(ts, t, b);
    FilterAppend(Mark(ts, a), MarkOne(t, a), KeptFor(liveA));
    FilterAppend(Mark(ts, b), MarkOne(t, b), KeptFor(liveB));
    var kept := Retain(Mark(ts, a), liveA);
    assert MarkOne(MarkOne(t, a), b) == MarkOne(t, b);
    MarkAppend(kept, MarkOne(t, a), b);
    FilterAppend(Mark(kept, b), MarkOne(t, b), KeptFor(liveB));
  }

  lemma OverlapsSubset(es: seq<TxEvent>, a: U64, b: U64, e: TxEvent)
    requires a <= b && OverlapsAny(e, NotDue(es, b))
    ensures OverlapsAny(e, NotDue(es, a))
  {
    var i :| 0 <= i < |NotDue(es, b)| && Overlap(e, NotDue(es, b)[i]);
    var o := NotDue(es, b)[i];
    FilterElements(es, EndsAfter(b), o);
    FilterElements(es, EndsAfter(a), o);
    var j :| 0 <= j < |NotDue(es, a)| && NotDue(es, a)[j] == o;
  }

  /** After a tick to `a`, what is left overlaps each live event exactly as before. */
  lemma MidHeard(s: Bus, a: U64, b: U64, id: NodeId, f: FrontEnd)
    ensures
      var late := Due(NotDue(Unfinished(s.transmissions), a), b);
      Heard(s.config, late, id, f, Events(TickBus(s, a).transmissions))
      == Heard(s.config, late, id, f, Events(s.transmissions))
  {
    var liveA := NotDue(Unfinished(s.transmissions), a);
    var all, left := Events(s.transmissions), Events(TickBus(s, a).transmissions);
    UnfinishedMark(s.transmissions, a);
    EventsMark(s.transmissions, a);
    forall e | e in Due(liveA, b)
      ensures Overlapping(left, e) == Overlapping(all, e)
    {
      FilterElements(liveA, EndsBy(b), e);
      OverlappingRetain(Mark(s.transmissions, a), liveA, e);
    }
    HeardAgrees(s.config, Due(liveA, b), id, f, left, all);
  }

  lemma MidTransmissions(s: Bus, a: U64, b: U64)
    requires a <= b
    ensures Unfinished(TickBus(s, a).transmissions) == NotDue(Unfinished(s.transmissions), a)
    ensures TickBus(TickBus(s, a), b).transmissions == TickBus(s, b).transmissions
  {
    var es := Unfinished(s.transmissions);
    var mid := TickBus(s, a);
    UnfinishedMark(s.transmissions, a);
    UnfinishedMark(s.transmissions, b);
    UnfinishedRetain(Mark(s.transmissions, a), NotDue(es, a));
    UnfinishedMark(mid.transmissions, b);
    FilterImplied(es, EndsAfter(a), EndsAfter(b));
    forall e | OverlapsAny(e, NotDue(es, b))
      ensures OverlapsAny(e, NotDue(es, a))
    {
      OverlapsSubset(es, a, b, e);
    }
    RetainTwice(s.transmissions, a, b, NotDue(es, a), NotDue(es, b));
  }

  lemma InboxTwice(s: Bus, a: U64, b: U64, id: NodeId)
    requires a <= b && id in s.nodes
    ensures multiset(TickBus(TickBus(s, a), b).nodes[id].inbox) == multiset(TickBus(s, b).nodes[id].inbox)
  {
    var f := s.nodes[id].front;
    var es, all := Unfinished(s.transmissions), Events(s.transmissions);
    var first, second := Heard(s.config, Due(es, a), id, f, all), Heard(s.config, Due(NotDue(es, a), b), id, f, all);
    MidTransmissions(s, a, b);
    MidHeard(s, a, b, id, f);
    HeardSplits(s.config, es, a, b, id, f, all);
    assert TickBus(TickBus(s, a), b).nodes[id].inbox == (s.nodes[id].inbox + first) + second;
  }

  /** MAIN: ticking to `a` and then to a later `b` is ticking to `b`, up to order in the inboxes. */
  lemma TickTwice(s: Bus, a: U64, b: U64)
    requires a <= b
    ensures SameUpToOrder(TickBus(TickBus(s, a), b), TickBus(s, b))
  {
    MidTransmissions(s, a, b);
    forall id | id in s.nodes
      ensures multiset(TickBus(TickBus(s, a), b).nodes[id].inbox) == multiset(TickBus(s, b).nodes[id].inbox)
    {
      InboxTwice(s, a, b, id);
    }
  }

  /** With nothing due, settling does nothing. */
  lemma SettleIdle(s: Bus, now: U64)
    requires Due(Unfinished(s.transmissions), now) == []
    ensures Settle(s, now) == s
  {
    forall i | 0 <= i < |s.transmissions|
      ensures MarkOne(s.transmissions[i], now) == s.transmissions[i]
    {
      var t := s.transmissions[i];
      UnfinishedElements(s.transmissions, t.event);
      FilterElements(Unfinished(s.transmissions), EndsBy(now), t.event);
    }
    assert Mark(s.transmissions, now) == s.transmissions;
    forall id | id in s.nodes
      ensures Settle(s, now).nodes[id] == s.nodes[id]
    {
      assert s.nodes[id].inbox + [] == s.nodes[id].inbox;
    }
    assert Settle(s, now).nodes == s.nodes;
  }

  lemma PruneTwice(s: Bus)
    ensures Prune(Prune(s)) == Prune(s)
  {
    var live := Unfinished(s.transmissions);
    UnfinishedRetain(s.transmissions, live);
    FilterImplied(s.transmissions, KeptFor(live), KeptFor(live));
  }

  lemma NothingDue(s: Bus, a: U64, b: U64)
    requires a <= b
    ensures Due(Unfinished(TickBus(s, b).transmissions), a) == []
  {
    var es, settled := Unfinished(s.transmissions), Settle(s, b).transmissions;
    UnfinishedMark(s.transmissions, b);
    UnfinishedRetain(settled, Unfinished(settled));
    forall e | e in NotDue(es, b) ensures !EndsBy(a)(e) {
      FilterElements(es, EndsAfter(b), e);
    }
    FilterNone(NotDue(es, b), EndsBy(a));
  }

  /** Ticking to a time already passed changes nothing. */
  lemma TickBack(s: Bus, a: U64, b: U64)
    requires a <= b
    ensures TickBus(TickBus(s, b), a) == TickBus(s, b)
  {
    NothingDue(s, a, b);
    SettleIdle(TickBus(s, b), a);
    PruneTwice(Settle(s, b));
  }

  /** A tick does not look inside the inboxes. */
  lemma TickRespectsOrder(a: Bus, b: Bus, now: U64)
    requires SameUpToOrder(a, b)
    ensures SameUpToOrder(TickBus(a, now), TickBus(b, now))
  {}

  function TickAll(s: Bus, times: seq<U64>): Bus {
    if times == [] then s else TickBus(TickAll(s, times[..|times| - 1]), times[|times| - 1])
  }

  function Latest(times: seq<U64>): U64
    requires times != []
  {
    if |times| == 1 then times[0] else Max(Latest(times[..|times| - 1]), times[|times| - 1])
  }

  /** MAIN: any schedule of ticks, in any order, is one tick to the latest time. */
  lemma {:induction false} TickScheduleIrrelevant(s: Bus, times: seq<U64>)
    requires times != []
    ensures SameUpToOrder(TickAll(s, times), TickBus(s, Latest(times)))
  {
    var before, b := times[..|times| - 1], times[|times| - 1];
    if before != [] {
      TickScheduleIrrelevant(s, before);
      var a := Latest(before);
      TickRespectsOrder(TickAll(s, before), TickBus(s, a), b);
      if a <= b {
        TickTwice(s, a, b);
      } else {
        TickBack(s, b, a);
      }
    }
  }
}
