/** The premises of the main results are exact: where one fails, some run breaks the result. */
module RadioLimits {
  import opened Prelude
  import opened RadioTypes
  import opened RadioSpec
  import opened Sequences
  import opened RadioPruning
  import opened RadioCapture

  // ----- two senders, one listener

  const CHANNEL := RadioChannel(868.0, 125, 9, 5)
  const FRONT := FrontEnd((0.0, 0.0), 1.0, CHANNEL, true, true)

  /** Every path has gain one, nothing is too faint, and capture takes a factor of two. */
  function Loud(tolerance: real): Config {
    Config((a: Position, b: Position, f: real) => Some(1.0), 1.0, (dbm: real) => 1.0, (ch: RadioChannel) => Some(1.0),
           (w: U16) => 1.0, 2.0, 1.0, 1.0, tolerance, true)
  }

  function Send(node: NodeId, at: U64): TxEvent {
    TxEvent(node, CHANNEL, [], 1.0, 1, (0.0, 0.0), at)
  }

  lemma FilterOne<T>(x: T, p: T -> bool)
    ensures Filter([x], p) == if p(x) then [x] else []
  {
    FilterAppend([], x, p);
    assert [] + [x] == [x];
  }

  lemma FilterTwo<T>(x: T, y: T, p: T -> bool)
    ensures Filter([x, y], p) == (if p(x) then [x] else []) + (if p(y) then [y] else [])
  {
    FilterOne(x, p);
    FilterAppend([x], y, p);
    assert [x] + [y] == [x, y];
  }

  lemma HeardOne(tolerance: real, e: TxEvent, id: NodeId, all: seq<TxEvent>)
    ensures Heard(Loud(tolerance), [e], id, FRONT, all) == Sound(Loud(tolerance), e, id, FRONT, all)
  {
    assert [e][..0] == [];
  }

  lemma FullPower(tolerance: real, node: NodeId, at: U64)
    ensures ReceivedPower(Loud(tolerance), Send(node, at), FRONT) == Some(1.0)
  {}

  lemma OwnInterference(tolerance: real, e: TxEvent)
    ensures Interference(Loud(tolerance), e, FRONT, [e]) == 0.0
  {
    assert [e][..0] == [];
  }

  lemma InterferenceAppend(c: Config, e: TxEvent, over: seq<TxEvent>, o: TxEvent)
    ensures Interference(c, e, FRONT, over + [o]) == Interference(c, e, FRONT, over) + Contribution(c, e, FRONT, o)
  {
    assert (over + [o])[..|over|] == over;
  }

  lemma TwoContributions(c: Config, e: TxEvent, x: TxEvent, y: TxEvent)
    ensures Interference(c, e, FRONT, [x, y]) == Contribution(c, e, FRONT, x) + Contribution(c, e, FRONT, y)
  {
    InterferenceAppend(c, e, [], x);
    InterferenceAppend(c, e, [x], y);
    assert [] + [x] == [x] && [x] + [y] == [x, y];
  }

  /** Each of two simultaneous senders is interference to the other, unless the tolerance is negative. */
  lemma PairInterference(tolerance: real, at: U64)
    ensures
      var a, b := Send("a", at), Send("b", at);
      && Interference(Loud(tolerance), a, FRONT, [a, b]) == (if tolerance >= 0.0 then 1.0 else 0.0)
      && Interference(Loud(tolerance), b, FRONT, [a, b]) == (if tolerance >= 0.0 then 1.0 else 0.0)
  {
    hide Interference, ReceivedPower;
    var a, b := Send("a", at), Send("b", at);
    TwoContributions(Loud(tolerance), a, a, b);
    TwoContributions(Loud(tolerance), b, a, b);
    FullPower(tolerance, "a", at);
    FullPower(tolerance, "b", at);
  }

  /** Alone on the air, a sender is heard by "c". */
  lemma HeardAlone(tolerance: real, node: NodeId, at: U64)
    requires node != "c" && at < U64_MAX
    ensures |Heard(Loud(tolerance), [Send(node, at)], "c", FRONT, [Send(node, at)])| == 1
  {
    hide Interference, Heard, ReceivedPower;
    var e := Send(node, at);
    HeardOne(tolerance, e, "c", [e]);
    FilterOne(e, OverlapWith(e));
    assert Overlapping([e], e) == [e];
    OwnInterference(tolerance, e);
    FullPower(tolerance, node, at);
  }

  /** Two equally loud transmissions that overlap drown each other, unless the tolerance is negative. */
  lemma PairReception(tolerance: real, at: U64, e: TxEvent)
    requires at < U64_MAX && (e == Send("a", at) || e == Send("b", at))
    ensures
      var all := [Send("a", at), Send("b", at)];
      Receive(Loud(tolerance), e, "c", FRONT, Overlapping(all, e)).Some? <==> tolerance < 0.0
  {
    hide Interference, ReceivedPower;
    var a, b := Send("a", at), Send("b", at);
    FilterTwo(a, b, OverlapWith(e));
    assert Overlapping([a, b], e) == [a, b];
    PairInterference(tolerance, at);
    FullPower(tolerance, "a", at);
    FullPower(tolerance, "b", at);
  }

  // ----- broadcasts into ticked time

  /** The run from `s` leaves the two buses with different nodes, or has answered some call differently. */
  ghost predicate PruningShows(s: Bus, ops: seq<Op>) {
    || Run(s, ops, true).nodes != Run(s, ops, false).nodes
    || Replies(s, ops, true) != Replies(s, ops, false)
  }

  /** A timely run that has ticked to `clock`, a broadcast, and a timely run after it, together show pruning. */
  ghost predicate Exposes(s: Bus, since: U64, before: seq<Op>, clock: U64, tx: TxEvent, after: seq<Op>) {
    && SettledBy(s.transmissions, since)
    && Timely(before, since) && ClockAfter(since, before) == clock && Timely(after, clock)
    && PruningShows(s, before + [Broadcast(tx)] + after)
  }

  lemma {:induction false} TimelyConcat(before: seq<Op>, after: seq<Op>, clock: U64)
    ensures Timely(before + after, clock) <==> Timely(before, clock) && Timely(after, ClockAfter(clock, before))
    ensures ClockAfter(clock, before + after) == ClockAfter(ClockAfter(clock, before), after)
  {
    if after == [] {
      assert before + after == before;
    } else {
      var most, op := after[..|after| - 1], after[|after| - 1];
      assert after == most + [op] && before + after == (before + most) + [op];
      TimelyConcat(before, most, clock);
      TimelyAppend(before + most, op, clock);
      TimelyAppend(most, op, ClockAfter(clock, before));
    }
  }

  lemma InTimeHides(s: Bus, since: U64, before: seq<Op>, clock: U64, tx: TxEvent, after: seq<Op>)
    requires Exposes(s, since, before, clock, tx, after)
    ensures tx.timestampMs < clock
  {
    hide Run, Timely, ClockAfter;
    if tx.timestampMs >= clock {
      TimelyAppend(before, Broadcast(tx), since);
      TimelyConcat(before + [Broadcast(tx)], after, since);
      PruningIsInvisible(s, before + [Broadcast(tx)] + after, since);
    }
  }

  /** The bus while "a" is on the air, with "b" and "c" listening. */
  function Start(at: U64): Bus {
    Bus(map["b" := Node(FRONT, [], 0), "c" := Node(FRONT, [], 0)], [Scheduled(Send("a", at), false)], Loud(0.0))
  }

  function Late(at: U64, now: U64): seq<Op> { [Tick(now)] + [Broadcast(Send("b", at))] + [Tick(now)] }

  lemma LateRun(at: U64, now: U64, prune: bool)
    ensures Run(Start(at), Late(at, now), prune)
         == Step(Step(Step(Start(at), Tick(now), prune), Broadcast(Send("b", at)), prune), Tick(now), prune)
  {
    hide Step, Start;
    var t, b := Tick(now), Broadcast(Send("b", at));
    assert [] + [t] == [t];
    RunAppend(Start(at), [], t, prune);
    RunAppend(Start(at), [t], b, prune);
    RunAppend(Start(at), [t] + [b], t, prune);
  }

  lemma FirstSettle(at: U64, now: U64)
    requires at < now
    ensures
      var s := Settle(Start(at), now);
      && s.config == Loud(0.0)
      && s.transmissions == [Scheduled(Send("a", at), true)]
      && s.nodes.Keys == {"b", "c"} && s.nodes["b"].txBusyUntilMs == 0
      && s.nodes["b"].front == FRONT && s.nodes["c"].front == FRONT
      && |s.nodes["c"].inbox| == 1
  {
    hide Heard, Sound, Filter;
    var a := Send("a", at);
    var t := Scheduled(a, false);
    FilterOne(t, Live());
    assert Unfinished([t]) == [a];
    FilterOne(a, EndsBy(now));
    assert Events([t]) == [a];
    HeardAlone(0.0, "a", at);
    assert Mark([t], now) == [Scheduled(a, true)];
  }

  /** After the first tick "a" is delivered; the pruned bus forgets it and the other one does not. */
  lemma FirstTick(at: U64, now: U64, prune: bool)
    requires at < now
    ensures
      var s := Step(Start(at), Tick(now), prune);
      && s.config == Loud(0.0)
      && s.transmissions == (if prune then [] else [Scheduled(Send("a", at), true)])
      && s.nodes.Keys == {"b", "c"} && s.nodes["b"].txBusyUntilMs == 0
      && s.nodes["b"].front == FRONT && s.nodes["c"].front == FRONT
      && |s.nodes["c"].inbox| == 1
  {
    hide Settle;
    FirstSettle(at, now);
    var marked := Scheduled(Send("a", at), true);
    FilterOne(marked, Live());
    assert Unfinished([marked]) == [];
    FilterOne(marked, KeptFor([]));
  }

  /** The second tick: "b" arrives if "a" has been forgotten, and collides with it if not. */
  lemma SecondTick(s: Bus, at: U64, now: U64, before: seq<Scheduled>)
    requires at < now && s.config == Loud(0.0) && "c" in s.nodes && s.nodes["c"].front == FRONT
    requires before == [] || before == [Scheduled(Send("a", at), true)]
    requires s.transmissions == before + [Scheduled(Send("b", at), false)]
    ensures |Settle(s, now).nodes["c"].inbox| == |s.nodes["c"].inbox| + if before == [] then 1 else 0
  {
    hide Heard, Filter, Receive, Loud;
    var b := Send("b", at);
    var t := Scheduled(b, false);
    FilterOne(b, EndsBy(now));
    if before == [] {
      assert s.transmissions == [t];
      FilterOne(t, Live());
      assert Unfinished([t]) == [b] && Events([t]) == [b];
      HeardAlone(0.0, "b", at);
    } else {
      var x := Scheduled(Send("a", at), true);
      assert s.transmissions == [x, t];
      FilterTwo(x, t, Live());
      assert Unfinished([x, t]) == [b] && Events([x, t]) == [Send("a", at), b];
      HeardOne(0.0, b, "c", [Send("a", at), b]);
      PairReception(0.0, at, b);
    }
  }

  /**
   A broadcast stamped before a time already ticked does see pruning, whatever the two times are: "a" is on the
   air at `at`, the bus ticks to `now` and forgets it, and then "b" claims to have started at `at` too. The pruned
   bus delivers "b" undisturbed; the bus that keeps everything lets the two collide.
   */
  lemma LateBroadcastSeesPruning(at: U64, now: U64, prune: bool)
    requires at < now
    ensures |Inbox(Run(Start(at), Late(at, now), prune), "c")| == if prune then 2 else 1
  {
    hide Heard, Sound, Filter;
    LateRun(at, now, prune);
    FirstTick(at, now, prune);
    var s := Step(Start(at), Tick(now), prune);
    var r := Step(s, Broadcast(Send("b", at)), prune);
    assert Stamped(Loud(0.0), FRONT, Send("b", at)) == Send("b", at);
    SecondTick(r, at, now, s.transmissions);
  }

  lemma LateExposes(at: U64, clock: U64)
    requires at < clock
    ensures Exposes(Start(at), 0, [Tick(clock)], clock, Send("b", at), [Tick(clock)])
  {
    hide Run;
    LateBroadcastSeesPruning(at, clock, true);
    LateBroadcastSeesPruning(at, clock, false);
    assert [] + [Tick(clock)] == [Tick(clock)];
    TimelyAppend([], Tick(clock), 0);
    TimelyAppend([], Tick(clock), clock);
  }

  /**
   MAIN: with the latest tick at `clock`, a broadcast stamped `stamp` is safe from showing pruning, whatever came
   before it and whatever follows, if and only if its stamp is not before the clock.
   */
  lemma StampIsSafeIff(clock: U64, stamp: U64)
    ensures (forall s, since: U64, before, tx: TxEvent, after ::
               tx.timestampMs == stamp ==> !Exposes(s, since, before, clock, tx, after))
       <==> stamp >= clock
  {
    hide Exposes;
    forall s, since: U64, before, tx: TxEvent, after |
      tx.timestampMs == stamp && Exposes(s, since, before, clock, tx, after)
      ensures stamp < clock
    {
      InTimeHides(s, since, before, clock, tx, after);
    }
    if stamp < clock {
      LateExposes(stamp, clock);
    }
  }

  // ----- negative frequency tolerance

  /** A timely run of a pinned receiver in which two overlapping transmissions of different nodes both arrive. */
  ghost predicate BothArrive(s: Bus, ops: seq<Op>, id: NodeId, clock: U64, e1: TxEvent, e2: TxEvent) {
    && SettledBy(s.transmissions, clock) && Timely(ops, clock)
    && id in s.nodes && AllPin(ops, id)
    && e1 in Receptions(s, ops, id, true) && e2 in Receptions(s, ops, id, true)
    && e1.nodeId != e2.nodeId && Overlap(e1, e2)
  }

  /** "c" listens while "a" and "b" are on the air together. */
  function Pair(tolerance: real): Bus {
    var onAir := [Scheduled(Send("a", 0), false), Scheduled(Send("b", 0), false)];
    Bus(map["c" := Node(FRONT, [], 0)], onAir, Loud(tolerance))
  }

  lemma PairDue(tolerance: real)
    ensures
      var ts, a, b := Pair(tolerance).transmissions, Send("a", 0), Send("b", 0);
      Events(ts) == [a, b] && Due(Unfinished(ts), 1) == [a, b]
  {
    hide Filter;
    var a, b := Send("a", 0), Send("b", 0);
    FilterTwo(Scheduled(a, false), Scheduled(b, false), Live());
    assert Unfinished(Pair(tolerance).transmissions) == [a, b];
    FilterTwo(a, b, EndsBy(1));
  }

  lemma PairLands(tolerance: real)
    requires tolerance < 0.0
    ensures
      var a, b := Send("a", 0), Send("b", 0);
      Landed(Loud(tolerance), [a, b], "c", FRONT, [a, b]) == [a, b]
  {
    hide Filter, Receive, Loud;
    var a, b := Send("a", 0), Send("b", 0);
    PairReception(tolerance, 0, a);
    PairReception(tolerance, 0, b);
    FilterTwo(a, b, LandsAt(Loud(tolerance), "c", FRONT, [a, b]));
  }

  lemma ReceptionsOfOne(s: Bus, op: Op, id: NodeId)
    ensures Receptions(s, [op], id, true) == Reception(s, op, id)
  {
    hide Reception;
    assert [op][..0] == [];
    assert Receptions(s, [], id, true) == [] && Run(s, [], true) == s;
  }

  lemma PairArrives(tolerance: real)
    requires tolerance < 0.0
    ensures BothArrive(Pair(tolerance), [Tick(1)], "c", 0, Send("a", 0), Send("b", 0))
  {
    hide Filter, Landed, Loud, Due, Unfinished, Events, Receptions;
    PairDue(tolerance);
    PairLands(tolerance);
    ReceptionsOfOne(Pair(tolerance), Tick(1), "c");
    assert [] + [Tick(1)] == [Tick(1)];
    TimelyAppend([], Tick(1), 0);
  }

  /** MAIN: capture is exclusive on every bus of a given frequency tolerance if and only if that is not negative. */
  lemma CaptureNeedsTolerance(tolerance: real)
    ensures (forall s: Bus, ops, id, clock: U64, e1, e2 ::
               s.config.toleranceKhz == tolerance ==> !BothArrive(s, ops, id, clock, e1, e2))
       <==> tolerance >= 0.0
  {
    forall s: Bus, ops, id, clock: U64, e1, e2 |
      s.config.toleranceKhz == tolerance && BothArrive(s, ops, id, clock, e1, e2)
      ensures tolerance < 0.0
    {
      if tolerance >= 0.0 {
        CaptureIsExclusive(s, ops, id, clock, e1, e2);
      }
    }
    if tolerance < 0.0 {
      PairArrives(tolerance);
      assert Pair(tolerance).config.toleranceKhz == tolerance;
    }
  }
}
