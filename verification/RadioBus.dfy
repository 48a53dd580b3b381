/** The bus as the program runs it: one object whose calls update its fields. */
module RadioBusClass {
  import opened Prelude
  import opened RadioTypes
  import opened RadioSpec
  import opened Sequences
  import opened RadioPruning

  lemma HeardOne(c: Config, e: TxEvent, id: NodeId, f: FrontEnd, all: seq<TxEvent>)
    ensures Heard(c, [e], id, f, all) == Sound(c, e, id, f, all)
  {
    assert [] + [e] == [e];
    HeardAppend(c, [], e, id, f, all);
  }

  lemma DeliverOneMore(c: Config, nodes: map<NodeId, Node>, done: seq<TxEvent>, e: TxEvent, all: seq<TxEvent>)
    ensures Deliver(c, Deliver(c, nodes, done, all), [e], all) == Deliver(c, nodes, done + [e], all)
  {
    hide Heard, Sound;
    forall id | id in nodes
      ensures (nodes[id].inbox + Heard(c, done, id, nodes[id].front, all)) + Heard(c, [e], id, nodes[id].front, all)
           == nodes[id].inbox + Heard(c, done + [e], id, nodes[id].front, all)
    {
      HeardAppend(c, done, e, id, nodes[id].front, all);
      HeardOne(c, e, id, nodes[id].front, all);
    }
  }

  /** What looking at the next entry of the list adds to what is due and marked. */
  lemma NextEntry(ts: seq<Scheduled>, i: nat, now: U64)
    requires i < |ts|
    ensures Due(Unfinished(ts[..i + 1]), now)
         == Due(Unfinished(ts[..i]), now)
            + if !ts[i].finalized && TransmissionEnd(ts[i].event) <= now then [ts[i].event] else []
    ensures Mark(ts[..i + 1], now) == Mark(ts[..i], now) + [MarkOne(ts[i], now)]
  {
    assert ts[..i + 1] == ts[..i] + [ts[i]];
    UnfinishedAppend(ts[..i], ts[i]);
    FilterAppend(Unfinished(ts[..i]), ts[i].event, EndsBy(now));
    MarkAppend(ts[..i], ts[i], now);
  }

  lemma DeliverNothing(c: Config, nodes: map<NodeId, Node>, all: seq<TxEvent>)
    ensures Deliver(c, nodes, [], all) == nodes
  {
    forall id | id in nodes ensures nodes[id].inbox + [] == nodes[id].inbox {}
  }

  class RadioBus {
    var nodes: map<NodeId, Node>
    var transmissions: seq<Scheduled>
    var config: Config

    ghost function State(): Bus
      reads this
    {
      Bus(nodes, transmissions, config)
    }

    constructor (config: Config)
      ensures State() == Bus(map[], [], config)
    {
      this.config := config;
      nodes, transmissions := map[], [];
    }

    /** Only node `id` may have changed. */
    twostate predicate Elsewhere(id: NodeId)
      reads this
    {
      && config == old(config) && transmissions == old(transmissions) && nodes.Keys == old(nodes).Keys
      && forall x :: x in nodes && x != id ==> nodes[x] == old(nodes)[x]
    }

    method SetPropagationModel(gain: (Position, Position, real) -> Option<Positive>)
      modifies this
      ensures State() == Step(old(State()), Configure(old(config).(gain := gain)), true)
      ensures nodes == old(nodes) && transmissions == old(transmissions) && config == old(config).(gain := gain)
    {
      config := config.(gain := gain);
    }

    /** A loss below 0 dB is a gain above one; `None` is a loss that is not finite. Both are ignored. */
    method SetSystemLoss(gain: Option<Positive>)
      modifies this
      ensures State() == if gain.Some? && gain.value <= 1.0
                         then Step(old(State()), Configure(old(config).(systemGain := gain.value)), true)
                         else old(State())
      ensures nodes == old(nodes) && transmissions == old(transmissions)
      ensures config == old(config).(systemGain := config.systemGain)
      ensures config.systemGain == if gain.Some? && gain.value <= 1.0 then gain.value else old(config).systemGain
    {
      if gain.Some? && gain.value <= 1.0 {
        config := config.(systemGain := gain.value);
      }
    }

    /** A tolerance that is negative or not finite is ignored. */
    method SetFrequencyToleranceKhz(tolerance: Option<real>)
      modifies this
      ensures State() == if tolerance.Some? && tolerance.value >= 0.0
                         then Step(old(State()), Configure(old(config).(toleranceKhz := tolerance.value)), true)
                         else old(State())
      ensures nodes == old(nodes) && transmissions == old(transmissions)
      ensures config == old(config).(toleranceKhz := config.toleranceKhz)
      ensures tolerance.Some? && tolerance.value >= 0.0 ==> config.toleranceKhz == tolerance.value
      ensures old(config).toleranceKhz >= 0.0 ==> config.toleranceKhz >= 0.0
    {
      if tolerance.Some? && tolerance.value >= 0.0 {
        config := config.(toleranceKhz := tolerance.value);
      }
    }

    method RegisterNode(id: NodeId, position: Position, txPower: Positive, channel: RadioChannel)
      modifies this
      ensures State() == Step(old(State()), Register(id, position, txPower, channel), true)
      ensures config == old(config) && transmissions == old(transmissions)
      ensures nodes == old(nodes)[id := Node(FrontEnd(position, txPower, channel, true, config.dio2Default), [], 0)]
    {
      nodes := nodes[id := Node(FrontEnd(position, txPower, channel, true, config.dio2Default), [], 0)];
    }

    method UnregisterNode(id: NodeId)
      modifies this
      ensures State() == Step(old(State()), Unregister(id), true)
      ensures config == old(config) && transmissions == old(transmissions)
      ensures nodes.Keys == old(nodes).Keys - {id} && forall x :: x in nodes ==> nodes[x] == old(nodes)[x]
    {
      nodes := nodes - {id};
    }

    method UpdateNodePosition(id: NodeId, position: Position)
      modifies this
      ensures State() == Step(old(State()), UpdatePosition(id, position), true)
      ensures Elsewhere(id)
      ensures id in nodes ==> nodes[id] == old(nodes)[id].(front := old(nodes)[id].front.(position := position))
    {
      if id in nodes {
        var n := nodes[id];
        nodes := nodes[id := n.(front := n.front.(position := position))];
      }
    }

    method SetNodeReceiveEnabled(id: NodeId, enabled: bool)
      modifies this
      ensures State() == Step(old(State()), SetReceiveEnabled(id, enabled), true)
      ensures Elsewhere(id)
      ensures id in nodes ==>
                && nodes[id].front == old(nodes)[id].front.(rxEnabled := enabled)
                && nodes[id].inbox == (if enabled then old(nodes)[id].inbox else [])
                && nodes[id].txBusyUntilMs == old(nodes)[id].txBusyUntilMs
    {
      if id in nodes {
        var n := nodes[id];
        nodes := nodes[id := n.(front := n.front.(rxEnabled := enabled))];
        if !enabled {
          nodes := nodes[id := nodes[id].(inbox := [])];
        }
      }
    }

    method SetDio2AsRfSwitch(id: NodeId, asRfSwitch: bool)
      modifies this
      ensures State() == Step(old(State()), SetDio2(id, asRfSwitch), true)
      ensures Elsewhere(id)
      ensures id in nodes ==> nodes[id] == old(nodes)[id].(front := old(nodes)[id].front.(dio2 := asRfSwitch))
    {
      if id in nodes {
        var n := nodes[id];
        nodes := nodes[id := n.(front := n.front.(dio2 := asRfSwitch))];
      }
    }

    method Broadcast(tx: TxEvent) returns (ok: bool)
      modifies this
      ensures State() == Step(old(State()), Op.Broadcast(tx), true)
      ensures Accepted(ok) == ReplyTo(old(State()), Op.Broadcast(tx))
      ensures ok <==> tx.nodeId in old(nodes) && old(nodes)[tx.nodeId].txBusyUntilMs <= tx.timestampMs
      ensures !ok ==> State() == old(State())
      ensures ok ==>
                var n := old(nodes)[tx.nodeId];
                var power := n.front.txPower * (if n.front.dio2 then 1.0 else config.txLoss);
                && config == old(config)
                && nodes == old(nodes)[tx.nodeId := n.(txBusyUntilMs := Min(tx.timestampMs + tx.airtimeMs, U64_MAX))]
                && |transmissions| == |old(transmissions)| + 1 && old(transmissions) <= transmissions
                && var sent := transmissions[|old(transmissions)|];
                   && !sent.finalized
                   && sent.event == tx.(channel := n.front.channel, position := n.front.position, txPower := power)
    {
      if tx.nodeId !in nodes {
        return false;
      }
      var sender := nodes[tx.nodeId];
      if tx.timestampMs < sender.txBusyUntilMs {
        return false;
      }
      var event := Stamped(config, sender.front, tx);
      nodes := nodes[tx.nodeId := sender.(txBusyUntilMs := SaturatingAdd(tx.timestampMs, tx.airtimeMs))];
      transmissions := transmissions + [Scheduled(event, false)];
      return true;
    }

    method SendComplete(id: NodeId, nowMs: U64) returns (done: bool)
      ensures done == IsSendComplete(State(), id, nowMs)
      ensures done <==> id in nodes && nodes[id].txBusyUntilMs <= nowMs
    {
      return id in nodes && nowMs >= nodes[id].txBusyUntilMs;
    }

    method Poll(id: NodeId) returns (packets: seq<RxPacket>)
      modifies this
      ensures State() == Step(old(State()), Op.Poll(id), true)
      ensures Packets(packets) == ReplyTo(old(State()), Op.Poll(id))
      ensures Elsewhere(id)
      ensures if id in nodes then packets == old(nodes)[id].inbox && nodes[id] == old(nodes)[id].(inbox := [])
              else packets == []
    {
      if id !in nodes {
        return [];
      }
      packets := nodes[id].inbox;
      nodes := nodes[id := nodes[id].(inbox := [])];
    }

    method Tick(nowMs: U64)
      modifies this
      ensures State() == Step(old(State()), Op.Tick(nowMs), true)
      ensures config == old(config) && nodes.Keys == old(nodes).Keys
      ensures forall x :: x in nodes ==>
                old(nodes)[x].inbox <= nodes[x].inbox && nodes[x] == old(nodes)[x].(inbox := nodes[x].inbox)
    {
      ghost var ts := transmissions;
      ghost var done := [];
      var allEvents := Events(transmissions);
      DeliverNothing(config, nodes, allEvents);
      for i := 0 to |transmissions|
        invariant config == old(config) && |transmissions| == |ts|
        invariant forall k :: 0 <= k < i ==> transmissions[k] == MarkOne(ts[k], nowMs)
        invariant forall k :: i <= k < |ts| ==> transmissions[k] == ts[k]
        invariant done == Due(Unfinished(ts[..i]), nowMs)
        invariant nodes == Deliver(config, old(nodes), done, allEvents)
      {
        var scheduled := transmissions[i];
        NextEntry(ts, i, nowMs);
        if !scheduled.finalized && TransmissionEnd(scheduled.event) <= nowMs {
          DeliverCompleted(scheduled.event, allEvents);
          transmissions := transmissions[i := scheduled.(finalized := true)];
          DeliverOneMore(config, old(nodes), done, scheduled.event, allEvents);
          done := done + [scheduled.event];
        }
      }
      assert ts[..|ts|] == ts && transmissions == Mark(ts, nowMs);
      transmissions := Retain(transmissions, Unfinished(transmissions));
    }

    /** Visits the receivers in any order, as a hash map does. */
    method DeliverCompleted(event: TxEvent, allEvents: seq<TxEvent>)
      modifies this`nodes
      ensures nodes == Deliver(config, old(nodes), [event], allEvents)
      ensures nodes.Keys == old(nodes).Keys
      ensures forall id :: id in nodes ==>
                var packet := Receive(config, event, id, old(nodes)[id].front, Overlapping(allEvents, event));
                && nodes[id].front == old(nodes)[id].front && nodes[id].txBusyUntilMs == old(nodes)[id].txBusyUntilMs
                && nodes[id].inbox == old(nodes)[id].inbox + if packet.Some? then [packet.value] else []
    {
      hide Heard, Receive, Overlapping;
      var waiting := nodes.Keys;
      while waiting != {}
        invariant waiting <= nodes.Keys == old(nodes).Keys
        invariant forall id :: id in waiting ==> nodes[id] == old(nodes)[id]
        invariant forall id :: id in nodes && id !in waiting ==>
                    var n := old(nodes)[id];
                    nodes[id] == n.(inbox := n.inbox + Sound(config, event, id, n.front, allEvents))
        decreases waiting
      {
        var id :| id in waiting;
        waiting := waiting - {id};
        var receiver := nodes[id];
        var packet := Receive(config, event, id, receiver.front, Overlapping(allEvents, event));
        if packet.Some? {
          nodes := nodes[id := receiver.(inbox := receiver.inbox + [packet.value])];
        } else {
          assert receiver.inbox + [] == receiver.inbox;
        }
      }
      forall id | id in nodes
        ensures Heard(config, [event], id, old(nodes)[id].front, allEvents)
             == Sound(config, event, id, old(nodes)[id].front, allEvents)
      {
        HeardOne(config, event, id, old(nodes)[id].front, allEvents);
      }
    }
  }
}
