/** The bridge as the program runs it: the shared bus, its clock, and one handle per radio. */
module BridgeClass {
  import opened Prelude
  import opened RadioTypes
  import opened RadioSpec
  import opened RadioPruning
  import opened RadioBusClass
  import opened BridgeSpec
  import Airtime

  class RadioBridge {
    const bus: RadioBus
    var nowMs: U64
    var handles: map<NodeId, Handle>

    ghost function State(): Bridge
      reads this, bus
    {
      Bridge(bus.State(), nowMs, handles)
    }

    constructor (config: Config)
      ensures fresh(bus) && State() == Bridge(Bus(map[], [], config), 0, map[])
    {
      bus := new RadioBus(config);
      nowMs, handles := 0, map[];
    }

    method RadioCreate(id: NodeId, channel: RadioChannel, txPowerDbm: real, position: Position) returns (ok: bool)
      modifies this, bus
      ensures State() == BridgeStep(old(State()), Create(id, channel, txPowerDbm, position), true)
      ensures ok <==>
                && 150.0 <= channel.freqMhz <= 960.0 && channel.bandwidthKhz in {125, 250, 500}
                && 7 <= channel.spreadingFactor <= 12 && 5 <= channel.codingRate <= 8
                && -17.0 <= txPowerDbm <= 22.0 && -90.0 <= position.0 <= 90.0 && -180.0 <= position.1 <= 180.0
                && id != "" && id !in old(handles)
      ensures !ok ==> State() == old(State())
      ensures ok ==>
                var power := bus.config.milliwatts(txPowerDbm);
                var front := FrontEnd(position, power, channel, true, bus.config.dio2Default);
                && nowMs == old(nowMs) && handles == old(handles)[id := Handle(channel, txPowerDbm, [], None)]
                && bus.State() == old(bus.State()).(nodes := old(bus.nodes)[id := Node(front, [], 0)])
    {
      NothingLowered(bus.State());
      if !ValidChannel(channel) || !ValidPower(txPowerDbm) || !ValidPosition(position) || id == "" || id in handles {
        return false;
      }
      var txPower := bus.config.milliwatts(txPowerDbm);
      RunOne(bus.State(), Register(id, position, txPower, channel), true);
      bus.RegisterNode(id, position, txPower, channel);
      handles := handles[id := Handle(channel, txPowerDbm, [], None)];
      return true;
    }

    method RadioStartSend(id: NodeId, data: seq<Byte>) returns (ok: bool)
      modifies this, bus
      ensures State() == BridgeStep(old(State()), StartSend(id, data), true)
      ensures ok <==>
                && id in old(handles) && |data| <= 255
                && id in old(bus.nodes) && old(bus.nodes)[id].txBusyUntilMs <= nowMs
      ensures nowMs == old(nowMs) && handles == old(handles) && (!ok ==> bus.State() == old(bus.State()))
      ensures ok ==>
                && |bus.transmissions| == |old(bus.transmissions)| + 1 && old(bus.transmissions) <= bus.transmissions
                && var sent := bus.transmissions[|old(bus.transmissions)|].event;
                   && sent.nodeId == id && sent.data == data && sent.timestampMs == nowMs
                   && sent.airtimeMs == Airtime.AirtimeMs(|data|, handles[id].channel.spreadingFactor,
                                                          handles[id].channel.bandwidthKhz,
                                                          handles[id].channel.codingRate, 8, true)
    {
      NothingLowered(bus.State());
      if id !in handles || |data| > 255 {
        return false;
      }
      var h := handles[id];
      var ch := h.channel;
      var airtimeMs := Airtime.PacketAirtime(|data|, ch.spreadingFactor, ch.bandwidthKhz, ch.codingRate);
      var tx := TxEvent(id, h.channel, data, bus.config.milliwatts(h.txPowerDbm), airtimeMs, (0.0, 0.0), nowMs);
      RunOne(bus.State(), Op.Broadcast(tx), true);
      ok := bus.Broadcast(tx);
    }

    method RadioRecvRaw(id: NodeId, maxLen: int) returns (r: Received)
      modifies this, bus
      ensures State() == BridgeStep(old(State()), RecvRaw(id, maxLen), true)
      ensures r == RecvResult(old(State()), id, maxLen)
    {
      NothingLowered(bus.State());
      if id !in handles {
        return Received(0, false, None);
      }
      var h := handles[id];
      if maxLen <= 0 {
        assert handles[id := h] == handles;
        return Received(0, false, None);
      }
      var pending := h.pending;
      if pending == [] {
        RunOne(bus.State(), Op.Poll(id), true);
        pending := bus.Poll(id);
      }
      if pending == [] {
        handles := handles[id := h.(pending := pending)];
        return Received(0, false, None);
      }
      var packet := pending[0];
      if |packet.data| > maxLen {
        handles := handles[id := h.(pending := pending)];
        return Received(-|packet.data|, true, None);
      }
      handles := handles[id := h.(pending := pending[1..], lastRx := Some((packet.rssi, packet.snr)))];
      return Received(|packet.data|, false, Some(packet));
    }

    method RadioSetPosition(id: NodeId, position: Position)
      modifies this, bus
      ensures State() == BridgeStep(old(State()), SetPosition(id, position), true)
      ensures nowMs == old(nowMs) && handles == old(handles)
      ensures if id in handles && -90.0 <= position.0 <= 90.0 && -180.0 <= position.1 <= 180.0
              then id in bus.nodes ==> bus.nodes[id].front.position == position
              else bus.State() == old(bus.State())
    {
      NothingLowered(bus.State());
      if id in handles && ValidPosition(position) {
        RunOne(bus.State(), UpdatePosition(id, position), true);
        bus.UpdateNodePosition(id, position);
      }
    }

    method RadioSetDio2Config(id: NodeId, asRfSwitch: bool)
      modifies this, bus
      ensures State() == BridgeStep(old(State()), SetDio2Config(id, asRfSwitch), true)
      ensures nowMs == old(nowMs) && handles == old(handles)
      ensures if id in handles then id in bus.nodes ==> bus.nodes[id].front.dio2 == asRfSwitch
              else bus.State() == old(bus.State())
    {
      NothingLowered(bus.State());
      if id in handles {
        RunOne(bus.State(), SetDio2(id, asRfSwitch), true);
        bus.SetDio2AsRfSwitch(id, asRfSwitch);
      }
    }

    method RadioDestroy(id: NodeId)
      modifies this, bus
      ensures State() == BridgeStep(old(State()), Destroy(id), true)
      ensures nowMs == old(nowMs) && handles == old(handles) - {id}
      ensures bus.nodes.Keys == if id in old(handles) then old(bus.nodes).Keys - {id} else old(bus.nodes).Keys
      ensures bus.transmissions == old(bus.transmissions)
    {
      NothingLowered(bus.State());
      if id in handles {
        RunOne(bus.State(), Unregister(id), true);
        bus.UnregisterNode(id);
      }
      handles := handles - {id};
    }

    method RadioIsSendComplete(id: NodeId) returns (done: bool)
      ensures done <==> id in handles && id in bus.nodes && bus.nodes[id].txBusyUntilMs <= nowMs
    {
      if id !in handles {
        return false;
      }
      done := bus.SendComplete(id, nowMs);
    }

    method Tick(now: U64)
      modifies this, bus
      ensures State() == BridgeStep(old(State()), BusTick(now), true)
      ensures nowMs == Max(old(nowMs), now) && handles == old(handles)
    {
      var monotonicNowMs := Max(nowMs, now);
      nowMs := monotonicNowMs;
      RunOne(bus.State(), Op.Tick(monotonicNowMs), true);
      bus.Tick(monotonicNowMs);
    }

    method BoardDeepSleep(id: NodeId, sleepSecs: U32) returns (wakeAtMs: U64)
      modifies this, bus
      ensures State() == BridgeStep(old(State()), DeepSleep(id, sleepSecs), true)
      ensures wakeAtMs == nowMs == Min(old(nowMs) + sleepSecs * 1000, U64_MAX) && handles == old(handles)
    {
      ghost var s := bus.State();
      ghost var x, z := SetReceiveEnabled(id, false), SetReceiveEnabled(id, true);
      ghost var y := Op.Tick(WakeAt(State(), sleepSecs));
      wakeAtMs := SaturatingAdd(nowMs, sleepSecs * 1000);
      bus.SetNodeReceiveEnabled(id, false);
      bus.Tick(wakeAtMs);
      nowMs := wakeAtMs;
      bus.SetNodeReceiveEnabled(id, true);
      RunThree(s, x, y, z, true);
    }
  }

  lemma NothingLowered(s: Bus)
    ensures Run(s, [], true) == s
  {}
}
