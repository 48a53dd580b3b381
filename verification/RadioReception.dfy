/** Exactly when a packet is received, and how clearly, in terms of the powers at the receiver's antenna. */
module RadioReception {
  import opened Prelude
  import opened RadioTypes
  import opened RadioSpec
  import opened Sequences
  import opened RadioPruning

  // ----- being on the air together

  /** The transmission is on the air in millisecond `t`; time itself ends at the largest 64-bit number. */
  predicate OnAir(e: TxEvent, t: int) {
    e.timestampMs <= t < e.timestampMs + e.airtimeMs && t < U64_MAX
  }

  /** MAIN: two transmissions overlap if and only if there is a millisecond in which both are on the air. */
  lemma OverlapIsSimultaneity(a: TxEvent, b: TxEvent)
    ensures Overlap(a, b) <==> exists t :: OnAir(a, t) && OnAir(b, t)
  {
    if Overlap(a, b) {
      var t := Max(a.timestampMs, b.timestampMs);
      assert OnAir(a, t) && OnAir(b, t);
    }
  }

  /** A transmission is over, and due for delivery, exactly when it is in the air in no millisecond from then on. */
  lemma EndedIsSilence(e: TxEvent, now: U64)
    requires e.airtimeMs > 0 && e.timestampMs < U64_MAX
    ensures TransmissionEnd(e) <= now <==> e.timestampMs < now && forall t :: now <= t ==> !OnAir(e, t)
  {
    if e.timestampMs < now < TransmissionEnd(e) {
      assert OnAir(e, now);
    }
  }

  // ----- interferers

  /** `o` is another transmission, near enough in frequency, that reaches the antenna of `f`. */
  predicate Interferes(c: Config, e: TxEvent, f: FrontEnd, o: TxEvent) {
    && !(o.nodeId == e.nodeId && o.timestampMs == e.timestampMs && o.channel == e.channel)
    && f.channel.freqMhz - c.toleranceKhz / 1000.0 <= o.channel.freqMhz <= f.channel.freqMhz + c.toleranceKhz / 1000.0
    && ReceivedPower(c, o, f).Some?
  }

  /** The powers of those among `over` that interfere. */
  function Levels(c: Config, e: TxEvent, f: FrontEnd, over: seq<TxEvent>): seq<Positive> {
    if over == [] then []
    else
      var before, o := over[..|over| - 1], over[|over| - 1];
      Levels(c, e, f, before) + if Interferes(c, e, f, o) then [ReceivedPower(c, o, f).value] else []
  }

  function Sum(levels: seq<Positive>): (sum: real)
    ensures sum >= 0.0 && (sum == 0.0 <==> levels == [])
  {
    if levels == [] then 0.0 else Sum(levels[..|levels| - 1]) + levels[|levels| - 1]
  }

  /** Two frequencies interfere exactly when they are at most the tolerance apart. */
  lemma FrequencyWindow(a: real, b: real, toleranceKhz: real)
    ensures FrequencyOverlaps(a, b, toleranceKhz) <==> b - toleranceKhz / 1000.0 <= a <= b + toleranceKhz / 1000.0
  {}

  lemma {:induction false} InterferenceIsSum(c: Config, e: TxEvent, f: FrontEnd, over: seq<TxEvent>)
    ensures Interference(c, e, f, over) == Sum(Levels(c, e, f, over))
  {
    hide ReceivedPower, FrequencyOverlaps;
    if over != [] {
      var before, o := over[..|over| - 1], over[|over| - 1];
      InterferenceIsSum(c, e, f, before);
      FrequencyWindow(o.channel.freqMhz, f.channel.freqMhz, c.toleranceKhz);
      var levels := Levels(c, e, f, before);
      if Interferes(c, e, f, o) {
        var q := ReceivedPower(c, o, f).value;
        assert (levels + [q])[..|levels|] == levels;
      } else {
        assert levels + [] == levels;
      }
    }
  }

  // ----- reception

  /** Awake, tuned, somebody else, and sending nothing during `over`. */
  predicate Listens(e: TxEvent, id: NodeId, f: FrontEnd, over: seq<TxEvent>) {
    id != e.nodeId && f.rxEnabled && f.channel == e.channel && forall o :: o in over ==> o.nodeId != id
  }

  /** The signal is not below the sensitivity of the receiver. */
  predicate LoudEnough(c: Config, e: TxEvent, f: FrontEnd) {
    && ReceivedPower(c, e, f).Some? && c.sensitivity(e.channel).Some?
    && c.sensitivity(e.channel).value <= ReceivedPower(c, e, f).value
  }

  /**
   MAIN: a packet is received if and only if the receiver listens, the signal is loud enough, and either nothing
   interferes or the signal is more than `capture` times the sum of all interferers. It is then reported at its own
   strength, with an SNR that is its strength over noise and interference together.
   */
  lemma ReceivedIff(c: Config, e: TxEvent, id: NodeId, f: FrontEnd, over: seq<TxEvent>)
    ensures
      var levels := Levels(c, e, f, over);
      && (Receive(c, e, id, f, over).Some?
          <==> && Listens(e, id, f, over) && LoudEnough(c, e, f)
               && (levels == [] || ReceivedPower(c, e, f).value > c.capture * Sum(levels)))
      && (Receive(c, e, id, f, over).Some? ==>
            var packet := Receive(c, e, id, f, over).value;
            && packet.rssi == ReceivedPower(c, e, f).value
            && packet.snr * (c.noise(e.channel.bandwidthKhz) + Sum(levels)) == packet.rssi)
  {
    hide ReceivedPower, Interference, Levels, Sum, Sending;
    SendingIn(id, over);
    InterferenceIsSum(c, e, f, over);
    if Receive(c, e, id, f, over).Some? {
      SinrTimes(ReceivedPower(c, e, f).value, c.noise(e.channel.bandwidthKhz), Interference(c, e, f, over));
    }
  }

  lemma SinrTimes(p: Positive, noise: Positive, interference: real)
    requires interference >= 0.0
    ensures Sinr(p, noise, interference) * (noise + interference) == p
  {}

  /** Alone on its frequency, a loud enough signal is received by everyone who listens. */
  lemma AloneIsReceived(c: Config, e: TxEvent, id: NodeId, f: FrontEnd, over: seq<TxEvent>)
    requires Listens(e, id, f, over) && LoudEnough(c, e, f)
    requires forall o :: o in over ==> !Interferes(c, e, f, o)
    ensures Receive(c, e, id, f, over).Some?
    ensures Receive(c, e, id, f, over).value.snr * c.noise(e.channel.bandwidthKhz) == ReceivedPower(c, e, f).value
  {
    hide Receive, Interferes, ReceivedPower;
    NoLevels(c, e, f, over);
    ReceivedIff(c, e, id, f, over);
  }

  lemma {:induction false} NoLevels(c: Config, e: TxEvent, f: FrontEnd, over: seq<TxEvent>)
    requires forall o :: o in over ==> !Interferes(c, e, f, o)
    ensures Levels(c, e, f, over) == []
  {
    if over != [] {
      NoLevels(c, e, f, over[..|over| - 1]);
      assert over[|over| - 1] in over;
    }
  }

  /** Against one interferer, a loud enough signal is received exactly if it is more than `capture` times as strong. */
  lemma OneInterferer(c: Config, e: TxEvent, id: NodeId, f: FrontEnd, o: TxEvent)
    requires Listens(e, id, f, [e, o]) && LoudEnough(c, e, f) && Interferes(c, e, f, o)
    ensures
      var p, q := ReceivedPower(c, e, f).value, ReceivedPower(c, o, f).value;
      && (Receive(c, e, id, f, [e, o]).Some? <==> p > c.capture * q)
      && (Receive(c, e, id, f, [e, o]).Some? ==>
            Receive(c, e, id, f, [e, o]).value.snr * (c.noise(e.channel.bandwidthKhz) + q) == p)
  {
    hide Receive, ReceivedPower;
    var q := ReceivedPower(c, o, f).value;
    assert [e, o][..1] == [e] && [e][..0] == [];
    assert Levels(c, e, f, [e]) == [] && Levels(c, e, f, [e, o]) == [q];
    assert [q][..0] == [] && Sum([q]) == q;
    ReceivedIff(c, e, id, f, [e, o]);
  }
}
