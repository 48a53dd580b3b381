/**
 The entities of the virtual LoRa network.

 Power is in linear milliwatts, so that adding decibels becomes multiplying, `sum_dbm` becomes a
 plain sum, and "more than 6 dB above" becomes "more than `capture` times". A missing path gain
 stands for every link whose RSSI is not finite.
 */
module RadioTypes {
  import opened Prelude

  type NodeId = string
  type Position = (real, real)

  /** A ratio of powers greater than one, such as the capture threshold of 6 dB. */
  type AboveOne = x: real | x > 1.0 witness 2.0

  datatype RadioChannel = RadioChannel(freqMhz: real, bandwidthKhz: U16, spreadingFactor: Byte, codingRate: Byte)

  datatype TxEvent = TxEvent(
    nodeId: NodeId,
    channel: RadioChannel,
    data: seq<Byte>,
    txPower: Positive,
    airtimeMs: U32,
    position: Position,
    timestampMs: U64)

  datatype RxPacket = RxPacket(
    fromNode: NodeId,
    data: seq<Byte>,
    rssi: Positive,
    snr: Positive,
    channel: RadioChannel,
    timestampMs: U64)

  /** What the propagation model, the SX1262 data sheet and the bus configuration fix. */
  datatype Config = Config(
    gain: (Position, Position, real) -> Option<Positive>,  // from, to, frequency; both antennas included
    systemGain: Positive,                                  // what feedline and enclosure leave over
    milliwatts: real -> Positive,                          // the power of a level in dBm
    sensitivity: RadioChannel -> Option<Positive>,         // None: nothing is loud enough
    noise: U16 -> Positive,                                // thermal noise for a bandwidth in kHz
    capture: AboveOne,                                     // 6 dB
    txLoss: Positive,                                      // 16 dB, DIO2 switch off
    rxLoss: Positive,                                      // 3 dB, DIO2 switch off
    toleranceKhz: real,
    dio2Default: bool)

  /** The part of a node that decides how it sends and hears. */
  datatype FrontEnd = FrontEnd(
    position: Position,
    txPower: Positive,
    channel: RadioChannel,
    rxEnabled: bool,
    dio2: bool)

  datatype Node = Node(front: FrontEnd, inbox: seq<RxPacket>, txBusyUntilMs: U64)

  datatype Scheduled = Scheduled(event: TxEvent, finalized: bool)

  datatype Bus = Bus(nodes: map<NodeId, Node>, transmissions: seq<Scheduled>, config: Config)

  /** One call on the bus. */
  datatype Op =
    | Register(id: NodeId, position: Position, txPower: Positive, channel: RadioChannel)
    | Unregister(id: NodeId)
    | UpdatePosition(id: NodeId, position: Position)
    | SetReceiveEnabled(id: NodeId, enabled: bool)
    | SetDio2(id: NodeId, asRfSwitch: bool)
    | Configure(config: Config)
    | Broadcast(tx: TxEvent)
    | Poll(id: NodeId)
    | Tick(nowMs: U64)

  /** What a call tells its caller. */
  datatype Reply = Silent | Accepted(ok: bool) | Packets(packets: seq<RxPacket>)
}
