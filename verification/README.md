# Mycelium emulator core: verified models

Mycelium emulates mesh radio devices (LilyGo T-Deck class boards) on a host. This project models the parts of
its core where state, time and arithmetic meet, and proves what those parts are for:

- **The radio bus** (`Radio*.dfy`). A transmission is scheduled, ends when its airtime is over, and is then
  delivered to every receiver that was tuned, awake, not sending, loud enough and not drowned. Each tick throws
  away the collision history that the bus believes it no longer needs. `RadioSpec` gives the meaning of each call
  as a function on states, with a switch that turns pruning off; `RadioBusClass` is the bus with its loops and
  fields, each method proved equal to that function; the other modules prove laws over whole runs: pruning cannot be
  observed, tick granularity does not matter, capture is exclusive, an extra transmitter never helps, every
  transmission is resolved exactly once, and exactly when a packet is received.
- **The bridge** (`Bridge*.dfy`). The calls firmware makes, lowered to bus calls on a clock that
  never goes back, with the pending queue in front of the inbox. The timing premise of the pruning theorem is
  discharged here, and a packet is followed from one radio to the other.
- **The GT911 touch controller and the Wire bus** (`Touch*.dfy`, `Gt911.dfy`, `Wire.dfy`). A fault injector that
  spreads failures evenly, a sticky watchdog, a latch that reports a phantom point, and a register map that firmware
  parses back.
- **The two display paths** (`Display*.dfy`). Copying rows into a framebuffer, and driving an ST7789 over SPI: the
  second leaves the first turned by 180 degrees.
- **Storage** (`FileStore.dfy`, `InstanceNames.dfy`, `Spiffs*.dfy`, `Sd*.dfy`). SPIFFS capacity and wear, SD stream
  handles over whole-file writes, and the names of instance directories.
- **Arithmetic** (`Airtime.dfy`, `Adc.dfy`, `GpxReplay.dfy`). LoRa time on air in integers, inverting the ADC curve,
  and replaying a GPX track.

Conventions. Code that changes fields or arrays in place is a class or an array method whose contract ties the new
state to a specification function; the laws are lemmas about that function. `U16`, `U32`, `U64` and `Byte` are
bounded integers and saturation is written out. Floating point is modelled by real numbers. Radio power is in linear
milliwatts: a sum of decibels is a product, `sum_dbm` is a plain sum and "more than 6 dB stronger" is "more than
`capture` times as strong" with `capture` above one. Path gain, sensitivity, thermal noise and the two switch losses
are arbitrary parameters of the bus configuration. A missing gain stands for a link whose RSSI is not finite.

Where the code does not do everything a reader might expect, the model follows the code and the exact condition is proved:

- `same_transmission` identifies a transmission by sender, start and channel. A send of a node that stays registered can
  be confused with a later one if and only if it has no airtime or starts at the last millisecond of 64-bit time
  (`ConfusableIff`). Sends that come through the bridge last 7 to 14033 ms, so those of a radio that is not destroyed are
  confused only once the clock has run out (`SendsAreToldApart`). Destroying and creating a radio again resets its busy
  time, and then two sends in one millisecond are confused (`RecreatedRadioIsConfused`).
- A broadcast can show that the bus prunes if and only if it is stamped before the latest tick (`StampIsSafeIff`). The
  bridge stamps every send with its own clock, so it never happens there (`LowerIsTimely`).
- Capture is exclusive on every bus of a given frequency tolerance if and only if the tolerance is not negative
  (`CaptureNeedsTolerance`). The setter refuses negative tolerances; `with_config` does not.
- The empty instance id and the id made of one NUL byte share the directory `%00`; no other two ids collide
  (`DirectoriesAreIsolated`).
- A SPIFFS partition of u64::MAX bytes takes every well-named write, because the sums it is compared with saturate
  (`LargestPartitionTakesAll`). Formatting mounts a device without blocks, which wears nothing (`NoBlocksNoWear`).

## Model

| member | source | states |
|---|---|---|
| RadioPruning.PruningIsInvisible | core/radio_bus/src/bus.rs:214-250 | in every run whose broadcasts are not stamped before a time already ticked, the pruning bus and the bus that drops nothing hold the same nodes and inboxes (packets, RSSI, SNR, order) and gave the same answer to every call |
| RadioPruning.RunAgrees | core/radio_bus/src/bus.rs:214-250 | the invariant behind it, over whole runs and from any two agreeing buses: unfinished events agree, and each overlaps the same transmissions in both |
| RadioPruning.StepAgrees | core/radio_bus/src/bus.rs:172-250 | every single call keeps the pruned and the full bus in agreement and moves the clock the same way |
| RadioPruning.OverlappingRetain | core/radio_bus/src/bus.rs:236-249 | pruning keeps exactly what an unfinished event can still collide with |
| RadioPruning.FreshOverlapsUnfinished | core/radio_bus/src/bus.rs:357-362 | an event that starts after the last tick cannot overlap a finalized one |
| RadioPruning.KeptExactly | core/radio_bus/src/bus.rs:236-249 | a tick keeps a transmission if and only if it is unfinished or overlaps an unfinished one |
| RadioPruning.OldIsForgotten | core/radio_bus/src/bus.rs:236-249 | so pruning does drop things: nothing is kept that ended the longest airtime on the list, or more, before the tick |
| RadioLimits.LateBroadcastSeesPruning | core/radio_bus/src/bus.rs:236-249 | for every stamp before every tick time there is a run with a broadcast so stamped in which the pruning bus delivers a packet that the full bus rejects |
| RadioLimits.StampIsSafeIff | core/radio_bus/src/bus.rs:214-250 | with the latest tick at some clock, no history before and no continuation after a broadcast shows pruning, in any inbox or answer, if and only if its stamp is not before the clock |
| RadioLimits.CaptureNeedsTolerance | core/radio_bus/src/bus.rs:109-113 | for every frequency tolerance: on all buses of that tolerance no two overlapping transmissions of different nodes reach a pinned receiver, if and only if the tolerance is not negative |
| RadioGranularity.TickTwice | core/radio_bus/src/bus.rs:214-342 | from any state, ticking to `a` and then to `b >= a` leaves the same transmissions, flags and nodes as ticking to `b`, and the same multiset of packets in each inbox |
| RadioGranularity.TickScheduleIrrelevant | core/radio_bus/src/bus.rs:214-342 | any non-empty schedule of ticks, rising or not, is one tick to its latest time, up to the order of packets inside an inbox |
| RadioGranularity.TickBack | core/radio_bus/src/bus.rs:214-250 | ticking back to an earlier time changes nothing at all |
| RadioCapture.CaptureIsExclusive | core/radio_bus/src/bus.rs:292-322 | over a whole timely run, a receiver whose position and DIO2 setting stay put and whose bus keeps its configuration never receives two overlapping transmissions of different nodes, even if they end in different ticks |
| RadioCapture.RunExclusive | core/radio_bus/src/bus.rs:252-342 | the run invariant: whatever was delivered beat every rival that overlapped it, including rivals finalized long ago |
| RadioCapture.LandingBeats | core/radio_bus/src/bus.rs:292-322 | a delivered transmission is more than `capture` times as strong as each overlapping one on the receiver's channel, and its receiver sent nothing meanwhile |
| RadioCapture.LandedIsHeard | core/radio_bus/src/bus.rs:331-340 | the list of delivered events and the list of packets put in the inbox correspond one to one, in order |
| RadioCapture.ReceptionsAgree | core/radio_bus/src/bus.rs:214-342 | the pruning bus delivers exactly the events the full bus delivers, in the same order |
| RadioInterference.InterferenceNeverHelps | core/radio_bus/src/bus.rs:252-342 | take out of a timely run every call by or for one fresh node: at each other receiver, the packets of the other senders in the busy run are a subsequence of those in the quiet run, equal in everything but an SNR that is no higher |
| RadioInterference.RunBusier | core/radio_bus/src/bus.rs:172-342 | the run invariant relating the busy and the quiet bus: same front ends and busy times, same transmissions but for those of the fresh node, fainter inboxes |
| RadioInterference.ReceiveWithout | core/radio_bus/src/bus.rs:252-342 | a packet received amid some overlapping transmissions is also received, at least as clearly, when those of one other node are taken away |
| RadioInterference.LessInterference | core/radio_bus/src/bus.rs:379-386 | taking transmissions away never raises the summed interference |
| RadioBusy.OneTransmissionAtATime | core/radio_bus/src/bus.rs:172-202 | while a node stays registered, its accepted transmissions are pairwise disjoint, and `is_send_complete` holds at a time exactly when all of them (and any before the run) have ended by then |
| RadioBusy.SameTransmissionIsIdentity | core/radio_bus/src/bus.rs:364-368 | two accepted transmissions of a node that stays registered are taken for the same one if and only if the first starts at the last millisecond of u64 time, or has no airtime and the second starts with it |
| RadioBusy.ConfusableIff | core/radio_bus/src/bus.rs:172-196 | over runs: an accepted send can be followed, with its node registered throughout, by a later accepted send taken for it, if and only if it has no airtime or starts at the last millisecond |
| RadioBusy.SendAgain | core/radio_bus/src/bus.rs:172-196 | a send that ends when it starts leaves its node idle, so the very same send is accepted again, in any state |
| RadioBusy.ZeroAirtimeIsAmbiguous | core/radio_bus/src/bus.rs:364-368 | the first exception is real: two accepted sends without airtime that `same_transmission` cannot tell apart |
| RadioBusy.LastMillisecondIsAmbiguous | core/radio_bus/src/bus.rs:351-355 | so is the second: two accepted sends with airtime at the last millisecond, whose end saturates |
| RadioBusy.SentIsOnAir | core/radio_bus/src/bus.rs:172-196 | the accepted broadcasts of a node are exactly its events on the transmission list that drops nothing, in order |
| RadioResolution.ResolvedExactlyOnce | core/radio_bus/src/bus.rs:214-234 | over any run, what was unfinished before plus what was put on air equals, as multisets, what was resolved plus what is still unfinished: nothing is resolved twice or lost, pruning or not |
| RadioResolution.TickResolvesInTime | core/radio_bus/src/bus.rs:214-234 | a tick resolves no transmission before its end and leaves none whose end has come |
| RadioResolution.PacketTells | core/radio_bus/src/bus.rs:252-342 | a received packet carries the sender's name, data and registered channel, the time the transmission ended, and a strength made of the sender's power, the switch losses at both ends and the path gain; its receiver was awake, tuned and silent |
| RadioReception.ReceivedIff | core/radio_bus/src/bus.rs:252-342 | a packet is received if and only if the receiver is awake, tuned, another node and sending nothing meanwhile, the signal is at or above its sensitivity, and nothing interferes or the signal is more than `capture` times the sum of all interferers; its SNR times noise plus interference is then its strength |
| RadioReception.AloneIsReceived | core/radio_bus/src/bus.rs:252-342 | with nothing else near its frequency, a loud enough packet is received by everyone who listens, at its strength over the noise |
| RadioReception.OneInterferer | core/radio_bus/src/bus.rs:292-322 | against one interferer a loud enough packet is received if and only if it is more than `capture` times as strong; the interferer enters the SNR |
| RadioReception.InterferenceIsSum | core/radio_bus/src/bus.rs:379-386 | the interference is the sum of the powers of exactly those overlapping transmissions that are other ones, near enough in frequency and within reach |
| RadioReception.FrequencyWindow | core/radio_bus/src/bus.rs:370-372 | two frequencies interfere exactly when they are at most the tolerance, in kHz, apart |
| RadioReception.OverlapIsSimultaneity | core/radio_bus/src/bus.rs:351-362 | two transmissions overlap if and only if there is a millisecond in which both are on the air |
| RadioReception.EndedIsSilence | core/radio_bus/src/bus.rs:351-355 | a transmission has ended exactly when it is on the air in no later millisecond |
| RadioBusClass.RadioBus.constructor | core/radio_bus/src/bus.rs:79-89 | an empty bus with the given configuration |
| RadioBusClass.RadioBus.RegisterNode | core/radio_bus/src/bus.rs:115-134 | the node appears awake, idle and with an empty inbox, replacing any node of that name; nothing else changes |
| RadioBusClass.RadioBus.UnregisterNode | core/radio_bus/src/bus.rs:136-138 | the node goes, its transmissions stay on the air |
| RadioBusClass.RadioBus.UpdateNodePosition | core/radio_bus/src/bus.rs:140-144 | moves a known node and leaves every event on the air where it was sent |
| RadioBusClass.RadioBus.SetNodeReceiveEnabled | core/radio_bus/src/bus.rs:149-156 | switches the receiver; switching off drops the inbox |
| RadioBusClass.RadioBus.SetDio2AsRfSwitch | core/radio_bus/src/bus.rs:158-162 | sets the antenna switch of a known node only |
| RadioBusClass.RadioBus.SetPropagationModel | core/radio_bus/src/bus.rs:99-101 | only the path gain changes |
| RadioBusClass.RadioBus.SetSystemLoss | core/radio_bus/src/bus.rs:103-107 | a finite loss of at least 0 dB is taken over, any other ignored; nothing else changes |
| RadioBusClass.RadioBus.SetFrequencyToleranceKhz | core/radio_bus/src/bus.rs:109-113 | a finite tolerance that is not negative is taken over, any other ignored, so a non-negative tolerance stays so |
| RadioBusClass.RadioBus.Broadcast | core/radio_bus/src/bus.rs:172-196 | accepted exactly when the sender is known and idle; then it is busy until the saturating end and the event goes on air stamped with its registered position, channel and power; otherwise nothing changes |
| RadioBusClass.RadioBus.SendComplete | core/radio_bus/src/bus.rs:198-202 | true exactly for a known node whose busy time is over |
| RadioBusClass.RadioBus.Poll | core/radio_bus/src/bus.rs:205-210 | hands over the whole inbox in order and empties it |
| RadioBusClass.RadioBus.Tick | core/radio_bus/src/bus.rs:214-250 | the marking, delivering and retaining loops together do one specified tick: everything due is delivered against the whole list as it stood, then pruned; inboxes only grow and nothing else about a node changes |
| RadioBusClass.RadioBus.DeliverCompleted | core/radio_bus/src/bus.rs:252-342 | the loop over nodes appends to each inbox the packet that node receives from the event, if any (see `ReceivedIff`), and changes nothing else, whatever the order of nodes |
| RadioBusClass.DeliverOneMore | core/radio_bus/src/bus.rs:232-235 | delivering events one call at a time equals delivering the whole list at once |
| Airtime.AirtimeIsExact | core/radio_bus/src/propagation.rs:188-219 | for every supported setting the integer code equals the rational time on air of section 4.1.1.7 of the Semtech SX1276 data sheet, with no rounding in microseconds |
| Airtime.AirtimeMonotone | core/radio_bus/src/propagation.rs:188-241 | a longer packet is never on the air for less time, in microseconds or in rounded, saturated milliseconds, whatever the settings |
| Airtime.MillisecondsRoundUp | core/radio_bus/src/propagation.rs:222-241 | milliseconds are the least number that covers the microseconds, or u32::MAX if there are more |
| Airtime.UnsupportedIsZero | core/radio_bus/src/propagation.rs:196-202 | a spreading factor, bandwidth or coding rate the SX1262 does not have gives zero airtime |
| Airtime.AirtimeFits | core/radio_bus/src/propagation.rs:215-218 | below 2^31 bytes the product of quarter symbols and symbol time, the largest intermediate value, fits in u64 |
| Airtime.PacketAirtimeBounds | core/radio_bus/src/propagation.rs:222-241 | packets of up to 255 bytes with preamble 8 and explicit header take 7 to 14033 ms, and both bounds are attained |
| BridgeSpec.LowerIsTimely | core/bridge/src/ffi.rs:2640-2678 | whatever firmware calls, the bus calls it leads to are in time and the bridge clock never goes back and stays equal to the latest tick |
| BridgeSpec.BridgePruningIsInvisible | core/bridge/src/ffi.rs:2855-2861 | over any sequence of firmware calls, with no premise on timing, a bridge on the pruning bus and one on the full bus have the same nodes, clock, handles and pending queues |
| BridgeSpec.ReceiveConservation | core/bridge/src/ffi.rs:2691-2728 | while its radio is not re-created, destroyed or put to deep sleep, the packets popped by a node, then its pending queue, then its bus inbox are exactly what it had before followed by what was delivered to it, in order, whatever buffer sizes it offers |
| BridgeSpec.CallConserves | core/bridge/src/ffi.rs:2691-2728 | the same balance for each single call |
| BridgeReceive.HandsOutIff | core/bridge/src/ffi.rs:2691-2728 | a call hands out the oldest waiting packet, and notes its strength and SNR, if and only if the buffer has room for it; otherwise it returns minus its length, or zero without packet or buffer, and everything keeps waiting |
| BridgeReceive.RecvDrains | core/bridge/src/ffi.rs:2691-2728 | as many calls with a 255-byte buffer as there are waiting packets of at most that size hand out all of them, pending and inbox, in order |
| BridgeReceive.RecvInOrder | core/bridge/src/ffi.rs:2691-2728 | after any smaller number of such calls the oldest packets are out and the rest still waits |
| BridgeReceive.QuietAirDelivers | core/bridge/src/ffi.rs:2640-2861 | end to end: over quiet air, a packet sent by an idle radio waits behind the others at a radio within reach from the first tick on that its airtime has passed, with sender, data and time of arrival, and before that nothing has changed |
| BridgeReceive.SideBySide | core/bridge/src/ffi.rs:2640-2678 | there are such radios: two side by side, for every packet and every time not at the end of the clock |
| BridgeSpec.DeepSleepDrops | core/bridge/src/ffi.rs:1563-1602 | a deep sleep empties the bus inbox, hears nothing meanwhile, wakes with the receiver on at the saturated wake time, and keeps the pending queue |
| BridgeSpec.BridgeAirtimes | core/bridge/src/ffi.rs:2640-2678 | everything firmware ever puts on the air lasts 7 to 14033 ms |
| BridgeSpec.PruningForgets | core/bridge/src/ffi.rs:2855-2861 | after any calls and then a tick or a deep sleep, every transmission the bus remembers ended less than 14033 ms before the clock, or has yet to end |
| BridgeSpec.StaysRegistered | core/bridge/src/ffi.rs:2569-2631 | a live radio cannot be created again, so no call but its own destruction registers or unregisters its node |
| BridgeSpec.BusFollows | core/bridge/src/ffi.rs:2569-2861 | the bus of a bridge is what its lowered calls make of it, over any sequence of calls |
| BridgeSpec.SendsAreToldApart | core/radio_bus/src/bus.rs:364-368 | while a radio is not destroyed, two of its accepted sends are taken for the same one if and only if the first was made when the clock had run out; before that they never are |
| BridgeSpec.RecreatedRadioIsConfused | core/bridge/src/ffi.rs:2842-2851 | for every idle radio: send, destroy, create again, send, all in one millisecond, leaves two unfinished transmissions taken for the same one |
| BridgeClass.RadioBridge.RadioCreate | core/bridge/src/ffi.rs:2569-2631 | refuses unsupported settings, a power outside -17 to 22 dBm, a bad position, an empty id and one in use; otherwise registers the node and starts an empty pending queue |
| BridgeClass.RadioBridge.RadioStartSend | core/bridge/src/ffi.rs:2640-2678 | accepted exactly for a known radio, at most 255 bytes and an idle sender; then one event with that sender, data and airtime goes on air at the bridge's own clock, and otherwise nothing changes |
| BridgeClass.RadioBridge.RadioRecvRaw | core/bridge/src/ffi.rs:2691-2728 | refills the pending queue from the bus when it has run dry and answers as `HandsOutIff` says |
| BridgeClass.RadioBridge.RadioIsSendComplete | core/bridge/src/ffi.rs:2780-2786 | true exactly for a known radio that is idle at the bridge's clock |
| BridgeClass.RadioBridge.RadioSetPosition | core/bridge/src/ffi.rs:2792-2799 | a valid position moves the radio; an invalid one changes nothing |
| BridgeClass.RadioBridge.RadioSetDio2Config | core/bridge/src/ffi.rs:2811-2819 | sets the antenna switch of that radio only |
| BridgeClass.RadioBridge.RadioDestroy | core/bridge/src/ffi.rs:2842-2851 | the handle, its pending packets and the node go together |
| BridgeClass.RadioBridge.Tick | core/bridge/src/ffi.rs:2855-2861 | ticks the bus to the later of the two clocks; the clock never goes back |
| BridgeClass.RadioBridge.BoardDeepSleep | core/bridge/src/ffi.rs:1563-1602 | receiver off, one tick to the wake time, receiver on again; returns the new clock |
| TouchFaults.FailuresAreExact | core/input/src/gt911.rs:395-414 | after any run at rate p, exactly floor(n*p/100) of the n status reads failed, whatever happened in between |
| TouchFaults.ExactPercentage | core/input/src/gt911.rs:395-414 | any hundred consecutive status reads, wherever they start, contain exactly p failures |
| TouchFaults.WatchdogNeverFires | core/input/src/gt911.rs:395-414 | at a rate of at most 87 no run ever reaches eight failures in a row, so the watchdog stays silent |
| TouchFaults.WatchdogFires | core/input/src/gt911.rs:395-414 | at a rate of at least 88, 25 status reads with a finger down fire it |
| TouchFaults.WatchdogThreshold | core/input/src/gt911.rs:395-414 | both at once: with a finger down for at least 25 reads it has fired if and only if the rate is at least 88 |
| TouchFaults.ConfiguredBySet | core/input/src/gt911.rs:156-161 | setting a rate clamps it to 100 and starts the injector afresh |
| TouchPhantom.FrozenWhileLatched | core/input/src/gt911.rs:211-260 | from the first latched press until the latch is switched off, the reported point never changes, whatever is injected, ticked, read or acknowledged |
| TouchPhantom.FirstPressFreezes | core/input/src/gt911.rs:211-260 | the first press under the latch is the point that freezes |
| TouchPhantom.LatchIsTransparent | core/input/src/gt911.rs:178-200 | after the latch is off, the contact slots and the finger's state equal those of a twin that went through the same run without the latch calls; so do the raw and mapped positions while a finger is down |
| TouchPhantom.LiftedPositionCanDiffer | core/input/src/gt911.rs:178-200 | why only while a finger is down: after a latched press at p, a move to q and a lift, the last raw position is that of p where the twin has q, for all p and q |
| TouchPhantom.FreshIsTwin | core/input/src/gt911.rs:95-120 | a new controller meets the premise |
| TouchFrames.PressShows | core/input/src/gt911.rs:211-260 | an unlatched press shows one contact in slot 0, at x = mouse y and y = 319 - mouse x, each held within the panel, and remembers the raw position; the first press makes a frame ready and starts the stall, a move makes a frame unless stalled |
| TouchFrames.LiftClears | core/input/src/gt911.rs:211-260 | an unlatched lift empties slot 0, ends the stall and makes a frame ready |
| TouchFrames.TickMakesFrame | core/input/src/gt911.rs:288-320 | a tick makes a frame ready exactly if a finger is down, no frame waits, 10 ms have passed since the last one and no stall runs |
| TouchFrames.HeldFingerIsScanned | core/input/src/gt911.rs:288-320 | over any run of ticks with a held finger and no frame waiting, a frame is ready if and only if some tick came 10 ms after the last frame and not before the end of the stall |
| TouchFrames.TickWatchdogs | core/input/src/gt911.rs:288-320 | the frame bit is set exactly more than 250 ms into a longer stall with no frame waiting, the phantom bit exactly when a latched point is older than 10 s; both need a finger down and stay set |
| TouchFrames.StallRunsFromNow | core/input/src/gt911.rs:168-172 | a configured stall runs from now for its length exactly if a finger is down |
| TouchFrames.LatchSwitches | core/input/src/gt911.rs:178-200 | switching on holds the first occupied slot from now; switching off shows what the finger really does in a new frame, if the latch was on |
| TouchFrames.AcknowledgeClears | core/input/src/gt911.rs:351-356 | acknowledging takes away the frame and the interrupt and nothing else |
| TouchRegisters.WindowRoundTrip | core/input/src/gt911.rs:416-455 | with a frame ready, reading 1+8k bytes at 0x814E for the k occupied slots and parsing them gives back those slots, in slot order, with all four fields |
| TouchRegisters.OccupiedInOrder | core/input/src/gt911.rs:416-455 | the contacts reported are exactly the points held in some slot |
| TouchRegisters.OccupiedSplits | core/input/src/gt911.rs:416-455 | and they come in slot order |
| TouchRegisters.NoFrameNoContacts | core/input/src/gt911.rs:416-455 | without a frame the status register reads zero, whatever is in the slots |
| TouchRegisters.ReadsOn | core/input/src/gt911.rs:341-347 | the read goes on exactly while adding the truncated offset to the register does not overflow |
| TouchRegisters.ResolutionRoundTrip | core/input/src/gt911.rs:416-455 | four bytes at 0x8048 are the configured resolution, little-endian |
| TouchFrames.PointInNumbers | core/input/src/gt911.rs:416-455 | the registers of a contact hold track, x, y and size, each word low byte first |
| TouchFrames.ProductId | core/input/src/gt911.rs:416-455 | the four bytes at 0x8140 read "911" and zero |
| Gt911Class.Gt911Controller.constructor | core/input/src/gt911.rs:95-120 | no contact, 320 by 240, nothing injected |
| Gt911Class.Gt911Controller.SetI2cFailureRate | core/input/src/gt911.rs:156-161 | a clamped rate with the accumulator, the count of failures in a row and the watchdog bit cleared |
| Gt911Class.Gt911Controller.SetFrameStallMs | core/input/src/gt911.rs:168-172 | a new stall length, the watchdog bit cleared, and a stall running from now exactly if a finger is down and the length is not zero |
| Gt911Class.Gt911Controller.SetLatch | core/input/src/gt911.rs:178-200 | latching holds the primary point if a finger is down; unlatching restores what the finger really does |
| Gt911Class.Gt911Controller.Inject | core/input/src/gt911.rs:211-260 | a press or lift: portrait swap, clamping, the latch's own point, the frame and the stall |
| Gt911Class.Gt911Controller.Tick | core/input/src/gt911.rs:288-320 | scan frames while a finger is down and no stall runs, and the two timed watchdog bits |
| Gt911Class.Gt911Controller.I2cRead | core/input/src/gt911.rs:336-348 | fills the buffer with consecutive register bytes up to the end of the address space, or with nothing when the injector fails a status read; from register 0 the 16-bit offset wraps and the read never meets the end |
| Gt911Class.Gt911Controller.I2cWrite | core/input/src/gt911.rs:351-356 | only a zero written first to the status register acknowledges the frame |
| Gt911Class.Gt911Controller.FailStatusRead | core/input/src/gt911.rs:395-414 | fails exactly when the accumulator passes 100, and counts failures in a row with a finger down |
| WireClass.WireShim.constructor | core/input/src/wire_shim.rs:52-66 | powered, not begun, no open transmission and both buffers empty |
| WireClass.WireShim.BeginTransmission | core/input/src/wire_shim.rs:140-143 | a new address and an empty transmit buffer |
| WireClass.WireShim.WriteByte | core/input/src/wire_shim.rs:145-154 | queues the byte exactly when a transmission is open, the bus is powered and free and the buffer has room |
| WireClass.WireShim.EndTransmission | core/input/src/wire_shim.rs:156-196 | the result code of every case; exactly the addressed device, if the bus reaches it, gets the bytes, and the other one and the read buffer stay as they were |
| WireClass.WireShim.RequestFrom | core/input/src/wire_shim.rs:198-229 | one polled key from the keyboard at 100 kHz, or all `count` register bytes or none, with one status read counted exactly when the status register was asked; the device not asked stays as it was |
| WireClass.WireShim.Read | core/input/src/wire_shim.rs:231-240 | the next byte, or -1 without power or data |
| WireClass.I2cKeyboard.constructor | core/input/src/i2c_keyboard.rs:41-54 | no keys, no key mode, and the brightness retained for its instance |
| WireClass.I2cKeyboard.WriteTransaction | core/input/src/i2c_keyboard.rs:69-85 | the command is noted; a brightness with its byte sets the backlight and, if persistent, what is retained; the key-mode command sets key mode; no key is lost |
| WireClass.I2cKeyboard.ReadKeyByte | core/input/src/i2c_keyboard.rs:104-109 | the oldest key in key mode, otherwise zero and no key is lost |
| WireClass.ReadContacts | core/input/src/wire_shim.rs:140-240 | firmware's whole transaction: select 0x814E, request, read byte by byte, parse; it recovers every contact and costs one status read |
| WireClass.SelectRegister | core/input/src/wire_shim.rs:140-196 | a two-byte write selects any register and leaves the controller, the keyboard and the read buffer as they were |
| DisplaySpec.ByteOrderRoundTrip | core/display/src/framebuffer.rs:65-103 | converting to wire order and back gives the same bytes, for both host orders |
| DisplaySpec.ConvertedBytes | core/display/src/framebuffer.rs:83-103 | conversion to the same order changes nothing, and to the other one exchanges the two bytes of every pixel |
| DisplaySpec.BlitPixels | core/display/src/framebuffer.rs:15-63 | pixel by pixel: inside the area the flushed pixel, outside it the old one |
| DisplaySpec.BlitShows | core/display/src/framebuffer.rs:15-63 | the same in numbers: pixel (x, y) of the area is number (y - area.y) * area.width + (x - area.x) of the source |
| DisplaySpec.RotatePixels | core/display/src/st7789.rs:168-184 | turning a panel puts pixel (x, y) at (width-1-x, height-1-y) |
| DisplaySpec.RotateTwice | core/display/src/st7789.rs:168-184 | turning twice is the identity |
| DisplaySpec.PanelPixels | core/display/src/st7789.rs:142-184 | pixel by pixel: what a flush shows at (x, y) is stored at (width-1-x, height-1-y), and every pixel of the panel outside the turned area keeps its value |
| DisplaySpec.PanelRefinesDirect | core/display/src/st7789.rs:142-184 | after any sequence of valid flushes the panel memory is the direct framebuffer turned by 180 degrees |
| DisplayClass.ConvertRgb565 | core/display/src/framebuffer.rs:83-103 | none exactly for an odd length; otherwise the loop gives every byte in place when the orders agree and the two bytes of each pixel exchanged when they differ |
| DisplayClass.UpdateRgb565 | core/display/src/framebuffer.rs:15-63 | succeeds exactly for an area inside the screen with matching buffer lengths, then shows the area's pixels there and the old ones elsewhere; otherwise the framebuffer is untouched |
| DisplayClass.WindowRoundTrip | core/display/src/st7789.rs:187-199 | four big-endian bytes encode every valid window |
| DisplayClass.St7789Controller.WireFlush | core/display/src/st7789.rs:142-153 | on a big-endian host the wire bytes are the pixels; on a little-endian one the two bytes of each are exchanged; the window runs from the first to the last column and row, both included |
| DisplayClass.St7789Controller.constructor | core/display/src/st7789.rs:39-55 | a black panel, full window, not initialized, never reset |
| DisplayClass.St7789Controller.SetReset | core/display/src/st7789.rs:57-66 | low clears the set-up and is remembered, high only releases the line |
| DisplayClass.St7789Controller.InitializeTDeck | core/display/src/st7789.rs:69-79 | succeeds exactly when the bus is free and the panel was reset low and released; failing changes nothing |
| DisplayClass.St7789Controller.SetBacklight | core/display/src/st7789.rs:82-84 | the duty only |
| DisplayClass.St7789Controller.WriteCommand | core/display/src/st7789.rs:86-89 | refused without effect while another device owns the bus, which is given back in every case |
| DisplayClass.St7789Controller.ApplyCommand | core/display/src/st7789.rs:116-140 | for each of the six commands, by code: exactly which data is accepted and which register it then sets, windows being big-endian, ordered and within the panel; other codes are accepted without effect, and every command but 0x2C ends a pixel transfer |
| DisplayOrientation.PlacesDiffer | core/display/src/st7789.rs:168-184 | under any orientation register, no two pixels of a window share a place |
| DisplayOrientation.StandardOrientations | core/display/src/st7789.rs:168-184 | where pixel (x, y) goes for each of the eight combinations of exchange and mirroring, and for the T-Deck's value |
| DisplayOrientation.LowBitsIgnored | core/display/src/st7789.rs:168-184 | the five low bits of the register do not matter, except in the T-Deck's value |
| DisplayOrientation.DrawnInFullIff | core/display/src/st7789.rs:153-165 | for every orientation, no pixel of a window leaves the panel if and only if rows and columns are not exchanged or the exchanged window fits |
| DisplayOrientation.ShowsStep | core/display/src/st7789.rs:159-164 | writing the next pixel at its place disturbs none of the pixels drawn before it nor any outside the window |
| DisplayClass.St7789Controller.WritePixels | core/display/src/st7789.rs:91-94 | for every orientation: on success each pixel of the selected window is at its place, wire order undone, and every other pixel of the panel as it was; a window that leaves the panel stops at its first such pixel; at the T-Deck's the whole picture is turned by 180 degrees; a refused write leaves the memory as it was |
| DisplayClass.St7789Controller.ApplyPixels | core/display/src/st7789.rs:142-166 | the same for the transfer once the bus is granted |
| DisplayClass.St7789Controller.Draw | core/display/src/st7789.rs:153-165 | the in-place loop itself: every pixel of the window at its place and no other pixel touched, or stopped at the first pixel off the panel; at the T-Deck orientation it equals turning, copying the window and turning back |
| DisplayFlush.LvglV9Display.Direct | core/display/src/lvgl_v9.rs:271-295 | a black framebuffer and no controller |
| DisplayFlush.LvglV9Display.Fidelity | core/display/src/lvgl_v9.rs:260-270 | a display exactly if no other device holds the bus; then reset, release and set-up leave the controller ready, its memory unchanged and the framebuffer black |
| DisplayFlush.AreaCorners | core/display/src/lvgl_v9.rs:127-137 | an area is used exactly if both corners are on the screen and in order, and it then covers both corners and all between |
| DisplayFlush.LvglV9Display.FlushArea | core/display/src/lvgl_v9.rs:126-183 | an invalid area or a busy bus changes neither memory; otherwise the flush lands in the framebuffer, or in the panel memory which is then shown |
| DisplayFlush.Send | core/display/src/lvgl_v9.rs:145-164 | three commands and the converted pixels put the area into the panel memory, or nothing happens on a busy bus |
| DisplayFlush.FlushBoth | core/display/src/lvgl_v9.rs:126-183 | the same flushes through both real paths: if they started as 180-degree images of each other they end so, and the fidelity display shows the panel memory |
| FileStore.UsedBytes | core/storage/src/spiffs.rs:260-278 | the directory loop gives the saturating sum of all file sizes, in whatever order files are met |
| FileStore.TotalAfterWrite | core/storage/src/spiffs.rs:134-154 | replacing a file changes the total by the difference of the two sizes, and no file is larger than the total |
| FileStore.TotalAfterDelete | core/storage/src/spiffs.rs:156-162 | deleting a file lowers the total by its size |
| InstanceNames.DirectoryRoundTrip | core/storage/src/spiffs.rs:355-379 | a percent-decoder recovers every non-empty id from its directory name |
| InstanceNames.DirectoriesAreIsolated | core/storage/src/spiffs.rs:355-379 | two ids share a directory if and only if they are equal or are the empty id and the single NUL byte |
| InstanceNames.DirectoryIsSafe | core/storage/src/spiffs.rs:355-379 | the name is never empty, "." or "..", and holds no separator: only letters, digits, `-`, `_`, `.` and `%` |
| InstanceNames.OwnNameIff | core/storage/src/spiffs.rs:355-364 | an id is its own directory name if and only if it is non-empty, not "." or "..", and made of ASCII letters, digits, `-`, `_` and `.` |
| InstanceNames.PercentForm | core/storage/src/spiffs.rs:366-373 | any other byte is written as a percent sign and two upper-case hexadecimal digits |
| InstanceNames.ComputeInstanceDirectory | core/storage/src/spiffs.rs:355-379 | the appending loop computes that name |
| Spiffs.CapacityHolds | core/storage/src/spiffs.rs:134-162 | over every run the saturating sum of file sizes stays within the partition, which below u64::MAX bytes is the true sum, and the number of wear counters stays what the geometry says |
| Spiffs.WriteAcceptedIffFits | core/storage/src/spiffs.rs:134-154 | on a mounted partition a well-named write is accepted if and only if the files would still fit afterwards |
| Spiffs.LargestPartitionTakesAll | core/storage/src/spiffs.rs:134-154 | the excluded case: a partition of u64::MAX bytes accepts every well-named write, because the sums saturate |
| Spiffs.WearIsExact | core/storage/src/spiffs.rs:280-292 | on every device with blocks, after any run, an accepted write or delete counts up by one (saturating) as few distinct blocks as hold max(changed, 1) bytes, consecutive round the ring from the hashed start, and no others; the device has as few blocks as hold its partition |
| Spiffs.NoBlocksNoWear | core/storage/src/spiffs.rs:215-224 | a device without blocks, which only formatting mounts, has no room or no block size; it wears nothing, and without room it takes empty files only |
| Spiffs.BlocksUnlessEmpty | core/storage/src/spiffs.rs:89-93 | a device has blocks if and only if it has room and a block size |
| Spiffs.HitsWithinOneTurn | core/storage/src/spiffs.rs:288-291 | up to one turn of the ring the loop meets a block once if it is near enough to the start and otherwise never |
| Spiffs.RingPosition | core/storage/src/spiffs.rs:288-289 | a step of the ring walk meets a block exactly at its distance from the start |
| Spiffs.CeilJustHolds | core/storage/src/spiffs.rs:287 | rounding up gives as few blocks as hold the bytes |
| Spiffs.NamesAreFlat | core/storage/src/spiffs.rs:241-258 | exactly the names of 1 to 32 characters without separators, other than "." and "..", are used, after one optional leading slash |
| Spiffs.DistinctBlocks | core/storage/src/spiffs.rs:287-291 | the blocks met are as many as the steps taken |
| SpiffsDevice.VirtualSpiffs.constructor | core/storage/src/spiffs.rs:83-102 | unmounted, no files, one zero counter for each block, the last one possibly partial |
| SpiffsDevice.VirtualSpiffs.MountPartition | core/storage/src/spiffs.rs:109-120 | succeeds exactly for a non-zero partition and block size, and mounts exactly then |
| SpiffsDevice.VirtualSpiffs.UnmountPartition | core/storage/src/spiffs.rs:122-124 | files and wear stay, calls fail until mounted again |
| SpiffsDevice.VirtualSpiffs.WriteToFile | core/storage/src/spiffs.rs:134-154 | the error of each case in order; only an accepted write changes the file and its wear |
| SpiffsDevice.VirtualSpiffs.DeleteFromStore | core/storage/src/spiffs.rs:156-162 | the same for deleting, with a missing file reported |
| SpiffsDevice.VirtualSpiffs.FormatPartition | core/storage/src/spiffs.rs:215-224 | no files, zero wear, mounted |
| SpiffsDevice.VirtualSpiffs.RecordWrite | core/storage/src/spiffs.rs:280-292 | the in-place loop adds to each counter the number of times the ring walk meets its block, saturating, even over several turns |
| SdSpec.AppendersBuildALog | core/bridge/src/ffi.rs:577-739 | a file reached only by append and read handles: after any interleaving it holds its first contents followed by every successful write in call order |
| SdSpec.ReaderSeesAPrefix | core/bridge/src/ffi.rs:710-739 | what a read handle has returned so far is always a prefix of such a file, while appenders go on |
| SdSpec.ReaderCatchesUp | core/bridge/src/ffi.rs:710-739 | a granted read with a large enough buffer completes the prefix to the whole file |
| SdSpec.OpenForReading | core/bridge/src/ffi.rs:577-642 | opening an existing file for reading gives a free handle at its start |
| SdSpec.OpenTruncates | core/bridge/src/ffi.rs:577-642 | opening for writing empties the file, there or not, touches no other, and gives a handle at its start |
| SdSpec.OpenForAppending | core/bridge/src/ffi.rs:577-642 | opening for appending creates a missing file and keeps an existing one, and gives a handle at its end |
| SdSpec.WriterStartsAfresh | core/bridge/src/ffi.rs:577-739 | over runs: a file opened for writing, with no other writer, holds exactly its successful writes one after the other, whatever it held before and whatever else happens on the card |
| SdSpec.WriterWritesOn | core/bridge/src/ffi.rs:654-701 | from any point on, a sole writer extends the file by its successful writes in order |
| SdSpec.WriteIsExact | core/bridge/src/ffi.rs:654-701 | exactly when a write succeeds, and that it then overwrites from the handle's place, or the end for an appender, and moves the handle behind it |
| SdSpec.ReadIsExact | core/bridge/src/ffi.rs:710-739 | exactly when a read succeeds, and that it then gives the bytes from the handle's place on, as many as there are and the buffer holds |
| SdSpec.FreeIsSmallest | core/bridge/src/ffi.rs:577-642 | a handle is the smallest free number from 1 to 255, and there is none exactly if all are taken |
| SdSpec.StoredIffFits | core/storage/src/sdcard.rs:200-220 | a file is stored exactly if its path is on the card, it is below 4 GiB and the card would not be overfilled; it then replaces that file only |
| SdSpec.OverwriteBytes | core/bridge/src/ffi.rs:654-701 | a non-append write changes exactly the bytes from the position on, growing the file if needed |
| SdSpec.CardCapacityHolds | core/storage/src/sdcard.rs:200-220 | over every run of stream calls the saturating sum of file sizes stays within the card, which below u64::MAX bytes is the true sum |
| SdBridge.SdStreams.StoreFile | core/storage/src/sdcard.rs:200-220 | replaces the whole file exactly when the path is inside the card, the FAT32 size limit holds and it fits in the capacity; otherwise nothing changes |
| SdBridge.SdStreams.OpenStream | core/bridge/src/ffi.rs:577-642 | each mode's effect on file and handle table as `OpenForReading`, `OpenTruncates` and `OpenForAppending` say; the lowest free handle, or 0 |
| SdBridge.SdStreams.WriteStream | core/bridge/src/ffi.rs:654-701 | the whole buffer written and the position moved, or -1 and the file unchanged |
| SdBridge.SdStreams.ReadStream | core/bridge/src/ffi.rs:710-739 | the bytes from the position on, the position moved by as many, and their number; -1 exactly for a call that is refused |
| SdBridge.SdStreams.CloseStream | core/bridge/src/ffi.rs:743-745 | frees exactly that handle |
| SdBridge.SdStreams.RemoveFile | core/bridge/src/ffi.rs:753-769 | removes exactly the named file and reports whether it was there; handles stay |
| Adc.CurveIncreasing | core/board/src/lib.rs:571-584 | the calibrated curve is strictly increasing over all counts 0 to 4095 |
| Adc.CurveValues | core/board/src/lib.rs:571-584 | the five coefficients, and the exact calibrated voltage of counts 0, 929, 1858 and 3716 |
| Adc.Quartic | core/board/src/lib.rs:571-576 | the nested form of a quartic is the sum of its powers, for any coefficients |
| Adc.NearerNeighbour | core/board/src/lib.rs:604-610 | the nearer of the two counts around a voltage is the nearest of all counts |
| Adc.RawCountForPinMv | core/board/src/lib.rs:586-611 | the binary search returns the nearest count for every finite voltage, the lowest such count on a tie, and 0 for a value that is not finite |
| Adc.NearestOfCalibrated | core/board/src/lib.rs:578-584 | the only count nearest to the calibrated voltage of c is c |
| Adc.RoundTrip | core/board/src/lib.rs:578-611 | searching for the calibrated voltage of any count returns that count |
| GpxReplay.TimedReplayDependsOnTotal | core/gps/src/manager.rs:554-592 | index, position and left-over progress after any sequence of ticks equal those after one tick of the summed duration, for every track and multiplier |
| GpxReplay.TimedReplayFollowsTimes | core/gps/src/manager.rs:554-599 | on a track with rising times, after any ticks the points reached are exactly those whose time is at most the ticked time, multiplied by the speed, after the first; what is left is the rest of that time |
| GpxReplay.UntimedReplayTakesSeconds | core/gps/src/manager.rs:594-599 | on a track without times each point takes a second of multiplied time |
| GpxReplay.ReachedInTime | core/gps/src/manager.rs:554-592 | on any track, the points reached are exactly those whose summed intervals the multiplied time covers |
| GpxReplay.DefaultInterval | core/gps/src/manager.rs:594-599 | two points without rising times are a second apart |
| GpxReplay.CatchUpStopsInTime | core/gps/src/manager.rs:569-588 | the catch-up loop spends exactly the intervals it passes, stops at the last point or before the next interval, and shows the point reached |
| GpxReplay.PlainReplayDependsOnTotal | core/gps/src/manager.rs:275-306 | the same independence for replay in samples per second, where whole steps are taken and fractions kept |
| GpxReplay.PlainReplayFollowsSpeed | core/gps/src/manager.rs:275-306 | after any ticks the points reached are exactly those whose number after the first is at most the ticked seconds multiplied by the speed; the fraction is left |
| GpxReplay.PlainTickIdle | core/gps/src/manager.rs:280-282 | without a track or a forward speed nothing moves, in either kind of replay |
| GpxReplay.CatchUpInTwo | core/gps/src/manager.rs:569-588 | catching up, adding progress and catching up again equals adding all of it first |
| GpxReplay.IntervalMs | core/gps/src/manager.rs:594-599 | an interval is never zero or negative, so the loop makes progress |
| GpxReplay.GpsManager.constructor | core/gps/src/manager.rs:196-232 | starts at a point of the track with no progress |
| GpxReplay.GpsManager.Tick | core/gps/src/manager.rs:275-318 | one tick of either replay model as specified |
| GpxReplay.GpsManager.AdvanceTimestampedReplay | core/gps/src/manager.rs:554-592 | the while loop over the track computes the specified catch-up |

## Left out

- Floating-point rounding: all reals are exact, so decibel and milliwatt forms agree, the ADC error polynomial may be written in nested form, and GPS sums have no error.
- Path loss formulas, haversine, bearing, sensitivity and noise formulas: parameters of the configuration; the laws hold for all of them. A bandwidth of zero (minus infinite noise), transmit powers that are not finite and a configuration with infinite losses are not modelled.
- Unregistering or re-registering a node while it sends: the model does it as the code does (its busy time is reset), but `OneTransmissionAtATime` and `SameTransmissionIsIdentity` are stated for nodes that stay registered, and `CaptureIsExclusive` for a receiver that does.
- `ChannelState`, node log levels and the bus's unused seed: no part in delivery.
- FFI pointers, null checks, C strings, handle locks and the table of sleep requests and wake causes: foreign memory and bookkeeping.
- `meshemu_radio_recv_raw` returns 0 both when there is no packet and for a packet of no bytes; the model's result tells the two apart.
- Airtime lengths of 2^31 bytes and more: the model's sums are unbounded there; below, `AirtimeFits` shows they fit.
- `inject_point`, contact size and calibration setters: `inject_point` writes slots without asking the latch; the initial contact size is a field that stays as set.
- The watchdog word is kept as three booleans, one for each bit.
- Mouse coordinates near the ends of i32, where `319 - mouse_x` would overflow: coordinates are unbounded integers.
- Spiffs.WearIsExact: file lengths are 64-bit numbers, as they are in the source; the model of a file does not bound its length.
- Key delivery from the host and the map of retained brightnesses: the key queue and the one value that concerns an instance are fields of its keyboard.
- Setting Wire up, probing, clock recovery and the power callback: `begun`, `clockHz`, `powered` and `sdaStuck` are fields a caller may set freely between calls.
- A window coordinate that an exchange of rows and columns puts off the panel is an error; in a debug build of the source, mirroring such a coordinate panics instead.
- SPI ownership is constant during one flush: another device does not take the bus between its four transactions, nor during set-up.
- `lvgl_v8.rs`: a twin of the v9 flush. LVGL itself, SDL windows, PNG capture and audio are foreign.
- Listing, plain reading and space reports of SPIFFS and SD: look-ups in the file map.
- Host file systems: files are a map from resolved name to bytes; I/O errors, symbolic links and directories are not modelled. The standard hasher is an arbitrary function.
- SD path resolution is a parameter of the card, and board power, mounting and bus ownership are one `granted` flag on each call.
- NVS, partition tables, PSRAM counters, keyboard map, trackball and the scaling around the ADC curve (divider ratio, battery percentage): simple tables or library calls.
- GPS speed and course, NMEA output, GPX parsing, the linear and waypoint models, and the saturation of plain steps at the size of usize.
