# Failover coordination of a dual-controller bus, in Dafny

Two identical ESP32 nodes, 'A' and 'B', share a bus that only one of them may drive.
They exchange 5-byte heartbeat frames over a serial link. When a standby node stops
hearing its peer, it takes the bus over with a break-before-make relay switch. This
project models the per-node firmware that does this and proves its properties:

- `TimeUtil` (`time_util.dfy`): `elapsed`, the wrap-safe interval test on the 32-bit
  millisecond clock. Timestamps are integers in `0 .. 2^32-1`, and the `uint32_t`
  subtraction is written out (`Sub`).
- `Crc` (`crc8.dfy`): the heartbeat checksum. It is a bit-at-a-time CRC-8 with
  polynomial 0x07, initial value 0 and MSB first (the CRC-8/SMBUS parameter set). It is
  defined as a function, and the nested loop of the firmware is a method proved equal to
  it. The lemmas prove that one round is linear and one-to-one over GF(2), the residue
  property, single-byte error detection for the payload, and the catalogue check value.
- `HeartbeatLink` (`heartbeat.dfy`):
  - The pure parts are the frame layout and the receive parser, as a pure `Step` over a
    `Link` value and its fold `Feed`, plus the liveness test.
  - `class Heartbeat` holds the parser registers, the 2-byte array buffer, the sequence
    counter and a transmit log. `ParseByte` and `Tick` are proved against `Step` and
    `Feed`, and `Send` against `Frame`.
  - The lemmas cover the round trip (every frame `send` writes is accepted by a parser
    waiting in state 0, and records the sender and the time), rejection of corrupted and bit-flipped frames,
    resynchronisation, and liveness across a clock wrap.
- `BusArbitration` (`relay_control.dfy`):
  - `class RelayControl` records everything it does to the hardware in an append-only
    trace of pin writes and delays.
  - Its invariant says that at most one relay was energised after every single event of
    the trace, and that the energised relay is exactly the owner's.
  - `SetOwner` is proved to keep that invariant: release both, wait, energise the new
    owner's relay. It leaves the trace untouched when the owner does not change.
- `Failover` (`role_manager.dfy`):
  - `class RoleManager` runs the role state machine (PRIMARY_ACTIVE, STANDBY_PASSIVE,
    TAKING_OVER, ACTIVE_AFTER_TAKEOVER) over a `Heartbeat` and a `RelayControl`.
  - `Tick` is proved to parse first, then send on schedule, then switch roles as the pure
    `Decide` says.
  - Its invariant says that outside standby the node owns its own bus.
  - The lemmas prove deterministic boot, takeover after silence, and no return to
    standby (no flapping).
- `Sampling` (`temperature_bus.dfy`):
  - `class TemperatureBus` runs the non-blocking IDLE → REQUESTED → READ_READY schedule
    for two one-wire temperature buses, with three sensor slots each.
  - It is proved against the pure `Next`, and the slot rule of `readTemperatures` is
    proved against `Slots`. A reading is `Option<T>`, with `None` for NAN.

Inputs from the outside world are parameters:
- the clock reading `now` (`millis()`) a tick starts with;
- the clock reading `rxMs` at which the bytes of a drain are stamped (the separate
  `millis()` call inside `parseByte`, which may be later than `now`);
- the bytes waiting on the serial port;
- the device counts the one-wire buses report;
- the per-index sensor readings.

Outputs are recorded as values:
- the bytes written to the serial port, in `Heartbeat.sent`;
- the pin writes and delays, in `RelayControl.trace`.

The build-time settings become constructor parameters. These are the heartbeat send
period, the peer timeout, the takeover hold time and the break-before-make delay.
`ESP32-Firmware/include/config.h` guards each default with `#ifdef` where `#ifndef` was
meant, so its defaults never supply a value.

Where the code departs from the intended behaviour, the model follows the code:
- A frame embedded anywhere after stray sync bytes is meant to be recovered. But a frame
  whose first sync byte is repeated (`AA AA 55 …`) is lost: the parser drops back to
  waiting for `AA` on the second `AA`; see `RepeatedSyncLosesFrame`.
  `ResyncAfterQuietBytes` proves the form that does hold: any noise, then three bytes
  that are neither sync byte, then a frame.
- `peerAlive` treats `lastRxMs == 0` as "never received". As a result:
  - a standby node that has heard nothing takes over on its first tick;
  - a frame accepted exactly at clock reading 0 counts as silence.
- The settle time in TAKING_OVER is meant to be shorter than the break-before-make
  delay, but it is a hard-coded 200 ms, independent of that delay.
- A tick reads the clock once at its start, but `parseByte` stamps a frame with its own
  later `millis()` reading. A frame stamped even 1 ms after the tick's reading makes the
  unsigned difference `now - lastRxMs` wrap to nearly 2^32. So a standby node that has just
  heard its peer judges it dead and starts a takeover; see `FrameStampedAfterNowLooksDead`.

## Model

| member | source | states |
|---|---|---|
| TimeUtil.Sub | include/TimeUtil.h:5 | the `uint32_t` difference `now - since` is the mathematical difference reduced modulo 2^32 |
| TimeUtil.Elapsed | include/TimeUtil.h:4-6 | `elapsed` holds iff `(now - since) mod 2^32 >= interval` |
| TimeUtil.ElapsedZero | include/TimeUtil.h:4-6 | a zero interval has always elapsed |
| TimeUtil.ElapsedShift | include/TimeUtil.h:4-6 | shifting both instants by the same amount, across the wrap or not, does not change the verdict |
| TimeUtil.ElapsedAfter | include/TimeUtil.h:4-6 | `d` ms after `since` (wrapping or not) the interval has elapsed iff `d >= interval` |
| TimeUtil.ElapsedMonotone | include/TimeUtil.h:4-6 | if an interval has elapsed, every shorter one has |
| Crc.Crc8 | ESP32-Firmware/src/Heartbeat.cpp:9-18 | the checksum of the empty input is 0 |
| Crc.ComputeCrc8 | ESP32-Firmware/src/Heartbeat.cpp:9-18 | the nested shift/XOR loop computes exactly the CRC-8 (poly 0x07, init 0, MSB first) of its input |
| Crc.Crc8Append | ESP32-Firmware/src/Heartbeat.cpp:11-16 | appending a byte absorbs it into the checksum of the prefix |
| Crc.ShiftLowBit | ESP32-Firmware/src/Heartbeat.cpp:14 | after one shift/fold round the low bit is the top bit that fell out |
| Crc.Rounds | ESP32-Firmware/src/Heartbeat.cpp:13-15 | any number of rounds keeps a zero register zero |
| Crc.Absorb | ESP32-Firmware/src/Heartbeat.cpp:12-15 | absorbing a byte equal to the register clears the register |
| Crc.ShiftLinear | ESP32-Firmware/src/Heartbeat.cpp:14 | one shift/fold round is linear over XOR |
| Crc.ShiftInjective | ESP32-Firmware/src/Heartbeat.cpp:14 | one shift/fold round is one-to-one |
| Crc.RoundsLinear | ESP32-Firmware/src/Heartbeat.cpp:13-15 | any number of rounds is linear over XOR |
| Crc.RoundsInjective | ESP32-Firmware/src/Heartbeat.cpp:13-15 | any number of rounds is one-to-one |
| Crc.AbsorbInjective | ESP32-Firmware/src/Heartbeat.cpp:12-15 | absorbing a byte is one-to-one in the register (same byte) and in the byte (same register) |
| Crc.Crc8Residue | ESP32-Firmware/src/Heartbeat.cpp:9-18 | a message followed by a byte has checksum 0 iff that byte is the message's checksum |
| Crc.Crc8DetectsPayloadByte | ESP32-Firmware/src/Heartbeat.cpp:9-18 | two payloads differing in exactly one of id and sequence never share a checksum |
| Crc.CheckValuePrefix3 | ESP32-Firmware/src/Heartbeat.cpp:9-18 | the ASCII digits "123" have checksum 0xC0 |
| Crc.CheckValuePrefix6 | ESP32-Firmware/src/Heartbeat.cpp:9-18 | the ASCII digits "123456" have checksum 0xFD |
| Crc.Crc8CheckValue | ESP32-Firmware/src/Heartbeat.cpp:9-18 | the ASCII digits "123456789" have checksum 0xF4, the catalogue check value of CRC-8/SMBUS |
| HeartbeatLink.Frame | ESP32-Firmware/src/Heartbeat.cpp:20-31 | a frame is 5 bytes `AA 55 id seq crc` whose checksum byte makes the CRC of `id seq crc` zero |
| HeartbeatLink.Initial | include/Heartbeat.h:19-24 | the parser starts in state 0 with no frame received |
| HeartbeatLink.Step | ESP32-Firmware/src/Heartbeat.cpp:45-80 | a parser step stays in states 0..4 and keeps the capture index inside the 2-byte buffer |
| HeartbeatLink.Feed | ESP32-Firmware/src/Heartbeat.cpp:39-43 | draining any byte sequence keeps the parser well formed |
| HeartbeatLink.PeerAlive | ESP32-Firmware/src/Heartbeat.cpp:34-37 | the peer is alive iff some frame was received (`lastRxMs != 0`) and `(now - lastRxMs) mod 2^32 <= timeout` |
| HeartbeatLink.StepResync | ESP32-Firmware/src/Heartbeat.cpp:48-58 | a byte other than the expected sync byte in states 0/1 returns the parser to state 0 and changes nothing else |
| HeartbeatLink.StepAfterCrcByte | ESP32-Firmware/src/Heartbeat.cpp:67-75 | the checksum byte always returns the parser to state 0, whatever the CRC outcome |
| HeartbeatLink.StepRecordsOnlyValidFrames | ESP32-Firmware/src/Heartbeat.cpp:67-75 | peer id and receive time change exactly when the checksum byte matches the CRC of the captured payload, to the captured id and `now` |
| HeartbeatLink.FeedAppend | ESP32-Firmware/src/Heartbeat.cpp:39-43 | draining `a + b` is draining `a` then `b` |
| HeartbeatLink.Feed5 | ESP32-Firmware/src/Heartbeat.cpp:39-43 | draining five bytes is five parser steps |
| HeartbeatLink.FrameAccepted | ESP32-Firmware/src/Heartbeat.cpp:45-75 | round trip: from state 0 every frame `send` produces is accepted, setting peer id to the sender and receive time to `now` |
| HeartbeatLink.CorruptedFrameRejected | ESP32-Firmware/src/Heartbeat.cpp:45-80 | replacing any one byte of a frame by a different value leaves peer id and receive time unchanged |
| HeartbeatLink.CorruptedSyncRejected | ESP32-Firmware/src/Heartbeat.cpp:48-58 | a frame with exactly one wrong sync byte is not accepted |
| HeartbeatLink.CorruptedPayloadRejected | ESP32-Firmware/src/Heartbeat.cpp:67-75 | a frame whose checksum byte is not the CRC of its payload is not accepted |
| HeartbeatLink.BitFlipRejected | ESP32-Firmware/src/Heartbeat.cpp:45-80 | flipping any single bit of any frame byte leaves peer id and receive time unchanged |
| HeartbeatLink.RepeatedSyncLosesFrame | ESP32-Firmware/src/Heartbeat.cpp:48-57 | a stray `AA` right before a frame makes the parser miss that frame |
| HeartbeatLink.StepOnNonSync | ESP32-Firmware/src/Heartbeat.cpp:45-80 | a byte that is neither sync byte returns the parser to state 0 or moves it one capture state forward (2 to 3, 3 to 4) |
| HeartbeatLink.ResyncAfterQuietBytes | ESP32-Firmware/src/Heartbeat.cpp:45-80 | after any noise, three non-sync bytes and then a frame, the frame is accepted |
| HeartbeatLink.PeerAliveAfter | ESP32-Firmware/src/Heartbeat.cpp:34-37 | `d` ms after a nonzero receive time (across the wrap or not) the peer is alive iff `d <= timeout` |
| HeartbeatLink.AliveAfterFrame | ESP32-Firmware/src/Heartbeat.cpp:34-37 | right after a frame accepted at a nonzero time the peer is alive |
| HeartbeatLink.FrameAtZeroLooksLikeSilence | ESP32-Firmware/src/Heartbeat.cpp:34-37 | a frame accepted at clock reading 0 leaves the peer dead at every later instant |
| HeartbeatLink.Heartbeat.constructor | include/Heartbeat.h:19-24 | a new link is in parser state 0, with peer '?', no receive time, counter 0, nothing sent |
| HeartbeatLink.Heartbeat.ParseByte | ESP32-Firmware/src/Heartbeat.cpp:45-80 | the in-place parser does exactly one `Step`, leaving the sequence counter and transmit log alone |
| HeartbeatLink.Heartbeat.Tick | ESP32-Firmware/src/Heartbeat.cpp:39-43 | the drain loop leaves the registers at `Feed` of all waiting bytes |
| HeartbeatLink.Heartbeat.Send | ESP32-Firmware/src/Heartbeat.cpp:20-31 | exactly the frame for `(myId, counter)` is written, the counter advances by 1 mod 256, the parser is untouched |
| HeartbeatLink.Heartbeat.Alive | ESP32-Firmware/src/Heartbeat.cpp:34-37 | the liveness verdict on the stored receive time |
| BusArbitration.Level | src/RelayControl.cpp:21-25 | the pin is driven high exactly when "on" and the active-low polarity disagree |
| BusArbitration.WriteIf | src/RelayControl.cpp:18-26 | no event for a negative pin, otherwise one write of that pin with the requested state at the polarity's level |
| BusArbitration.Release | src/RelayControl.cpp:31-32 | one switch-off write per configured pin, relay A's first and relay B's last, nothing for an unconfigured pin |
| BusArbitration.Make | src/RelayControl.cpp:35-37 | one switch-on write of the new owner's pin when it is configured, none otherwise (also for NONE) |
| BusArbitration.Switch | src/RelayControl.cpp:31-37 | only switch-off writes, then exactly one delay of the break-before-make length, then only switch-on writes of the new owner's pin |
| BusArbitration.ExclusiveEveryPrefix | src/RelayControl.cpp:28-40 | an exclusive trace has at most one relay energised after each of its events |
| BusArbitration.IsOnAppend | src/RelayControl.cpp:18-26 | a pin write changes the state of that relay only |
| BusArbitration.StaysOn | src/RelayControl.cpp:18-26 | an energised relay stays energised through any events that do not write its pin |
| BusArbitration.ReleaseBoth | src/RelayControl.cpp:31-32 | switching off both configured relays keeps exclusivity and leaves no relay energised |
| BusArbitration.SwitchKeepsExclusive | src/RelayControl.cpp:28-40 | release, delay, make keeps at most one relay energised at every step and ends with exactly the new owner's configured relay on |
| BusArbitration.MakeOwner | src/RelayControl.cpp:35-37 | from all-off, the make step energises exactly the new owner's relay when its pin is configured |
| BusArbitration.SwitchBreaksBeforeMake | src/RelayControl.cpp:31-37 | an owner change is switch-off writes, then one delay of the configured length, then only the switch-on write of the new owner's relay |
| BusArbitration.ReconfigureCanOrphanRelay | src/RelayControl.cpp:4-16 | a second `begin` with other pins (relay 25 on, reconfigured to 27/28, then handed to B) leaves relays 25 and 28 both energised |
| BusArbitration.RelayControl.constructor | include/RelayControl.h:12-15 | no pins, active-low, no owner, nothing written |
| BusArbitration.RelayControl.WriteRelay | src/RelayControl.cpp:18-26 | nothing for a negative pin, else one write at the level the polarity gives |
| BusArbitration.RelayControl.Begin | src/RelayControl.cpp:4-16 | stores pins and polarity, switches both configured relays off, owner NONE, invariant kept |
| BusArbitration.RelayControl.SetOwner | src/RelayControl.cpp:28-40 | same owner: nothing written; other owner: release, delay, make appended; exclusivity kept and the owner's relay is exactly the energised one |
| BusArbitration.RelayControl.ReleaseRelays | src/RelayControl.cpp:31-32 | appends the switch-off writes of both configured relays |
| BusArbitration.RelayControl.EnergiseOwner | src/RelayControl.cpp:35-37 | appends the switch-on write of the new owner's configured relay |
| BusArbitration.RelayControl.Owner | include/RelayControl.h:10 | only the owner's relay can be energised |
| Failover.OwnBus | ESP32-Firmware/src/RoleManager.cpp:19 | a node claims bus A iff it is 'A', otherwise bus B, never NONE |
| Failover.Boot | ESP32-Firmware/src/RoleManager.cpp:7-25 | 'A' boots PRIMARY_ACTIVE owning bus A; any other node boots STANDBY_PASSIVE owning nothing |
| Failover.Decide | ESP32-Firmware/src/RoleManager.cpp:39-68 | the role is PRIMARY_ACTIVE after iff before; it is STANDBY_PASSIVE after iff it was and the peer is alive; a role change stamps `now`; no role change changes nothing |
| Failover.PrimaryAbsorbing | ESP32-Firmware/src/RoleManager.cpp:40-42 | PRIMARY_ACTIVE never changes and never touches the relays |
| Failover.StandbyTakeover | ESP32-Firmware/src/RoleManager.cpp:44-52 | STANDBY_PASSIVE moves to TAKING_OVER and claims the bus iff the peer is not alive, stamping `now` |
| Failover.TakingOverSettles | ESP32-Firmware/src/RoleManager.cpp:54-60 | TAKING_OVER moves on iff 200 ms have passed since the takeover started (wrap-safe), restamping the start |
| Failover.ActiveAfterTakeoverAbsorbing | ESP32-Firmware/src/RoleManager.cpp:62-67 | ACTIVE_AFTER_TAKEOVER never changes and never touches the relays |
| Failover.NeverBackToStandby | ESP32-Firmware/src/RoleManager.cpp:39-68 | after leaving standby no run of ticks returns to it or claims the bus again; a primary stays as it is |
| Failover.TakeoverAfterSilence | ESP32-Firmware/src/RoleManager.cpp:37-60 | a standby node silent for longer than the timeout takes over and claims its bus, is active after 200 ms more, and stays active whatever arrives later |
| Failover.StandbyWithoutFramesTakesOverAtOnce | ESP32-Firmware/src/RoleManager.cpp:37-51 | a standby node that never received a frame starts taking over on its first tick |
| Failover.FrameStampedAfterNowLooksDead | ESP32-Firmware/src/RoleManager.cpp:27-52 | a standby node that accepts its peer's frame stamped any 1..2^32-1-timeout ms after the tick's clock reading judges the peer dead, claims the bus and starts taking over |
| Failover.RoleManager.constructor | include/RoleManager.h:27-29 | starts STANDBY_PASSIVE with both timestamps 0, invariant established |
| Failover.RoleManager.Begin | ESP32-Firmware/src/RoleManager.cpp:7-15 | role and bus owner are those `Boot` gives for the identity; the relay trace gets release, delay, make when the owner changes and is untouched otherwise; pins and polarity stay |
| Failover.RoleManager.BecomeActive | ESP32-Firmware/src/RoleManager.cpp:17-20 | PRIMARY_ACTIVE owning the node's own bus; the relay trace gets release, delay, make when the owner changes and is untouched otherwise; pins and polarity stay |
| Failover.RoleManager.BecomeStandby | ESP32-Firmware/src/RoleManager.cpp:22-25 | STANDBY_PASSIVE owning nothing; the relay trace gets the switch-off writes and the delay when a bus was owned and is untouched otherwise; pins and polarity stay |
| Failover.RoleManager.Tick | ESP32-Firmware/src/RoleManager.cpp:27-71 | parses all waiting bytes stamped at `rxMs`, sends exactly when the send period elapsed at `now`, then applies `Decide` to the liveness at `now` after parsing; on a claim the trace gets release, delay, make for the own bus, otherwise relays are untouched; pins and polarity stay; outside standby the node owns its bus |
| Failover.RoleManager.ServiceLink | ESP32-Firmware/src/RoleManager.cpp:30-35 | parse with receive stamp `rxMs`, then send one frame and restamp iff the send period elapsed at `now` |
| Failover.RoleManager.Advance | ESP32-Firmware/src/RoleManager.cpp:39-68 | the role switch equals `Decide`; exactly on a claim the bus is handed to the node itself by release, delay, make, otherwise owner and trace are untouched; pins and polarity stay |
| Sampling.SampleDue | ESP32-Firmware/src/TemperatureBus.cpp:68 | a sample is due iff none was taken yet (`lastSampleMs == 0`) or 5000 ms passed since it, wrap-safe |
| Sampling.Next | ESP32-Firmware/src/TemperatureBus.cpp:65-91 | the request stamp changes only on an IDLE to REQUESTED step, to `now`; the sample stamp changes only on a READ_READY to IDLE step, to `now`, with the flag raised |
| Sampling.Slot | ESP32-Firmware/src/TemperatureBus.cpp:113-120 | slot `i` holds sensor `i`'s reading exactly when `i` is below the device count, and is missing otherwise |
| Sampling.Slots | ESP32-Firmware/src/TemperatureBus.cpp:109-124 | three slots per bus, each given by the slot rule |
| Sampling.SlotRule | ESP32-Firmware/src/TemperatureBus.cpp:109-124 | slot `i` is missing whenever the device count is at most `i`, otherwise it holds sensor `i`'s reading |
| Sampling.ReadyAfterRead | ESP32-Firmware/src/TemperatureBus.cpp:126-133 | after a read both primaries are present iff both buses have a device and both index-0 sensors gave a reading |
| Sampling.IdleRequestsWhenDue | ESP32-Firmware/src/TemperatureBus.cpp:67-76 | IDLE requests iff nothing was sampled yet or 5000 ms elapsed, stamping the request; otherwise nothing changes |
| Sampling.SamplePeriod | ESP32-Firmware/src/TemperatureBus.cpp:67-76 | after a sample at a nonzero time, the next request comes iff at least 5000 ms passed (wrap-safe) |
| Sampling.SampleAtZeroResamples | ESP32-Firmware/src/TemperatureBus.cpp:68 | a sample stamped at clock reading 0 is taken as none: the next IDLE tick requests |
| Sampling.RequestedWaitsForConversion | ESP32-Firmware/src/TemperatureBus.cpp:78-82 | REQUESTED moves to READ_READY iff 750 ms passed since the request, changing nothing else |
| Sampling.ReadReadyCompletes | ESP32-Firmware/src/TemperatureBus.cpp:84-89 | READ_READY always returns to IDLE with the flag raised and the sample stamped `now` |
| Sampling.OnlyCycleTransitions | ESP32-Firmware/src/TemperatureBus.cpp:65-91 | a tick stays put or moves IDLE to REQUESTED to READ_READY to IDLE |
| Sampling.NewSampleOnlyFromReadReady | ESP32-Firmware/src/TemperatureBus.cpp:84-89 | only the READ_READY tick raises the new-sample flag, and no tick lowers it |
| Sampling.NewSampleNeedsReadReady | ESP32-Firmware/src/TemperatureBus.cpp:65-91 | a run that raises the flag passed through READ_READY |
| Sampling.NeverLowered | ESP32-Firmware/src/TemperatureBus.cpp:65-91 | no run of ticks lowers a raised flag |
| Sampling.FirstSampleCycle | ESP32-Firmware/src/TemperatureBus.cpp:65-91 | from reset: request, conversion ready 750 ms or more later, sample delivered on the next tick |
| Sampling.TemperatureBus.constructor | ESP32-Firmware/include/TemperatureBus.h:49-64 | no devices, every slot missing, IDLE with both stamps 0 and no new sample |
| Sampling.TemperatureBus.Begin | ESP32-Firmware/src/TemperatureBus.cpp:12-51 | always succeeds; stores pins and counts, resets the schedule and clears every slot and primary |
| Sampling.TemperatureBus.ScanBuses | ESP32-Firmware/src/TemperatureBus.cpp:53-63 | stores the reported counts and always reports success |
| Sampling.TemperatureBus.Tick | ESP32-Firmware/src/TemperatureBus.cpp:65-91 | the schedule moves by `Next`; the pins stay; counts are rescanned only when IDLE requests; slots change only on the READ_READY tick, to `Slots` of the counts and readings |
| Sampling.TemperatureBus.ReadTemperatures | ESP32-Firmware/src/TemperatureBus.cpp:102-129 | every slot of both buses follows the slot rule, the primaries mirror slot 0, and `ready` then holds iff both buses gave an index-0 reading |
| Sampling.TemperatureBus.Ready | ESP32-Firmware/src/TemperatureBus.cpp:131-133 | ready iff both primary readings are present |
| Sampling.TemperatureBus.HasNewSample | ESP32-Firmware/src/TemperatureBus.cpp:135-137 | the new-sample flag of the schedule |
| Sampling.TemperatureBus.ClearNewSampleFlag | ESP32-Firmware/src/TemperatureBus.cpp:139-141 | lowers the flag and changes nothing else |
| Sampling.TemperatureBus.IntakeAt | ESP32-Firmware/include/TemperatureBus.h:23-25 | slot `idx` of the intake bus, missing for an index of 3 or more |
| Sampling.TemperatureBus.ExhaustAt | ESP32-Firmware/include/TemperatureBus.h:26-28 | slot `idx` of the exhaust bus, missing for an index of 3 or more |

## Left out

- Serial port set-up (`Heartbeat::begin`), `pinMode`, the one-wire and Dallas library calls, and `requestConversion` are hardware I/O. They are not modelled; only their effect on the modelled state is.
- `millis()` inside `parseByte` is read once per drain, as the parameter `rxMs`, separate from the tick's own reading `now`. All frames accepted in one drain share that stamp; that successive frames of one drain may see different readings is not modelled.
- `_intakePin` and `_exhaustPin` in `TemperatureBus` are uninitialised in the source until `begin`. The model's constructor sets them to 0, and no proof depends on those values.
- `_buf` in `Heartbeat` is uninitialised in the source. The model starts it at zeros, and no proof depends on those values.
- The sequence counter of `send` is a function-level `static` in the source, shared by every `Heartbeat` object. The model keeps it per object, which is the same with the one link a node has.
- BusArbitration.RelayControl.Begin: requires that the relay energised now, if any, is one of the two new pins. A `begin` with other pins while a relay is on would orphan that relay (`ReconfigureCanOrphanRelay`), and the exclusivity invariant does not hold after that.
- The `delay(BREAK_BEFORE_MAKE_MS)` is a `Delay` event in the trace. Serial bytes that arrive during it, and receive-buffer overflow, are not modelled.
- Claims about both nodes together (split-brain between two physical nodes) depend on link latency and clock skew that the per-node code does not promise. All results are per node.
- The "future policies" branch of ACTIVE_AFTER_TAKEOVER is empty in the source and stays a no-op here.
- Temperatures are `Option<T>`. Float arithmetic, NAN and the `<= -120` sentinel comparison are not modelled: a sentinel reading is a `None` from the probe.
- `ESP32-Firmware/src/TelemetrySender.cpp` and `ESP32-Firmware/src/main.cpp` are not part of this model: Ethernet/UDP transport, JSON formatting and a demo loop.
- The `#ifdef`/`#ifndef` slip in `ESP32-Firmware/include/config.h` is not modelled. Every setting it was meant to default is a constructor parameter instead.
