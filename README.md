# Safety monitor of the EV conversion firmware, in Dafny

This project models the safety-monitor subsystem of the firmware and the
small codecs and filters it is built from, and proves what each part
promises:

- **CRC-8** (`crc8.dfy`, module `Crc8`): the table generator and the
  table-driven checksum, as methods over arrays. Each is proved equal to a
  specification function:
  - `Table` (eight shift/XOR steps per entry);
  - `Crc` (a left fold from 0).

  The lemmas about those functions give:
  - the zero entry;
  - the known entries and the CRC-8/SMBUS check value 0xF4 for polynomial 0x07;
  - the fold law;
  - for an odd polynomial (0x07 and 0x85 both are), that the table is
    injective, so any change confined to a single byte changes the checksum.
- **Timeout** (`timeout.dfy`, module `Timeouts`): the one-shot countdown
  every monitor uses. It is a class whose `Tick` and `Reset` methods update
  the counter in place, proved against a step function. The lemmas show
  that after a reset exactly `reset` ticks succeed and every later tick
  fails.
- **Throttle fusion** (`throttle.dfy`, module `Throttles`):
  - the linear map of a millivolt window onto `0..=65535`, characterised
    as a floor division;
  - the dual-sensor plausibility check with its tolerance;
  - the mean of the two mapped readings.

  The lemmas show that no `u32` overflow and no failing `u16` conversion
  can occur, and they cover the source's unit tests.
- **EV-CAN codec** (`ev_can.dfy`, module `EvCan`, over the CAN frame types
  of `bxcan.dfy`):
  - the torque-request encoder, including the in-place CRC write, with its
    byte layout;
  - the little-endian torque round trips;
  - the frame dispatcher, with each error case as an if-and-only-if;
  - detection of single-byte corruption by the 0x85 CRC.
- **Monitors**:
  - the shared error type (`monitor_errors.dfy`);
  - the throttle monitor, with its grace timeout that masks bad readings
    (`throttle_monitor.dfy`);
  - the main-application liveness monitor (`main_app_monitor.dfy`);
  - the torque monitor (`torque_monitor.dfy`).

  Each monitor is a class owning its `Timeout` objects. Each method that
  ticks a timeout is proved against `TickStep`; `SendPing` refills the
  timeout and `Frame` leaves both timeouts alone.
- **Button debounce filter** (`button.dfy`, module `Buttons`): a class whose
  `Sample` method keeps the hysteresis invariant. That invariant excludes
  both underflow and overflow. The lemmas show that exactly `LIMIT` equal
  samples are needed to flip the reported state.
- **LED command codec** (`board.dfy`, module `Board`): `SetLed` to and from
  a frame with identifier 0x123, with its round trip.

Fixed-width types are in `primitives.dfy`:
- `u8` and `i16` are bit-vectors, so shifts, masks and XOR truncate as they
  do in Rust; `I16Value` gives the signed value an `i16` pattern stands for;
- `u16` and `u32` are integer ranges.

`wrappers.dfy` holds `Option` and `Result`.

Some behaviour of the code is easy to miss:
- the torque-request decoder is an unfinished stub: it checks neither the
  CRC nor the length, and it reports a zero request;
- `TorqueMonitor::frame` refreshes no timeout;
- the EV-CAN codec has only the torque-request message;
- in the throttle example `position(1501, 3500)`, the mapped readings 32833
  and 32767 differ by 66, which is within the tolerance of 250.

## Model

| member | source | states |
|---|---|---|
| Crc8.GenerateLookup | firmware/common/src/crc8.rs:3-24 | a fresh 256-entry array, written by the nested loops, that is exactly `Table(polynomial)`: entry i is i after eight shift/XOR steps |
| Crc8.CalcCrc8 | firmware/common/src/crc8.rs:27-35 | the loop returns the left fold `Crc(bytes, lookup)`; every index `crc ^ byte` is a byte, so it is always inside the table |
| Crc8.CrcEmpty | firmware/common/src/crc8.rs:28-34 | the checksum of no bytes is 0 |
| Crc8.CrcAppend | firmware/common/src/crc8.rs:30-32 | appending one byte performs one lookup at `crc ^ byte` |
| Crc8.CrcPrefix | firmware/common/src/crc8.rs:30-32 | the same fold law stated on the prefixes of one message |
| Crc8.ShiftZero | firmware/common/src/crc8.rs:9-17 | zero stays zero through any number of shift/XOR steps |
| Crc8.TableZero | firmware/common/src/crc8.rs:3-24 | entry 0 of every table is 0, for every polynomial |
| Crc8.StepInjective | firmware/common/src/crc8.rs:10-15 | with an odd polynomial one shift/XOR step maps distinct bytes to distinct bytes |
| Crc8.ShiftInjective | firmware/common/src/crc8.rs:9-17 | with an odd polynomial any number of steps maps distinct bytes to distinct bytes |
| Crc8.TableInjective | firmware/common/src/crc8.rs:6-21 | with an odd polynomial no two table entries are equal |
| Crc8.FoldSeparates | firmware/common/src/crc8.rs:31 | under an injective table one fold step keeps states apart that differ in exactly one of the old state and the byte |
| Crc8.CrcSeparates | firmware/common/src/crc8.rs:30-32 | under an injective table two equal-length messages differing in exactly one byte have different checksums |
| Crc8.SingleByteChangeDetected | firmware/common/src/crc8.rs:27-35 | with an odd polynomial a change confined to one byte always changes the checksum |
| Crc8.KnownEntries | firmware/common/src/crc8.rs:42-49 | for 0x07, entries 0, 8, 16 and 255 are 0x00, 0x38, 0x70 and 0xf3 |
| Crc8.CheckValue | firmware/common/src/crc8.rs:52-59 | the checksum of "123456789" with the 0x07 table is 0xf4 |
| Timeouts.TickStep | firmware/common/src/timeout.rs:21-24 | a tick succeeds exactly when the counter is positive; it then takes one off, and otherwise leaves the counter at 0 |
| Timeouts.OutcomesExact | firmware/common/src/timeout.rs:14-28 | starting from counter c, tick i succeeds if and only if i < c: exactly c ticks succeed, then every tick fails until a reset |
| Timeouts.AfterCountsDown | firmware/common/src/timeout.rs:21-24 | after n ticks the counter is c - n, stopping at 0 without wrapping |
| Timeouts.TwoTickTimeout | firmware/common/src/timeout.rs:37-47 | a timeout of 2 gives Ok, Ok, Elapsed, Elapsed, and again Ok, Ok, Elapsed after a reset |
| Timeouts.Timeout.constructor | firmware/common/src/timeout.rs:14-19 | reset value and counter both start at n |
| Timeouts.Timeout.Tick | firmware/common/src/timeout.rs:21-24 | the new counter and the result are the tick step of the old counter; 0 <= counter <= reset is kept |
| Timeouts.Timeout.Reset | firmware/common/src/timeout.rs:26-28 | the counter is back at the reset value, which never changes |
| Throttles.NewMap | firmware/common/src/throttle.rs:27-32 | the map holds the two bounds in order, min <= max, whatever the argument order |
| Throttles.ScaledFitsU32 | firmware/common/src/throttle.rs:40-41 | `(value - min) * 65535` never overflows `u32` |
| Throttles.QuotientAtMost | firmware/common/src/throttle.rs:42-44 | the quotient is at most 65535, so `u16::try_from` succeeds |
| Throttles.MapValue | firmware/common/src/throttle.rs:35-45 | Some exactly when min <= value <= max and min != max, so an empty range rejects every value; the result r is the floor of `(value - min) * 65535 / (max - min)` |
| Throttles.MapEndpoints | firmware/common/src/throttle.rs:35-45 | min maps to 0 and max maps to 65535 |
| Throttles.MapMonotone | firmware/common/src/throttle.rs:35-45 | a higher reading never maps lower |
| Throttles.NewThrottle | firmware/common/src/throttle.rs:76-84 | both sensor maps are ordered and the tolerance is kept |
| Throttles.Position | firmware/common/src/throttle.rs:87-98 | SensorOutOfRange exactly when either map fails; SensorMismatch exactly when both map and differ by more than the tolerance (equal is accepted); otherwise the truncated mean, which lies between the two mapped values; never IntegerError |
| Throttles.PositionNearBoth | firmware/common/src/throttle.rs:91-97 | an accepted position is within half the tolerance, rounded up, of each mapped reading |
| Throttles.MapExamples | firmware/common/src/throttle.rs:107-115 | the unit test: 999 and 2001 are rejected; 1000, 1500 and 2000 give 0, 32767 and 65535 |
| Throttles.PositionExamples | firmware/common/src/throttle.rs:118-126 | the unit test: 32767, SensorOutOfRange twice, 32800 and SensorMismatch |
| EvCan.FrameId | firmware/common/src/ev_can.rs:25-29 | every torque request has standard identifier 0x14d |
| EvCan.LeBytesRoundTrip | firmware/common/src/ev_can.rs:39-41 | the two little-endian bytes read back give the original `i16` torque |
| EvCan.LeBytesOnto | firmware/common/src/ev_can.rs:39-41 | every pair of bytes is the encoding of the `i16` it reads back as |
| EvCan.CounterBits | firmware/common/src/ev_can.rs:41 | `counter << 6` keeps only the counter's low two bits, in bits 7 and 6 |
| EvCan.TorqueRequestData | firmware/common/src/ev_can.rs:38-46 | 8 bytes: 0x6e, 0x6e, torque little-endian (reading back the same pattern and signed value), counter in bits 7..6 of byte 4, 0x44, 0x01, and the 0x85 CRC of bytes 0..6 |
| EvCan.BufferIsPayload | firmware/common/src/ev_can.rs:41 | the first seven bytes of the initial buffer are the payload the CRC covers |
| EvCan.ToTorqueRequestData | firmware/common/src/ev_can.rs:38-46 | building the buffer, then overwriting byte 7 in place with `calc_crc8` over the table from `generate_lookup(0x85)`, yields exactly that layout |
| EvCan.FrameData | firmware/common/src/ev_can.rs:32-36 | the payload is 8 bytes, so `Data::new(..).unwrap()` cannot panic |
| EvCan.ToFrame | firmware/common/src/ev_can.rs:59-63 | a data frame with standard identifier 0x14d carrying exactly the 8 encoded bytes `FrameData(frame)` |
| EvCan.FromTorqueRequestData | firmware/common/src/ev_can.rs:48-56 | the unfinished decoder accepts every payload and always reports the zero request `TorqueRequest(0, 0)` |
| EvCan.TryFromFrame | firmware/common/src/ev_can.rs:65-79 | Ok exactly for a data frame with standard id 0x14d; NoData exactly for a standard-id remote frame, checked before the id; UnknownFrame exactly for an extended id or another standard id; never BadDlc or BadCrc; an accepted frame always decodes to the zero request |
| EvCan.DecodeEncoded | firmware/common/src/ev_can.rs:48-79 | every encoded frame is accepted, as the zero request |
| EvCan.RoundTripOnlyAtZero | firmware/common/src/ev_can.rs:48-79 | decode(encode(f)) == f holds for the zero request and for no other |
| EvCan.CorruptionDetected | firmware/common/src/ev_can.rs:43 | if one of bytes 0..6 is corrupted, their CRC no longer matches byte 7 |
| EvCan.ExampleRequest | firmware/common/src/ev_can.rs:87-93 | torque 1000, counter 2 encodes to id 0x14d and 6e 6e e8 03 80 44 01 28, not the identifier and bytes the unit test expects |
| MonitorErrors.FromTimeoutError | firmware/monitor-app/src/monitors/mod.rs:11-15 | every timeout error becomes `Timout`, whatever its argument |
| MonitorErrors.LiftTick | firmware/monitor-app/src/monitors/mod.rs:11-15 | `?` on a tick: Ok stays Ok and an elapsed tick becomes `Timout` |
| MonitorErrors.ThrottleFaultsDistinct | firmware/monitor-app/src/monitors/mod.rs:3-9 | `Throttle` keeps its cause (equal exactly when the causes are) and differs from `Timout`, `Main` and `Torque` |
| MonitorErrors.LiftTickOnlyTimeout | firmware/monitor-app/src/monitors/mod.rs:11-15 | a timeout expiry is never reported as `Main`, `Torque` or a throttle fault |
| ThrottleMonitors.CheckStep | firmware/monitor-app/src/monitors/throttle.rs:20-31 | a good reading gives Ok(position) and refills the counter; a bad one with ticks left gives Ok(0) and takes one off; a bad one at 0 gives Err(Throttle(e)) with the cause from `position`, the counter staying 0 |
| ThrottleMonitors.BadReadingsMasked | firmware/monitor-app/src/monitors/throttle.rs:20-31 | from counter n, the first n bad readings are masked as Ok(0) and every later one reports its own cause |
| ThrottleMonitors.MonitorExample | firmware/monitor-app/src/monitors/throttle.rs:40-52 | the unit test: Ok(0), Ok(0), Err(Throttle(SensorMismatch)), then Ok(32767) |
| ThrottleMonitors.ThrottleMonitor.constructor | firmware/monitor-app/src/monitors/throttle.rs:13-18 | keeps the throttle and starts a fresh, full grace timeout |
| ThrottleMonitors.ThrottleMonitor.Check | firmware/monitor-app/src/monitors/throttle.rs:20-31 | counter and result follow `CheckStep`; only the timeout is modified, the throttle only read |
| MainAppMonitors.MainAppMonitor.constructor | firmware/monitor-app/src/monitors/main_app.rs:11-16 | latest ping 0 and a full timeout |
| MainAppMonitors.MainAppMonitor.SendPing | firmware/monitor-app/src/monitors/main_app.rs:18-24 | never fails; the ping number goes up by exactly 1 and the timeout is refilled |
| MainAppMonitors.MainAppMonitor.Tick | firmware/monitor-app/src/monitors/main_app.rs:26-32 | runs the timeout down by the tick step and reports an expiry as `Timout`; the ping number is unchanged |
| MainAppMonitors.TicksAfterPing | firmware/monitor-app/src/monitors/main_app.rs:26-32 | after `new(n)` or a ping, exactly the first n ticks succeed and every later one is `Timout` |
| TorqueMonitors.TorqueMonitor.constructor | firmware/monitor-app/src/monitors/torque.rs:11-16 | two distinct timeouts, starting full at f and e |
| TorqueMonitors.TorqueMonitor.Tick | firmware/monitor-app/src/monitors/torque.rs:18-21 | only the frame timeout runs down, and its expiry is `Timout`; the error timeout is unchanged |
| TorqueMonitors.TorqueMonitor.Frame | firmware/monitor-app/src/monitors/torque.rs:23-30 | every torque request is accepted, whatever the accelerator position, torque or counter; no timeout changes |
| Buttons.SampleStep | firmware/direction-app/src/button.rs:14-35 | agreeing samples empty or fill the counter; a rising sample adds 1 and flips exactly at LIMIT; a falling sample subtracts 1 and flips exactly at 0; the invariant is kept |
| Buttons.PressCounts | firmware/direction-app/src/button.rs:18-26 | from released with counter c, k rising samples give (false, c + k) below LIMIT, else (true, LIMIT) |
| Buttons.ReleaseCounts | firmware/direction-app/src/button.rs:27-31 | from pressed with counter c, k falling samples give (true, c - k) while k < c, else (false, 0) |
| Buttons.ExactlyLimitSamples | firmware/direction-app/src/button.rs:14-35 | a released filter reports pressed exactly after LIMIT rising samples, and a pressed one reports released exactly after LIMIT falling samples |
| Buttons.GlitchFiltered | firmware/direction-app/src/button.rs:16-26 | a single contrary sample does not flip a released filter, and the next agreeing sample empties the counter |
| Buttons.ButtonFilter.constructor | firmware/direction-app/src/button.rs:7-12 | the counter starts at LIMIT when pressed and at 0 when released |
| Buttons.ButtonFilter.Sample | firmware/direction-app/src/button.rs:14-35 | the new state follows `SampleStep` and is the value returned; the invariant `value ==> 1 <= counter <= LIMIT`, `!value ==> counter < LIMIT` is kept, so neither the increment nor the decrement leaves `u32` |
| Board.CommandId | firmware/monitor-app/src/board.rs:26-30 | always standard identifier 0x123 |
| Board.CommandData | firmware/monitor-app/src/board.rs:32-42 | one byte, 1 exactly for on and 0 exactly for off |
| Board.FromFrame | firmware/monitor-app/src/board.rs:44-54 | Ok exactly for identifier 0x123 with first byte 0 or 1, switching on exactly for 1; any other first byte or identifier is an error |
| Board.RoundTrip | firmware/monitor-app/src/board.rs:26-54 | decoding the frame of a command gives the command back |
| Board.DecodedReencodes | firmware/monitor-app/src/board.rs:44-54 | a decoded command re-encodes to the frame's identifier and first byte |

## Left out

- `firmware/common/src/monitor_message.rs` is not part of this model. Its wire format is that of the postcard serialisation library, whose code is not available.
- `firmware/common/src/monitor_serial.rs` is not part of this model. It is serial I/O; its poll is a stub and its send does not compile.
- The `Board` struct in `firmware/monitor-app/src/board.rs` is left out, including its `ev_can_send` and `ev_can_receive`. It is clock, GPIO, CAN-peripheral and serial setup and access, all hardware.
- The `main.rs` files of the four applications are left out. They are peripheral initialisation, busy loops and async tasks sharing atomics, which is hardware glue and concurrency.
- EvCan.FromTorqueRequestData: modelled as the source's stub returning a zero request. Its body does not parse (line 49) and extracts nothing, so no CRC, length or field check is modelled.
- The source's `ev_can` unit test expects identifier 0x1d4 and zeroed torque and CRC bytes. The encoder produces neither, so the test is not asserted; `EvCan.ExampleRequest` states what the encoder does produce.
- The throttle-monitor unit test names a variant `MonitorError::ThrottleError` that does not exist. It is modelled with the real variant `Throttle`.
- EvCan.ToTorqueRequestData: generates the 0x85 table on every call. The source builds it once at compile time, from the same function.
- Policies the source leaves as TODO are not modelled:
  - the torque-versus-accelerator cross-check in `TorqueMonitor::frame`;
  - sending the ping and correlating the pong in `MainAppMonitor`.
- No code in the source acts on a monitor error: the monitors only return it, and the monitor application never builds a monitor.
- TorqueMonitors.TorqueMonitor.Frame: the `Err(Torque)` branch is not modelled. The frame type has only the torque-request variant, so that branch cannot be reached.
- Buttons.ButtonFilter.constructor: requires LIMIT >= 1. With LIMIT = 0, `new(true)` followed by a falling sample underflows the `u32` decrement. The firmware uses LIMIT = 3.
- MainAppMonitors.MainAppMonitor.SendPing: requires the ping number to be below `u32::MAX`. The source's `+= 1` overflows there.
- Board.FromFrame: requires a frame with identifier 0x123 to carry at least one data byte. The source unwraps and indexes the data there and panics otherwise.
- Timeouts.Timeout.constructor: the `usize` reset value and counter are modelled as unbounded naturals. The counter never rises above the reset value, so `usize` overflow cannot arise.
- `Throttles.ThrottleError.IntegerError` carries no payload. The standard library's conversion error it wraps has no observable content, and the variant is never produced.
- The `bxcan` crate is not part of this model. `bxcan.dfy` gives only what the codecs use of its identifiers, data fields and frames.
- The dispatcher receives frames through the CAN peripheral, which is not modelled; frames are plain values.
