# ATAG bus bridge: frame pipeline model

A Dafny model of the bus-frame pipeline of a bridge between the serial bus
of an ATAG heating appliance and MQTT / InfluxDB. Bytes arrive one at a
time, each with a marker bit (the 9th, parity-position bit) that flags the
first byte of a transmission. The bridge groups the bytes into frames using
the marker and an inactivity timeout, decodes the one frame type it knows
(first byte `0x41`, 30 bytes) into temperatures, state, pressure, power and
flags, and integrates the burner power into an energy total.

The model has six modules:

- `BusTypes` (`bus_types.dfy`): bytes, frames, the 32-bit millisecond clock
  with its wrap-around subtraction, and the `int8_t` reading of a byte.
- `Format` (`format.dfy`): the text forms the bridge produces. These are
  `%02x` for the raw dump, `String(b, 16)` for tags and `String(int)` for
  published values. Each has a parser and a round-trip lemma.
- `Assembly` (`assembler.dfy`): the frame assembler. `Step` (one byte) and
  `Flush` (one timeout check) work on an abstract state. `Run` applies
  `Step` to a whole stream. Class `FrameAssembler` holds the 128-byte array,
  `packetSize`, `readingPacket` and `lastByteTime`. Its methods `Feed` and
  `CheckTimeout` are proved to follow `Step` and `Flush`. `Run` records each
  frame it hands over together with the clock reading of the byte that
  completed it.
- `Integration` (`integrator.dfy`): the trapezoidal energy integrator.
  `Accumulate` is one `update` call on an abstract state. Class `Integrator`
  holds the four fields and `Update` is proved to follow `Accumulate`.
- `Decoder` (`decoder.dfy`): `processPacket` as a pure function `Decode`.
  It maps a frame to the records the bridge emits, in order: the dump line,
  the `packet` point, the `raw` point, the `temperatures` / `pressures`
  points and the topic values.
- `Bridge` (`bridge.dfy`): the bus part of `loop()`. `ServiceBus` drains a
  sequence of samples through `Feed`, hands each completed frame to
  `ProcessPacket` (decoder plus integrator), then runs `CheckTimeout`. It is
  proved to equal the pure `Cycle`.

`millis()` and the serial reads become parameters: a `Sample` holds the
byte, its marker bit and the clock reading taken for it. The timeout check
and the integrator get the clock reading as an argument. A frame completed
by a marker byte is integrated at that byte's clock reading. A frame
completed by the timeout check is integrated at the check's clock reading.

Some behaviours of the code that the model keeps:

- Value 7 (offset 26) is read as `int8_t` everywhere, so a pressure byte of
  215 is -41 tenths, that is -4.1. See `Decoder.PressureExample`.
- A frame stops growing at 128 bytes. Nothing records that bytes beyond
  128 were dropped.
- Topics are rooted at the fixed prefix `atagbridge`.
- The first `update` leaves the running total unchanged. That total is 0
  only for a fresh integrator.
- The inactivity timeout is taken to be an unsigned 32-bit value. Its
  declared type lives in the configuration manager, which is not part of
  this model. The comparison is `Elapsed(now, lastByteTime) > timeout`.

## Model

| member | source | states |
|---|---|---|
| `BusTypes.Elapsed` | src/main.cpp:335 | `now - since` on the 32-bit counter: the plain difference when `now >= since`, otherwise the difference plus 2^32 |
| `BusTypes.ElapsedIsWrapSafe` | src/main.cpp:170 | readings taken less than 2^32 ms apart give the true elapsed time, however often the counter wrapped |
| `BusTypes.Signed` | src/main.cpp:213 | the `int8_t` reading of a byte lies in -128..127 and is congruent to the byte mod 256 |
| `Format.Hex2` | src/main.cpp:198-200 | `%02x` gives exactly two hex digits |
| `Format.HexTag` | src/main.cpp:206-207 | `String(b, 16)` gives one or two hex digits with no leading zero |
| `Format.HexTagRoundTrip` | src/main.cpp:206-207 | the `address` and `lastByte` tags read back as the byte they came from |
| `Format.DumpText` | src/main.cpp:197-202 | the dump line has 3 characters per byte plus 2, starts with `[`, has `]` after the first byte, and ends with a newline |
| `Format.DumpRoundTrip` | src/main.cpp:197-202 | the dump line `[%02x]` + ` %02x`... + `\n` parses back to the whole frame |
| `Format.HexTailRoundTrip` | src/main.cpp:199-200 | the ` %02x` part for the remaining bytes parses back to those bytes |
| `Format.NatToDecimal` | src/main.cpp:216 | `String(uint8_t)` gives decimal digits only, with no leading zero |
| `Format.IntToDecimal` | src/main.cpp:231-237 | `String(int)` starts with a digit or a minus sign |
| `Format.NatToDecimalRoundTrip` | src/main.cpp:216 | the decimal digits of n read back as n |
| `Format.IntToDecimalRoundTrip` | src/main.cpp:231-237 | every published integer, negative ones included, reads back as itself |
| `Assembly.Step` | src/main.cpp:317-332 | one byte keeps the invariant (frame at most 128 bytes; open exactly when it holds at least one byte). It stamps `lastByteTime` with every byte. It hands over a frame exactly when a marker byte meets an open frame |
| `Assembly.Flush` | src/main.cpp:334-339 | the timeout check keeps the invariant. When it hands over a frame, that frame is the open one and the state becomes idle and empty. Otherwise nothing changes |
| `Assembly.PowerOnIsIdle` | src/main.cpp:158-161 | the zero-initialised globals satisfy the invariant with no frame open, and the timeout check hands over nothing from them |
| `Assembly.Cap` | src/main.cpp:330 | what the buffer keeps of a byte sequence: the whole sequence when it has at most 128 bytes, otherwise exactly its first 128 |
| `Assembly.CapExtend` | src/main.cpp:330-331 | one more byte extends the kept prefix while it is below 128 bytes, and is dropped once the prefix is full |
| `Assembly.MarkerStartsFrame` | src/main.cpp:322-331 | a marker byte hands over the open frame (if there is one) and leaves a new open frame holding only the marker byte |
| `Assembly.IdleByteDiscarded` | src/main.cpp:319-331 | an unmarked byte with no frame open changes only `lastByteTime` |
| `Assembly.UnmarkedByteAppends` | src/main.cpp:330-331 | an unmarked byte keeps the stored bytes as a prefix, appends itself while the frame is below 128 bytes, and is dropped once the frame is full |
| `Assembly.FlushIdleIsNoop` | src/main.cpp:335 | the timeout check does nothing when no frame is open |
| `Assembly.FlushHandsOverOnce` | src/main.cpp:335-339 | after more than `timeout` ms of silence the open frame is handed over once, the state becomes idle and empty, and the next check hands over nothing |
| `Assembly.FlushWaits` | src/main.cpp:335 | a frame that has been silent for at most `timeout` ms stays open and unchanged |
| `Assembly.Run` | src/main.cpp:317-332 | the byte loop over a stream: each byte completes at most one frame, so there are never more hand-overs than samples. `RunLast`, `RunAppend` and the stream lemmas below give the rest of its meaning |
| `Assembly.RunLast` | src/main.cpp:317-332 | one more sample is one more `Step`, and the frame it completes, if any, is handed over at that sample's clock reading |
| `Assembly.RunKeepsInv` | src/main.cpp:158-161 | over any stream the invariant holds, and every frame handed over has 1 to 128 bytes |
| `Assembly.RunAppend` | src/main.cpp:317-332 | running two stretches of the stream one after the other is the same as running their concatenation, with the same hand-overs in the same order |
| `Assembly.NoMarkerNoFrames` | src/main.cpp:317-332 | a stream with no marker byte completes no frame |
| `Assembly.UnmarkedRun` | src/main.cpp:317-332 | unmarked bytes leave an idle assembler idle and extend an open frame with their bytes, cut at 128 |
| `Assembly.TwoMarkersOneFrame` | src/main.cpp:317-332 | from idle, two markers complete exactly one frame: the first marker byte, then the bytes up to the second marker, cut at 128. It is handed over at the second marker's clock reading, and that byte opens the next frame |
| `Assembly.SilenceCompletesFrame` | src/main.cpp:317-339 | a marker, some unmarked bytes, then silence: the timeout check hands over exactly those bytes (cut at 128) and leaves the assembler idle |
| `Assembly.FrameAssembler.constructor` | src/main.cpp:158-161 | the zero-initialised globals: an empty, idle buffer of 128 bytes |
| `Assembly.FrameAssembler.Feed` | src/main.cpp:318-331 | the byte loop body on the array follows `Step`. It keeps the same buffer and leaves the stored bytes unchanged for an unmarked byte |
| `Assembly.FrameAssembler.CheckTimeout` | src/main.cpp:335-339 | the timeout check on the array follows `Flush` and never writes the buffer |
| `Integration.Seconds` | src/main.cpp:170 | the wrap-safe time step in seconds is never negative |
| `Integration.Accumulate` | src/main.cpp:165-181 | every update clears `firstTime` and records the value and clock reading as the last sample |
| `Integration.FirstUpdateRecordsOnly` | src/main.cpp:169-178 | the first update leaves the result unchanged and only records the sample |
| `Integration.LaterUpdateAddsTrapezoid` | src/main.cpp:169-172 | every later update adds `0.5 * (lastValue + value) * (now - lastT) / 1000`, with unsigned subtraction |
| `Integration.TrapezoidNonNegative` | src/main.cpp:172 | the area between two non-negative samples is non-negative |
| `Integration.ResultNeverDecreases` | src/main.cpp:165-181 | with non-negative power samples the running integral never decreases |
| `Integration.ConstantPowerTwoSamples` | src/main.cpp:165-181 | a constant power p sampled d ms apart integrates to p·d/1000, even across a counter wrap |
| `Integration.Integrator.constructor` | src/main.cpp:183-188 | a new integrator starts with `firstTime` set and everything else zero |
| `Integration.Integrator.Update` | src/main.cpp:165-181 | `update` on the object follows `Accumulate` and returns the new running result |
| `Decoder.TopicPath` | src/main.cpp:36-52 | every topic is rooted at `atagbridge/` |
| `Decoder.Values` | src/main.cpp:213 | the eight values at offsets 19..26 are each a signed 8-bit reading of their byte |
| `Decoder.IsTypeA` | src/main.cpp:212 | a frame of the extracted type starts with 0x41 and is long enough to hold the sub-index and all eight values |
| `Decoder.IsTypeB` | src/main.cpp:294 | a frame of the recognised-only type is never also of the extracted type |
| `Decoder.StateName` | src/main.cpp:243-257 | the state table has a name exactly for the keys 0..9 |
| `Decoder.StatePayload` | src/main.cpp:256-261 | a state byte with a table entry publishes that entry's name; any other publishes the `int8_t` value in decimal |
| `Decoder.FlagText` | src/main.cpp:288-290 | a toggle is always "0" or "1", and it is "1" exactly when the tested bit of the value is set |
| `Decoder.Power` | src/main.cpp:279 | a percentage in 0..100 gives a power between 0 and the rated 21.6, 100 gives exactly 21.6, and the power is negative exactly when the percentage is |
| `Decoder.BlockRecords` | src/main.cpp:221-292 | the switch on the sub-index: 8 records for 3, 1 for 4, 2 for 6, 5 for 7, and none for any other sub-index |
| `Decoder.PowerOf` | src/main.cpp:277-283 | a frame hands a power sample to the integrator exactly when it is a (0x41, 30) frame with sub-index 7 |
| `Decoder.Decode` | src/main.cpp:192-296 | a frame produces no records exactly when it is shorter than 2 bytes. It produces more than the two diagnostic records only for a (0x41, 30) frame |
| `Decoder.DecodeOfTypeA` | src/main.cpp:212-221 | a (0x41, 30) frame gives the dump line, the `packet` point, the `raw` point, then the records of the block its sub-index selects |
| `Decoder.ShortFrameIsSilent` | src/main.cpp:194-195 | frames of 0 or 1 bytes produce nothing |
| `Decoder.DiagnosticsForEveryFrame` | src/main.cpp:197-210 | every frame of 2 or more bytes first gives the dump line and the `packet` point. The dump line reads back as the frame, the tags read back as its first and last byte, and `size` is its length |
| `Decoder.ExtractionOnlyForTypeA` | src/main.cpp:212-295 | fields are extracted exactly for first byte 0x41 with length 30. The `raw` point's index reads back as byte 18 and its eight values are bytes 19..26, signed. The (0x71, 41) frame gives the diagnostics only |
| `Decoder.EnergyOnlyForPowerFrames` | src/main.cpp:277-284 | the integrator's result affects the records only of frames that carry a power sample |
| `Decoder.TemperatureBlock` | src/main.cpp:222-240 | sub-index 3: the `temperatures` point is offsets 19..23. Then come flow, return, flow minus return, hot water, outside, exhaust, and nominal (offset 26), all in decimal |
| `Decoder.StatePayloadRoundTrip` | src/main.cpp:243-261 | the published state gives the table name for bytes 0..9 and the signed decimal otherwise. It always reads back as the signed value, so the two forms are never confused |
| `Decoder.StateNameRoundTrip` | src/main.cpp:243-254 | every name in the state table reads back as its key |
| `Decoder.StateBlock` | src/main.cpp:242-263 | sub-index 4: one `state` value, from offset 25, which reads back as that byte's signed value |
| `Decoder.PressureBlock` | src/main.cpp:266-274 | sub-index 6: the `pressures` point and the `pressure` topic carry offset 26, signed, in tenths |
| `Decoder.FlagIsBitOfByte` | src/main.cpp:287-290 | testing bits 0, 1 or 2 of the sign-extended value gives the same answer as testing them on the raw byte |
| `Decoder.PowerBlock` | src/main.cpp:277-291 | sub-index 7: power is `21.6 * offset 25 (signed) / 100`, then energy is the integrator total / 3600, then pump, heating and hot water are bits 0, 1 and 2 of offset 26 |
| `Decoder.OtherBlock` | src/main.cpp:221-293 | any other sub-index gives only the `raw` point after the diagnostics |
| `Decoder.TemperatureExample` | src/main.cpp:222-240 | values 20, 18, 45, -3, 60, 0, 0, 22 publish "20", "18", "2", "45", "-3", "60", "22" |
| `Decoder.ExampleDecimals` | src/main.cpp:231-237 | the concrete decimal strings the examples use |
| `Decoder.PressureExample` | src/main.cpp:268 | a pressure byte of 215 is -4.1, because it is read signed |
| `Decoder.StateNameExample` | src/main.cpp:257-259 | state byte 4 publishes "WW" |
| `Decoder.StateNumberExample` | src/main.cpp:256-261 | state byte 200, which is not in the table, publishes its signed value "-56" |
| `Decoder.PowerExample` | src/main.cpp:279 | 50 percent of the rated 21.6 is 10.8 |
| `Bridge.ProcessFrame` | src/main.cpp:192-296 | a frame that carries a power sample moves the integrator to `Accumulate` of it at the given clock reading. Other frames leave the integrator unchanged. Either way the records are `Decode` of the frame with the integrator's new result |
| `Bridge.ProcessAll` | src/main.cpp:317-339 | `processPacket` on a sequence of hand-overs in order. When none carries a power sample, the integrator is unchanged |
| `Bridge.Drain` | src/main.cpp:317-332 | the byte loop keeps the assembler invariant. Without a marker byte it emits nothing and leaves the integrator unchanged |
| `Bridge.Poll` | src/main.cpp:334-339 | the timeout check keeps the invariant. With no frame open, or with the frame silent for at most `timeout` ms, it changes nothing and emits nothing. Otherwise it closes the frame and emits `ProcessFrame` of it at the check's clock reading |
| `Bridge.Cycle` | src/main.cpp:317-339 | one pass keeps the invariant, and its assembler state is `Flush` of `Run`'s state |
| `Bridge.DrainFollowsRun` | src/main.cpp:317-332 | the byte loop's assembler state is `Run`'s state. Its new integrator and its records are exactly `ProcessAll` over `Run`'s hand-overs: every frame `Run` completes reaches `processPacket` once, in order, at the clock reading of its completing byte |
| `Bridge.QuietWithoutMarkers` | src/main.cpp:317-332 | with no marker on the bus, the byte loop emits nothing and leaves the integrator untouched |
| `Bridge.BackToBackMarkers` | src/main.cpp:322-331 | two markers in a row on an idle bus emit nothing; the second marker opens a new frame |
| `Bridge.EnergyPublished` | src/main.cpp:282-284 | the published energy is the integrator's new total divided by 3600 |
| `Bridge.HourAtHalfPower` | src/main.cpp:277-284 | 50 percent power at t = 0 and again one hour later publishes an energy of 10.8 |
| `Bridge.ProcessPacket` | src/main.cpp:192-296 | `processPacket` with the integrator object follows `ProcessFrame` |
| `Bridge.HandOver` | src/main.cpp:323-324 | a completed frame goes to `ProcessPacket`; with no frame, nothing happens |
| `Bridge.ServiceSample` | src/main.cpp:318-331 | one pass of the byte loop's body over the objects follows `Step` and `processPacket` on the completed frame |
| `Bridge.ServiceTimeout` | src/main.cpp:335-339 | the timeout check over the objects follows `Poll` |
| `Bridge.ServiceBus` | src/main.cpp:317-339 | the byte loop, then the timeout check, over the objects, follows `Cycle`: the same new assembler and integrator state and the same records in the same order |

## Left out

- Wi-Fi, captive portal, dashboard, web server, updater and configuration
  manager (`setup`, `applyConfiguration`, `mqttConnect`, `mqttDisconnect`,
  src/main.cpp:54-146). These are library calls with no frame logic. The
  `online` topic they publish is not modelled.
- The MQTT client, the InfluxDB client and `influxWrite`, and the TCP dump
  server. `Decode` returns the records they would receive. Sink failures
  and their logging are not modelled.
- The check whether a dump client is connected (src/main.cpp:197). The
  dump record is always produced, and a sink with no client drops it.
- The serial port (`RS485.available`, `read`, `readParity`) and `millis()`.
  They become the fields of `Sample` and the clock parameters.
- Floating point. Power, pressure, energy and the integrator's fields are
  real numbers, so float rounding and `float`/`double` conversions are not
  modelled. `String(float)` formatting is left to the sink: `FloatText`
  carries the exact value.
- The number of decimals InfluxDB is given for the pressure field (1).
- The InfluxDB field and tag formatting of integers, which the client does.
  Point fields carry the integer values.
- `std::map::operator[]` inserting an empty entry for an unknown state key.
  The table is a lookup that returns `Option`.
- The MQTT prefix as a build option. It is fixed at its default,
  `atagbridge`.
- The integrator's own `millis()` call (src/main.cpp:167). The model uses
  the clock reading of the byte or the check that completed the frame. The
  real reading comes later by however long the calls before it take: the
  dump `printf`s (198-201), the two `influxWrite` calls (209, 219) and
  `mqtt.publish` of the power (280). Those can be network round trips of
  many milliseconds, so the model's time step differs from the real one by
  the difference between those delays on consecutive power frames.
