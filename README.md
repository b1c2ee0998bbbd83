# Daikin Altherma 4 Modbus integration — a verified model

This project models the Home Assistant integration for Daikin Altherma 4 heat pumps over
Modbus TCP, in Dafny. Three parts are covered.

- **The poll cycle of the coordinator** (`custom_components/…/coordinator.py`, and the older
  root `coordinator.py`). It reads the input-register block, turns each catalog entry into a
  snapshot entry `id -> {value, input_type, address}` and drops the sentinel word 32766.
  Discrete inputs, coils and holding registers are read best effort. Holding registers fall
  back to the input block when their read raises. Binary-sensor entries never overwrite an id.
- **The edge tracker** that follows the decode. "running" sensors are on at 0 and "problem"
  sensors at 1. An off→on transition stamps the address with the cycle's time. Stamps are
  sticky and republished as `last_triggered_<address>`. `previous_data` becomes a copy of the
  published snapshot. The coordinator object takes the tracker's id lookup as a
  constructor argument: `AsWritten` is the lookup of the code, `Corrected` the one the
  Findings section proposes.
- **The entity layer.**
  - The input sensors' signed decode, enum labels and scale.
  - The synthetic heat-power, CoP and Delta-T sensors, in exact arithmetic.
  - The number entities' decode and their encode-and-write path.
  - The thermostat's offset, HVAC-mode, fan-mode and action mappings, and its
    clamp-then-encode write.
  - The select entities' options, current option and write-back.

The Modbus client is replaced by values.

- A read is a `ReadResult`: `Response(values)`, `ErrorResponse` (the response's `isError()`),
  or `Raised` (the call raised).
- Connecting is a `connected` flag.
- A write is appended to the write log of a `ModbusLink` object, with a flag saying whether
  the write raised.
- Refresh requests are counted on the same object.
- The clock is a `now` parameter.

Python's semantics are written out where the code relies on them.

- List indexing: negative indices wrap, and out-of-range indices raise IndexError.
- Slicing clamps its bounds.
- `str * int` repeats the string.
- `int()` truncates toward zero.
- `round(x, 0)` rounds half to even.
- Dict lookups with a default.

An exception the code would raise is a `Failure(PyError)`. Ids are real strings:
`f"…{address}"` is modelled by a decimal rendering that is proved injective. This makes the
code's id mismatches visible.

- The coordinator's default ids (`"{address-1}"`, `"holding_{address-1}"`,
  `"binary_{address-1}"`) never equal the entities' default ids
  (`"<domain>_input_{address}"`, `"<domain>_holding_{address}"`).
  `Sensor.DefaultInputIdsNeverMeet` proves it for input sensors. A catalog entry without
  `unique_id` therefore never shows its own register under the default ids. It shows a
  value only when its default id is another entry's explicit `unique_id`. For example, a
  holding entry at address 2 without `unique_id` looks up `<domain>_holding_2`, the id of
  the operation-mode select entry (`custom_components/ha_daikin_altherma4_modbus/const_backup.py:590`).
- Some enum maps of the catalog carry a stray `"translation_key"` entry
  (`custom_components/ha_daikin_altherma4_modbus/const_backup.py:591-596`). Its value is
  offered as an extra select option, and choosing it writes the string key
  (`Select.OperationModeSelectOffersTranslationKey`).
- Writes go to the catalog address unchanged, while the coordinator reads a holding register
  at `address - 1`.

Three behaviours of `coordinator.py` that a reader might not expect:

- Only a failed input-register read fails the cycle. The discrete-input, coil and holding
  reads are best effort.
- Signed conversion and scaling happen in the entities. The snapshot holds raw words.
- An input or binary entry that lies past the end of the returned block raises IndexError.
  That fails the whole cycle; the entry is not skipped.

Modules, one per file:

- `wrappers.dfy`: Option and Result.
- `decimal.dfy`: integer rendering.
- `python.dfy`: the Python semantics above.
- `registers.dfy`: catalog, snapshot and 16-bit codec.
- `transport.dfy`: read results, read requests, and the write log.
- `poll_cycle.dfy`: the decode and tracking specifications.
- `poll_properties.dfy`: their properties and the finding.
- `coordinator.dfy`: the coordinator class, with its loops proved against the specifications.
- `legacy_coordinator.dfy`: the root coordinator.
- `sensor.dfy`, `number.dfy`, `climate.dfy` and `select.dfy`: the entity platforms.

## Model

| member | source | states |
|---|---|---|
| Decimal.IntToString | custom_components/ha_daikin_altherma4_modbus/coordinator.py:98 | the decimal rendering used in ids is never empty |
| Decimal.IntToStringSign | custom_components/ha_daikin_altherma4_modbus/coordinator.py:98 | the rendering starts with '-' exactly for a negative number |
| Decimal.NatToStringDigits | custom_components/ha_daikin_altherma4_modbus/coordinator.py:98 | every character of a non-negative number's rendering is a decimal digit |
| Decimal.PrefixedIdsInjective | custom_components/ha_daikin_altherma4_modbus/coordinator.py:98-99 | two ids made of the same prefix and a rendered address are equal only for equal addresses |
| Python.Index | custom_components/ha_daikin_altherma4_modbus/coordinator.py:101 | `registers[i]` raises IndexError exactly when i is outside [-len, len); inside [0, len) it is the i-th word, and a negative i counts from the end |
| Python.SliceFrom | custom_components/ha_daikin_altherma4_modbus/coordinator.py:112 | a slice of `count` words from a non-negative start is the part of the block that exists, and is empty past its end |
| Python.Repeat | custom_components/ha_daikin_altherma4_modbus/sensor.py:199 | a label times an int scale is k copies of the label: length k times the label's, starting with the label and repeating with the label's length as period; empty for k of 0 or less |
| Python.Trunc | custom_components/ha_daikin_altherma4_modbus/number.py:77 | `int(x)` is the integer part of x, rounding toward zero on both sides of 0 |
| Registers.LookupKey | custom_components/ha_daikin_altherma4_modbus/sensor.py:196 | `enum_map.get(k)` yields a label exactly when k is a key, and that label belongs to k |
| Registers.Labels | custom_components/ha_daikin_altherma4_modbus/select.py:44 | the options are the enum map's values in insertion order, one per entry |
| Registers.Get | custom_components/ha_daikin_altherma4_modbus/sensor.py:183-188 | a snapshot lookup is empty exactly when the id is absent |
| Registers.Signed16Range | custom_components/ha_daikin_altherma4_modbus/sensor.py:191-192 | every word decodes into [-32768, 32767], congruent to itself modulo 65536 |
| Registers.SignedRoundTrip | custom_components/ha_daikin_altherma4_modbus/number.py:64-81 | encoding a signed 16-bit value gives a word that decodes back to it |
| Registers.UnsignedRoundTrip | custom_components/ha_daikin_altherma4_modbus/number.py:64-81 | decoding a word and encoding the result gives the word back |
| PollCycle.MaxPdu | custom_components/ha_daikin_altherma4_modbus/coordinator.py:78-80 | the block end is the largest 0-based address of the catalog and belongs to one of its entries |
| PollCycle.MinPdu | custom_components/ha_daikin_altherma4_modbus/coordinator.py:127-130 | the discrete-input and coil block start is the smallest 0-based address and belongs to an entry |
| PollCycle.InputFrom | custom_components/ha_daikin_altherma4_modbus/coordinator.py:92-121 | the input loop only ever stores register readings |
| PollCycle.BitsFrom | custom_components/ha_daikin_altherma4_modbus/coordinator.py:134-146 | the discrete-input and coil loops only store readings |
| PollCycle.HoldingFrom | custom_components/ha_daikin_altherma4_modbus/coordinator.py:196-211 | the holding loop only stores readings |
| PollCycle.FallbackFrom | custom_components/ha_daikin_altherma4_modbus/coordinator.py:219-235 | the fallback loop only stores readings |
| PollCycle.BinaryFrom | custom_components/ha_daikin_altherma4_modbus/coordinator.py:238-253 | the binary-sensor loop only stores readings |
| PollCycle.Decode | custom_components/ha_daikin_altherma4_modbus/coordinator.py:77-253 | a decoded snapshot holds no timestamps, only register readings |
| PollCycle.TrackFrom | custom_components/ha_daikin_altherma4_modbus/coordinator.py:257-279 | after tracking, timestamps sit only under `last_triggered_*` keys |
| PollCycle.LastTriggeredKeyIsOne | custom_components/ha_daikin_altherma4_modbus/coordinator.py:279 | the republished key has the `last_triggered_` form |
| PollProperties.InputBlockCoversCatalog | custom_components/ha_daikin_altherma4_modbus/coordinator.py:78-84 | the input read starts at 0, and every catalog entry's 0-based address lies inside the block it requests |
| PollProperties.InputFromSucceeds | custom_components/ha_daikin_altherma4_modbus/coordinator.py:100-112 | the input loop cannot raise when every entry's index lies inside the returned block |
| PollProperties.FullInputBlockDecodes | custom_components/ha_daikin_altherma4_modbus/coordinator.py:78-121 | a block of the requested length always decodes |
| PollProperties.InputFromFrame | custom_components/ha_daikin_altherma4_modbus/coordinator.py:92-121 | ids no input entry produces are left as they were |
| PollProperties.InputEntryDecoded | custom_components/ha_daikin_altherma4_modbus/coordinator.py:100-121 | a single-word entry is present exactly when its word is not 32766 and then holds `{raw, input_type, address-1}`; a multi-word entry holds the slice of `count` words unless its first word is 32766 |
| PollProperties.BitsFromFrame | custom_components/ha_daikin_altherma4_modbus/coordinator.py:134-146 | ids no bit entry produces are left as they were |
| PollProperties.BitEntryDecoded | custom_components/ha_daikin_altherma4_modbus/coordinator.py:134-146 | a bit entry whose offset is inside the returned bits holds 1 or 0 for the bit, its input type and the 1-based address; one outside changes nothing |
| PollProperties.DiscreteFailureAddsNothing | custom_components/ha_daikin_altherma4_modbus/coordinator.py:124-152 | a failed or raising discrete-input read gives the same cycle as a catalog without discrete inputs |
| PollProperties.CoilFailureAddsNothing | custom_components/ha_daikin_altherma4_modbus/coordinator.py:155-183 | a failed or raising coil read gives the same cycle as a catalog without coils |
| PollProperties.HoldingErrorResponseKeeps | custom_components/ha_daikin_altherma4_modbus/coordinator.py:195-215 | an error response to the holding read only logs: the snapshot is unchanged and no fallback runs |
| PollProperties.HoldingEntryDecoded | custom_components/ha_daikin_altherma4_modbus/coordinator.py:196-211 | with distinct ids and a holding loop that did not raise, an entry whose 0-based address is below the block length holds `hr.registers[address-1]`, its input type (default "holding") and the 1-based address exactly when that word is not 32766; otherwise, and past the block, its id keeps what it had |
| PollProperties.HoldingFromFrame | custom_components/ha_daikin_altherma4_modbus/coordinator.py:196-211 | ids no holding or select entry produces are left as they were |
| PollProperties.HoldingFromSucceeds | custom_components/ha_daikin_altherma4_modbus/coordinator.py:196-211 | the holding loop never raises for catalog addresses of 1 or more; an address past the block is only logged |
| PollProperties.FallbackOnlyOnException | custom_components/ha_daikin_altherma4_modbus/coordinator.py:193-235 | for catalog addresses of 1 or more, a holding response is decoded from the holding block alone, an error response keeps the snapshot, and only a raised read runs the fallback |
| PollProperties.FallbackOnlyFromInputBlock | custom_components/ha_daikin_altherma4_modbus/coordinator.py:216-235 | every entry after the fallback was there before or comes from an entry with `start <= address-1 <= end` whose input word is not 32766 |
| PollProperties.FallbackFromFrame | custom_components/ha_daikin_altherma4_modbus/coordinator.py:219-235 | ids no holding or select entry produces are left as they were by the fallback |
| PollProperties.FallbackEntryDecoded | custom_components/ha_daikin_altherma4_modbus/coordinator.py:219-235 | with distinct ids, every entry whose 0-based address lies in [0, end] is stored with the input word there, its input type and the 1-based address exactly when that word is not 32766; other entries keep what their id had |
| PollProperties.FallbackFromSucceeds | custom_components/ha_daikin_altherma4_modbus/coordinator.py:224-225 | the fallback cannot raise when the block reaches `end` |
| PollProperties.BinaryNeverOverwrites | custom_components/ha_daikin_altherma4_modbus/coordinator.py:243 | every id present before the binary loop keeps its entry |
| PollProperties.BinaryFromSucceeds | custom_components/ha_daikin_altherma4_modbus/coordinator.py:243-244 | the binary loop cannot raise when every binary address lies inside the block |
| PollProperties.BinaryFromFrame | custom_components/ha_daikin_altherma4_modbus/coordinator.py:238-253 | ids no binary entry produces are left as they were |
| PollProperties.BinaryEntryDecoded | custom_components/ha_daikin_altherma4_modbus/coordinator.py:238-253 | a binary entry with a new id is present exactly when its word is not 32766 and then holds the raw word and the 1-based address |
| PollProperties.FullInputBlockSucceeds | custom_components/ha_daikin_altherma4_modbus/coordinator.py:77-253 | with a full input block and binary addresses inside it, the cycle succeeds whatever the discrete, coil and holding reads return |
| PollProperties.InputFailureIsFatal | custom_components/ha_daikin_altherma4_modbus/coordinator.py:84-86 | an error response or exception on the input read fails the cycle |
| PollProperties.LastTriggeredKeysDiffer | custom_components/ha_daikin_altherma4_modbus/coordinator.py:279 | different addresses are republished under different keys |
| PollProperties.EdgesIgnoreStamps | custom_components/ha_daikin_altherma4_modbus/coordinator.py:260-279 | republishing a timestamp does not change whether any tracked sensor has a rising edge |
| PollProperties.TrackedTimes | custom_components/ha_daikin_altherma4_modbus/coordinator.py:257-275 | an address has a stamp afterwards exactly when it had one before or has a rising edge now; an edge stamps `now`; otherwise the stamp is kept |
| PollProperties.TrackFromFrame | custom_components/ha_daikin_altherma4_modbus/coordinator.py:257-279 | untracked addresses keep their stamps and their `last_triggered_*` entries |
| PollProperties.TrackedTimesPublished | custom_components/ha_daikin_altherma4_modbus/coordinator.py:277-279 | every stamped tracked address is republished under `last_triggered_<address>` with its stamp |
| PollProperties.PublishedPersists | custom_components/ha_daikin_altherma4_modbus/coordinator.py:268-279 | once an address's stamp is republished under `last_triggered_<address>`, the rest of the tracking loop keeps it there |
| PollProperties.TrackingKeepsReadings | custom_components/ha_daikin_altherma4_modbus/coordinator.py:255-279 | tracking changes no key other than `last_triggered_*` keys |
| PollProperties.DefaultTrackIdMissesDecodedId | custom_components/ha_daikin_altherma4_modbus/coordinator.py:241-259 | without `unique_id`, the id the tracker reads differs from the id the binary loop wrote |
| PollProperties.AsWrittenTrackerReadsNeighbour | custom_components/ha_daikin_altherma4_modbus/coordinator.py:241-275 | for any two "running" sensors without ids at adjacent addresses a and a+1 (the pump at 29 and the compressor at 30 of the catalog), input words 1 at a-1 and 0 at a decode to both entries; the tracker as written stamps the sensor at a from its neighbour's 0 and never stamps the one at a+1, while the corrected tracker stamps exactly a+1 |
| PollProperties.CorrectedTrackerReadsOwnRegister | custom_components/ha_daikin_altherma4_modbus/coordinator.py:241-261 | with the tracker reading the id the binary loop wrote, each binary sensor's tracked value is its own register's word |
| Coordinator.DecodeInputs | custom_components/ha_daikin_altherma4_modbus/coordinator.py:89-121 | the input loop computes the input fold, raising where it raises |
| Coordinator.DecodeInput | custom_components/ha_daikin_altherma4_modbus/coordinator.py:93-121 | one iteration of the input loop computes one input step: IndexError outside the block, the sentinel skipped, otherwise the word or slice stored |
| Coordinator.DecodeBits | custom_components/ha_daikin_altherma4_modbus/coordinator.py:134-146 | the bit loop computes the bit fold |
| Coordinator.DecodeBitTable | custom_components/ha_daikin_altherma4_modbus/coordinator.py:124-183 | a discrete-input or coil section computes its phase: skipped when empty, nothing added on failure |
| Coordinator.DecodeFallback | custom_components/ha_daikin_altherma4_modbus/coordinator.py:219-235 | the fallback loop computes the fallback fold |
| Coordinator.DecodeHolding | custom_components/ha_daikin_altherma4_modbus/coordinator.py:186-235 | the holding section computes its phase, falling back from the entries stored so far when the read or the loop raises |
| Coordinator.DecodeBinaries | custom_components/ha_daikin_altherma4_modbus/coordinator.py:238-253 | the binary loop computes the binary fold |
| Coordinator.DecodeBinary | custom_components/ha_daikin_altherma4_modbus/coordinator.py:239-253 | one iteration of the binary loop computes one binary step: an id already present is skipped, the sentinel skipped, otherwise the word stored with the 1-based address |
| Coordinator.ReadCycle | custom_components/ha_daikin_altherma4_modbus/coordinator.py:77-253 | the read phase computes the decoded snapshot of the cycle; it issues the input read (none for an empty catalog), and only after the input loop succeeds the discrete and coil reads of non-empty lists and one holding read when holding or select entries exist |
| Coordinator.DaikinAlthermaCoordinator.TrackEdges | custom_components/ha_daikin_altherma4_modbus/coordinator.py:257-279 | the tracking loop updates `data` and `last_triggered` as the tracking fold does for the object's tracker, which is either the lookup as written at line 259 or the corrected one; timestamps stay under `last_triggered_*` keys |
| Coordinator.DaikinAlthermaCoordinator.UpdateData | custom_components/ha_daikin_altherma4_modbus/coordinator.py:77-287 | a failed cycle leaves data, previous data and stamps unchanged; a successful one publishes the decoded snapshot, tracked with the object's tracker (the lookup as written at line 259 or the corrected one), in both `data` and `previous_data`, and issues the reads in order |
| LegacyCoordinator.LowestAddress | coordinator.py:39-40 | the block start is the smallest catalog address and belongs to an entry |
| LegacyCoordinator.HighestAddress | coordinator.py:39-41 | the block end is the largest catalog address and belongs to an entry |
| LegacyCoordinator.LegacyFrom | coordinator.py:50-60 | the loop only adds keys |
| LegacyCoordinator.LegacyDecodeLoop | coordinator.py:50-60 | the loop computes the legacy fold, raising where it raises |
| LegacyCoordinator.LegacyFromSucceeds | coordinator.py:57-60 | the loop cannot raise when every offset lies inside the block |
| LegacyCoordinator.LegacyFullBlockSucceeds | coordinator.py:39-60 | a block of the requested length decodes whenever the binary addresses lie inside the input range |
| LegacyCoordinator.LegacyEveryEntryStored | coordinator.py:51-60 | every input and binary address is a key afterwards, with no sentinel filtering |
| LegacyCoordinator.LegacyFromFrame | coordinator.py:51-60 | keys no entry produces are left as they were |
| LegacyCoordinator.LegacyLastEntryWins | coordinator.py:51-60 | an address holds the word, or the slice of `count` words, of the last entry with that address |
| LegacyCoordinator.LegacyTrackedTimes | coordinator.py:65-80 | an address has a stamp exactly when it had one or has a rising edge now; an edge stamps `now`; otherwise the stamp is kept |
| LegacyCoordinator.LegacyTrackFromFrame | coordinator.py:65-84 | untracked addresses keep their stamps and `last_triggered_*` entries |
| LegacyCoordinator.LegacyTimesPublished | coordinator.py:82-84 | every stamped tracked address is republished with its stamp |
| LegacyCoordinator.DaikinAlthermaCoordinator.TrackEdges | coordinator.py:64-84 | the tracking loop updates `data` and `last_triggered` as the legacy tracking fold does |
| LegacyCoordinator.DaikinAlthermaCoordinator.Update | coordinator.py:38-92 | a failed cycle leaves the object unchanged; a successful one publishes the tracked snapshot in `data` and `previous_data` |
| Sensor.InputSensorFor | custom_components/ha_daikin_altherma4_modbus/sensor.py:24-34 | the setup gives scale 1 and the id `<domain>_input_<address>` when the catalog entry has none |
| Sensor.InputValueRecoversWord | custom_components/ha_daikin_altherma4_modbus/sensor.py:180-205 | a plain word shows as a value whose quotient by the scale is a signed 16-bit number that encodes back to the word |
| Sensor.InputValueShowsLabel | custom_components/ha_daikin_altherma4_modbus/sensor.py:191-199 | with scale 1, a signed value the enum map knows shows as its label |
| Sensor.InputValueRejectsWordLists | custom_components/ha_daikin_altherma4_modbus/sensor.py:186-191 | a multi-word value raises TypeError at the comparison with 32767 |
| Sensor.DefaultInputIdsNeverMeet | custom_components/ha_daikin_altherma4_modbus/sensor.py:34 | without `unique_id`, the sensor's id is never the id under which the coordinator stores the register |
| Sensor.HeatPowersAgree | custom_components/ha_daikin_altherma4_modbus/sensor.py:227-275 | the heat-power sensor and the CoP's heat power are the same number, `0.007 * flow * (vl - rl)` on raw values, with missing values read as 0 |
| Sensor.HeatPowerFromDeltaT | custom_components/ha_daikin_altherma4_modbus/sensor.py:234-239 | the heat power is `0.7 * flow * DeltaT` |
| Sensor.CoPIsRatio | custom_components/ha_daikin_altherma4_modbus/sensor.py:294-309 | the CoP is a number exactly when the electric power is truthy and positive and the heat power is positive, and then it times the power is the heat power |
| Sensor.LastTriggeredShowsTracker | custom_components/ha_daikin_altherma4_modbus/sensor.py:327-330 | with either tracker (the lookup as written or the corrected one), a last-triggered sensor shows its address's stamp once it is set, and `now` after a rising edge |
| Number.NumberFor | custom_components/ha_daikin_altherma4_modbus/number.py:13-42 | the setup defaults are range 0 to 100, step 1, scale 1 and id `<domain>_holding_<address>`; an empty id becomes `<domain>_<address>` |
| Number.SetNativeValue | custom_components/ha_daikin_altherma4_modbus/number.py:76-84 | division by a zero scale raises before any write; otherwise exactly one write of the encoded word to the catalog address, then one refresh unless the write raised |
| Number.ShownValueWritesSameWord | custom_components/ha_daikin_altherma4_modbus/number.py:50-81 | setting the value the entity shows writes back the word it was read from, for enum keys only when the scale is 1 |
| Number.EncodedWordDecodes | custom_components/ha_daikin_altherma4_modbus/number.py:64-81 | a value whose truncated quotient is a signed 16-bit number is written as a word in [0, 65535] that decodes to that quotient |
| Number.ScaleOneRoundTrip | custom_components/ha_daikin_altherma4_modbus/number.py:50-81 | with scale 1, every v in [-32768, 32767] is written as a word in [0, 65535] that reads back as v |
| Number.EncodeExamples | custom_components/ha_daikin_altherma4_modbus/number.py:77-81 | 21.5 with scale 0.01 is written as 2150, and -3 with scale 1 as 65533 |
| Climate.OffsetConfig | custom_components/ha_daikin_altherma4_modbus/climate.py:42-50 | the offset configuration is an entry of the holding list with address 53, and ValueError exactly when there is none |
| Climate.FindOffsetConfig | custom_components/ha_daikin_altherma4_modbus/climate.py:42-50 | the search loop returns the configuration, or ValueError |
| Climate.OffsetConfigIsFirst | custom_components/ha_daikin_altherma4_modbus/climate.py:44-46 | the configuration found is the first entry with address 53 |
| Climate.RoundHalfEven | custom_components/ha_daikin_altherma4_modbus/climate.py:144 | `round(t, 0)` is within one half of t, and ties go to the even integer |
| Climate.RoundingKeepsIntegers | custom_components/ha_daikin_altherma4_modbus/climate.py:144 | a whole-number temperature is not changed by the rounding |
| Climate.ClampedOffsetWithinLimits | custom_components/ha_daikin_altherma4_modbus/climate.py:138-144 | the written offset lies within the configured limits, and equals the rounded temperature exactly when that lies within them |
| Climate.DefaultOffsetRawRange | custom_components/ha_daikin_altherma4_modbus/climate.py:140-151 | with the default limits -5 and 5 the word written is in 0..5 or 65531..65535 |
| Climate.WrittenOffsetReadsBack | custom_components/ha_daikin_altherma4_modbus/climate.py:62-77 | with integral limits in the 16-bit range and scale 1, the target temperature read from the written word is the clamped offset |
| Climate.SetTemperature | custom_components/ha_daikin_altherma4_modbus/climate.py:132-159 | no temperature writes nothing; a missing configuration raises ValueError before any write; otherwise exactly one write to register 53, then a refresh unless the write raised, whose exception is swallowed |
| Climate.SetHvacMode | custom_components/ha_daikin_altherma4_modbus/climate.py:161-171 | one write of the mode's word to register 2, then a refresh unless the write raised |
| Climate.SetFanMode | custom_components/ha_daikin_altherma4_modbus/climate.py:173-183 | one write of the fan mode's word to register 8, then a refresh unless the write raised |
| Climate.HvacModeRoundTrip | custom_components/ha_daikin_altherma4_modbus/climate.py:111-119 | the words 0, 1 and 2 and the modes AUTO, HEAT and COOL survive reading and writing back; other modes write 0 and read back as AUTO |
| Climate.FanModeRoundTrip | custom_components/ha_daikin_altherma4_modbus/climate.py:97-104 | the words 0, 1 and 2 and the three fan modes survive reading and writing back; other strings write 0 and read back as OFF |
| Climate.HvacActionCases | custom_components/ha_daikin_altherma4_modbus/climate.py:121-130 | idle exactly when the compressor value is falsy or missing, and heating exactly when it is truthy in HEAT mode |
| Climate.CurrentTemperatureVersusSensor | custom_components/ha_daikin_altherma4_modbus/climate.py:53-59 | the current temperature is the raw word times 0.01 and agrees with a signed sensor on the same register exactly for words up to 32767 |
| Select.SelectFor | custom_components/ha_daikin_altherma4_modbus/select.py:33-44 | a select's options are its enum map's labels in order, and its id is never empty |
| Select.SetupSelects | custom_components/ha_daikin_altherma4_modbus/select.py:15-27 | the setup loop builds the filtered entity list |
| Select.SetupKeepsEnumEntries | custom_components/ha_daikin_altherma4_modbus/select.py:15-24 | an entity exists for an entry exactly when its enum map is non-empty |
| Select.KeyFor | custom_components/ha_daikin_altherma4_modbus/select.py:69-70 | an option selects a key exactly when it is a label, and the key is the first in insertion order carrying it |
| Select.SelectOption | custom_components/ha_daikin_altherma4_modbus/select.py:66-73 | the first matching key is written once to the catalog address, then one refresh unless the write raised; no match writes nothing |
| Select.OptionsAreSelectable | custom_components/ha_daikin_altherma4_modbus/select.py:44-73 | every offered option writes a key, and nothing else does |
| Select.WrittenKeyShowsOption | custom_components/ha_daikin_altherma4_modbus/select.py:56-72 | with distinct keys, the key written for an option shows that option |
| Select.SelectingCurrentOptionWritesWord | custom_components/ha_daikin_altherma4_modbus/select.py:56-72 | with distinct labels, choosing the shown option writes back the word it was read from |
| Select.OperationModeSelectOffersTranslationKey | custom_components/ha_daikin_altherma4_modbus/const_backup.py:578-596 | the operation-mode select offers "2" as a fourth option, which writes the string key "translation_key" |

## Left out

- Connection handling and reconnecting with `asyncio.sleep` are left out. They are network
  I/O; their outcome is the `connected` parameter.
- The pymodbus calls are replaced by read results and a write log.
- `_generate_demo_data` is left out because it draws random numbers.
- `dt_util.now()` becomes one `now` per cycle. The source reads the clock once per rising
  edge, so two edges in one cycle can get slightly different times.
- `round(...)` on the sensor, climate and CoP values is left out, and so is binary
  floating-point scaling. All formulas are over exact reals.
- `Climate.RoundHalfEven` rounds exact values. Python rounds the float's binary value.
- `Number.SetNativeValue`: `value / scale` is exact division. Float division can truncate to
  a neighbouring integer.
- `Coordinator.DaikinAlthermaCoordinator.UpdateData` requires that no binary sensor's id
  starts with `last_triggered_`. Otherwise the source raises AttributeError after
  `self.data` was already replaced; that partial state change is not modelled.
- `Coordinator.DaikinAlthermaCoordinator.TrackEdges` has the same requirement, for the same
  reason.
- A write that raises is still recorded in the write log, as an attempted write.
- `ExternalElectricPowerSensor` and the `hass.states.get` lookup depend on the host
  platform. The external reading is an `Option<real>` argument of `Sensor.CoP`.
- `const.py` and `const_backup.py` are static tables. Entries appear only in the
  operation-mode select and in the finding's adjacent running sensors (the pump and the compressor).
- `switch.py` and both `binary_sensor.py` files are thin adapters and are left out.
- The root `number.py` is an obsolete duplicate and is left out.
- `config_flow.py`, `__init__.py` and `device_info.py` are setup glue and are left out.
- The entity-list loops of the sensor and number setups are modelled only by the
  per-entry constructors `Sensor.InputSensorFor` and `Number.NumberFor`.
- `extra_state_attributes`, names, units, icons and entity categories are presentation only.
- `Number.MODE` is the constant "slider"; the `mode` property returns it on both branches.
- Python's int/float distinction in results (an int times an int scale stays an int) is not
  kept; numbers are reals. It is kept for a label times a scale, where it decides between
  repetition and TypeError.

## Findings

| source | as written | input that shows it | evidently intended | confidence | as-written member | corrected member |
|---|---|---|---|---|---|---|
| custom_components/ha_daikin_altherma4_modbus/coordinator.py:259 | without `unique_id` the tracker looks up `binary_{address}`, while the binary loop (line 241) stored the entry under `binary_{address-1}` | two "running" binary sensors without `unique_id` at adjacent addresses a and a+1, such as the pump at 29 and the compressor at 30 of `const.py`; input words a-1 = 1 and a = 0. The tracker at a reads `binary_a`, which is the second sensor's word 0, and stamps the first sensor as switched on. The tracker at a+1 reads the absent `binary_{a+1}` and is never stamped. | the tracker reads the id the binary loop wrote, `binary_{address-1}` | not executed; latent with `const_backup.py`, whose binary sensors all carry `unique_id` | PollProperties.AsWrittenTrackerReadsNeighbour | PollProperties.CorrectedTrackerReadsOwnRegister |
