# inRide protocol codec, modelled and verified in Dafny

The inRide power sensor talks to its host over Bluetooth in twenty-octet
packets. The codec in `DataProcessor` and `CommandFactory` does the work on the
host side:

- **Descrambler** (`translateBytes`). The top two bits of octet 0 of a
  telemetry packet choose one of four fixed rows of nineteen packet positions.
  Octets 1..19 are XOR-masked with the sum of the two following rows, then
  reordered by the chosen row.
- **Telemetry decoder** (`ProcessPowerData`). It checks the lengths of the
  packet and the system id, then descrambles the packet. It maps the state and
  command-result bits of octet 0 to their enumerations and reads seven counts at
  fixed little-endian offsets. It runs the crank reading through the cadence
  filter and derives speed, roller rate, spindown classification, coasting and
  power.
- **Configuration decoder** (`ProcessConfigurationData`). It reads six
  two-octet values and a four-octet spindown tick count from a twenty-octet
  packet, which is not scrambled.
- **Cadence filter** (`adjustCadence` and its static buffer). It calibrates each
  nonzero crank reading, pushes it as the newest mark of a ten-slot buffer and
  returns a weighted rolling average.
- **Command encoder** (`CommandFactory`). It derives a two-octet key from the
  sensor's six-octet system id and builds the start-calibration,
  stop-calibration, set-spindown-time and set-name frames.

Java integer semantics are modelled explicitly in module `JavaBits`:

- octets are `bv8` and `int` expressions are `bv32`;
- `(int) b` sign-extends (`Widen`) and `b & 0xFF` zero-extends (`Masked`);
- a `<< 24` into bit 31 makes the four-octet telemetry counts two's
  complement (`IntValue`, `Signed32`);
- `(byte)` keeps the low octet (`CastToByte`);
- `(int)` of a double truncates toward zero and saturates (`DoubleToInt`).

Java `double` arithmetic is exact `real` arithmetic. The exception is `alpha`,
where a division by a zero revolution count produces an infinity or NaN that
decides a branch; there the IEEE special values are modelled by `PowerModel.Double`.
Exceptions are `Result` values (`Results.Failure`).

Files:

| file | module | what it holds |
|---|---|---|
| `results.dfy` | `Results` | `Option`, `Result`, and the failures the Java code throws |
| `java_bits.dfy` | `JavaBits` | Java byte/int semantics and the lemmas that read octet expressions as numbers |
| `inride_data.dfy` | `InRideData` | the `PowerData` and `ConfigData` records and their enumerations |
| `descrambler.dfy` | `Descrambler` | `translateBytes` as functions and as the two in-place array loops; its inverse |
| `power_model.dfy` | `PowerModel` | ticks to seconds, speed, roller rate, spindown bands, `alpha`, `powerForSpeed` |
| `cadence_filter.dfy` | `CadenceFilter` | the filter as a state-transition function and as a class over an array |
| `data_processor.dfy` | `DataProcessor` | both decoders, and a reference packet builder with round-trip lemmas |
| `command_factory.dfy` | `CommandFactory` | the four frame builders, a reference frame parser and worked examples |

Three behaviours of the code are easy to miss, and the model keeps them as
the code has them:

- **Sign extension of configuration words.** The configuration counts are not
  unsigned 16-bit values. Every octet is sign-extended before it is combined,
  so a low octet of 0x80 or more overrides the octets above it
  (`SignExtended16`, `SignExtended32`, `ConfigurationSignExtension`).
- **Empty cadence slots.** The filter sums slots 1..size-1 whatever its count
  says. Unfilled slots do not count as 0: a slot never written throws a
  `NullPointerException`, after the buffer has already been updated. A stale
  reset only sets the count to 0, so the marks from before the gap are still
  read. The model returns `Err(NullCadenceMark)` and reads the stale marks
  (`FreshFilterStartup`, `StepShifts`).
- **Signed previous revolution count.** Octet 13 is read unmasked, so the
  previous revolution count is a signed byte (-128..127).

## Model

| member | source | states |
|---|---|---|
| JavaBits.SignedByte | com/kinetic/sdk/inride/DataProcessor.java:82 | an unmasked byte read as `long` lies in -128..127 and is congruent to the octet modulo 256 |
| JavaBits.SignedByteRoundTrip | com/kinetic/sdk/inride/DataProcessor.java:82 | a value in -128..127 stored as a byte reads back as itself |
| JavaBits.MaskedByteIsUnsigned | com/kinetic/sdk/inride/DataProcessor.java:80 | `b & 0xFF` is the unsigned value of the octet |
| JavaBits.MaskedWord16IsUnsigned | com/kinetic/sdk/inride/DataProcessor.java:83 | two masked octets combined with `<< 8` give their unsigned little-endian value |
| JavaBits.MaskedWord24IsUnsigned | com/kinetic/sdk/inride/DataProcessor.java:78 | three masked octets give their unsigned little-endian value |
| JavaBits.MaskedWord32IsSigned | com/kinetic/sdk/inride/DataProcessor.java:79 | four masked octets give the two's-complement reading of their little-endian value, negative exactly when the top octet is 0x80 or more |
| JavaBits.WidenedWord16Value | com/kinetic/sdk/inride/DataProcessor.java:22 | two sign-extended octets ORed together read as `SignExtended16`: a low octet with its top bit set yields its own negative value; otherwise the high octet counts as signed |
| JavaBits.WidenedWord32Value | com/kinetic/sdk/inride/DataProcessor.java:27 | four sign-extended octets ORed together read as `SignExtended32`: the first octet with its top bit set fills every octet above it |
| JavaBits.CastToByte | com/kinetic/sdk/inride/CommandFactory.java:53-56 | `(byte)` of an int keeps its value modulo 256 |
| JavaBits.ShiftedByteIsDigit | com/kinetic/sdk/inride/CommandFactory.java:53-56 | `(byte) (t >> 8k)`, an arithmetic shift then a cast, is octet k of t's 32-bit pattern: digit k of t modulo 2^32 |
| JavaBits.IntOctets | com/kinetic/sdk/inride/CommandFactory.java:53-56 | the four shifted octets of an int, least significant first (their value is stated by `IntOctetsRoundTrip`) |
| JavaBits.IntOctetDigits | com/kinetic/sdk/inride/CommandFactory.java:53-56 | the four octets of an int are, in order, the four base-256 digits of t modulo 2^32 |
| JavaBits.IntOctetsRoundTrip | com/kinetic/sdk/inride/CommandFactory.java:53-56 | the four octets of an int, read little-endian, give t modulo 2^32, and their two's-complement reading gives t |
| JavaBits.DoubleToInt | com/kinetic/sdk/inride/DataProcessor.java:253 | `(int)` of a double rounds toward zero, within one of the input inside the int range, and saturates at 2^31-1 and -2^31 outside it |
| Descrambler.PermutationsShaped | com/kinetic/sdk/inride/DataProcessor.java:278-283 | the table has four rows of nineteen entries, each naming a position 1..19 |
| Descrambler.Rotation | com/kinetic/sdk/inride/DataProcessor.java:277 | the rotation is the top two bits of octet 0, `b0 / 64`, so it is below 4 |
| Descrambler.MaskOctetIsSum | com/kinetic/sdk/inride/DataProcessor.java:289 | the mask of entry j is the plain sum of entry j of rows r+1 and r+2 (mod 4): the `(byte)` cast does not wrap |
| Descrambler.XorMask | com/kinetic/sdk/inride/DataProcessor.java:284-290 | octet 0 is kept; octet n is XORed with the byte sum of entry n-1 of rows r+1 and r+2 (mod 4) |
| Descrambler.XorMaskTwice | com/kinetic/sdk/inride/DataProcessor.java:288-290 | masking twice with the same rotation restores the packet |
| Descrambler.Reorder | com/kinetic/sdk/inride/DataProcessor.java:291-294 | octet 0 is kept; octet n of the result is the input octet at the position the row names at index n-1 |
| Descrambler.PermutationOfInverse | com/kinetic/sdk/inride/DataProcessor.java:279-282 | a row with an inverse names no position twice and names every position 1..19 |
| Descrambler.ReorderRestore | com/kinetic/sdk/inride/DataProcessor.java:291-294 | reordering undoes the inverse reordering |
| Descrambler.RestoreReorder | com/kinetic/sdk/inride/DataProcessor.java:291-294 | the inverse reordering undoes reordering |
| Descrambler.PermutationsInvertible | com/kinetic/sdk/inride/DataProcessor.java:279-282 | every row of the protocol table is a permutation of 1..19, with the given inverse |
| Descrambler.Descramble | com/kinetic/sdk/inride/DataProcessor.java:275-296 | the output has 20 octets with octet 0 unchanged; octet n is the wire octet at the position the chosen row names, XORed with that position's mask |
| Descrambler.DescrambleScramble | com/kinetic/sdk/inride/DataProcessor.java:275-296 | descrambling undoes the device-side scrambler |
| Descrambler.ScrambleDescramble | com/kinetic/sdk/inride/DataProcessor.java:275-296 | the scrambler undoes descrambling |
| Descrambler.TranslateIsBijective | com/kinetic/sdk/inride/DataProcessor.java:275-296 | under the protocol table two packets descramble alike exactly when they are equal, and every packet is the descrambling of some packet |
| Descrambler.Clone | com/kinetic/sdk/inride/DataProcessor.java:276 | a fresh array with the same contents |
| Descrambler.XorMaskInPlace | com/kinetic/sdk/inride/DataProcessor.java:284-290 | the in-place XOR loop leaves exactly `XorMask` of the old contents |
| Descrambler.ReorderInto | com/kinetic/sdk/inride/DataProcessor.java:291-294 | the fill loop leaves exactly `Reorder` of the masked copy |
| Descrambler.DescrambleBytes | com/kinetic/sdk/inride/DataProcessor.java:275-296 | the clone-mask-clone-reorder sequence returns a fresh array holding `Descramble` of the input |
| Descrambler.TranslateBytes | com/kinetic/sdk/inride/DataProcessor.java:275-296 | `translateBytes` with the protocol table returns a fresh array holding `Descramble` of the input |
| DataProcessor.StateOf | com/kinetic/sdk/inride/DataProcessor.java:50-59 | the state is the one whose code is `b0 & 0x30`; every value of the two bits names a state |
| DataProcessor.CommandResultOf | com/kinetic/sdk/inride/DataProcessor.java:61-74 | a known code in `b0 & 0x0F` gives the result with that code; the result is `None` exactly when the code is not one of 1, 2, 3, 0x0A, 0x0F |
| DataProcessor.HeaderRoundTrip | com/kinetic/sdk/inride/DataProcessor.java:50-74 | rotation, state and command result packed into octet 0 read back unchanged, independently |
| DataProcessor.ReadMasked8 | com/kinetic/sdk/inride/DataProcessor.java:80 | the masked revolution octet is its unsigned value |
| DataProcessor.ReadMasked16 | com/kinetic/sdk/inride/DataProcessor.java:83 | the cadence read is the unsigned little-endian value of its two octets |
| DataProcessor.ReadMasked24 | com/kinetic/sdk/inride/DataProcessor.java:78 | the interval read is the unsigned little-endian value of its three octets |
| DataProcessor.ReadMasked32 | com/kinetic/sdk/inride/DataProcessor.java:79 | a four-octet read is the two's-complement value of its octets |
| DataProcessor.Fields | com/kinetic/sdk/inride/DataProcessor.java:76-87 | interval from octets 1-3 unsigned, ticks 4-7 signed 32-bit, revs 8 unsigned, ticksPrevious 9-12 signed, revsPrevious 13 a signed byte, cadence 14-15 unsigned, spindownTicks 16-19 signed |
| DataProcessor.PowerFromPlain | com/kinetic/sdk/inride/DataProcessor.java:89-118 | the timestamp and cadence are passed through; the header maps as above; speed is 0 when ticks or revs is 0; roller rate is 0 unless ticks > 0; power is non-negative and 0 when coasting; the verdict is never `Unknown`; the flywheel is pro exactly in the pro band; the spindown time is the measured one exactly when the verdict is `Success`, and 1.75 outside both bands; the verdict is `resultForSpindown` of the measured time; speed, roller rate and coasting are `speedForTicks`, the roller formula and `alpha` of the decoded counts; when not coasting the power is `powerForSpeed` of the speed and the selected spindown time |
| DataProcessor.DecodeWithFilter | com/kinetic/sdk/inride/DataProcessor.java:84-120 | the new filter state is the cadence filter's step on the packet's crank reading, and it keeps the filter's invariant; the decode fails only with the filter's null-slot failure, exactly when that step fails; otherwise the record is `PowerFromPlain` of the packet with the filtered cadence |
| DataProcessor.ProcessPowerData | com/kinetic/sdk/inride/DataProcessor.java:37-121 | fails with the data error exactly on a length other than 20, with the system-id error exactly on a valid packet with an id length other than 6, and leaves the filter untouched in both cases; otherwise the filter's new state and the result are those of decoding the descrambled packet |
| DataProcessor.DecodePlain | com/kinetic/sdk/inride/DataProcessor.java:76-120 | the imperative decode from the descrambled octets agrees with `DecodeWithFilter`, new filter state included; its only failure is the null cadence slot |
| DataProcessor.LowOctetsRoundTrip | com/kinetic/sdk/inride/DataProcessor.java:78 | n little-endian octets of a number below 256^n read back as that number |
| DataProcessor.LayoutSlices | com/kinetic/sdk/inride/DataProcessor.java:76-87 | the reference layout puts each field at the offsets the decoder reads |
| DataProcessor.CountsRoundTrip | com/kinetic/sdk/inride/DataProcessor.java:76-87 | each multi-octet count the sensor can send reads back from its octets |
| DataProcessor.OctetCountsRoundTrip | com/kinetic/sdk/inride/DataProcessor.java:80-82 | the unsigned revolution count and the signed previous revolution count read back from their octets |
| DataProcessor.FieldsRoundTrip | com/kinetic/sdk/inride/DataProcessor.java:76-87 | decoding a packet laid out from representable counts gives back those counts |
| DataProcessor.PacketRoundTrip | com/kinetic/sdk/inride/DataProcessor.java:48-87 | a packet scrambled from a header and counts descrambles and decodes to that rotation, state, command result and those counts |
| DataProcessor.ReadWidened16 | com/kinetic/sdk/inride/DataProcessor.java:22 | a two-octet configuration read is the sign-extended combination |
| DataProcessor.ReadWidened32 | com/kinetic/sdk/inride/DataProcessor.java:27 | the four-octet spindown read is the sign-extended combination |
| DataProcessor.ProcessConfigurationData | com/kinetic/sdk/inride/DataProcessor.java:14-35 | fails exactly on a length other than 20; otherwise every field is the sign-extended read of its octets, the spindown time is ticks / 32768, and the flywheel is pro exactly in the pro band |
| DataProcessor.ConfigurationSignExtension | com/kinetic/sdk/inride/DataProcessor.java:22 | octets below 0x80 read as the unsigned little-endian value; a low octet of 0x80 reads as -128 |
| PowerModel.TicksToSeconds | com/kinetic/sdk/inride/DataProcessor.java:257-259 | the seconds times 32768 are the ticks; positive exactly for positive ticks |
| PowerModel.SpeedForTicks | com/kinetic/sdk/inride/DataProcessor.java:268-273 | zero when either count is zero; otherwise speed times ticks is the speed factor times revs; positive exactly when the counts have the same strict sign |
| PowerModel.RollerRPM | com/kinetic/sdk/inride/DataProcessor.java:92-97 | zero unless ticks > 0; otherwise the rate times the interval in seconds is 60 times the revolutions |
| PowerModel.HasProFlywheel | com/kinetic/sdk/inride/DataProcessor.java:261-266 | true exactly for a spindown time in [4.7, 6.5] |
| PowerModel.ResultForSpindown | com/kinetic/sdk/inride/DataProcessor.java:123-137 | `Success` exactly in [1.5, 2.0] or [4.7, 6.5], `TooFast` exactly below 1.5, `TooSlow` exactly above 6.5, `Middle` exactly between the bands; never `Unknown` |
| PowerModel.SpindownSelection | com/kinetic/sdk/inride/DataProcessor.java:100-108 | the measured time is kept exactly when it lies in a band, otherwise 1.75; the flywheel is pro exactly in the pro band; the selected time always lies in a band and `hasProFlywheel` on it agrees with the flag |
| PowerModel.CalibrationMatchesSelection | com/kinetic/sdk/inride/DataProcessor.java:102-108 | the verdict is `Success` exactly when the measured time is the one used for power |
| PowerModel.Quotient | com/kinetic/sdk/inride/DataProcessor.java:194-195 | a double division by a nonzero count is the exact quotient; by zero it is an infinity of the dividend's sign, and NaN for 0 / 0 |
| PowerModel.Minus | com/kinetic/sdk/inride/DataProcessor.java:196 | double subtraction: exact on finite operands; NaN exactly when an operand is NaN or equal infinities cancel; the sign of an infinite result as IEEE 754 gives it |
| PowerModel.Times | com/kinetic/sdk/inride/DataProcessor.java:200 | double multiplication by a finite number: exact on a finite operand; NaN exactly for NaN or zero times an infinity; positive infinity exactly when the signs agree; negative infinity exactly when they differ |
| PowerModel.Above | com/kinetic/sdk/inride/DataProcessor.java:197 | the double comparison `> bound`: false for NaN and negative infinity, true for positive infinity, the real comparison otherwise |
| PowerModel.Alpha | com/kinetic/sdk/inride/DataProcessor.java:192-217 | (false, 0) unless both intervals are positive and the ticks per revolution grew; when they grew, alpha is the speed drop times the growth; coasting only when the speed has dropped |
| PowerModel.SlowingDownWhenAbove | com/kinetic/sdk/inride/DataProcessor.java:197-200 | with a positive tick-per-revolution change, a positive alpha means the speed dropped |
| PowerModel.AlphaCoasting | com/kinetic/sdk/inride/DataProcessor.java:192-217 | coasting exactly when both intervals are positive, the ticks per revolution grew, and alpha exceeds 200 on a standard flywheel or 20 on a pro one |
| PowerModel.SpeedingUpNeverCoasts | com/kinetic/sdk/inride/DataProcessor.java:193-216 | whenever the change in ticks per revolution is not above 0 (zero revolution counts, infinities and NaN included), the result is (false, 0) |
| PowerModel.StartedRollerNeverCoasts | com/kinetic/sdk/inride/DataProcessor.java:193-216 | after an interval with no revolution, a current interval with revolutions gives (false, 0): the previous ticks per revolution is infinite |
| PowerModel.StoppedRollerCoasts | com/kinetic/sdk/inride/DataProcessor.java:192-217 | no revolution after a moving interval gives an infinite alpha and coasting on either flywheel |
| PowerModel.RawPower | com/kinetic/sdk/inride/DataProcessor.java:232-233 | the cubic fit is positive exactly for positive speed |
| PowerModel.DragOffset | com/kinetic/sdk/inride/DataProcessor.java:234-246 | no drag correction unless both the spindown time and the raw power are positive |
| PowerModel.DragGrowsWithPower | com/kinetic/sdk/inride/DataProcessor.java:243 | for a fixed positive spindown time the drag correction grows with the raw power |
| PowerModel.PowerForSpeed | com/kinetic/sdk/inride/DataProcessor.java:231-254 | never negative; zero for a non-positive speed; without a positive spindown time, at most the raw power |
| CadenceFilter.EmptySlots | com/kinetic/sdk/inride/DataProcessor.java:160 | ten slots, none written |
| CadenceFilter.Calibrated | com/kinetic/sdk/inride/DataProcessor.java:171 | the calibrated cadence exceeds the offset 5.2617 exactly for a positive reading |
| CadenceFilter.CalibrationIsIncreasing | com/kinetic/sdk/inride/DataProcessor.java:171 | the calibration keeps the order of the readings |
| CadenceFilter.Stale | com/kinetic/sdk/inride/DataProcessor.java:167 | only a non-empty run can be stale |
| CadenceFilter.StalenessPersists | com/kinetic/sdk/inride/DataProcessor.java:167 | a run stale at some time is stale at every later time |
| CadenceFilter.Inserted | com/kinetic/sdk/inride/DataProcessor.java:174-179 | the new mark is in slot 0, the first `kept` marks moved one slot down, the rest unchanged |
| CadenceFilter.Rolling | com/kinetic/sdk/inride/DataProcessor.java:183-187 | fails exactly when a slot in 1..size-1 is empty; otherwise the result times (size + weight - 1) is weight times the newest cadence plus the cadences of slots 1..size-1 |
| CadenceFilter.Step | com/kinetic/sdk/inride/DataProcessor.java:162-190 | keeps the filter invariant; a zero reading returns 0 and changes nothing; any other leaves 1..size marks with the calibrated reading newest; the only failure is the null slot |
| CadenceFilter.StepShifts | com/kinetic/sdk/inride/DataProcessor.java:167-181 | the run restarts after more than two seconds; the kept marks move one slot down, the others stay in place, and the count becomes min(size, kept + 1) |
| CadenceFilter.WarmFilterNeverFails | com/kinetic/sdk/inride/DataProcessor.java:183-187 | once slots 1..size-1 hold marks they keep holding marks, and no reading fails |
| CadenceFilter.FullRunNeverFails | com/kinetic/sdk/inride/DataProcessor.java:184-186 | a reading that completes a run of `size` fresh marks does not fail |
| CadenceFilter.AverageWithinBounds | com/kinetic/sdk/inride/DataProcessor.java:183-187 | the average lies between the least and the greatest cadence it reads |
| CadenceFilter.FreshFilterStartup | com/kinetic/sdk/inride/DataProcessor.java:157-187 | from the initial buffer, the first two nonzero readings fail on an unwritten slot and a third within two seconds succeeds |
| CadenceFilter.CadenceBuffer.constructor | com/kinetic/sdk/inride/DataProcessor.java:154-160 | the static initialiser: no slot written, count 0, size 3, weight 2 |
| CadenceFilter.CadenceBuffer.Adjust | com/kinetic/sdk/inride/DataProcessor.java:162-190 | the in-place `adjustCadence` leaves the state and returns the result that `Step` gives for the old state |
| CadenceFilter.CadenceBuffer.ShiftIn | com/kinetic/sdk/inride/DataProcessor.java:174-179 | the shift-down loop and store leave exactly `Inserted` of the old slots |
| CadenceFilter.CadenceBuffer.WeightedAverage | com/kinetic/sdk/inride/DataProcessor.java:183-189 | the accumulation loop returns exactly `Rolling` of the slots |
| CommandFactory.KeyIndex | com/kinetic/sdk/inride/CommandFactory.java:84-85 | the index is the unsigned octet modulo 6, so it lies in 0..5 |
| CommandFactory.CommandKeyForSystemId | com/kinetic/sdk/inride/CommandFactory.java:80-90 | fails exactly on an id length other than 6; otherwise the key is the id's octets at positions id[3] mod 6 and id[5] mod 6 |
| CommandFactory.StartCalibrationCommandData | com/kinetic/sdk/inride/CommandFactory.java:14-25 | fails exactly on an id length other than 6; otherwise the frame is the key followed by 0x03 |
| CommandFactory.StopCalibrationCommandData | com/kinetic/sdk/inride/CommandFactory.java:27-38 | fails exactly on an id length other than 6; otherwise the frame is the key followed by 0x04 |
| CommandFactory.SpindownTicks | com/kinetic/sdk/inride/CommandFactory.java:51 | inside the int range, the tick count is seconds times 32768 truncated toward zero, for negative times as for positive ones |
| CommandFactory.SetSpindownTimeCommandData | com/kinetic/sdk/inride/CommandFactory.java:40-59 | fails exactly on an id length other than 6; otherwise seven octets, the key and 0x05, then four octets whose little-endian value is the ticks modulo 2^32 and whose two's-complement value is the ticks |
| CommandFactory.SetPeripheralNameCommandData | com/kinetic/sdk/inride/CommandFactory.java:61-78 | the id error exactly on an id length other than 6; the name error exactly on a valid id with a name outside 3..8 octets; otherwise the key, 0x02 and the name |
| CommandFactory.FramesParse | com/kinetic/sdk/inride/CommandFactory.java:14-78 | every frame built is read by a sensor with the matching key as the command it encodes |
| CommandFactory.CalibrationFrameExample | com/kinetic/sdk/inride/CommandFactory.java:14-38 | the id 00 00 00 06 00 02 has key 00 00 and calibration frames 00 00 03 and 00 00 04 |
| CommandFactory.SpindownFrameExample | com/kinetic/sdk/inride/CommandFactory.java:51-56 | 1.75 s is 57344 ticks, sent as 00 E0 00 00 |
| CommandFactory.NameLengthExamples | com/kinetic/sdk/inride/CommandFactory.java:66-68 | names of two and nine octets are refused; three and eight are accepted |

## Left out

- The clock read that timestamps each telemetry packet is not modelled; the
  time of arrival, in seconds, is a parameter.
- Double rounding is not modelled: every `double` computation is exact real
  arithmetic, apart from the IEEE special values in `alpha`.
- `String.getBytes` depends on the platform charset, so the peripheral name is
  taken as octets.
- `InRide.java` is not part of this model: it is a facade that forwards to the
  codec, plus Bluetooth UUID constants, with no logic of its own.
- The `interval` argument of `alpha` and the `aa` and `revolutions` arguments of
  `powerForSpeed` are unused by the code, and are dropped. So is the
  commented-out alpha offset.
- `SensorUpdateRate` is declared but no decoder produces it.
- The cadence buffer is static state shared by every caller; the model passes
  one `CadenceBuffer` explicitly and does not model concurrent calls.
- Each cadence mark is a Java object; the model keeps marks as values, so
  object identity and the aliasing of a mark between two buffer slots are not
  modelled.
- PowerForSpeed: states only the sign facts and the bound without drag
  correction. The value of the cubic fit and drag offset after double rounding
  is not claimed.
- SpindownTicks: makes no claim about the rounding of `seconds * 32768` as a
  double; the product is exact.
- CadenceFilter.Rolling: states the weighted sum the average is made of.
  Rounding of the floating-point average is not claimed.
