/** The packet decoders of `DataProcessor`: the configuration packet and the
    telemetry (power) packet, both twenty octets.  The telemetry packet is
    descrambled first; its octet 0 carries the rotation (bits 6-7), the
    sensor state (bits 4-5) and the command result (bits 0-3). */
module DataProcessor {
  import opened JavaBits
  import opened Results
  import InRideData
  import Descrambler
  import PowerModel
  import CadenceFilter
  import CommandFactory

  // ---- Octet 0: state and command result ----

  /** The state bits of octet 0 (`powerBytes[0] & 0x30`). */
  function StateOf(b0: bv8): (state: InRideData.SensorState)
    ensures StateCode(state) == b0 & 0x30
  {
    var stateBits := Widen(b0) & 0x30;
    if stateBits == 0x10 then InRideData.SensorState.SpindownIdle
    else if stateBits == 0x20 then InRideData.SensorState.SpindownReady
    else if stateBits == 0x30 then InRideData.SensorState.SpindownActive
    else InRideData.SensorState.Normal
  }

  /** The bits the sensor sends for each state. */
  function StateCode(state: InRideData.SensorState): bv8
  {
    match state
    case Normal => 0x00
    case SpindownIdle => 0x10
    case SpindownReady => 0x20
    case SpindownActive => 0x30
  }

  /** The command-result codes that name a result other than `None`. */
  predicate KnownCommandCode(bits: bv8)
  {
    bits == 0x01 || bits == 0x02 || bits == 0x03 || bits == 0x0A || bits == 0x0F
  }

  /** The command bits of octet 0 (`powerBytes[0] & 0x0F`); every other
      value of the four bits reads as `None`. */
  function CommandResultOf(b0: bv8): (result: InRideData.SensorCommandResult)
    ensures KnownCommandCode(b0 & 0x0F) ==> CommandCode(result) == b0 & 0x0F
    ensures result == InRideData.SensorCommandResult.None <==> !KnownCommandCode(b0 & 0x0F)
  {
    var commandBits := Widen(b0) & 0x0F;
    if commandBits == 0x01 then InRideData.SensorCommandResult.Success
    else if commandBits == 0x02 then InRideData.SensorCommandResult.NotSupported
    else if commandBits == 0x03 then InRideData.SensorCommandResult.InvalidRequest
    else if commandBits == 0x0A then InRideData.SensorCommandResult.CalibrationResult
    else if commandBits == 0x0F then InRideData.SensorCommandResult.UnknownError
    else InRideData.SensorCommandResult.None
  }

  /** The bits the sensor sends for each command result. */
  function CommandCode(result: InRideData.SensorCommandResult): bv8
  {
    match result
    case None => 0x00
    case Success => 0x01
    case NotSupported => 0x02
    case InvalidRequest => 0x03
    case CalibrationResult => 0x0A
    case UnknownError => 0x0F
  }

  /** The three fields of octet 0 are independent: any rotation, state and
      command result packed together read back as themselves. */
  lemma HeaderRoundTrip(rotation: bv8, state: InRideData.SensorState, result: InRideData.SensorCommandResult)
    requires rotation < 4
    ensures var b0 := (rotation << 6) | StateCode(state) | CommandCode(result);
      && Descrambler.Rotation(b0) == rotation as int
      && StateOf(b0) == state
      && CommandResultOf(b0) == result
  {
    var b0 := (rotation << 6) | StateCode(state) | CommandCode(result);
    assert b0 & 0x30 == StateCode(state);
    assert b0 & 0x0F == CommandCode(result);
    assert (b0 & 0xC0) >> 6 == rotation;
  }

  // ---- The telemetry fields ----

  /** The counts carried by octets 1..19 of a descrambled packet. */
  datatype PowerFields = PowerFields(
    interval: int, ticks: int, revs: int, ticksPrevious: int, revsPrevious: int,
    cadenceRaw: int, spindownTicks: int)

  /** The reads of `ProcessPowerData` over its cursor: little-endian fields
      at fixed offsets.  Every octet is masked, so the three- and two-octet
      fields are unsigned; the four-octet fields are two's complement,
      because the top octet is shifted into the sign bit of the `int`; and
      `revsPrevious` is read as a signed byte. */
  function Fields(p: seq<bv8>): (f: PowerFields)
    requires |p| == Descrambler.PacketLength
    ensures f.interval == LittleEndian(p[1..4])
    ensures f.ticks == Signed32(LittleEndian(p[4..8]))
    ensures f.revs == p[8] as int
    ensures f.ticksPrevious == Signed32(LittleEndian(p[9..13]))
    ensures f.revsPrevious == SignedByte(p[13])
    ensures f.cadenceRaw == LittleEndian(p[14..16])
    ensures f.spindownTicks == Signed32(LittleEndian(p[16..20]))
  {
    assert p[1..4] == [p[1], p[2], p[3]];
    assert p[4..8] == [p[4], p[5], p[6], p[7]];
    assert p[9..13] == [p[9], p[10], p[11], p[12]];
    assert p[14..16] == [p[14], p[15]];
    assert p[16..20] == [p[16], p[17], p[18], p[19]];
    PowerFields(
      ReadMasked24(p[1], p[2], p[3]),
      ReadMasked32(p[4], p[5], p[6], p[7]),
      ReadMasked8(p[8]),
      ReadMasked32(p[9], p[10], p[11], p[12]),
      SignedByte(p[13]),
      ReadMasked16(p[14], p[15]),
      ReadMasked32(p[16], p[17], p[18], p[19]))
  }

  /** `b & 0xFF` */
  function ReadMasked8(b: bv8): (v: Int32)
    ensures v == b as int
  {
    MaskedByteIsUnsigned(b);
    IntValue(Masked(b))
  }

  /** `(b0 & 0xFF) | ((b1 & 0xFF) << 8)` */
  function ReadMasked16(b0: bv8, b1: bv8): (v: Int32)
    ensures v == LittleEndian([b0, b1])
  {
    MaskedWord16IsUnsigned(b0, b1);
    IntValue(MaskedWord16(b0, b1))
  }

  /** `(b0 & 0xFF) | ((b1 & 0xFF) << 8) | ((b2 & 0xFF) << 16)` */
  function ReadMasked24(b0: bv8, b1: bv8, b2: bv8): (v: Int32)
    ensures v == LittleEndian([b0, b1, b2])
  {
    MaskedWord24IsUnsigned(b0, b1, b2);
    IntValue(MaskedWord24(b0, b1, b2))
  }

  /** `(b0 & 0xFF) | ((b1 & 0xFF) << 8) | ((b2 & 0xFF) << 16) | ((b3 & 0xFF) << 24)` */
  function ReadMasked32(b0: bv8, b1: bv8, b2: bv8, b3: bv8): (v: Int32)
    ensures v == Signed32(LittleEndian([b0, b1, b2, b3]))
  {
    MaskedWord32IsSigned(b0, b1, b2, b3);
    IntValue(MaskedWord32(b0, b1, b2, b3))
  }

  /** The power record for a descrambled packet, given the filtered cadence
      and the time of arrival. */
  function PowerFromPlain(p: seq<bv8>, cadenceRPM: real, timestamp: real): (d: InRideData.PowerData)
    requires |p| == Descrambler.PacketLength
    ensures d.timestamp == timestamp && d.cadenceRPM == cadenceRPM
    ensures d.state == StateOf(p[0]) && d.commandResult == CommandResultOf(p[0])
    ensures d.lastSpindownResultTime * PowerModel.TicksPerSecond == Fields(p).spindownTicks as real
    ensures Fields(p).ticks == 0 || Fields(p).revs == 0 ==> d.speedKPH == 0.0
    ensures Fields(p).ticks <= 0 ==> d.rollerRPM == 0.0
    ensures 0 <= d.power && (d.coasting ==> d.power == 0)
    ensures d.calibrationResult != InRideData.SensorCalibrationResult.Unknown
    ensures d.proFlywheel <==> PowerModel.InProBand(d.lastSpindownResultTime)
    ensures d.spindownTime == d.lastSpindownResultTime <==>
      d.calibrationResult == InRideData.SensorCalibrationResult.Success
    ensures d.calibrationResult == PowerModel.ResultForSpindown(d.lastSpindownResultTime)
    ensures !(PowerModel.InStandardBand(d.lastSpindownResultTime) || PowerModel.InProBand(d.lastSpindownResultTime))
      ==> d.spindownTime == 1.75
    ensures var f := Fields(p);
      && d.speedKPH == PowerModel.SpeedForTicks(f.ticks, f.revs)
      && d.rollerRPM == PowerModel.RollerRPM(f.ticks, f.revs)
      && d.coasting == PowerModel.Alpha(f.ticks, f.revs, d.speedKPH, f.ticksPrevious, f.revsPrevious,
                                        PowerModel.SpeedForTicks(f.ticksPrevious, f.revsPrevious),
                                        d.proFlywheel).coasting
      && (!d.coasting ==> d.power == PowerModel.PowerForSpeed(d.speedKPH, d.spindownTime))
  {
    var f := Fields(p);
    var lastSpindownResultTime := PowerModel.TicksToSeconds(f.spindownTicks);
    var speedKPH := PowerModel.SpeedForTicks(f.ticks, f.revs);
    var rollerRPM := PowerModel.RollerRPM(f.ticks, f.revs);
    var speedKPHPrev := PowerModel.SpeedForTicks(f.ticksPrevious, f.revsPrevious);
    var selection := PowerModel.SpindownSelection(lastSpindownResultTime);
    var aa := PowerModel.Alpha(f.ticks, f.revs, speedKPH, f.ticksPrevious, f.revsPrevious, speedKPHPrev,
                               selection.proFlywheel);
    var power := if aa.coasting then 0 else PowerModel.PowerForSpeed(speedKPH, selection.spindownTime);
    PowerModel.CalibrationMatchesSelection(lastSpindownResultTime);
    InRideData.PowerData(
      timestamp, StateOf(p[0]), power, speedKPH, rollerRPM, cadenceRPM, aa.coasting,
      selection.spindownTime, PowerModel.ResultForSpindown(lastSpindownResultTime),
      lastSpindownResultTime, selection.proFlywheel, CommandResultOf(p[0]))
  }

  /** The decoding of a descrambled packet around the cadence filter: the
      filter's new state, and the power record or the filter's failure. */
  function DecodeWithFilter(s: CadenceFilter.FilterState, size: nat, weight: nat, plain: seq<bv8>,
                            timestamp: real): (out: (CadenceFilter.FilterState, Result<InRideData.PowerData>))
    requires CadenceFilter.Invariant(s, size, weight) && |plain| == Descrambler.PacketLength
    ensures CadenceFilter.Invariant(out.0, size, weight)
    ensures out.1.Err? ==> out.1.failure == NullCadenceMark
    ensures out.1.Ok? <==> CadenceFilter.Step(s, size, weight, Fields(plain).cadenceRaw, timestamp).rpm.Ok?
    ensures out.0 == CadenceFilter.Step(s, size, weight, Fields(plain).cadenceRaw, timestamp).next
    ensures var o := CadenceFilter.Step(s, size, weight, Fields(plain).cadenceRaw, timestamp);
      out.1.Ok? ==> out.1.value == PowerFromPlain(plain, o.rpm.value, timestamp)
  {
    var o := CadenceFilter.Step(s, size, weight, Fields(plain).cadenceRaw, timestamp);
    (o.next, if o.rpm.Err? then Err(o.rpm.failure) else Ok(PowerFromPlain(plain, o.rpm.value, timestamp)))
  }

  /** `ProcessPowerData`, with the clock reading passed in as `timestamp` and
      the static cadence buffer as `filter`.  Both lengths are checked before
      anything is decoded and before the filter is touched; then the packet
      is descrambled and decoded; the filter's failure on an empty slot is
      the method's failure. */
  method ProcessPowerData(filter: CadenceFilter.CadenceBuffer, data: array<bv8>, systemId: seq<bv8>,
                          timestamp: real) returns (r: Result<InRideData.PowerData>)
    requires filter.Valid()
    modifies filter`count, filter.buffer
    ensures filter.Valid()
    ensures r == Err(InvalidInRideData) <==> data.Length != Descrambler.PacketLength
    ensures r == Err(InvalidSystemId) <==> data.Length == Descrambler.PacketLength && |systemId| != CommandFactory.SystemIdLength
    ensures data.Length != Descrambler.PacketLength || |systemId| != CommandFactory.SystemIdLength ==>
      filter.State() == old(filter.State())
    ensures Descrambler.Shaped(Descrambler.Permutations)
    ensures data.Length == Descrambler.PacketLength && |systemId| == CommandFactory.SystemIdLength ==>
      (filter.State(), r) == DecodeWithFilter(old(filter.State()), filter.size, filter.weight,
                                              Descrambler.Descramble(Descrambler.Permutations, old(data[..])), timestamp)
  {
    Descrambler.PermutationsShaped();
    if data.Length != Descrambler.PacketLength {
      return Err(InvalidInRideData);
    }
    if |systemId| != CommandFactory.SystemIdLength {
      return Err(InvalidSystemId);
    }
    var powerBytes := Descrambler.TranslateBytes(data);
    r := DecodePlain(filter, powerBytes[..], timestamp);
  }

  /** `ProcessPowerData` from the descrambled octets on. */
  method DecodePlain(filter: CadenceFilter.CadenceBuffer, powerBytes: seq<bv8>, timestamp: real)
    returns (r: Result<InRideData.PowerData>)
    requires filter.Valid() && |powerBytes| == Descrambler.PacketLength
    modifies filter`count, filter.buffer
    ensures filter.Valid()
    ensures r.Err? ==> r == Err(NullCadenceMark)
    ensures (filter.State(), r) == DecodeWithFilter(old(filter.State()), filter.size, filter.weight, powerBytes, timestamp)
  {
    var fields := Fields(powerBytes);
    var cadence := filter.Adjust(fields.cadenceRaw, timestamp);
    if cadence.Err? {
      return Err(cadence.failure);
    }
    return Ok(PowerFromPlain(powerBytes, cadence.value, timestamp));
  }

  // ---- The device side of the telemetry packet ----

  /** The counts a sensor can send: each fits its field. */
  predicate Representable(f: PowerFields)
  {
    && 0 <= f.interval < 0x100_0000
    && -TwoTo31 <= f.ticks < TwoTo31
    && 0 <= f.revs < 0x100
    && -TwoTo31 <= f.ticksPrevious < TwoTo31
    && -0x80 <= f.revsPrevious < 0x80
    && 0 <= f.cadenceRaw < 0x1_0000
    && -TwoTo31 <= f.spindownTicks < TwoTo31
  }

  /** The least significant `n` octets of a natural number. */
  function LowOctets(x: nat, n: nat): (bs: seq<bv8>)
    ensures |bs| == n
  {
    if n == 0 then [] else [CastToByte(x)] + LowOctets(x / 256, n - 1)
  }

  lemma {:induction false} LowOctetsRoundTrip(x: nat, n: nat)
    requires x < Pow256(n)
    ensures LittleEndian(LowOctets(x, n)) == x
  {
    if n > 0 {
      assert x / 256 < Pow256(n - 1) by {
        assert Pow256(n) == 256 * Pow256(n - 1);
      }
      LowOctetsRoundTrip(x / 256, n - 1);
      assert LowOctets(x, n)[1..] == LowOctets(x / 256, n - 1);
    }
  }

  /** The twenty octets of a telemetry packet, from the header octet and
      the octets of each field in the order the decoder reads them. */
  function Layout(b0: bv8, interval: seq<bv8>, ticks: seq<bv8>, revs: bv8, ticksPrevious: seq<bv8>,
                  revsPrevious: bv8, cadence: seq<bv8>, spindown: seq<bv8>): (p: seq<bv8>)
    requires |interval| == 3 && |ticks| == 4 && |ticksPrevious| == 4 && |cadence| == 2 && |spindown| == 4
    ensures |p| == Descrambler.PacketLength
  {
    [b0, interval[0], interval[1], interval[2], ticks[0], ticks[1], ticks[2], ticks[3], revs,
     ticksPrevious[0], ticksPrevious[1], ticksPrevious[2], ticksPrevious[3], revsPrevious,
     cadence[0], cadence[1], spindown[0], spindown[1], spindown[2], spindown[3]]
  }

  /** Where `Layout` puts each field. */
  lemma LayoutSlices(b0: bv8, interval: seq<bv8>, ticks: seq<bv8>, revs: bv8, ticksPrevious: seq<bv8>,
                     revsPrevious: bv8, cadence: seq<bv8>, spindown: seq<bv8>)
    requires |interval| == 3 && |ticks| == 4 && |ticksPrevious| == 4 && |cadence| == 2 && |spindown| == 4
    ensures var p := Layout(b0, interval, ticks, revs, ticksPrevious, revsPrevious, cadence, spindown);
      && p[0] == b0 && p[1..4] == interval && p[4..8] == ticks && p[8] == revs
      && p[9..13] == ticksPrevious && p[13] == revsPrevious && p[14..16] == cadence && p[16..20] == spindown
  {
    var p := Layout(b0, interval, ticks, revs, ticksPrevious, revsPrevious, cadence, spindown);
    assert p[0] == b0 && p[8] == revs && p[13] == revsPrevious;
    assert p[1..4] == interval by {
      assert p[1..4][0] == p[1] == interval[0];
      assert p[1..4][1] == p[2] == interval[1];
      assert p[1..4][2] == p[3] == interval[2];
    }
    assert p[4..8] == ticks by {
      assert p[4..8][0] == p[4] == ticks[0];
      assert p[4..8][1] == p[5] == ticks[1];
      assert p[4..8][2] == p[6] == ticks[2];
      assert p[4..8][3] == p[7] == ticks[3];
    }
    assert p[9..13] == ticksPrevious by {
      assert p[9..13][0] == p[9] == ticksPrevious[0];
      assert p[9..13][1] == p[10] == ticksPrevious[1];
      assert p[9..13][2] == p[11] == ticksPrevious[2];
      assert p[9..13][3] == p[12] == ticksPrevious[3];
    }
    assert p[14..16] == cadence by {
      assert p[14..16][0] == p[14] == cadence[0];
      assert p[14..16][1] == p[15] == cadence[1];
    }
    assert p[16..20] == spindown by {
      assert p[16..20][0] == p[16] == spindown[0];
      assert p[16..20][1] == p[17] == spindown[1];
      assert p[16..20][2] == p[18] == spindown[2];
      assert p[16..20][3] == p[19] == spindown[3];
    }
  }

  /** The descrambled packet a sensor builds from a header octet and the
      counts: the reference layout the decoder reads. */
  function PlainPacket(b0: bv8, f: PowerFields): (p: seq<bv8>)
    requires Representable(f)
    ensures |p| == Descrambler.PacketLength
  {
    Layout(b0, LowOctets(f.interval, 3), IntOctets(f.ticks), CastToByte(f.revs), IntOctets(f.ticksPrevious),
           CastToByte(f.revsPrevious), LowOctets(f.cadenceRaw, 2), IntOctets(f.spindownTicks))
  }

  /** Each multi-octet count reads back from the octets `PlainPacket`
      writes for it. */
  lemma CountsRoundTrip(f: PowerFields)
    requires Representable(f)
    ensures LittleEndian(LowOctets(f.interval, 3)) == f.interval
    ensures Signed32(LittleEndian(IntOctets(f.ticks))) == f.ticks
    ensures Signed32(LittleEndian(IntOctets(f.ticksPrevious))) == f.ticksPrevious
    ensures LittleEndian(LowOctets(f.cadenceRaw, 2)) == f.cadenceRaw
    ensures Signed32(LittleEndian(IntOctets(f.spindownTicks))) == f.spindownTicks
  {
    assert Pow256(2) == 0x1_0000 && Pow256(3) == 0x100_0000 by {
      assert Pow256(1) == 0x100;
    }
    LowOctetsRoundTrip(f.interval, 3);
    IntOctetsRoundTrip(f.ticks);
    IntOctetsRoundTrip(f.ticksPrevious);
    LowOctetsRoundTrip(f.cadenceRaw, 2);
    IntOctetsRoundTrip(f.spindownTicks);
  }

  /** The two one-octet counts read back from their octets. */
  lemma OctetCountsRoundTrip(f: PowerFields)
    requires Representable(f)
    ensures CastToByte(f.revs) as int == f.revs
    ensures SignedByte(CastToByte(f.revsPrevious)) == f.revsPrevious
  {
    SignedByteRoundTrip(f.revsPrevious);
    assert f.revs % 256 == f.revs;
  }

  /** Decoding a packet laid out by `PlainPacket` gives back its counts. */
  lemma FieldsRoundTrip(b0: bv8, f: PowerFields)
    requires Representable(f)
    ensures Fields(PlainPacket(b0, f)) == f
  {
    LayoutSlices(b0, LowOctets(f.interval, 3), IntOctets(f.ticks), CastToByte(f.revs), IntOctets(f.ticksPrevious),
                 CastToByte(f.revsPrevious), LowOctets(f.cadenceRaw, 2), IntOctets(f.spindownTicks));
    CountsRoundTrip(f);
    OctetCountsRoundTrip(f);
  }

  /** End to end: a packet the sensor scrambles from a header and counts
      decodes, after descrambling, to that header's state and command
      result and to those counts; and the descrambler loses nothing, so
      different packets never decode from the same octets. */
  lemma PacketRoundTrip(rotation: bv8, state: InRideData.SensorState,
                        result: InRideData.SensorCommandResult, f: PowerFields)
    requires rotation < 4 && Representable(f)
    ensures Descrambler.Inverts(Descrambler.Permutations, Descrambler.Inverses)
    ensures var b0 := (rotation << 6) | StateCode(state) | CommandCode(result);
      var wire := Descrambler.Scramble(Descrambler.Permutations, Descrambler.Inverses, PlainPacket(b0, f));
      var plain := Descrambler.Descramble(Descrambler.Permutations, wire);
      && Descrambler.Rotation(wire[0]) == rotation as int
      && StateOf(plain[0]) == state && CommandResultOf(plain[0]) == result
      && Fields(plain) == f
  {
    var b0 := (rotation << 6) | StateCode(state) | CommandCode(result);
    var p := PlainPacket(b0, f);
    Descrambler.TranslateIsBijective(p, p);
    HeaderRoundTrip(rotation, state, result);
    FieldsRoundTrip(b0, f);
  }

  // ---- The configuration packet ----

  /** `(int) b0 | (int) b1 << 8` */
  function ReadWidened16(b0: bv8, b1: bv8): (v: Int32)
    ensures v == SignExtended16(b0, b1)
  {
    WidenedWord16Value(b0, b1);
    IntValue(WidenedWord16(b0, b1))
  }

  /** `(int) b0 | (int) b1 << 8 | (int) b2 << 16 | (int) b3 << 24` */
  function ReadWidened32(b0: bv8, b1: bv8, b2: bv8, b3: bv8): (v: Int32)
    ensures v == SignExtended32(b0, b1, b2, b3)
  {
    WidenedWord32Value(b0, b1, b2, b3);
    IntValue(WidenedWord32(b0, b1, b2, b3))
  }

  /** `ProcessConfigurationData`: fails exactly on a packet that is not
      twenty octets long; otherwise reads six two-octet counts and a
      four-octet spindown tick count, with every octet sign-extended before
      it is combined. */
  function ProcessConfigurationData(data: seq<bv8>): (r: Result<InRideData.ConfigData>)
    ensures r.Err? <==> |data| != Descrambler.PacketLength
    ensures r.Err? ==> r.failure == InvalidInRideData
    ensures r.Ok? ==>
      && r.value.calibrationReady == SignExtended16(data[0], data[1])
      && r.value.calibrationStart == SignExtended16(data[2], data[3])
      && r.value.calibrationEnd == SignExtended16(data[4], data[5])
      && r.value.calibrationDebounce == SignExtended16(data[6], data[7])
      && r.value.currentSpindownTime * PowerModel.TicksPerSecond
           == SignExtended32(data[8], data[9], data[10], data[11]) as real
      && r.value.proFlywheel == PowerModel.InProBand(r.value.currentSpindownTime)
      && r.value.updateRateDefault == SignExtended16(data[12], data[13])
      && r.value.updateRateCalibration == SignExtended16(data[14], data[15])
  {
    if |data| != Descrambler.PacketLength then Err(InvalidInRideData)
    else
      var currentSpindownTicks := ReadWidened32(data[8], data[9], data[10], data[11]);
      var currentSpindownTime := PowerModel.TicksToSeconds(currentSpindownTicks);
      Ok(InRideData.ConfigData(
        PowerModel.HasProFlywheel(currentSpindownTime),
        currentSpindownTime,
        ReadWidened16(data[0], data[1]),
        ReadWidened16(data[2], data[3]),
        ReadWidened16(data[4], data[5]),
        ReadWidened16(data[6], data[7]),
        ReadWidened16(data[12], data[13]),
        ReadWidened16(data[14], data[15])))
  }

  /** Where the sign extension shows: while the octets stay below 0x80 the
      counts are the unsigned little-endian values, but a low octet of 0x80
      reads as -128, not 128. */
  lemma ConfigurationSignExtension(data: seq<bv8>)
    requires |data| == Descrambler.PacketLength
    ensures data[0] < 0x80 && data[1] < 0x80 ==>
      ProcessConfigurationData(data).value.calibrationReady == LittleEndian(data[0..2])
    ensures data[0] == 0x80 && data[1] == 0x00 ==>
      ProcessConfigurationData(data).value.calibrationReady == -128
  {
    assert data[0..2] == [data[0], data[1]];
    LittleEndian2(data[0], data[1]);
  }
}
