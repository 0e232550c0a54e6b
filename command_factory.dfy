/** The control-point commands of `CommandFactory`.  Every frame starts
    with a two-octet key taken from the sensor's six-octet system id,
    followed by the command code and the command's argument. */
module CommandFactory {
  import opened JavaBits
  import opened Results

  const SystemIdLength: nat := 6

  /** The command codes (`SensorCommands`). */
  const SetNameCode: bv8 := 0x02
  const StartCalibrationCode: bv8 := 0x03
  const StopCalibrationCode: bv8 := 0x04
  const SetSpindownTimeCode: bv8 := 0x05

  /** The accepted lengths of a peripheral name, in octets. */
  const NameLengthMin: nat := 3
  const NameLengthMax: nat := 8

  /** `(systemId[k] & 0xFF) % 6`: the unsigned value of the octet, reduced
      to an index into the system id. */
  function KeyIndex(b: bv8): (i: nat)
    ensures i < SystemIdLength && i == b as int % 6
  {
    MaskedByteIsUnsigned(b);
    IntValue(Masked(b)) % 6
  }

  /** `CommandKeyForSystemId`: the octets of the system id at the positions
      named by its octets 3 and 5. */
  function CommandKeyForSystemId(systemId: seq<bv8>): (r: Result<seq<bv8>>)
    ensures r.Err? <==> |systemId| != SystemIdLength
    ensures r.Err? ==> r.failure == InvalidSystemId
    ensures r.Ok? ==>
      && |r.value| == 2
      && r.value[0] == systemId[systemId[3] as int % 6]
      && r.value[1] == systemId[systemId[5] as int % 6]
  {
    if |systemId| != SystemIdLength then Err(InvalidSystemId)
    else
      var sysidx1 := KeyIndex(systemId[3]);
      var sysidx2 := KeyIndex(systemId[5]);
      Ok([systemId[sysidx1], systemId[sysidx2]])
  }

  /** `StartCalibrationCommandData`: the key and the command code. */
  function StartCalibrationCommandData(systemId: seq<bv8>): (r: Result<seq<bv8>>)
    ensures r.Err? <==> |systemId| != SystemIdLength
    ensures r.Err? ==> r.failure == InvalidSystemId
    ensures r.Ok? ==> r.value == CommandKeyForSystemId(systemId).value + [StartCalibrationCode]
  {
    if |systemId| != SystemIdLength then Err(InvalidSystemId)
    else
      var key := CommandKeyForSystemId(systemId).value;
      Ok([key[0], key[1], StartCalibrationCode])
  }

  /** `StopCalibrationCommandData`: the key and the command code. */
  function StopCalibrationCommandData(systemId: seq<bv8>): (r: Result<seq<bv8>>)
    ensures r.Err? <==> |systemId| != SystemIdLength
    ensures r.Err? ==> r.failure == InvalidSystemId
    ensures r.Ok? ==> r.value == CommandKeyForSystemId(systemId).value + [StopCalibrationCode]
  {
    if |systemId| != SystemIdLength then Err(InvalidSystemId)
    else
      var key := CommandKeyForSystemId(systemId).value;
      Ok([key[0], key[1], StopCalibrationCode])
  }

  /** `(int) (seconds * 32768)`: the spindown time in sensor ticks. */
  function SpindownTicks(seconds: real): (ticks: Int32)
    ensures 0.0 <= seconds < (TwoTo31 - 1) as real / 32768.0 ==>
      0 <= ticks && ticks as real <= seconds * 32768.0 < ticks as real + 1.0
    ensures -TwoTo31 as real / 32768.0 < seconds <= 0.0 ==>
      ticks <= 0 && ticks as real - 1.0 < seconds * 32768.0 <= ticks as real
  {
    DoubleToInt(seconds * 32768.0)
  }

  /** `SetSpindownTimeCommandData`: the key, the command code and the four
      octets of the tick count, least significant first; read back as a
      little-endian two's-complement number they give the tick count. */
  function SetSpindownTimeCommandData(seconds: real, systemId: seq<bv8>): (r: Result<seq<bv8>>)
    ensures r.Err? <==> |systemId| != SystemIdLength
    ensures r.Err? ==> r.failure == InvalidSystemId
    ensures r.Ok? ==>
      && |r.value| == 7
      && r.value[..3] == CommandKeyForSystemId(systemId).value + [SetSpindownTimeCode]
      && LittleEndian(r.value[3..]) == SpindownTicks(seconds) % TwoTo32
      && Signed32(LittleEndian(r.value[3..])) == SpindownTicks(seconds)
  {
    if |systemId| != SystemIdLength then Err(InvalidSystemId)
    else
      var key := CommandKeyForSystemId(systemId).value;
      var spindownTicks := SpindownTicks(seconds);
      var octets := IntOctets(spindownTicks);
      IntOctetsRoundTrip(spindownTicks);
      var command := [key[0], key[1], SetSpindownTimeCode, octets[0], octets[1], octets[2], octets[3]];
      assert command[3..] == octets;
      Ok(command)
  }

  /** `SetPeripheralNameCommandData`, with the name already encoded as
      octets: the system id is checked first, then the length of the name;
      the frame is the key, the command code and the name. */
  function SetPeripheralNameCommandData(name: seq<bv8>, systemId: seq<bv8>): (r: Result<seq<bv8>>)
    ensures r == Err(InvalidSystemId) <==> |systemId| != SystemIdLength
    ensures r == Err(InvalidPeripheralName) <==>
      |systemId| == SystemIdLength && !(NameLengthMin <= |name| <= NameLengthMax)
    ensures r.Ok? ==>
      && |r.value| == 3 + |name|
      && r.value[..3] == CommandKeyForSystemId(systemId).value + [SetNameCode]
      && r.value[3..] == name
  {
    if |systemId| != SystemIdLength then Err(InvalidSystemId)
    else if |name| < NameLengthMin || |name| > NameLengthMax then Err(InvalidPeripheralName)
    else
      var key := CommandKeyForSystemId(systemId).value;
      var command := [key[0], key[1], SetNameCode] + name;
      assert command[3..] == name;
      Ok(command)
  }

  // ---- The sensor side of the control point ----

  /** What a frame asks the sensor to do. */
  datatype Command =
    | StartCalibration
    | StopCalibration
    | SetSpindownTime(ticks: int)
    | SetName(name: seq<bv8>)

  /** How a sensor with the given key reads a frame: the key must match,
      the code must be known and the length must fit the code. */
  function ParseCommand(key: seq<bv8>, frame: seq<bv8>): (c: Option<Command>)
    ensures c.Some? ==> |frame| >= 3 && frame[..2] == key
  {
    if |frame| < 3 || frame[..2] != key then None
    else if frame[2] == StartCalibrationCode && |frame| == 3 then Some(StartCalibration)
    else if frame[2] == StopCalibrationCode && |frame| == 3 then Some(StopCalibration)
    else if frame[2] == SetSpindownTimeCode && |frame| == 7 then
      Some(SetSpindownTime(Signed32(LittleEndian(frame[3..]))))
    else if frame[2] == SetNameCode && NameLengthMin <= |frame| - 3 <= NameLengthMax then
      Some(SetName(frame[3..]))
    else None
  }

  /** Every frame the encoder builds is read by the sensor as the command
      it was built for, under the key of the same system id; so frames of
      different commands never coincide. */
  lemma FramesParse(systemId: seq<bv8>, seconds: real, name: seq<bv8>)
    requires |systemId| == SystemIdLength
    ensures var key := CommandKeyForSystemId(systemId).value;
      && ParseCommand(key, StartCalibrationCommandData(systemId).value) == Some(StartCalibration)
      && ParseCommand(key, StopCalibrationCommandData(systemId).value) == Some(StopCalibration)
      && ParseCommand(key, SetSpindownTimeCommandData(seconds, systemId).value)
           == Some(SetSpindownTime(SpindownTicks(seconds)))
      && (NameLengthMin <= |name| <= NameLengthMax ==>
            ParseCommand(key, SetPeripheralNameCommandData(name, systemId).value) == Some(SetName(name)))
  {
    var key := CommandKeyForSystemId(systemId).value;
    var start := StartCalibrationCommandData(systemId).value;
    assert start[..2] == key;
    var stop := StopCalibrationCommandData(systemId).value;
    assert stop[..2] == key;
    var spindown := SetSpindownTimeCommandData(seconds, systemId).value;
    assert spindown[..2] == spindown[..3][..2] == key;
    if NameLengthMin <= |name| <= NameLengthMax {
      var named := SetPeripheralNameCommandData(name, systemId).value;
      assert named[..2] == named[..3][..2] == key;
    }
  }

  // ---- Worked examples ----

  /** The system id 00 00 00 06 00 02 has key 00 00 (octet 3 names position
      0, octet 5 position 2), so its calibration frames are 00 00 03 and
      00 00 04. */
  lemma CalibrationFrameExample()
    ensures CommandKeyForSystemId([0, 0, 0, 6, 0, 2]) == Ok([0, 0])
    ensures StartCalibrationCommandData([0, 0, 0, 6, 0, 2]) == Ok([0, 0, 0x03])
    ensures StopCalibrationCommandData([0, 0, 0, 6, 0, 2]) == Ok([0, 0, 0x04])
  {
    assert KeyIndex(6) == 0 && KeyIndex(2) == 2;
  }

  /** A spindown time of 1.75 s is 57344 ticks, sent as 00 E0 00 00. */
  lemma SpindownFrameExample(systemId: seq<bv8>)
    requires |systemId| == SystemIdLength
    ensures SpindownTicks(1.75) == 57344
    ensures SetSpindownTimeCommandData(1.75, systemId).value[3..] == [0x00, 0xE0, 0x00, 0x00]
  {
    assert DoubleToInt(57344.0) == 57344;
    assert 57344 / Pow256(1) == 224 by {
      assert Pow256(1) == 256;
    }
    assert 57344 / Pow256(2) == 0 by {
      assert Pow256(2) == 65536 by {
        assert Pow256(1) == 256;
      }
    }
    assert 57344 / Pow256(3) == 0 by {
      assert Pow256(3) == 16777216 by {
        assert Pow256(2) == 65536 by {
          assert Pow256(1) == 256;
        }
      }
    }
    assert IntOctets(57344) == [0x00, 0xE0, 0x00, 0x00];
  }

  /** Names of three and of eight octets are accepted; two and nine are not. */
  lemma NameLengthExamples(systemId: seq<bv8>)
    requires |systemId| == SystemIdLength
    ensures SetPeripheralNameCommandData([0x41, 0x42], systemId) == Err(InvalidPeripheralName)
    ensures SetPeripheralNameCommandData([0x41, 0x42, 0x43], systemId).Ok?
    ensures SetPeripheralNameCommandData([0x41, 0x42, 0x43, 0x44, 0x45, 0x46, 0x47, 0x48], systemId).Ok?
    ensures SetPeripheralNameCommandData([0x41, 0x42, 0x43, 0x44, 0x45, 0x46, 0x47, 0x48, 0x49], systemId)
         == Err(InvalidPeripheralName)
  {
  }
}
