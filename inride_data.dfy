/** The records the decoders return (`PowerData`, `ConfigData`) and their
    enumerations.  Java `double` fields are `real`, `int` fields `Int32`. */
module InRideData {
  import opened JavaBits

  datatype SensorState = Normal | SpindownIdle | SpindownReady | SpindownActive

  datatype SensorCalibrationResult = Unknown | Success | TooFast | TooSlow | Middle

  datatype SensorCommandResult =
    | None | Success | NotSupported | InvalidRequest | CalibrationResult | UnknownError

  /** Declared by the configuration record; no decoder produces it. */
  datatype SensorUpdateRate = Millis1000 | Millis500 | Millis250

  /** A decoded telemetry packet.  `timestamp` is in seconds. */
  datatype PowerData = PowerData(
    timestamp: real,
    state: SensorState,
    power: Int32,
    speedKPH: real,
    rollerRPM: real,
    cadenceRPM: real,
    coasting: bool,
    spindownTime: real,
    calibrationResult: SensorCalibrationResult,
    lastSpindownResultTime: real,
    proFlywheel: bool,
    commandResult: SensorCommandResult)

  /** A decoded configuration packet. */
  datatype ConfigData = ConfigData(
    proFlywheel: bool,
    currentSpindownTime: real,
    calibrationReady: Int32,
    calibrationStart: Int32,
    calibrationEnd: Int32,
    calibrationDebounce: Int32,
    updateRateDefault: Int32,
    updateRateCalibration: Int32)
}
