/** The rules by which `DataProcessor` turns decoded counts into speed,
    roller rate, calibration verdicts, coasting and power.  Java `double`
    arithmetic is taken as exact `real` arithmetic; the one place where the
    IEEE special values decide a branch (a division by a zero revolution
    count in `alpha`) is modelled with `Double`. */
module PowerModel {
  import opened JavaBits
  import InRideData

  // ---- Constants (`SpindownTimes`, the speed and power fits) ----

  const SpindownMin: real := 1.5
  const SpindownMinPro: real := 4.7
  const SpindownMax: real := 2.0
  const SpindownMaxPro: real := 6.5

  /** The sensor clock runs at 32768 ticks per second. */
  const TicksPerSecond: real := 32768.0
  const SpeedFactor: real := 19974.826517
  const MphPerKph: real := 0.621371

  /** Coasting thresholds on alpha for the standard and the pro flywheel. */
  const CoastingAlpha: real := 200.0
  const CoastingAlphaPro: real := 20.0

  // ---- Time and speed ----

  /** `ticksToSeconds` */
  function TicksToSeconds(ticks: int): (seconds: real)
    ensures seconds * TicksPerSecond == ticks as real
    ensures seconds > 0.0 <==> ticks > 0
  {
    ticks as real / TicksPerSecond
  }

  /** `speedForTicks`: km/h from a revolution count over a tick interval;
      zero when either count is zero. */
  function SpeedForTicks(ticks: int, revs: int): (kph: real)
    ensures ticks == 0 || revs == 0 ==> kph == 0.0
    ensures ticks != 0 && revs != 0 ==> kph * ticks as real == SpeedFactor * revs as real
    ensures kph > 0.0 <==> (ticks > 0 && revs > 0) || (ticks < 0 && revs < 0)
  {
    if ticks == 0 || revs == 0 then 0.0
    else
      var kph := (SpeedFactor * revs as real) / ticks as real;
      QuotientSign(SpeedFactor * revs as real, ticks as real);
      kph
  }

  lemma QuotientSign(a: real, b: real)
    requires b != 0.0
    ensures (a / b) * b == a
    ensures a / b > 0.0 <==> (a > 0.0 && b > 0.0) || (a < 0.0 && b < 0.0)
  {
    if b > 0.0 {
      assert a / b > 0.0 <==> a > 0.0;
    } else {
      assert a / b == (-a) / (-b);
    }
  }

  /** The roller rate computed inline in `ProcessPowerData`: revolutions per
      minute over a positive interval, zero otherwise. */
  function RollerRPM(ticks: int, revs: int): (rpm: real)
    ensures ticks <= 0 ==> rpm == 0.0
    ensures ticks > 0 ==> rpm * TicksToSeconds(ticks) == 60.0 * revs as real
  {
    if ticks > 0 then
      var seconds := TicksToSeconds(ticks);
      var rollerRPS := revs as real / seconds;
      QuotientSign(revs as real, seconds);
      rollerRPS * 60.0
    else 0.0
  }

  // ---- Spindown classification ----

  predicate InStandardBand(t: real) { SpindownMin <= t <= SpindownMax }

  predicate InProBand(t: real) { SpindownMinPro <= t <= SpindownMaxPro }

  /** `hasProFlywheel` */
  function HasProFlywheel(spindown: real): (pro: bool)
    ensures pro <==> InProBand(spindown)
  {
    if spindown >= SpindownMinPro && spindown <= SpindownMaxPro then true else false
  }

  /** `resultForSpindown`: the valid bands succeed; below the standard band
      is too fast, above the pro band too slow, between the bands is
      `Middle`.  `Unknown` is never produced. */
  function ResultForSpindown(time: real): (result: InRideData.SensorCalibrationResult)
    ensures result != InRideData.SensorCalibrationResult.Unknown
    ensures result == InRideData.SensorCalibrationResult.Success <==> InStandardBand(time) || InProBand(time)
    ensures result == InRideData.SensorCalibrationResult.TooFast <==> time < SpindownMin
    ensures result == InRideData.SensorCalibrationResult.TooSlow <==> time > SpindownMaxPro
    ensures result == InRideData.SensorCalibrationResult.Middle <==> SpindownMax < time < SpindownMinPro
  {
    if time >= SpindownMin && time <= SpindownMax then InRideData.SensorCalibrationResult.Success
    else if time >= SpindownMinPro && time <= SpindownMaxPro then InRideData.SensorCalibrationResult.Success
    else if time < SpindownMin then InRideData.SensorCalibrationResult.TooFast
    else if time > SpindownMaxPro then InRideData.SensorCalibrationResult.TooSlow
    else InRideData.SensorCalibrationResult.Middle
  }

  /** The spindown time and flywheel kind that `ProcessPowerData` settles on. */
  datatype Selection = Selection(spindownTime: real, proFlywheel: bool)

  /** The last measured spindown time is used when it lies in either band,
      otherwise the midpoint of the standard band; the flywheel is pro
      exactly when the time lies in the pro band.  The selected time always
      lies in a band, and `powerForSpeed`'s own pro test on it agrees with
      the flag. */
  function SpindownSelection(last: real): (sel: Selection)
    ensures sel.proFlywheel == HasProFlywheel(last)
    ensures sel.spindownTime == last <==> InStandardBand(last) || InProBand(last)
    ensures !(InStandardBand(last) || InProBand(last)) ==>
      sel.spindownTime == (SpindownMax + SpindownMin) * 0.5
    ensures InStandardBand(sel.spindownTime) || InProBand(sel.spindownTime)
    ensures HasProFlywheel(sel.spindownTime) == sel.proFlywheel
  {
    var fallback := Selection((SpindownMax + SpindownMin) * 0.5, false);
    if last >= SpindownMin && last <= SpindownMax then Selection(last, false)
    else if last >= SpindownMinPro && last <= SpindownMaxPro then Selection(last, true)
    else fallback
  }

  /** The calibration verdict is `Success` exactly when the measured time is
      the one selected for the power computation. */
  lemma CalibrationMatchesSelection(time: real)
    ensures ResultForSpindown(time) == InRideData.SensorCalibrationResult.Success
        <==> SpindownSelection(time).spindownTime == time
  {
  }

  // ---- Alpha and coasting ----

  /** The values a Java `double` takes in `alpha`: a finite number, the two
      infinities a division by zero gives, or NaN. */
  datatype Double = Finite(value: real) | PositiveInfinity | NegativeInfinity | NaN

  /** `a / (double) b` */
  function Quotient(a: int, b: int): (q: Double)
    ensures b != 0 ==> q == Finite(a as real / b as real)
    ensures b == 0 ==> (q == PositiveInfinity <==> a > 0) && (q == NegativeInfinity <==> a < 0)
    ensures b == 0 && a == 0 ==> q == NaN
  {
    if b != 0 then Finite(a as real / b as real)
    else if a > 0 then PositiveInfinity
    else if a < 0 then NegativeInfinity
    else NaN
  }

  /** `x - y` on doubles: exact on finite operands; NaN when an operand is
      NaN or when equal infinities cancel; otherwise an infinite operand
      decides the result. */
  function Minus(x: Double, y: Double): (d: Double)
    ensures x.Finite? && y.Finite? ==> d == Finite(x.value - y.value)
    ensures d == NaN <==> x == NaN || y == NaN || (x == y && !x.Finite?)
    ensures d == PositiveInfinity <==>
      (x == PositiveInfinity && y != PositiveInfinity && y != NaN) || (x.Finite? && y == NegativeInfinity)
    ensures d == NegativeInfinity <==>
      (x == NegativeInfinity && y != NegativeInfinity && y != NaN) || (x.Finite? && y == PositiveInfinity)
  {
    match (x, y)
    case (NaN, _) => NaN
    case (_, NaN) => NaN
    case (Finite(a), Finite(b)) => Finite(a - b)
    case (PositiveInfinity, PositiveInfinity) => NaN
    case (NegativeInfinity, NegativeInfinity) => NaN
    case (PositiveInfinity, _) => PositiveInfinity
    case (NegativeInfinity, _) => NegativeInfinity
    case (Finite(_), PositiveInfinity) => NegativeInfinity
    case (Finite(_), NegativeInfinity) => PositiveInfinity
  }

  /** `x * y` on doubles, for a finite x: exact on a finite y; NaN for a
      NaN y or for zero times an infinity; otherwise an infinity whose sign
      is the product of the signs. */
  function Times(x: real, y: Double): (d: Double)
    ensures y.Finite? ==> d == Finite(x * y.value)
    ensures d == NaN <==> y == NaN || (x == 0.0 && !y.Finite?)
    ensures d == PositiveInfinity <==>
      (x > 0.0 && y == PositiveInfinity) || (x < 0.0 && y == NegativeInfinity)
    ensures d == NegativeInfinity <==>
      (x > 0.0 && y == NegativeInfinity) || (x < 0.0 && y == PositiveInfinity)
  {
    match y
    case Finite(_) => Finite(x * y.value)
    case PositiveInfinity => if x > 0.0 then PositiveInfinity else if x < 0.0 then NegativeInfinity else NaN
    case NegativeInfinity => if x > 0.0 then NegativeInfinity else if x < 0.0 then PositiveInfinity else NaN
    case NaN => NaN
  }

  /** `x > bound` on doubles: false for NaN. */
  predicate Above(x: Double, bound: real)
    ensures x == NaN || x == NegativeInfinity ==> !Above(x, bound)
    ensures x == PositiveInfinity ==> Above(x, bound)
    ensures x.Finite? ==> (Above(x, bound) <==> x.value > bound)
  {
    match x
    case Finite(v) => v > bound
    case PositiveInfinity => true
    case NegativeInfinity => false
    case NaN => false
  }

  /** What `alpha` returns (the Java class `AA`). */
  datatype AlphaResult = AlphaResult(coasting: bool, alpha: Double)

  /** `alpha`: the change of ticks per revolution between the previous and
      the current interval, scaled by the drop in speed.  The roller is
      coasting when that exceeds the flywheel's threshold.  It can only be
      coasting when both intervals are positive and the speed has dropped. */
  function Alpha(ticks: int, revs: int, speedKPH: real, ticksPrevious: int, revsPrevious: int,
                 speedKPHPrevious: real, proFlywheel: bool): (a: AlphaResult)
    ensures !(ticks > 0 && ticksPrevious > 0) ==> a == AlphaResult(false, Finite(0.0))
    ensures a.coasting ==> ticks > 0 && ticksPrevious > 0 && speedKPHPrevious > speedKPH
    ensures var dtpr := Minus(Quotient(ticks, revs), Quotient(ticksPrevious, revsPrevious));
      && (ticks > 0 && ticksPrevious > 0 && !Above(dtpr, 0.0) ==> a == AlphaResult(false, Finite(0.0)))
      && (ticks > 0 && ticksPrevious > 0 && Above(dtpr, 0.0) ==>
            a.alpha == Times(speedKPHPrevious - speedKPH, dtpr))
  {
    if ticks > 0 && ticksPrevious > 0 then
      var tpr := Quotient(ticks, revs);
      var ptpr := Quotient(ticksPrevious, revsPrevious);
      var dtpr := Minus(tpr, ptpr);
      if Above(dtpr, 0.0) then
        var deltaSpeed := speedKPHPrevious - speedKPH;
        var alpha := Times(deltaSpeed, dtpr);
        SlowingDownWhenAbove(deltaSpeed, dtpr);
        if Above(alpha, CoastingAlpha) && !proFlywheel then AlphaResult(true, alpha)
        else if Above(alpha, CoastingAlphaPro) && proFlywheel then AlphaResult(true, alpha)
        else AlphaResult(false, alpha)
      else AlphaResult(false, Finite(0.0))
    else AlphaResult(false, Finite(0.0))
  }

  /** A positive product with a positive factor has a positive other factor. */
  lemma SlowingDownWhenAbove(deltaSpeed: real, dtpr: Double)
    requires Above(dtpr, 0.0)
    ensures Above(Times(deltaSpeed, dtpr), 0.0) ==> deltaSpeed > 0.0
  {
    if dtpr.Finite? && deltaSpeed <= 0.0 {
      assert deltaSpeed * dtpr.value <= 0.0;
    }
  }

  /** The coasting decision: both intervals positive, ticks per revolution
      grown, and alpha over 200 on a standard flywheel or over 20 on a pro
      one. */
  lemma AlphaCoasting(ticks: int, revs: int, speedKPH: real, ticksPrevious: int, revsPrevious: int,
                      speedKPHPrevious: real, proFlywheel: bool)
    ensures var a := Alpha(ticks, revs, speedKPH, ticksPrevious, revsPrevious, speedKPHPrevious, proFlywheel);
      var dtpr := Minus(Quotient(ticks, revs), Quotient(ticksPrevious, revsPrevious));
      a.coasting <==>
        ticks > 0 && ticksPrevious > 0 && Above(dtpr, 0.0) &&
        ((Above(a.alpha, CoastingAlpha) && !proFlywheel) || (Above(a.alpha, CoastingAlphaPro) && proFlywheel))
  {
  }

  /** When the ticks per revolution did not grow (the roller kept its speed
      or sped up), alpha is zero and the roller is not coasting.  This
      covers zero revolution counts too: the change is then an infinity or
      NaN, and only a positive infinity counts as growth. */
  lemma SpeedingUpNeverCoasts(ticks: int, revs: int, speedKPH: real, ticksPrevious: int, revsPrevious: int,
                              speedKPHPrevious: real, proFlywheel: bool)
    requires !Above(Minus(Quotient(ticks, revs), Quotient(ticksPrevious, revsPrevious)), 0.0)
    ensures Alpha(ticks, revs, speedKPH, ticksPrevious, revsPrevious, speedKPHPrevious, proFlywheel)
         == AlphaResult(false, Finite(0.0))
  {
  }

  /** A roller that turned no revolution in the current interval, after one
      that did turn at a positive speed, gives an infinite alpha: it is
      coasting whatever its flywheel. */
  lemma StoppedRollerCoasts(ticks: int, ticksPrevious: int, revsPrevious: int, proFlywheel: bool)
    requires ticks > 0 && ticksPrevious > 0 && revsPrevious != 0
    requires SpeedForTicks(ticksPrevious, revsPrevious) > 0.0
    ensures Alpha(ticks, 0, SpeedForTicks(ticks, 0), ticksPrevious, revsPrevious,
                  SpeedForTicks(ticksPrevious, revsPrevious), proFlywheel)
         == AlphaResult(true, PositiveInfinity)
  {
  }

  /** A roller that turned no revolution in the previous interval gives an
      infinite previous ticks per revolution, so a current interval with
      revolutions is never growth: the roller is not coasting. */
  lemma StartedRollerNeverCoasts(ticks: int, revs: int, speedKPH: real, ticksPrevious: int,
                                 speedKPHPrevious: real, proFlywheel: bool)
    requires ticks > 0 && ticksPrevious > 0 && revs != 0
    ensures Alpha(ticks, revs, speedKPH, ticksPrevious, 0, speedKPHPrevious, proFlywheel)
         == AlphaResult(false, Finite(0.0))
  {
  }

  // ---- Power ----

  /** The cubic fit of power against speed in mph. */
  function RawPower(mph: real): (watts: real)
    ensures watts > 0.0 <==> mph > 0.0
  {
    var cube := mph * mph * mph;
    assert cube == mph * (mph * mph) && mph * mph >= 0.0;
    assert 5.244820 * mph + 0.019168 * cube == mph * (5.244820 + 0.019168 * (mph * mph));
    5.244820 * mph + 0.019168 * cube
  }

  /** The drag correction for a positive spindown time and raw power,
      computed with the constants of the flywheel `hasProFlywheel` finds. */
  function DragOffset(spindown: real, rawPower: real): (offset: real)
    ensures spindown <= 0.0 || rawPower <= 0.0 ==> offset == 0.0
  {
    if spindown > 0.0 && rawPower > 0.0 then
      var proFlywheel := HasProFlywheel(spindown);
      var spindownTimeMS := spindown * 1000.0;
      var dragOffsetSlope := if proFlywheel then -0.021 else -0.1425;
      var dragOffsetPowerSlope := if proFlywheel then 2.62 else 4.55;
      var yIntercept := if proFlywheel then 104.97 else 236.20;
      (dragOffsetPowerSlope * spindownTimeMS * rawPower * 0.00001) + (dragOffsetSlope * spindownTimeMS) + yIntercept
    else 0.0
  }

  /** For a fixed positive spindown time the drag correction grows with the
      raw power. */
  lemma DragGrowsWithPower(spindown: real, lower: real, higher: real)
    requires spindown > 0.0 && 0.0 < lower <= higher
    ensures DragOffset(spindown, lower) <= DragOffset(spindown, higher)
  {
    var spindownTimeMS := spindown * 1000.0;
    var slope := if HasProFlywheel(spindown) then 2.62 else 4.55;
    var factor := slope * spindownTimeMS * 0.00001;
    assert spindownTimeMS > 0.0 && slope > 0.0;
    assert factor > 0.0;
    NonNegativeProduct(factor, higher - lower);
    assert factor * higher - factor * lower == factor * (higher - lower);
  }

  lemma NonNegativeProduct(a: real, b: real)
    requires 0.0 <= a && 0.0 <= b
    ensures 0.0 <= a * b
  {
  }

  /** `powerForSpeed`: never negative, and zero whenever the speed is not
      positive (the drag correction only applies to positive raw power). */
  function PowerForSpeed(kph: real, spindown: real): (watts: Int32)
    ensures 0 <= watts
    ensures kph <= 0.0 ==> watts == 0
    ensures kph > 0.0 && spindown <= 0.0 ==> watts as real <= RawPower(kph * MphPerKph)
  {
    var mph := kph * MphPerKph;
    var rawPower := RawPower(mph);
    var power := rawPower + DragOffset(spindown, rawPower);
    DoubleToInt(if power < 0.0 then 0.0 else power)
  }
}
