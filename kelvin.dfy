/** The day/night colour-temperature schedule of the daemon's minute tick:
    a fixed night value outside [sunrise, sunset), a linear ramp up to
    the day value at the midpoint of the window and back down after it,
    then a clamp to [night, day]. All arithmetic is on integers; every
    division here has non-negative operands, so Rust's truncating `/`
    and Dafny's Euclidean `/` agree. */
module Kelvin {

  const NIGHT_KELVIN: int := 4500
  const DAY_KELVIN: int := 6500
  /** The value the program returns for an empty window. */
  const FALLBACK_KELVIN: int := 5500
  /** Kelvin gained between sunrise and the midpoint of the window. */
  const RAMP_SPAN: int := 2000

  /** What evaluating the `kelvin` expression produces: a value, or the
      panic of an integer division by zero. */
  datatype Outcome = Value(kelvin: int) | DivisionByZero

  /** Rust's `i32::clamp(lo, hi)`. */
  function Clamp(k: int, lo: int, hi: int): (r: int)
    requires lo <= hi
    ensures lo <= r <= hi
    ensures lo <= k <= hi ==> r == k
  {
    if k < lo then lo else if k > hi then hi else k
  }

  /** The `kelvin` expression as the program writes it, before the clamp.
      Its guard only tests `day_length == 0`, so a window of one minute
      reaches the division with `half_day == 0`. */
  function RawKelvinAsWritten(current: int, sunrise: int, sunset: int): (r: Outcome)
    ensures current >= sunset || current < sunrise ==> r == Value(NIGHT_KELVIN)
    ensures sunrise == sunset ==> r == Value(NIGHT_KELVIN)
    ensures r == DivisionByZero <==> sunset == sunrise + 1 && current == sunrise
  {
    if current >= sunset || current < sunrise then Value(NIGHT_KELVIN)
    else
      var dayLength := sunset - sunrise;
      if dayLength == 0 then Value(FALLBACK_KELVIN)
      else
        var halfDay := dayLength / 2;
        var midpoint := sunrise + halfDay;
        if current <= midpoint then
          if halfDay == 0 then DivisionByZero
          else Value(NIGHT_KELVIN + (current - sunrise) * RAMP_SPAN / halfDay)
        else
          Value(DAY_KELVIN - (current - midpoint) * RAMP_SPAN / halfDay)
  }

  /** The scheduled Kelvin value as written: the raw expression, then the clamp. */
  function TargetKelvinAsWritten(current: int, sunrise: int, sunset: int): (r: Outcome)
    ensures r.Value? ==> NIGHT_KELVIN <= r.kelvin <= DAY_KELVIN
  {
    match RawKelvinAsWritten(current, sunrise, sunset)
    case Value(k) => Value(Clamp(k, NIGHT_KELVIN, DAY_KELVIN))
    case DivisionByZero => DivisionByZero
  }

  /** The unclamped schedule with the guard that the division needs:
      a half-day of zero minutes takes the fallback value. */
  function RawKelvin(current: int, sunrise: int, sunset: int): (r: int)
    ensures current >= sunset || current < sunrise ==> r == NIGHT_KELVIN
    ensures sunrise <= current < sunset && sunset - sunrise < 2 ==> r == FALLBACK_KELVIN
    ensures current == sunrise && sunset - sunrise >= 2 ==> r == NIGHT_KELVIN
  {
    if current >= sunset || current < sunrise then NIGHT_KELVIN
    else
      var halfDay := (sunset - sunrise) / 2;
      var midpoint := sunrise + halfDay;
      if halfDay == 0 then FALLBACK_KELVIN
      else if current <= midpoint then NIGHT_KELVIN + (current - sunrise) * RAMP_SPAN / halfDay
      else DAY_KELVIN - (current - midpoint) * RAMP_SPAN / halfDay
  }

  /** The Kelvin value the daemon applies at minute `current` of a day
      whose window is [sunrise, sunset). */
  function TargetKelvin(current: int, sunrise: int, sunset: int): (k: int)
    ensures NIGHT_KELVIN <= k <= DAY_KELVIN
    ensures current >= sunset || current < sunrise ==> k == NIGHT_KELVIN
    ensures sunrise == sunset ==> k == NIGHT_KELVIN
  {
    Clamp(RawKelvin(current, sunrise, sunset), NIGHT_KELVIN, DAY_KELVIN)
  }

  /** The midpoint of the window, as the program computes it. */
  function Midpoint(sunrise: int, sunset: int): int
  {
    sunrise + (sunset - sunrise) / 2
  }

  // ---------------------------------------------------------------------
  // Arithmetic of the ramp

  /** Strict inequality of multiples by a positive factor cancels. */
  lemma {:induction false} MulCancelLess(x: int, y: int, h: int)
    requires 0 < h && x * h < y * h
    ensures x < y
  {
    if x >= y {
      MulMonotone(y, x, h);
    }
  }

  lemma {:induction false} MulMonotone(x: int, y: int, h: int)
    requires 0 <= h && x <= y
    ensures x * h <= y * h
  {
    assert y * h - x * h == (y - x) * h;
  }

  /** Integer division by a positive divisor is non-decreasing. */
  lemma {:induction false} DivMonotone(a: int, b: int, h: int)
    requires 0 <= a <= b && 0 < h
    ensures a / h <= b / h
  {
    var qa, qb := a / h, b / h;
    assert qa * h <= a;
    assert b < qb * h + h;
    assert qb * h + h == (qb + 1) * h;
    MulCancelLess(qa, qb + 1, h);
  }

  /** Division undoes multiplication by the same positive factor. */
  lemma {:induction false} MulDivCancel(k: int, h: int)
    requires 0 < h
    ensures (k * h) / h == k
  {
    var q, r := (k * h) / h, (k * h) % h;
    assert (k - q) * h == r;
    assert 1 * h == h && (-1) * h == -h;
    MulCancelLess(k - q, 1, h);
    MulCancelLess(-1, k - q, h);
  }

  /** x * 2000 / h lies in [0, 2000] when 0 <= x <= h. */
  lemma {:induction false} RampStepBounded(x: int, h: int)
    requires 0 <= x <= h && 0 < h
    ensures 0 <= x * RAMP_SPAN / h <= RAMP_SPAN
    ensures x == 0 ==> x * RAMP_SPAN / h == 0
    ensures x == h ==> x * RAMP_SPAN / h == RAMP_SPAN
  {
    MulMonotone(x, h, RAMP_SPAN);
    DivMonotone(x * RAMP_SPAN, h * RAMP_SPAN, h);
    assert h * RAMP_SPAN == RAMP_SPAN * h;
    MulDivCancel(RAMP_SPAN, h);
  }

  /** x * 2000 / h is non-decreasing in x. */
  lemma {:induction false} RampStepMonotone(x: int, y: int, h: int)
    requires 0 <= x <= y && 0 < h
    ensures x * RAMP_SPAN / h <= y * RAMP_SPAN / h
  {
    MulMonotone(x, y, RAMP_SPAN);
    DivMonotone(x * RAMP_SPAN, y * RAMP_SPAN, h);
  }

  // ---------------------------------------------------------------------
  // Properties of the schedule

  /** Inside a window of at least two minutes the unclamped ramp already
      lies in [night, day]: the clamp never changes a daytime value. */
  lemma ClampInactiveInsideWindow(current: int, sunrise: int, sunset: int)
    requires sunrise <= current < sunset && sunset - sunrise >= 2
    ensures NIGHT_KELVIN <= RawKelvin(current, sunrise, sunset) <= DAY_KELVIN
    ensures TargetKelvin(current, sunrise, sunset) == RawKelvin(current, sunrise, sunset)
  {
    var halfDay := (sunset - sunrise) / 2;
    var midpoint := sunrise + halfDay;
    if current <= midpoint {
      RampStepBounded(current - sunrise, halfDay);
    } else {
      RampStepBounded(current - midpoint, halfDay);
    }
  }

  /** The ramp starts at the night value at sunrise itself. */
  lemma KelvinAtSunrise(sunrise: int, sunset: int)
    requires sunset - sunrise >= 2
    ensures TargetKelvin(sunrise, sunrise, sunset) == NIGHT_KELVIN
  {
    RampStepBounded(0, (sunset - sunrise) / 2);
  }

  /** The ramp reaches the day value exactly at the midpoint. */
  lemma KelvinAtMidpoint(sunrise: int, sunset: int)
    requires sunset - sunrise >= 2
    ensures TargetKelvin(Midpoint(sunrise, sunset), sunrise, sunset) == DAY_KELVIN
  {
    var halfDay := (sunset - sunrise) / 2;
    RampStepBounded(halfDay, halfDay);
  }

  /** Up to the midpoint the schedule never decreases (before sunrise it
      is the night value, the minimum). */
  lemma KelvinNonDecreasingBeforeMidpoint(c1: int, c2: int, sunrise: int, sunset: int)
    requires c1 <= c2 <= Midpoint(sunrise, sunset)
    ensures TargetKelvin(c1, sunrise, sunset) <= TargetKelvin(c2, sunrise, sunset)
  {
    var halfDay := (sunset - sunrise) / 2;
    if sunrise <= c1 && c2 < sunset && halfDay > 0 {
      RampStepMonotone(c1 - sunrise, c2 - sunrise, halfDay);
      RampStepBounded(c1 - sunrise, halfDay);
      RampStepBounded(c2 - sunrise, halfDay);
    } else if sunrise <= c2 < sunset && halfDay > 0 {
      ClampInactiveInsideWindow(c2, sunrise, sunset);
    }
  }

  /** From the midpoint on the schedule never increases (at and after
      sunset it is the night value, the minimum). */
  lemma KelvinNonIncreasingAfterMidpoint(c1: int, c2: int, sunrise: int, sunset: int)
    requires Midpoint(sunrise, sunset) <= c1 <= c2
    ensures TargetKelvin(c1, sunrise, sunset) >= TargetKelvin(c2, sunrise, sunset)
  {
    var halfDay := (sunset - sunrise) / 2;
    var midpoint := sunrise + halfDay;
    if c2 < sunset && sunrise <= c1 && halfDay > 0 {
      if c1 == midpoint {
        KelvinAtMidpoint(sunrise, sunset);
      } else {
        RampStepMonotone(c1 - midpoint, c2 - midpoint, halfDay);
        ClampInactiveInsideWindow(c1, sunrise, sunset);
        ClampInactiveInsideWindow(c2, sunrise, sunset);
      }
    } else if sunrise <= c1 < sunset && halfDay > 0 {
      ClampInactiveInsideWindow(c1, sunrise, sunset);
    }
  }

  // ---------------------------------------------------------------------
  // The guard as written

  /** The expression as written divides by zero exactly on the first
      minute of a one-minute window. */
  lemma AsWrittenDividesByZeroIff(current: int, sunrise: int, sunset: int)
    ensures TargetKelvinAsWritten(current, sunrise, sunset) == DivisionByZero
        <==> sunset == sunrise + 1 && current == sunrise
  {
  }

  /** A concrete input the `day_length == 0` guard lets through. */
  lemma AsWrittenPanicsOnOneMinuteWindow()
    ensures TargetKelvinAsWritten(600, 600, 601) == DivisionByZero
  {
    AsWrittenDividesByZeroIff(600, 600, 601);
  }

  /** Everywhere else the expression as written and the guarded schedule agree. */
  lemma AsWrittenAgreesElsewhere(current: int, sunrise: int, sunset: int)
    requires !(sunset == sunrise + 1 && current == sunrise)
    ensures TargetKelvinAsWritten(current, sunrise, sunset) == Value(TargetKelvin(current, sunrise, sunset))
  {
  }
}
