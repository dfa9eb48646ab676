/** The colour-temperature arithmetic of the integrated xsct: clamping,
    the correction of out-of-range requests, the per-channel factors for
    a Kelvin value, the gamma ramps built from them, and the branch
    structure of the estimate read back from the ramps' peaks.
    The program works in `f64`; here its values are exact reals, and the
    natural logarithm and exponential are parameters, so nothing below
    depends on their numeric values. */
module GammaMath {

  const TEMPERATURE_NORM: int := 6500
  const TEMPERATURE_NIGHT: int := 4500
  const TEMPERATURE_ZERO: int := 700

  const GAMMA_MULT: real := 65535.0
  const GAMMA_K0GR: real := -1.47751309139817
  const GAMMA_K1GR: real := 0.28590164772055
  const GAMMA_K0BR: real := -4.38321650114872
  const GAMMA_K1BR: real := 0.6212158769447
  const GAMMA_K0RB: real := 1.75390204039018
  const GAMMA_K1RB: real := -0.1150805671482
  const GAMMA_K0GB: real := 1.49221604915144
  const GAMMA_K1GB: real := -0.07513509588921
  /** Peak level of a full-brightness ramp, used to normalise brightness. */
  const BRIGHTNESS_DIV: real := 65470.988

  const I32_MIN: int := -0x8000_0000
  const I32_MAX: int := 0x7fff_ffff

  /** A 16-bit gamma level. */
  newtype u16 = x: int | 0 <= x < 0x1_0000

  /** A temperature in Kelvin with a brightness (meaningful in [0, 1]). */
  datatype TempStatus = TempStatus(temp: int, brightness: real)

  /** Multiplicative factors applied to the red, green and blue ramps. */
  datatype Factors = Factors(red: real, green: real, blue: real)
  {
    predicate InUnit()
    {
      0.0 <= red <= 1.0 && 0.0 <= green <= 1.0 && 0.0 <= blue <= 1.0
    }
  }

  /** The three channels of a CRTC's gamma ramp. */
  datatype GammaRamp = GammaRamp(red: seq<u16>, green: seq<u16>, blue: seq<u16>)
  {
    predicate WellFormed()
    {
      |red| == |green| == |blue|
    }

    function Size(): nat
    {
      |red|
    }
  }

  // ---------------------------------------------------------------------
  // Clamping

  /** `double_trim`: clamp x into [a, b]. */
  function DoubleTrim(x: real, a: real, b: real): (r: real)
    ensures a <= b ==> a <= r <= b
    ensures a <= x <= b ==> r == x
    ensures r == x || r == a || r == b
  {
    if x < a then a else if x > b then b else x
  }

  lemma DoubleTrimIdempotent(x: real, a: real, b: real)
    requires a <= b
    ensures DoubleTrim(DoubleTrim(x, a, b), a, b) == DoubleTrim(x, a, b)
  {
  }

  lemma DoubleTrimMonotone(x: real, y: real, a: real, b: real)
    requires a <= b && x <= y
    ensures DoubleTrim(x, a, b) <= DoubleTrim(y, a, b)
  {
  }

  // ---------------------------------------------------------------------
  // Correcting a requested status

  /** The diagnostics `bound_temp` prints, one per correction. */
  datatype Warning =
    | TemperatureBelowZero
    | TemperatureBelowFloor
    | BrightnessBelowZero
    | BrightnessAboveOne

  /** The status `bound_temp` leaves behind. The temperature policy is
      asymmetric: zero or below resets to the neutral 6500 K, while a
      positive value below the 700 K floor is raised to the floor. */
  function Bound(ts: TempStatus): (r: TempStatus)
    ensures r.temp >= TEMPERATURE_ZERO && 0.0 <= r.brightness <= 1.0
    ensures ts.temp <= 0 ==> r.temp == TEMPERATURE_NORM
    ensures 0 < ts.temp < TEMPERATURE_ZERO ==> r.temp == TEMPERATURE_ZERO
    ensures ts.temp >= TEMPERATURE_ZERO ==> r.temp == ts.temp
    ensures r.brightness == DoubleTrim(ts.brightness, 0.0, 1.0)
  {
    var temp :=
      if ts.temp <= 0 then TEMPERATURE_NORM
      else if ts.temp < TEMPERATURE_ZERO then TEMPERATURE_ZERO
      else ts.temp;
    var brightness :=
      if ts.brightness < 0.0 then 0.0
      else if ts.brightness > 1.0 then 1.0
      else ts.brightness;
    TempStatus(temp, brightness)
  }

  /** Correcting twice changes nothing more. */
  lemma BoundIdempotent(ts: TempStatus)
    ensures Bound(Bound(ts)) == Bound(ts)
  {
  }

  /** `bound_temp`, updating the status in place and reporting each
      correction it makes. */
  method BoundTemp(ts: TempStatus) returns (r: TempStatus, warnings: seq<Warning>)
    ensures r == Bound(ts)
    ensures warnings == [] <==> r == ts
    ensures TemperatureBelowZero in warnings <==> ts.temp <= 0
    ensures TemperatureBelowFloor in warnings <==> 0 < ts.temp < TEMPERATURE_ZERO
    ensures BrightnessBelowZero in warnings <==> ts.brightness < 0.0
    ensures BrightnessAboveOne in warnings <==> ts.brightness > 1.0
  {
    r, warnings := ts, [];
    if r.temp <= 0 {
      warnings := warnings + [TemperatureBelowZero];
      r := r.(temp := TEMPERATURE_NORM);
    } else if r.temp < TEMPERATURE_ZERO {
      warnings := warnings + [TemperatureBelowFloor];
      r := r.(temp := TEMPERATURE_ZERO);
    }
    if r.brightness < 0.0 {
      warnings := warnings + [BrightnessBelowZero];
      r := r.(brightness := 0.0);
    } else if r.brightness > 1.0 {
      warnings := warnings + [BrightnessAboveOne];
      r := r.(brightness := 1.0);
    }
  }

  // ---------------------------------------------------------------------
  // Channel factors

  /** The logarithm is only ever asked for positive arguments. */
  ghost predicate LnDefined(ln: real --> real)
  {
    forall x: real :: x > 0.0 ==> ln.requires(x)
  }

  /** The per-channel factors `sct_for_screen` derives from a Kelvin
      value: below neutral red is pinned to 1 and green and blue follow
      the logarithmic fit (both 0 at or below the floor); from neutral up
      blue is pinned to 1 and red and green follow the fit. Every factor
      is clamped to [0, 1]. The logarithm's argument is positive in both
      branches, which the requires of `ln` makes Dafny check. */
  function ChannelFactors(temp: int, ln: real --> real): (f: Factors)
    requires LnDefined(ln)
    ensures f.InUnit()
    ensures temp < TEMPERATURE_NORM ==> f.red == 1.0
    ensures temp <= TEMPERATURE_ZERO ==> f.green == 0.0 && f.blue == 0.0
    ensures temp >= TEMPERATURE_NORM ==> f.blue == 1.0
  {
    var t := temp as real;
    if temp < TEMPERATURE_NORM then
      if temp > TEMPERATURE_ZERO then
        var g := ln(t - TEMPERATURE_ZERO as real);
        Factors(1.0,
                DoubleTrim(GAMMA_K0GR + GAMMA_K1GR * g, 0.0, 1.0),
                DoubleTrim(GAMMA_K0BR + GAMMA_K1BR * g, 0.0, 1.0))
      else
        Factors(1.0, 0.0, 0.0)
    else
      var g := ln(t - (TEMPERATURE_NORM - TEMPERATURE_ZERO) as real);
      Factors(DoubleTrim(GAMMA_K0RB + GAMMA_K1RB * g, 0.0, 1.0),
              DoubleTrim(GAMMA_K0GB + GAMMA_K1GB * g, 0.0, 1.0),
              1.0)
  }

  // ---------------------------------------------------------------------
  // Ramps

  /** Rust's `x as u16` for a float: truncation toward zero, saturating
      at both ends. */
  function CastU16(x: real): (r: u16)
    ensures 0 < r ==> r as real <= x
    ensures r < 65535 ==> x < r as real + 1.0
  {
    if x <= 0.0 then 0 else if x >= 65535.0 then 65535 else x.Floor as u16
  }

  /** The brightness-scaled level of entry i of a ramp of `size` entries. */
  function RampLevel(i: int, size: int, b: real): (level: real)
    requires size > 0
    ensures i == 0 || b == 0.0 ==> level == 0.0
  {
    GAMMA_MULT * b * (i as real) / (size as real)
  }

  /** Entry i of one channel: the level times the channel factor, rounded
      half up by adding 0.5 before the cast. */
  function RampEntry(i: int, size: int, b: real, factor: real): (e: u16)
    requires 0 <= i < size
    ensures i == 0 || b == 0.0 || factor == 0.0 ==> e == 0
  {
    CastU16(RampLevel(i, size, b) * factor + 0.5)
  }

  /** One channel of a ramp of `size` entries. */
  function RampChannel(size: nat, b: real, factor: real): (s: seq<u16>)
    ensures |s| == size
  {
    seq(size, i requires 0 <= i < size => RampEntry(i, size, b, factor))
  }

  /** The three channels `sct_for_screen` writes to a CRTC whose ramp has
      `size` entries, for status `ts`. */
  function SynthesizeRamp(size: nat, ts: TempStatus, ln: real --> real): (g: GammaRamp)
    requires LnDefined(ln)
    ensures g.WellFormed() && g.Size() == size
  {
    var b := DoubleTrim(ts.brightness, 0.0, 1.0);
    var f := ChannelFactors(ts.temp, ln);
    GammaRamp(RampChannel(size, b, f.red), RampChannel(size, b, f.green), RampChannel(size, b, f.blue))
  }

  /** Entry 0 of every channel is black. */
  lemma RampStartsAtBlack(size: nat, b: real, factor: real)
    requires size > 0
    ensures RampChannel(size, b, factor)[0] == 0
  {
    assert RampLevel(0, size, b) == 0.0;
  }

  /** A zero factor gives an all-black channel. */
  lemma ZeroFactorIsBlack(size: nat, b: real, i: int)
    requires 0 <= i < size
    ensures RampChannel(size, b, 0.0)[i] == 0
  {
  }

  /** With brightness and factor in [0, 1] the level stays below 65535,
      so the cast never saturates and every entry is the level rounded
      half up. */
  lemma {:induction false} RampEntryRounded(i: int, size: int, b: real, factor: real)
    requires 0 <= i < size
    requires 0.0 <= b <= 1.0 && 0.0 <= factor <= 1.0
    ensures 0.0 <= RampLevel(i, size, b) < GAMMA_MULT
    ensures RampEntry(i, size, b, factor) as int == (RampLevel(i, size, b) * factor + 0.5).Floor
  {
    var level := RampLevel(i, size, b);
    LevelBounds(i, size, b);
    ScaleBy(level, factor);
    CastU16IsFloor(level * factor + 0.5);
  }

  /** Inside (0, 65536) the cast is the floor. */
  lemma CastU16IsFloor(x: real)
    requires 0.0 < x < 65536.0
    ensures CastU16(x) as int == x.Floor
  {
  }

  lemma CastU16Monotone(x: real, y: real)
    requires x <= y
    ensures CastU16(x) <= CastU16(y)
  {
  }

  lemma {:induction false} LevelBounds(i: int, size: int, b: real)
    requires 0 <= i < size && 0.0 <= b <= 1.0
    ensures 0.0 <= RampLevel(i, size, b) < GAMMA_MULT
  {
    var c := GAMMA_MULT * b;
    assert 0.0 <= c <= GAMMA_MULT;
    MulRealMonotone(c, GAMMA_MULT, i as real);
    MulRealMonotone(0.0, c, i as real);
    var lo, mid, hi := c * (i as real), GAMMA_MULT * (i as real), GAMMA_MULT * (size as real);
    assert lo <= mid;
    assert mid < hi by {
      assert hi - mid == GAMMA_MULT * ((size - i) as real);
    }
    DivBelow(lo, GAMMA_MULT, size as real);
    assert RampLevel(i, size, b) == c * (i as real) / (size as real);
  }

  lemma ScaleBy(x: real, k: real)
    requires 0.0 <= x && 0.0 <= k <= 1.0
    ensures 0.0 <= x * k <= x
  {
  }

  lemma MulRealMonotone(x: real, y: real, k: real)
    requires x <= y && 0.0 <= k
    ensures x * k <= y * k
  {
  }

  lemma ScaleMonotone(k: real, x: real, y: real)
    requires x <= y && 0.0 <= k
    ensures k * x <= k * y
  {
  }

  lemma DivRealMonotone(x: real, y: real, k: real)
    requires x <= y && 0.0 < k
    ensures x / k <= y / k
  {
  }

  lemma DivBelow(x: real, m: real, s: real)
    requires 0.0 <= x < m * s && s > 0.0
    ensures 0.0 <= x / s < m
  {
  }

  /** Every channel of a ramp is non-decreasing along its index. */
  lemma {:induction false} RampNonDecreasing(size: nat, b: real, factor: real, i: int, j: int)
    requires 0.0 <= b <= 1.0 && 0.0 <= factor <= 1.0
    requires 0 <= i <= j < size
    ensures RampChannel(size, b, factor)[i] <= RampChannel(size, b, factor)[j]
  {
    EntryMonotone(i, j, size, b, factor);
    assert RampChannel(size, b, factor)[i] == RampEntry(i, size, b, factor);
    assert RampChannel(size, b, factor)[j] == RampEntry(j, size, b, factor);
  }

  lemma EntryMonotone(i: int, j: int, size: int, b: real, factor: real)
    requires 0.0 <= b <= 1.0 && 0.0 <= factor <= 1.0
    requires 0 <= i <= j < size
    ensures RampEntry(i, size, b, factor) <= RampEntry(j, size, b, factor)
  {
    var li, lj := RampLevel(i, size, b), RampLevel(j, size, b);
    LevelMonotone(i, j, size, b);
    EntryOrderedByLevel(i, j, size, b, factor, li, lj);
  }

  lemma EntryOrderedByLevel(i: int, j: int, size: int, b: real, factor: real, li: real, lj: real)
    requires 0 <= i < size && 0 <= j < size && 0.0 <= factor
    requires li == RampLevel(i, size, b) && lj == RampLevel(j, size, b) && li <= lj
    ensures RampEntry(i, size, b, factor) <= RampEntry(j, size, b, factor)
  {
    EntryIsScaledLevel(i, size, b, factor, li);
    EntryIsScaledLevel(j, size, b, factor, lj);
    ScaledCastMonotone(li, lj, factor);
  }

  lemma EntryIsScaledLevel(i: int, size: int, b: real, factor: real, level: real)
    requires 0 <= i < size && level == RampLevel(i, size, b)
    ensures RampEntry(i, size, b, factor) == CastU16(level * factor + 0.5)
  {
  }

  /** Scaling two ordered levels by one factor and rounding keeps them ordered. */
  lemma ScaledCastMonotone(x: real, y: real, factor: real)
    requires x <= y && 0.0 <= factor
    ensures CastU16(x * factor + 0.5) <= CastU16(y * factor + 0.5)
  {
    MulRealMonotone(x, y, factor);
    CastU16Monotone(x * factor + 0.5, y * factor + 0.5);
  }

  lemma {:induction false} LevelMonotone(i: int, j: int, size: int, b: real)
    requires 0 <= i <= j < size && 0.0 <= b
    ensures RampLevel(i, size, b) <= RampLevel(j, size, b)
  {
    var c := GAMMA_MULT * b;
    ScaleMonotone(c, i as real, j as real);
    DivRealMonotone(c * (i as real), c * (j as real), size as real);
  }

  /** The synthesized ramp starts black on every channel, never
      decreases, and, below neutral, red is the plain brightness ramp
      while at or below the floor green and blue are black; from neutral
      up blue is the plain brightness ramp. */
  lemma SynthesizedRampShape(size: nat, ts: TempStatus, ln: real --> real, i: int, j: int)
    requires LnDefined(ln)
    requires 0 <= i <= j < size
    ensures var g := SynthesizeRamp(size, ts, ln);
      && g.red[0] == 0 && g.green[0] == 0 && g.blue[0] == 0
      && g.red[i] <= g.red[j] && g.green[i] <= g.green[j] && g.blue[i] <= g.blue[j]
    ensures var g := SynthesizeRamp(size, ts, ln);
            var b := DoubleTrim(ts.brightness, 0.0, 1.0);
      && (ts.temp < TEMPERATURE_NORM ==> g.red == RampChannel(size, b, 1.0))
      && (ts.temp <= TEMPERATURE_ZERO ==> g.green[i] == 0 && g.blue[i] == 0)
      && (ts.temp >= TEMPERATURE_NORM ==> g.blue == RampChannel(size, b, 1.0))
  {
    var b := DoubleTrim(ts.brightness, 0.0, 1.0);
    var f := ChannelFactors(ts.temp, ln);
    RampStartsAtBlack(size, b, f.red);
    RampStartsAtBlack(size, b, f.green);
    RampStartsAtBlack(size, b, f.blue);
    RampNonDecreasing(size, b, f.red, i, j);
    RampNonDecreasing(size, b, f.green, i, j);
    RampNonDecreasing(size, b, f.blue, i, j);
    if ts.temp <= TEMPERATURE_ZERO {
      ZeroFactorIsBlack(size, b, i);
    }
  }

  // ---------------------------------------------------------------------
  // Estimate

  /** Rust's `x as i32` for a float: truncation toward zero, saturating. */
  function CastI32(x: real): (r: int)
    ensures I32_MIN <= r <= I32_MAX
  {
    if x >= I32_MAX as real then I32_MAX
    else if x <= I32_MIN as real then I32_MIN
    else if x >= 0.0 then x.Floor
    else -((-x).Floor)
  }

  function MaxReal(a: real, b: real): real
  {
    if a > b then a else b
  }

  /** The status `get_sct_for_screen` reports for the summed peak levels
      of the `n` CRTCs it read: brightness is the largest peak, averaged
      and normalised; the temperature follows the branch structure of the
      inverted fit, with `exp` left as a parameter. */
  function EstimateFromPeaks(sumR: real, sumG: real, sumB: real, n: nat, exp: real -> real): (ts: TempStatus)
    requires 0.0 <= sumR && 0.0 <= sumG && 0.0 <= sumB
    ensures 0.0 <= ts.brightness <= 1.0
    ensures I32_MIN <= ts.temp <= I32_MAX
    ensures sumR == 0.0 && sumG == 0.0 && sumB == 0.0 ==> ts == TempStatus(0, 0.0)
    ensures n == 0 ==> ts.temp == 0
  {
    var brightness := MaxReal(sumB, MaxReal(sumR, sumG));
    if brightness > 0.0 && n > 0 then
      var r, g, b := sumR / brightness, sumG / brightness, sumB / brightness;
      var br := DoubleTrim(brightness / (n as real) / BRIGHTNESS_DIV, 0.0, 1.0);
      var d := b - r;
      var temp :=
        if d < 0.0 then
          if b > 0.0 then
            exp((g + 1.0 + d - (GAMMA_K0GR + GAMMA_K0BR)) / (GAMMA_K1GR + GAMMA_K1BR)) + TEMPERATURE_ZERO as real
          else if g > 0.0 then
            exp((g - GAMMA_K0GR) / GAMMA_K1GR) + TEMPERATURE_ZERO as real
          else
            TEMPERATURE_ZERO as real
        else
          exp((g + 1.0 - d - (GAMMA_K0GB + GAMMA_K0RB)) / (GAMMA_K1GB + GAMMA_K1RB))
            + (TEMPERATURE_NORM - TEMPERATURE_ZERO) as real;
      TempStatus(CastI32(temp + 0.5), br)
    else
      TempStatus(CastI32(0.0 + 0.5), DoubleTrim(brightness, 0.0, 1.0))
  }

  /** Only red lit: the estimate is the 700 K floor. */
  lemma EstimateRedOnlyIsFloor(sumR: real, n: nat, exp: real -> real)
    requires sumR > 0.0 && n > 0
    ensures EstimateFromPeaks(sumR, 0.0, 0.0, n, exp).temp == TEMPERATURE_ZERO
  {
  }

  /** For any non-negative exponential, a lit ramp is estimated at or
      above the floor, and at or above 5800 K when blue is at least red. */
  lemma EstimateAtLeastFloor(sumR: real, sumG: real, sumB: real, n: nat, exp: real -> real)
    requires 0.0 <= sumR && 0.0 <= sumG && 0.0 <= sumB
    requires forall x :: exp(x) >= 0.0
    requires n > 0 && (sumR > 0.0 || sumG > 0.0 || sumB > 0.0)
    ensures EstimateFromPeaks(sumR, sumG, sumB, n, exp).temp >= TEMPERATURE_ZERO
    ensures sumB >= sumR ==> EstimateFromPeaks(sumR, sumG, sumB, n, exp).temp >= TEMPERATURE_NORM - TEMPERATURE_ZERO
  {
    var brightness := MaxReal(sumB, MaxReal(sumR, sumG));
    assert brightness > 0.0;
    if sumB >= sumR {
      DivRealMonotone(sumR, sumB, brightness);
    }
  }
}
