/** The seasonal sunrise/sunset table and its day-by-day smoothing.
    Times are minutes since local midnight. The program interpolates in
    `f32`; here the interpolant a + (b - a) * n / 30 is kept exact as the
    numerator 30 * a + (b - a) * n over 30 and rounded to the nearest
    minute, halves away from zero, as `f32::round` does. */
module Seasons {

  /** Days per month assumed by the smoothing. */
  const DAYS_PER_MONTH: int := 30
  /** The shortest day of the table (December: 16:36 - 8:39). */
  const SHORTEST_DAY: int := 477

  /** Sunrise and sunset on the 15th of each month, January first. */
  datatype MonthlyTimes = MonthlyTimes(sunrise: seq<int>, sunset: seq<int>)
  {
    predicate Valid()
    {
      |sunrise| == 12 && |sunset| == 12
    }

    /** Every month's day is at least `minLength` minutes long. */
    predicate DaysAtLeast(minLength: int)
      requires Valid()
    {
      forall m :: 0 <= m < 12 ==> sunset[m] - sunrise[m] >= minLength
    }
  }

  /** The sunrise/sunset window of one day. */
  datatype DayWindow = DayWindow(sunrise: int, sunset: int)

  /** The table for a timezone whose longitude offset (in minutes) is
      `offset`: the base times of a central-European location, each
      shifted by the same offset. */
  function NewForTimezone(offset: int): (t: MonthlyTimes)
    ensures t.Valid()
    ensures t.DaysAtLeast(SHORTEST_DAY)
    ensures t.sunset[11] - t.sunrise[11] == SHORTEST_DAY
  {
    MonthlyTimes(
      [ 8 * 60 + 40 + offset,
        7 * 60 + 57 + offset,
        6 * 60 + 57 + offset,
        6 * 60 + 49 + offset,
        5 * 60 + 54 + offset,
        5 * 60 + 29 + offset,
        5 * 60 + 47 + offset,
        6 * 60 + 31 + offset,
        7 * 60 + 10 + offset,
        8 * 60 + 6 + offset,
        7 * 60 + 59 + offset,
        8 * 60 + 39 + offset ],
      [ 17 * 60 + 5 + offset,
        17 * 60 + 56 + offset,
        18 * 60 + 46 + offset,
        20 * 60 + 37 + offset,
        21 * 60 + 24 + offset,
        21 * 60 + 56 + offset,
        21 * 60 + 48 + offset,
        21 * 60 + 1 + offset,
        19 * 60 + 55 + offset,
        18 * 60 + 49 + offset,
        16 * 60 + 54 + offset,
        16 * 60 + 36 + offset ])
  }

  /** Changing the timezone moves every entry by the difference of the
      offsets, so no day length depends on the timezone. */
  lemma TableShiftsWithOffset(o1: int, o2: int, m: int)
    requires 0 <= m < 12
    ensures NewForTimezone(o2).sunrise[m] == NewForTimezone(o1).sunrise[m] + (o2 - o1)
    ensures NewForTimezone(o2).sunset[m] == NewForTimezone(o1).sunset[m] + (o2 - o1)
    ensures NewForTimezone(o2).sunset[m] - NewForTimezone(o2).sunrise[m]
         == NewForTimezone(o1).sunset[m] - NewForTimezone(o1).sunrise[m]
  {
  }

  /** `p / 30` rounded to the nearest integer, halves away from zero. */
  function RoundThirtieths(p: int): (r: int)
    ensures -15 <= DAYS_PER_MONTH * r - p <= 15
    ensures DAYS_PER_MONTH * r - p == 15 ==> p > 0
    ensures DAYS_PER_MONTH * r - p == -15 ==> p < 0
  {
    if p >= 0 then (p + 15) / DAYS_PER_MONTH else -((-p + 15) / DAYS_PER_MONTH)
  }

  /** The value n/30 of the way from a to b, rounded to the nearest minute. */
  function Interpolate(a: int, b: int, n: int): (r: int)
    requires 0 <= n <= DAYS_PER_MONTH
    ensures -15 <= DAYS_PER_MONTH * r - (DAYS_PER_MONTH * a + (b - a) * n) <= 15
    ensures (a <= b ==> a <= r <= b) && (b <= a ==> b <= r <= a)
    ensures n == 0 ==> r == a
    ensures n == DAYS_PER_MONTH ==> r == b
  {
    var p := DAYS_PER_MONTH * a + (b - a) * n;
    InterpolantBetween(a, b, n);
    RoundThirtieths(p)
  }

  /** The exact interpolant lies between its two ends. */
  lemma {:induction false} InterpolantBetween(a: int, b: int, n: int)
    requires 0 <= n <= DAYS_PER_MONTH
    ensures a <= b ==> DAYS_PER_MONTH * a <= DAYS_PER_MONTH * a + (b - a) * n <= DAYS_PER_MONTH * b
    ensures b <= a ==> DAYS_PER_MONTH * b <= DAYS_PER_MONTH * a + (b - a) * n <= DAYS_PER_MONTH * a
  {
    if a <= b {
      assert 0 <= (b - a) * n <= (b - a) * DAYS_PER_MONTH;
    } else {
      assert (a - b) * n <= (a - b) * DAYS_PER_MONTH;
      assert (b - a) * n == -((a - b) * n);
    }
  }

  /** The two table months a day is interpolated between (zero-based)
      and how many thirtieths of the way from the first to the second it
      lies. Days 1-15 blend the previous month into the current one, days
      16-31 the current month into the next; January wraps to December
      and December to January. */
  function Neighbours(month: int, day: int): (r: (int, int, int))
    requires 1 <= month <= 12 && 1 <= day <= 31
    ensures 0 <= r.0 < 12 && 0 <= r.1 < 12
    ensures day <= 15 ==> r.1 == month - 1 && r.0 == (month + 10) % 12 && r.2 == day + 15
    ensures day > 15 ==> r.0 == month - 1 && r.1 == month % 12 && r.2 == day - 15
    ensures 0 < r.2 <= DAYS_PER_MONTH
  {
    var monthIndex := month - 1;
    if day <= 15 then
      (if monthIndex == 0 then 11 else monthIndex - 1, monthIndex, day + 15)
    else
      (monthIndex, (monthIndex + 1) % 12, day - 15)
  }

  /** Today's sunrise/sunset window for `month` (1-12) and `day` (1-31). */
  function SmoothedDayTimes(t: MonthlyTimes, month: int, day: int): (w: DayWindow)
    requires t.Valid()
    requires 1 <= month <= 12 && 1 <= day <= 31
    ensures var (m1, m2, n) := Neighbours(month, day);
      && -15 <= DAYS_PER_MONTH * w.sunrise - (DAYS_PER_MONTH * t.sunrise[m1] + (t.sunrise[m2] - t.sunrise[m1]) * n) <= 15
      && -15 <= DAYS_PER_MONTH * w.sunset - (DAYS_PER_MONTH * t.sunset[m1] + (t.sunset[m2] - t.sunset[m1]) * n) <= 15
    ensures day == 15 ==> w == DayWindow(t.sunrise[month - 1], t.sunset[month - 1])
  {
    var (m1, m2, n) := Neighbours(month, day);
    DayWindow(Interpolate(t.sunrise[m1], t.sunrise[m2], n),
              Interpolate(t.sunset[m1], t.sunset[m2], n))
  }

  /** Each of today's times lies between the two table entries it blends. */
  lemma SmoothedBetweenEntries(t: MonthlyTimes, month: int, day: int)
    requires t.Valid()
    requires 1 <= month <= 12 && 1 <= day <= 31
    ensures var (m1, m2, _) := Neighbours(month, day);
            var w := SmoothedDayTimes(t, month, day);
      && Min(t.sunrise[m1], t.sunrise[m2]) <= w.sunrise <= Max(t.sunrise[m1], t.sunrise[m2])
      && Min(t.sunset[m1], t.sunset[m2]) <= w.sunset <= Max(t.sunset[m1], t.sunset[m2])
  {
  }

  /** The first half of January blends December into January. */
  lemma EarlyJanuaryUsesDecember(t: MonthlyTimes, day: int)
    requires t.Valid() && 1 <= day <= 15
    ensures SmoothedDayTimes(t, 1, day)
         == DayWindow(Interpolate(t.sunrise[11], t.sunrise[0], day + 15),
                      Interpolate(t.sunset[11], t.sunset[0], day + 15))
  {
  }

  /** The second half of December blends December into January. */
  lemma LateDecemberUsesJanuary(t: MonthlyTimes, day: int)
    requires t.Valid() && 16 <= day <= 31
    ensures SmoothedDayTimes(t, 12, day)
         == DayWindow(Interpolate(t.sunrise[11], t.sunrise[0], day - 15),
                      Interpolate(t.sunset[11], t.sunset[0], day - 15))
  {
  }

  function Min(a: int, b: int): int { if a <= b then a else b }
  function Max(a: int, b: int): int { if a <= b then b else a }

  /** Blending two day lengths of at least L minutes gives at least L. */
  lemma {:induction false} BlendedLengthAtLeast(la: int, lb: int, n: int, minLength: int)
    requires 0 <= n <= DAYS_PER_MONTH && la >= minLength && lb >= minLength
    ensures DAYS_PER_MONTH * la + (lb - la) * n >= DAYS_PER_MONTH * minLength
  {
    assert DAYS_PER_MONTH * la + (lb - la) * n == la * (DAYS_PER_MONTH - n) + lb * n;
    assert la * (DAYS_PER_MONTH - n) >= minLength * (DAYS_PER_MONTH - n);
    assert lb * n >= minLength * n;
  }

  /** Rounding sunrise and sunset separately loses at most one minute of
      the blended day length. */
  lemma {:induction false} SmoothedWindowLength(t: MonthlyTimes, month: int, day: int, minLength: int)
    requires t.Valid() && t.DaysAtLeast(minLength)
    requires 1 <= month <= 12 && 1 <= day <= 31
    ensures var w := SmoothedDayTimes(t, month, day);
      w.sunset - w.sunrise >= minLength - 1
  {
    var (m1, m2, n) := Neighbours(month, day);
    var w := SmoothedDayTimes(t, month, day);
    var r1, r2, s1, s2 := t.sunrise[m1], t.sunrise[m2], t.sunset[m1], t.sunset[m2];
    BlendedLengthAtLeast(s1 - r1, s2 - r2, n, minLength);
    GapIdentity(r1, r2, s1, s2, n);
    RoundedGap(w.sunset, w.sunrise,
               DAYS_PER_MONTH * s1 + (s2 - s1) * n, DAYS_PER_MONTH * r1 + (r2 - r1) * n, minLength);
  }

  /** The gap between two interpolants is the interpolant of the gaps. */
  lemma {:induction false} GapIdentity(r1: int, r2: int, s1: int, s2: int, n: int)
    ensures (DAYS_PER_MONTH * s1 + (s2 - s1) * n) - (DAYS_PER_MONTH * r1 + (r2 - r1) * n)
         == DAYS_PER_MONTH * (s1 - r1) + ((s2 - r2) - (s1 - r1)) * n
  {
    assert (s2 - s1) * n - (r2 - r1) * n == ((s2 - r2) - (s1 - r1)) * n;
  }

  /** Two values each within half a minute of exact thirtieths keep the
      gap between those, less one minute. */
  lemma RoundedGap(ws: int, wr: int, ps: int, pr: int, minLength: int)
    requires -15 <= DAYS_PER_MONTH * ws - ps && DAYS_PER_MONTH * wr - pr <= 15
    requires ps - pr >= DAYS_PER_MONTH * minLength
    ensures ws - wr >= minLength - 1
  {
  }

  /** For every timezone, every day of the year has a window of at least
      476 minutes, so its half-day is never zero. */
  lemma TimezoneWindowLength(offset: int, month: int, day: int)
    requires 1 <= month <= 12 && 1 <= day <= 31
    ensures var w := SmoothedDayTimes(NewForTimezone(offset), month, day);
      w.sunset - w.sunrise >= SHORTEST_DAY - 1
  {
    SmoothedWindowLength(NewForTimezone(offset), month, day, SHORTEST_DAY);
  }
}
