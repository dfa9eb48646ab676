/** The daemon's minute tick: today's window from the seasonal table, the
    scheduled Kelvin value for the current minute, and `xsct_set_temperature`
    applying it to every CRTC of every screen at full brightness. The
    clock is read by the caller and arrives as parameters. */
module Daemon {
  import opened GammaMath
  import opened Display
  import opened Engine
  import opened Xsct
  import opened Kelvin
  import opened Seasons

  /** The status `xsct_set_temperature` applies: 0 means neutral, and the
      brightness is always full. */
  function SetStatus(kelvin: int): (ts: TempStatus)
    ensures ts.brightness == 1.0
    ensures kelvin == 0 ==> ts.temp == TEMPERATURE_NORM
    ensures kelvin != 0 ==> ts.temp == kelvin
  {
    TempStatus(if kelvin == 0 then TEMPERATURE_NORM else kelvin, 1.0)
  }

  /** The fixed policy never reads an estimate; this stands in for the
      exponential it does not use. */
  function NoEstimate(x: real): real { 0.0 }

  /** `xsct_set_temperature`: `sct_for_screen` on every screen with the
      CRTC index -1, which selects every CRTC. Afterwards every CRTC holds
      the ramp synthesized for the status at its own gamma size. */
  method SetTemperature(port: Port, kelvin: int, ln: real --> real)
    requires port.Valid() && LnDefined(ln)
    modifies port
    ensures port.Valid()
    ensures port.crtcs == PolicyCrtcs(old(port.crtcs), 0, |old(port.crtcs)|, -1, Fixed(SetStatus(kelvin)), ln, NoEstimate)
    ensures port.writes == old(port.writes) + PolicyWrites(old(port.crtcs), 0, |old(port.crtcs)|, -1, Fixed(SetStatus(kelvin)), ln, NoEstimate)
  {
    var temp := SetStatus(kelvin);
    ApplyToScreens(port, 0, |port.crtcs| - 1, -1, Fixed(temp), ln, NoEstimate);
  }

  /** After setting a temperature every CRTC of every screen holds the
      ramp synthesized for it, at the CRTC's own gamma size. */
  lemma SetTemperatureCoversEveryCrtc(crtcs: seq<seq<GammaRamp>>, kelvin: int, ln: real --> real)
    requires RampsValid(crtcs) && LnDefined(ln)
    ensures var r := PolicyCrtcs(crtcs, 0, |crtcs|, -1, Fixed(SetStatus(kelvin)), ln, NoEstimate);
      forall s :: 0 <= s < |crtcs| ==>
        |r[s]| == |crtcs[s]| &&
        forall c :: 0 <= c < |crtcs[s]| ==> r[s][c] == SynthesizeRamp(crtcs[s][c].Size(), SetStatus(kelvin), ln)
  {
    var r := PolicyCrtcs(crtcs, 0, |crtcs|, -1, Fixed(SetStatus(kelvin)), ln, NoEstimate);
    PolicyCrtcsAt(crtcs, 0, |crtcs|, -1, Fixed(SetStatus(kelvin)), ln, NoEstimate);
    PolicyCrtcsValid(crtcs, 0, |crtcs|, -1, Fixed(SetStatus(kelvin)), ln, NoEstimate);
    forall s, c | 0 <= s < |crtcs| && 0 <= c < |crtcs[s]|
      ensures r[s][c] == SynthesizeRamp(crtcs[s][c].Size(), SetStatus(kelvin), ln)
    {
      var span := CrtcSpan(-1, |crtcs[s]|);
      assert span == (0, |crtcs[s]|);
      assert r[s] == AppliedRow(crtcs[s], -1, SetStatus(kelvin), ln);
    }
  }

  /** On every day of the year, for every timezone offset, the Kelvin
      expression as written never divides by zero and agrees with the
      guarded schedule: the table's days are too long for a one-minute
      window. */
  lemma DaemonNeverDividesByZero(offset: int, month: int, day: int, current: int)
    requires 1 <= month <= 12 && 1 <= day <= 31
    ensures var w := SmoothedDayTimes(NewForTimezone(offset), month, day);
      TargetKelvinAsWritten(current, w.sunrise, w.sunset) == Value(TargetKelvin(current, w.sunrise, w.sunset))
  {
    TimezoneWindowLength(offset, month, day);
    var w := SmoothedDayTimes(NewForTimezone(offset), month, day);
    AsWrittenAgreesElsewhere(current, w.sunrise, w.sunset);
  }

  /** `manage_brightness_cycle` at minute `current` of day `day` of month
      `month`: smooth today's window from the table, schedule the Kelvin
      value and apply it. With a table whose days are all at least three
      minutes long, the value is the one the program's own expression
      (without the extra guard) produces. */
  method ManageBrightnessCycle(port: Port, t: MonthlyTimes, month: int, day: int, current: int, ln: real --> real)
    returns (kelvin: int, w: DayWindow)
    requires port.Valid() && LnDefined(ln)
    requires t.Valid() && 1 <= month <= 12 && 1 <= day <= 31
    modifies port
    ensures w == SmoothedDayTimes(t, month, day)
    ensures kelvin == TargetKelvin(current, w.sunrise, w.sunset)
    ensures NIGHT_KELVIN <= kelvin <= DAY_KELVIN
    ensures t.DaysAtLeast(3) ==> TargetKelvinAsWritten(current, w.sunrise, w.sunset) == Value(kelvin)
    ensures port.Valid()
    ensures port.crtcs == PolicyCrtcs(old(port.crtcs), 0, |old(port.crtcs)|, -1, Fixed(SetStatus(kelvin)), ln, NoEstimate)
    ensures port.writes == old(port.writes) + PolicyWrites(old(port.crtcs), 0, |old(port.crtcs)|, -1, Fixed(SetStatus(kelvin)), ln, NoEstimate)
  {
    w := SmoothedDayTimes(t, month, day);
    kelvin := TargetKelvin(current, w.sunrise, w.sunset);
    if t.DaysAtLeast(3) {
      SmoothedWindowLength(t, month, day, 3);
      AsWrittenAgreesElsewhere(current, w.sunrise, w.sunset);
    }
    SetTemperature(port, kelvin, ln);
  }
}
