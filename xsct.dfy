/** The integrated `xsct` command: which screens an invocation touches,
    the optional day/night toggle, and the choice between reporting the
    estimated status, setting an absolute one, or shifting each screen's
    own estimate by a delta. The command line arrives already parsed. */
module Xsct {
  import opened GammaMath
  import opened Display
  import opened Engine

  /** The sentinel of an absent or unparseable temperature or brightness. */
  const DELTA_MIN: int := -1_000_000
  /** `usize::MAX` on a 64-bit target: what an unparseable screen index becomes. */
  const USIZE_MAX: nat := 0xffff_ffff_ffff_ffff
  const TWO_POW_32: int := 0x1_0000_0000

  datatype Option<T> = None | Some(value: T)

  /** The parsed command line. `screen` is `Some(USIZE_MAX)` when the
      given index does not parse; `crtc` is -1 when absent or unparseable;
      `temperature` is DELTA_MIN and `brightness` DELTA_MIN as a real when
      absent or unparseable. */
  datatype Options = Options(
    help: bool, verbose: bool, delta: bool, toggle: bool,
    screen: Option<nat>, crtc: int, temperature: int, brightness: real)

  // ---------------------------------------------------------------------
  // The status each screen receives

  /** Two's-complement wrap-around of an `i32` addition (a release build). */
  function WrapI32(x: int): (r: int)
    ensures I32_MIN <= r <= I32_MAX
    ensures (r - x) % TWO_POW_32 == 0
    ensures I32_MIN <= x <= I32_MAX ==> r == x
  {
    (x - I32_MIN) % TWO_POW_32 + I32_MIN
  }

  /** The toggle: a screen estimated above 6400 K goes to night, any other
      to neutral, keeping its estimated brightness. */
  function ToggleTarget(est: TempStatus): (ts: TempStatus)
    ensures ts.brightness == est.brightness
    ensures ts.temp == TEMPERATURE_NIGHT <==> est.temp > TEMPERATURE_NORM - 100
    ensures ts.temp == TEMPERATURE_NORM <==> est.temp <= TEMPERATURE_NORM - 100
  {
    TempStatus(if est.temp > TEMPERATURE_NORM - 100 then TEMPERATURE_NIGHT else TEMPERATURE_NORM,
               est.brightness)
  }

  /** Delta mode: a screen's own estimate shifted by the deltas, then
      corrected by `bound_temp`. */
  function ShiftTarget(est: TempStatus, dtemp: int, dbrightness: real): (ts: TempStatus)
    ensures ts.temp >= TEMPERATURE_ZERO && 0.0 <= ts.brightness <= 1.0
    ensures ts.brightness == DoubleTrim(est.brightness + dbrightness, 0.0, 1.0)
    ensures TEMPERATURE_ZERO <= est.temp + dtemp <= I32_MAX ==> ts.temp == est.temp + dtemp
  {
    Bound(TempStatus(WrapI32(est.temp + dtemp), est.brightness + dbrightness))
  }

  /** A shift by zero only corrects the estimate. */
  lemma ShiftByZeroIsBound(est: TempStatus)
    requires I32_MIN <= est.temp <= I32_MAX
    ensures ShiftTarget(est, 0, 0.0) == Bound(est)
  {
  }

  /** The brightness of an absolute request: a missing brightness means 1.0
      unless in delta mode. */
  function RequestedBrightness(o: Options): (b: real)
    ensures o.brightness != DELTA_MIN as real || o.delta ==> b == o.brightness
    ensures o.brightness == DELTA_MIN as real && !o.delta ==> b == 1.0
  {
    if o.brightness == DELTA_MIN as real && !o.delta then 1.0 else o.brightness
  }

  /** Absolute mode: a temperature of 0 is the reset to 6500 K and skips
      `bound_temp`, so its brightness stays as requested; any other
      request is corrected. */
  function AbsoluteStatus(temp: int, brightness: real): (ts: TempStatus)
    ensures ts.temp >= TEMPERATURE_ZERO
    ensures temp == 0 ==> ts == TempStatus(TEMPERATURE_NORM, brightness)
    ensures temp != 0 ==> 0.0 <= ts.brightness <= 1.0
    ensures temp >= TEMPERATURE_ZERO ==> ts.temp == temp
  {
    if temp == 0 then TempStatus(TEMPERATURE_NORM, brightness)
    else Bound(TempStatus(temp, brightness))
  }

  /** Skipping `bound_temp` on the reset is harmless: `sct_for_screen`
      clamps the brightness itself, so the ramps equal those of the
      corrected request. */
  lemma ResetSkipsBoundHarmlessly(temp: int, brightness: real, size: nat, ln: real --> real)
    requires LnDefined(ln)
    ensures SynthesizeRamp(size, AbsoluteStatus(temp, brightness), ln)
         == SynthesizeRamp(size, Bound(TempStatus(temp, brightness)), ln)
  {
    DoubleTrimIdempotent(brightness, 0.0, 1.0);
  }

  /** How the statuses of the screens of one loop are chosen. */
  datatype Policy = Fixed(status: TempStatus) | Toggle | Shift(dtemp: int, dbrightness: real)

  /** The status a screen whose CRTCs hold `row` receives under `p`. */
  function StatusFor(row: seq<GammaRamp>, icrtc: int, p: Policy, exp: real -> real): (ts: TempStatus)
    requires forall c :: 0 <= c < |row| ==> row[c].WellFormed() && row[c].Size() >= 1
    ensures p.Toggle? ==> (ts.temp == TEMPERATURE_NIGHT || ts.temp == TEMPERATURE_NORM) && 0.0 <= ts.brightness <= 1.0
    ensures p.Shift? ==> ts.temp >= TEMPERATURE_ZERO && 0.0 <= ts.brightness <= 1.0
  {
    match p
    case Fixed(st) => st
    case Toggle => ToggleTarget(EstimateOf(row, icrtc, exp))
    case Shift(dt, db) => ShiftTarget(EstimateOf(row, icrtc, exp), dt, db)
  }

  // ---------------------------------------------------------------------
  // One loop over screens [first, upto)

  /** The statuses the loop over [first, upto) gives its screens, in order. */
  function Statuses(crtcs: seq<seq<GammaRamp>>, first: nat, upto: int, icrtc: int, p: Policy,
                    exp: real -> real): (sts: seq<TempStatus>)
    requires RampsValid(crtcs) && first <= upto <= |crtcs|
    ensures |sts| == upto - first
  {
    seq(upto - first, k requires 0 <= k < upto - first => StatusFor(crtcs[first + k], icrtc, p, exp))
  }

  /** The ramps of every screen once screens first, first + 1, ... have
      been given the statuses `sts` in turn: each of those holds its row
      as `sct_for_screen` leaves it; every other screen is untouched. */
  function Applied(crtcs: seq<seq<GammaRamp>>, first: nat, sts: seq<TempStatus>, icrtc: int,
                   ln: real --> real): (r: seq<seq<GammaRamp>>)
    requires LnDefined(ln) && first + |sts| <= |crtcs|
    ensures |r| == |crtcs|
  {
    seq(|crtcs|, s requires 0 <= s < |crtcs| =>
      if first <= s < first + |sts| then AppliedRow(crtcs[s], icrtc, sts[s - first], ln) else crtcs[s])
  }

  /** The gamma writes of giving screens first, first + 1, ... the
      statuses `sts` in turn, screen by screen. */
  function AppliedWrites(crtcs: seq<seq<GammaRamp>>, first: nat, sts: seq<TempStatus>, icrtc: int,
                         ln: real --> real): (ws: seq<GammaWrite>)
    requires LnDefined(ln) && first + |sts| <= |crtcs|
    decreases |sts|
  {
    if sts == [] then []
    else
      var s := first + |sts| - 1;
      AppliedWrites(crtcs, first, sts[..|sts| - 1], icrtc, ln) + ScreenWrites(s, crtcs[s], icrtc, sts[|sts| - 1], ln)
  }

  /** The ramps of every screen after the loop over [first, upto). */
  function PolicyCrtcs(crtcs: seq<seq<GammaRamp>>, first: nat, upto: int, icrtc: int, p: Policy,
                       ln: real --> real, exp: real -> real): (r: seq<seq<GammaRamp>>)
    requires RampsValid(crtcs) && LnDefined(ln) && first <= upto <= |crtcs|
    ensures |r| == |crtcs|
  {
    Applied(crtcs, first, Statuses(crtcs, first, upto, icrtc, p, exp), icrtc, ln)
  }

  /** The gamma writes of the loop over [first, upto), screen by screen. */
  function PolicyWrites(crtcs: seq<seq<GammaRamp>>, first: nat, upto: int, icrtc: int, p: Policy,
                        ln: real --> real, exp: real -> real): (ws: seq<GammaWrite>)
    requires RampsValid(crtcs) && LnDefined(ln) && first <= upto <= |crtcs|
  {
    AppliedWrites(crtcs, first, Statuses(crtcs, first, upto, icrtc, p, exp), icrtc, ln)
  }

  /** After the loop over [first, upto) every visited screen holds its row
      as `sct_for_screen` leaves it for the status it received, and every
      other screen is untouched. */
  lemma PolicyCrtcsAt(crtcs: seq<seq<GammaRamp>>, first: nat, upto: int, icrtc: int, p: Policy,
                      ln: real --> real, exp: real -> real)
    requires RampsValid(crtcs) && LnDefined(ln) && first <= upto <= |crtcs|
    ensures var r := PolicyCrtcs(crtcs, first, upto, icrtc, p, ln, exp);
      && (forall s :: first <= s < upto ==>
            r[s] == AppliedRow(crtcs[s], icrtc, StatusFor(crtcs[s], icrtc, p, exp), ln))
      && (forall s :: 0 <= s < |crtcs| && !(first <= s < upto) ==> r[s] == crtcs[s])
  {
    var sts := Statuses(crtcs, first, upto, icrtc, p, exp);
    forall s | first <= s < upto
      ensures Applied(crtcs, first, sts, icrtc, ln)[s] == AppliedRow(crtcs[s], icrtc, StatusFor(crtcs[s], icrtc, p, exp), ln)
    {
      StatusesAt(crtcs, first, upto, icrtc, p, exp, s);
      AppliedVisited(crtcs, first, sts, icrtc, ln, s);
    }
    forall s | 0 <= s < |crtcs| && !(first <= s < upto)
      ensures Applied(crtcs, first, sts, icrtc, ln)[s] == crtcs[s]
    {
      AppliedOutside(crtcs, first, sts, icrtc, ln, s);
    }
  }

  lemma StatusesAt(crtcs: seq<seq<GammaRamp>>, first: nat, upto: int, icrtc: int, p: Policy, exp: real -> real, s: int)
    requires RampsValid(crtcs) && first <= s < upto <= |crtcs|
    ensures Statuses(crtcs, first, upto, icrtc, p, exp)[s - first] == StatusFor(crtcs[s], icrtc, p, exp)
  {
  }

  lemma AppliedVisited(crtcs: seq<seq<GammaRamp>>, first: nat, sts: seq<TempStatus>, icrtc: int, ln: real --> real, s: int)
    requires LnDefined(ln) && first <= s < first + |sts| <= |crtcs|
    ensures Applied(crtcs, first, sts, icrtc, ln)[s] == AppliedRow(crtcs[s], icrtc, sts[s - first], ln)
  {
  }

  lemma AppliedOutside(crtcs: seq<seq<GammaRamp>>, first: nat, sts: seq<TempStatus>, icrtc: int, ln: real --> real, s: int)
    requires LnDefined(ln) && first + |sts| <= |crtcs| && 0 <= s < |crtcs| && !(first <= s < first + |sts|)
    ensures Applied(crtcs, first, sts, icrtc, ln)[s] == crtcs[s]
  {
  }

  /** Under a fixed status the loop takes no estimate, so the exponential
      passed to it makes no difference. */
  lemma FixedIgnoresEstimate(crtcs: seq<seq<GammaRamp>>, first: nat, upto: int, icrtc: int, st: TempStatus,
                             ln: real --> real, exp1: real -> real, exp2: real -> real)
    requires RampsValid(crtcs) && LnDefined(ln) && first <= upto <= |crtcs|
    ensures PolicyCrtcs(crtcs, first, upto, icrtc, Fixed(st), ln, exp1)
         == PolicyCrtcs(crtcs, first, upto, icrtc, Fixed(st), ln, exp2)
    ensures PolicyWrites(crtcs, first, upto, icrtc, Fixed(st), ln, exp1)
         == PolicyWrites(crtcs, first, upto, icrtc, Fixed(st), ln, exp2)
  {
    var a, b := Statuses(crtcs, first, upto, icrtc, Fixed(st), exp1), Statuses(crtcs, first, upto, icrtc, Fixed(st), exp2);
    forall k | 0 <= k < |a|
      ensures a[k] == b[k]
    {
      StatusesAt(crtcs, first, upto, icrtc, Fixed(st), exp1, first + k);
      StatusesAt(crtcs, first, upto, icrtc, Fixed(st), exp2, first + k);
    }
    assert a == b;
  }

  /** The loop keeps every ramp valid and every gamma size. */
  lemma PolicyCrtcsValid(crtcs: seq<seq<GammaRamp>>, first: nat, upto: int, icrtc: int, p: Policy,
                         ln: real --> real, exp: real -> real)
    requires RampsValid(crtcs) && LnDefined(ln) && first <= upto <= |crtcs|
    ensures RampsValid(PolicyCrtcs(crtcs, first, upto, icrtc, p, ln, exp))
    ensures SameShape(PolicyCrtcs(crtcs, first, upto, icrtc, p, ln, exp), crtcs)
  {
    AppliedValid(crtcs, first, Statuses(crtcs, first, upto, icrtc, p, exp), icrtc, ln);
  }

  /** Giving screens first, first + 1, ... any statuses keeps every ramp
      valid and every gamma size. */
  lemma AppliedValid(crtcs: seq<seq<GammaRamp>>, first: nat, sts: seq<TempStatus>, icrtc: int, ln: real --> real)
    requires RampsValid(crtcs) && LnDefined(ln) && first + |sts| <= |crtcs|
    ensures RampsValid(Applied(crtcs, first, sts, icrtc, ln))
    ensures SameShape(Applied(crtcs, first, sts, icrtc, ln), crtcs)
  {
    var r: seq<seq<GammaRamp>> := Applied(crtcs, first, sts, icrtc, ln);
    forall s | 0 <= s < |crtcs|
      ensures |r[s]| == |crtcs[s]|
      ensures forall c :: 0 <= c < |crtcs[s]| ==>
        r[s][c].WellFormed() && r[s][c].Size() >= 1 && r[s][c].Size() == crtcs[s][c].Size()
    {
      if first <= s < first + |sts| {
        AppliedVisited(crtcs, first, sts, icrtc, ln, s);
        AppliedRowShape(crtcs[s], icrtc, sts[s - first], ln);
      } else {
        AppliedOutside(crtcs, first, sts, icrtc, ln, s);
      }
    }
  }

  /** Two states with the same screens, the same CRTCs and the same gamma
      sizes. */
  ghost predicate SameShape(c1: seq<seq<GammaRamp>>, c2: seq<seq<GammaRamp>>)
  {
    && |c1| == |c2|
    && (forall s :: 0 <= s < |c1| ==> |c1[s]| == |c2[s]|)
    && (forall s, c :: 0 <= s < |c1| && 0 <= c < |c1[s]| ==> c1[s][c].Size() == c2[s][c].Size())
  }

  /** Every write in `ws` targets a screen of [first, upto), a CRTC of
      that screen and the CRTC's own gamma size. */
  ghost predicate WritesWithin(ws: seq<GammaWrite>, crtcs: seq<seq<GammaRamp>>, first: int, upto: int)
  {
    forall k :: 0 <= k < |ws| ==> WriteWithin(ws[k], crtcs, first, upto)
  }

  ghost predicate WriteWithin(w: GammaWrite, crtcs: seq<seq<GammaRamp>>, first: int, upto: int)
  {
    && first <= w.screen < upto && w.screen < |crtcs|
    && w.crtc < |crtcs[w.screen]|
    && w.ramp.WellFormed()
    && w.ramp.Size() == crtcs[w.screen][w.crtc].Size()
  }

  /** Every write of the loop targets a visited screen, a CRTC of that
      screen and the CRTC's own gamma size. */
  lemma PolicyWritesInBounds(crtcs: seq<seq<GammaRamp>>, first: nat, upto: int, icrtc: int,
                             p: Policy, ln: real --> real, exp: real -> real)
    requires RampsValid(crtcs) && LnDefined(ln) && first <= upto <= |crtcs|
    ensures WritesWithin(PolicyWrites(crtcs, first, upto, icrtc, p, ln, exp), crtcs, first, upto)
  {
    AppliedWritesInBounds(crtcs, first, Statuses(crtcs, first, upto, icrtc, p, exp), icrtc, ln);
  }

  /** Giving screens first, first + 1, ... statuses writes only to those
      screens, to CRTCs they have, at each CRTC's own gamma size. */
  lemma {:induction false} AppliedWritesInBounds(crtcs: seq<seq<GammaRamp>>, first: nat, sts: seq<TempStatus>,
                                                 icrtc: int, ln: real --> real)
    requires LnDefined(ln) && first + |sts| <= |crtcs|
    ensures WritesWithin(AppliedWrites(crtcs, first, sts, icrtc, ln), crtcs, first, first + |sts|)
    decreases |sts|
  {
    if sts != [] {
      var s := first + |sts| - 1;
      var left := AppliedWrites(crtcs, first, sts[..|sts| - 1], icrtc, ln);
      var right := ScreenWrites(s, crtcs[s], icrtc, sts[|sts| - 1], ln);
      AppliedWritesInBounds(crtcs, first, sts[..|sts| - 1], icrtc, ln);
      WritesWithinWiden(left, crtcs, first, s, s + 1);
      ScreenWritesWithin(crtcs, s, icrtc, sts[|sts| - 1], ln, first, s + 1);
      WritesWithinAppend(left, right, crtcs, first, s + 1);
    }
  }

  /** The writes of one visited screen are within the visited range. */
  lemma ScreenWritesWithin(crtcs: seq<seq<GammaRamp>>, s: nat, icrtc: int, ts: TempStatus, ln: real --> real,
                           first: int, upto: int)
    requires LnDefined(ln) && first <= s < upto && s < |crtcs|
    ensures WritesWithin(ScreenWrites(s, crtcs[s], icrtc, ts, ln), crtcs, first, upto)
  {
    ScreenWritesInBounds(s, crtcs[s], icrtc, ts, ln);
  }

  /** Writes within a range are within any larger range. */
  lemma WritesWithinWiden(ws: seq<GammaWrite>, crtcs: seq<seq<GammaRamp>>, first: int, upto: int, upto': int)
    requires WritesWithin(ws, crtcs, first, upto) && upto <= upto'
    ensures WritesWithin(ws, crtcs, first, upto')
  {
    forall k | 0 <= k < |ws|
      ensures WriteWithin(ws[k], crtcs, first, upto')
    {
      assert WriteWithin(ws[k], crtcs, first, upto);
    }
  }

  /** One of the three per-screen loops of `xsct_standalone`: for each
      screen in [first, last], read its estimate when the policy needs it,
      choose its status and apply it. */
  method ApplyToScreens(port: Port, first: nat, last: nat, icrtc: int, p: Policy,
                        ln: real --> real, exp: real -> real)
    requires port.Valid() && first <= last < |port.crtcs| && LnDefined(ln)
    modifies port
    ensures port.Valid()
    ensures port.crtcs == PolicyCrtcs(old(port.crtcs), first, last + 1, icrtc, p, ln, exp)
    ensures port.writes == old(port.writes) + PolicyWrites(old(port.crtcs), first, last + 1, icrtc, p, ln, exp)
  {
    ghost var c0, w0 := port.crtcs, port.writes;
    ghost var chosen: seq<TempStatus> := [];
    LoopStart(c0, w0, first, icrtc, ln);
    for s := first to last + 1
      invariant port.Valid() && s == first + |chosen|
      invariant Tracks(port.crtcs, port.writes, c0, w0, first, chosen, icrtc, ln)
      invariant Chosen(c0, first, chosen, icrtc, p, exp)
    {
      AppliedAt(c0, first, chosen, icrtc, ln, s);
      var ts := NextStatus(port, c0, first, s, chosen, icrtc, p, exp);
      VisitScreen(port, c0, w0, first, s, chosen, ts, icrtc, ln);
      chosen := chosen + [ts];
    }
    LoopDone(port.crtcs, port.writes, c0, w0, first, last + 1, chosen, icrtc, p, ln, exp);
  }

  /** The state of the loop from ramps `c0` and write log `w0` once it
      has given screens first, first + 1, ... the statuses `chosen`. */
  ghost predicate Tracks(crtcs: seq<seq<GammaRamp>>, writes: seq<GammaWrite>,
                         c0: seq<seq<GammaRamp>>, w0: seq<GammaWrite>, first: nat, chosen: seq<TempStatus>,
                         icrtc: int, ln: real --> real)
  {
    && RampsValid(c0) && LnDefined(ln) && first + |chosen| <= |c0|
    && crtcs == Applied(c0, first, chosen, icrtc, ln)
    && writes == w0 + AppliedWrites(c0, first, chosen, icrtc, ln)
  }

  /** Each of the statuses `chosen` is the status its screen, first,
      first + 1, ..., receives under `p` from its ramps in `c0`. */
  ghost predicate Chosen(c0: seq<seq<GammaRamp>>, first: nat, chosen: seq<TempStatus>, icrtc: int, p: Policy,
                         exp: real -> real)
  {
    && RampsValid(c0) && first + |chosen| <= |c0|
    && forall i {:trigger StatusFor(c0[i], icrtc, p, exp)} ::
         first <= i < first + |chosen| ==> chosen[i - first] == StatusFor(c0[i], icrtc, p, exp)
  }

  /** Before the loop nothing has been visited. */
  lemma LoopStart(c0: seq<seq<GammaRamp>>, w0: seq<GammaWrite>, first: nat, icrtc: int, ln: real --> real)
    requires RampsValid(c0) && LnDefined(ln) && first <= |c0|
    ensures Tracks(c0, w0, c0, w0, first, [], icrtc, ln)
  {
    assert Applied(c0, first, [], icrtc, ln) == c0;
    assert w0 + [] == w0;
  }

  /** Once the loop has visited [first, upto) its state is the loop's
      specification. */
  lemma LoopDone(crtcs: seq<seq<GammaRamp>>, writes: seq<GammaWrite>, c0: seq<seq<GammaRamp>>, w0: seq<GammaWrite>,
                 first: nat, upto: int, chosen: seq<TempStatus>, icrtc: int, p: Policy,
                 ln: real --> real, exp: real -> real)
    requires Tracks(crtcs, writes, c0, w0, first, chosen, icrtc, ln) && Chosen(c0, first, chosen, icrtc, p, exp)
    requires upto == first + |chosen|
    ensures crtcs == PolicyCrtcs(c0, first, upto, icrtc, p, ln, exp)
    ensures writes == w0 + PolicyWrites(c0, first, upto, icrtc, p, ln, exp)
  {
    assert chosen == Statuses(c0, first, upto, icrtc, p, exp);
  }

  /** One iteration of the loop: apply `ts` to screen `s`, the next one. */
  method VisitScreen(port: Port, ghost c0: seq<seq<GammaRamp>>, ghost w0: seq<GammaWrite>, first: nat, s: nat,
                     ghost chosen: seq<TempStatus>, ts: TempStatus, icrtc: int, ln: real --> real)
    requires port.Valid() && s == first + |chosen| && s < |c0|
    requires Tracks(port.crtcs, port.writes, c0, w0, first, chosen, icrtc, ln)
    modifies port
    ensures port.Valid()
    ensures Tracks(port.crtcs, port.writes, c0, w0, first, chosen + [ts], icrtc, ln)
  {
    SctForScreen(port, s, icrtc, ts, ln);
    VisitStep(c0, w0, first, chosen, ts, icrtc, ln, old(port.crtcs), old(port.writes), port.crtcs, port.writes);
  }

  /** The status of screen `s`, the next one, while it still holds its
      ramps from `c0`: the status it receives under `p`. */
  method NextStatus(port: Port, ghost c0: seq<seq<GammaRamp>>, first: nat, s: nat, ghost chosen: seq<TempStatus>,
                    icrtc: int, p: Policy, exp: real -> real) returns (ts: TempStatus)
    requires port.Valid() && s == first + |chosen| && s < |port.crtcs| && s < |c0| && port.crtcs[s] == c0[s]
    requires Chosen(c0, first, chosen, icrtc, p, exp)
    ensures Chosen(c0, first, chosen + [ts], icrtc, p, exp)
  {
    ts := ChooseStatus(port, s, icrtc, p, exp);
    ChosenStep(c0, first, chosen, ts, icrtc, p, exp);
  }

  /** The status the loop gives screen `s`, reading its estimate first
      when the policy needs it. */
  method ChooseStatus(port: Port, s: nat, icrtc: int, p: Policy, exp: real -> real) returns (ts: TempStatus)
    requires port.Valid() && s < |port.crtcs|
    ensures ts == StatusFor(port.crtcs[s], icrtc, p, exp)
  {
    match p {
      case Fixed(st) =>
        ts := st;
      case Toggle =>
        var est := GetSctForScreen(port, s, icrtc, exp);
        ts := ToggleTarget(est);
      case Shift(dt, db) =>
        var est := GetSctForScreen(port, s, icrtc, exp);
        var shifted := TempStatus(WrapI32(est.temp + dt), est.brightness + db);
        var warnings;
        ts, warnings := BoundTemp(shifted);
    }
  }

  /** Applying a status to the next screen extends the loop's state by
      that screen alone. */
  lemma VisitStep(c0: seq<seq<GammaRamp>>, w0: seq<GammaWrite>, first: nat, chosen: seq<TempStatus>,
                  ts: TempStatus, icrtc: int, ln: real --> real,
                  before: seq<seq<GammaRamp>>, wbefore: seq<GammaWrite>,
                  after: seq<seq<GammaRamp>>, wafter: seq<GammaWrite>)
    requires Tracks(before, wbefore, c0, w0, first, chosen, icrtc, ln) && first + |chosen| < |c0|
    requires after == before[first + |chosen| := AppliedRow(before[first + |chosen|], icrtc, ts, ln)]
    requires wafter == wbefore + ScreenWrites(first + |chosen|, before[first + |chosen|], icrtc, ts, ln)
    ensures Tracks(after, wafter, c0, w0, first, chosen + [ts], icrtc, ln)
  {
    var s := first + |chosen|;
    AppliedAt(c0, first, chosen, icrtc, ln, s);
    AppliedStep(c0, first, chosen, ts, icrtc, ln);
    AppliedWritesStep(c0, first, chosen, ts, icrtc, ln);
    AppendAssociative(w0, AppliedWrites(c0, first, chosen, icrtc, ln), ScreenWrites(s, c0[s], icrtc, ts, ln));
  }

  /** A screen past the statuses given so far is untouched. */
  lemma AppliedAt(c0: seq<seq<GammaRamp>>, first: nat, chosen: seq<TempStatus>, icrtc: int, ln: real --> real, s: int)
    requires LnDefined(ln) && first + |chosen| <= s < |c0|
    ensures Applied(c0, first, chosen, icrtc, ln)[s] == c0[s]
  {
  }

  /** The statuses given so far, extended by the next screen's status
      under `p`, are still the statuses the loop gives. */
  lemma ChosenStep(c0: seq<seq<GammaRamp>>, first: nat, chosen: seq<TempStatus>, ts: TempStatus,
                   icrtc: int, p: Policy, exp: real -> real)
    requires Chosen(c0, first, chosen, icrtc, p, exp) && first + |chosen| < |c0|
    requires ts == StatusFor(c0[first + |chosen|], icrtc, p, exp)
    ensures Chosen(c0, first, chosen + [ts], icrtc, p, exp)
  {
  }

  /** Giving the next screen a status updates that screen alone. */
  lemma AppliedStep(c0: seq<seq<GammaRamp>>, first: nat, chosen: seq<TempStatus>, ts: TempStatus,
                    icrtc: int, ln: real --> real)
    requires LnDefined(ln) && first + |chosen| < |c0|
    ensures Applied(c0, first, chosen + [ts], icrtc, ln)
         == Applied(c0, first, chosen, icrtc, ln)[first + |chosen| := AppliedRow(c0[first + |chosen|], icrtc, ts, ln)]
  {
  }

  /** Giving the next screen a status appends that screen's writes. */
  lemma AppliedWritesStep(c0: seq<seq<GammaRamp>>, first: nat, chosen: seq<TempStatus>, ts: TempStatus,
                          icrtc: int, ln: real --> real)
    requires LnDefined(ln) && first + |chosen| < |c0|
    ensures AppliedWrites(c0, first, chosen + [ts], icrtc, ln)
         == AppliedWrites(c0, first, chosen, icrtc, ln) + ScreenWrites(first + |chosen|, c0[first + |chosen|], icrtc, ts, ln)
  {
    assert (chosen + [ts])[..|chosen|] == chosen;
  }

  // ---------------------------------------------------------------------
  // Reporting

  /** The report lines of the screens [first, upto): each screen's index
      with its estimated status. */
  function Reports(crtcs: seq<seq<GammaRamp>>, first: nat, upto: int, icrtc: int, exp: real -> real): (rs: seq<(nat, TempStatus)>)
    requires RampsValid(crtcs) && 0 <= first <= upto <= |crtcs|
    ensures |rs| == upto - first
    ensures forall k :: 0 <= k < |rs| ==> rs[k].0 == first + k && 0.0 <= rs[k].1.brightness <= 1.0
  {
    var rs := seq(upto - first, k requires 0 <= k < upto - first =>
      ((first + k) as nat, EstimateOf(crtcs[first + k], icrtc, exp)));
    assert forall k :: 0 <= k < |rs| ==> rs[k] == ((first + k) as nat, EstimateOf(crtcs[first + k], icrtc, exp));
    rs
  }

  /** The report loop: estimate every selected screen; nothing is written. */
  method ReportScreens(port: Port, first: nat, last: nat, icrtc: int, exp: real -> real)
    returns (reports: seq<(nat, TempStatus)>)
    requires port.Valid() && first <= last < |port.crtcs|
    ensures reports == Reports(port.crtcs, first, last + 1, icrtc, exp)
  {
    reports := [];
    for s := first to last + 1
      invariant reports == Reports(port.crtcs, first, s, icrtc, exp)
    {
      var est := GetSctForScreen(port, s, icrtc, exp);
      reports := reports + [(s, est)];
    }
  }

  // ---------------------------------------------------------------------
  // The command

  /** What the invocation does after the toggle phase. */
  datatype Action =
    | Report
    | Absolute(status: TempStatus)
    | Delta(dtemp: int, dbrightness: real)
    | IncompleteDelta

  /** The outcome of the argument checks: the usage text, the rejection of
      a screen index, or a run over screens [first, last]. */
  datatype Decision =
    | Usage
    | InvalidScreen(index: nat)
    | Run(first: nat, last: nat, toggle: bool, action: Action)

  /** The argument checks of `xsct_standalone` against a server with
      `nscreens` screens. */
  function Decide(o: Options, nscreens: nat): (d: Decision)
    requires nscreens >= 1
    ensures d == Usage <==> o.help
    ensures d.InvalidScreen? <==> !o.help && o.screen.Some? && o.screen.value >= nscreens
    ensures d.InvalidScreen? ==> d.index == o.screen.value
    ensures d.Run? ==> d.first <= d.last < nscreens && d.toggle == o.toggle
    ensures d.Run? && o.screen.Some? ==> d.first == d.last == o.screen.value
    ensures d.Run? && o.screen.None? ==> d.first == 0 && d.last == nscreens - 1
    ensures d.Run? ==> (d.action == Report <==> o.temperature == DELTA_MIN && !o.delta)
    ensures d.Run? ==> (d.action == IncompleteDelta <==>
      o.delta && (o.temperature == DELTA_MIN || o.brightness == DELTA_MIN as real))
    ensures d.Run? && d.action.Absolute? ==>
      !o.delta && d.action.status == AbsoluteStatus(o.temperature, RequestedBrightness(o))
    ensures d.Run? && d.action.Delta? ==>
      o.delta && d.action.dtemp == o.temperature && d.action.dbrightness == o.brightness
  {
    if o.help then Usage
    else if o.screen.Some? && o.screen.value >= nscreens then InvalidScreen(o.screen.value)
    else
      var first := if o.screen.Some? then o.screen.value else 0;
      var last := if o.screen.Some? then o.screen.value else nscreens - 1;
      var brightness := RequestedBrightness(o);
      var action :=
        if o.temperature == DELTA_MIN && !o.delta then Report
        else if !o.delta then Absolute(AbsoluteStatus(o.temperature, brightness))
        else if o.temperature == DELTA_MIN || brightness == DELTA_MIN as real then IncompleteDelta
        else Delta(o.temperature, brightness);
      Run(first, last, o.toggle, action)
  }

  /** A run over screens that exist. */
  predicate RunsOn(d: Decision, nscreens: int)
  {
    d.Run? && d.first <= d.last < nscreens
  }

  /** A screen index that does not parse becomes `usize::MAX`, which no
      server reaches, so it is always rejected as invalid. */
  lemma UnparseableScreenRejected(o: Options, nscreens: nat)
    requires 1 <= nscreens <= USIZE_MAX
    requires !o.help && o.screen == Some(USIZE_MAX)
    ensures Decide(o, nscreens) == InvalidScreen(USIZE_MAX)
  {
  }

  /** The ramps after the toggle phase of a run. */
  function AfterToggle(crtcs: seq<seq<GammaRamp>>, d: Decision, icrtc: int, ln: real --> real, exp: real -> real)
    : (r: seq<seq<GammaRamp>>)
    requires RampsValid(crtcs) && LnDefined(ln) && RunsOn(d, |crtcs|)
    ensures RampsValid(r) && |r| == |crtcs|
    ensures !d.toggle ==> r == crtcs
  {
    if d.toggle then
      PolicyCrtcsValid(crtcs, d.first, d.last + 1, icrtc, Toggle, ln, exp);
      PolicyCrtcs(crtcs, d.first, d.last + 1, icrtc, Toggle, ln, exp)
    else crtcs
  }

  /** The policy of the run's second loop, if it has one. */
  function ActionPolicy(a: Action): (p: Option<Policy>)
    ensures p.Some? <==> a.Absolute? || a.Delta?
  {
    match a
    case Absolute(st) => Some(Fixed(st))
    case Delta(dt, db) => Some(Shift(dt, db))
    case _ => None
  }

  /** The ramps after the second loop of a run, from the ramps `c1` it
      starts from. */
  function ModeCrtcs(c1: seq<seq<GammaRamp>>, d: Decision, icrtc: int, ln: real --> real, exp: real -> real)
    : (r: seq<seq<GammaRamp>>)
    requires RampsValid(c1) && LnDefined(ln) && RunsOn(d, |c1|)
    ensures RampsValid(r) && |r| == |c1|
    ensures ActionPolicy(d.action).None? ==> r == c1
  {
    match ActionPolicy(d.action)
    case Some(p) =>
      PolicyCrtcsValid(c1, d.first, d.last + 1, icrtc, p, ln, exp);
      PolicyCrtcs(c1, d.first, d.last + 1, icrtc, p, ln, exp)
    case None => c1
  }

  /** The gamma writes of the second loop of a run. */
  function ModeWrites(c1: seq<seq<GammaRamp>>, d: Decision, icrtc: int, ln: real --> real, exp: real -> real)
    : (ws: seq<GammaWrite>)
    requires RampsValid(c1) && LnDefined(ln) && RunsOn(d, |c1|)
    ensures ActionPolicy(d.action).None? ==> ws == []
  {
    match ActionPolicy(d.action)
    case Some(p) => PolicyWrites(c1, d.first, d.last + 1, icrtc, p, ln, exp)
    case None => []
  }

  /** The report lines of a run: only a report run has any. */
  function ModeReports(c1: seq<seq<GammaRamp>>, d: Decision, icrtc: int, exp: real -> real)
    : (rs: seq<(nat, TempStatus)>)
    requires RampsValid(c1) && RunsOn(d, |c1|)
    ensures d.action != Report ==> rs == []
    ensures d.action == Report ==> |rs| == d.last - d.first + 1
  {
    if d.action == Report then Reports(c1, d.first, d.last + 1, icrtc, exp) else []
  }

  /** The ramps of every screen at the end of a run. */
  function RunCrtcs(crtcs: seq<seq<GammaRamp>>, d: Decision, icrtc: int, ln: real --> real, exp: real -> real)
    : seq<seq<GammaRamp>>
    requires RampsValid(crtcs) && LnDefined(ln) && RunsOn(d, |crtcs|)
  {
    ModeCrtcs(AfterToggle(crtcs, d, icrtc, ln, exp), d, icrtc, ln, exp)
  }

  /** The gamma writes of a run, in order: the toggle loop's, then the
      second loop's. */
  function RunWrites(crtcs: seq<seq<GammaRamp>>, d: Decision, icrtc: int, ln: real --> real, exp: real -> real)
    : seq<GammaWrite>
    requires RampsValid(crtcs) && LnDefined(ln) && RunsOn(d, |crtcs|)
  {
    ToggleWrites(crtcs, d, icrtc, ln, exp) + ModeWrites(AfterToggle(crtcs, d, icrtc, ln, exp), d, icrtc, ln, exp)
  }

  /** The report lines of a run, estimated after the toggle. */
  function RunReports(crtcs: seq<seq<GammaRamp>>, d: Decision, icrtc: int, ln: real --> real, exp: real -> real)
    : seq<(nat, TempStatus)>
    requires RampsValid(crtcs) && LnDefined(ln) && RunsOn(d, |crtcs|)
  {
    ModeReports(AfterToggle(crtcs, d, icrtc, ln, exp), d, icrtc, exp)
  }

  /** The writes of the toggle phase of a run. */
  function ToggleWrites(crtcs: seq<seq<GammaRamp>>, d: Decision, icrtc: int, ln: real --> real, exp: real -> real)
    : (ws: seq<GammaWrite>)
    requires RampsValid(crtcs) && LnDefined(ln) && RunsOn(d, |crtcs|)
    ensures !d.toggle ==> ws == []
  {
    if d.toggle then PolicyWrites(crtcs, d.first, d.last + 1, icrtc, Toggle, ln, exp) else []
  }

  /** A run writes only to the selected screens, to CRTCs they have and at
      each CRTC's own gamma size; without the toggle, an incomplete delta
      and a report write nothing at all. */
  lemma RunWritesWithin(crtcs: seq<seq<GammaRamp>>, d: Decision, icrtc: int, ln: real --> real, exp: real -> real)
    requires RampsValid(crtcs) && LnDefined(ln) && RunsOn(d, |crtcs|)
    ensures WritesWithin(RunWrites(crtcs, d, icrtc, ln, exp), crtcs, d.first, d.last + 1)
    ensures !d.toggle && (d.action.IncompleteDelta? || d.action.Report?) ==> RunWrites(crtcs, d, icrtc, ln, exp) == []
  {
    var c1 := AfterToggle(crtcs, d, icrtc, ln, exp);
    var w1 := ToggleWrites(crtcs, d, icrtc, ln, exp);
    var w2 := ModeWrites(c1, d, icrtc, ln, exp);
    ToggleWritesWithin(crtcs, d, icrtc, ln, exp);
    ModeWritesWithin(c1, d, icrtc, ln, exp);
    SameShapeWritesWithin(w2, c1, crtcs, d.first, d.last + 1);
    WritesWithinAppend(w1, w2, crtcs, d.first, d.last + 1);
  }

  /** The toggle phase writes within the selected screens and keeps the
      shape of every screen. */
  lemma ToggleWritesWithin(crtcs: seq<seq<GammaRamp>>, d: Decision, icrtc: int, ln: real --> real, exp: real -> real)
    requires RampsValid(crtcs) && LnDefined(ln) && RunsOn(d, |crtcs|)
    ensures WritesWithin(ToggleWrites(crtcs, d, icrtc, ln, exp), crtcs, d.first, d.last + 1)
    ensures SameShape(AfterToggle(crtcs, d, icrtc, ln, exp), crtcs)
  {
    if d.toggle {
      ToggleIsPolicyLoop(crtcs, d, icrtc, ln, exp);
      PolicyWritesInBounds(crtcs, d.first, d.last + 1, icrtc, Toggle, ln, exp);
      PolicyCrtcsValid(crtcs, d.first, d.last + 1, icrtc, Toggle, ln, exp);
    } else {
      SameShapeReflexive(crtcs);
    }
  }

  /** With the toggle, its phase is the first loop run under the Toggle policy. */
  lemma ToggleIsPolicyLoop(crtcs: seq<seq<GammaRamp>>, d: Decision, icrtc: int, ln: real --> real, exp: real -> real)
    requires RampsValid(crtcs) && LnDefined(ln) && RunsOn(d, |crtcs|) && d.toggle
    ensures ToggleWrites(crtcs, d, icrtc, ln, exp) == PolicyWrites(crtcs, d.first, d.last + 1, icrtc, Toggle, ln, exp)
    ensures AfterToggle(crtcs, d, icrtc, ln, exp) == PolicyCrtcs(crtcs, d.first, d.last + 1, icrtc, Toggle, ln, exp)
  {
  }

  lemma SameShapeReflexive(crtcs: seq<seq<GammaRamp>>)
    ensures SameShape(crtcs, crtcs)
  {
  }

  /** The second loop of a run writes within the selected screens. */
  lemma ModeWritesWithin(c1: seq<seq<GammaRamp>>, d: Decision, icrtc: int, ln: real --> real, exp: real -> real)
    requires RampsValid(c1) && LnDefined(ln) && RunsOn(d, |c1|)
    ensures WritesWithin(ModeWrites(c1, d, icrtc, ln, exp), c1, d.first, d.last + 1)
  {
    match ActionPolicy(d.action)
    case Some(p) => PolicyWritesInBounds(c1, d.first, d.last + 1, icrtc, p, ln, exp);
    case None =>
  }

  /** Writes within bounds, one batch after another, are within bounds. */
  lemma WritesWithinAppend(w1: seq<GammaWrite>, w2: seq<GammaWrite>, crtcs: seq<seq<GammaRamp>>, first: int, upto: int)
    requires WritesWithin(w1, crtcs, first, upto) && WritesWithin(w2, crtcs, first, upto)
    ensures WritesWithin(w1 + w2, crtcs, first, upto)
  {
    forall k | 0 <= k < |w1 + w2|
      ensures WriteWithin((w1 + w2)[k], crtcs, first, upto)
    {
      if k < |w1| {
        assert (w1 + w2)[k] == w1[k];
      } else {
        assert (w1 + w2)[k] == w2[k - |w1|];
      }
    }
  }

  /** Two states whose screens have the same CRTCs at the same gamma sizes
      accept the same writes. */
  lemma SameShapeWritesWithin(ws: seq<GammaWrite>, c1: seq<seq<GammaRamp>>, c2: seq<seq<GammaRamp>>, first: int, upto: int)
    requires SameShape(c1, c2)
    requires WritesWithin(ws, c1, first, upto)
    ensures WritesWithin(ws, c2, first, upto)
  {
    forall k | 0 <= k < |ws|
      ensures WriteWithin(ws[k], c2, first, upto)
    {
      assert WriteWithin(ws[k], c1, first, upto);
    }
  }

  /** `xsct_standalone` on a connected server. The usage text and an
      invalid screen index return before any gamma write; so does delta
      mode with a missing argument, but only after the toggle phase, which
      runs first whenever it is asked for. */
  method XsctStandalone(o: Options, port: Port, ln: real --> real, exp: real -> real)
    returns (d: Decision, reports: seq<(nat, TempStatus)>)
    requires port.Valid() && LnDefined(ln)
    modifies port
    ensures port.Valid()
    ensures d == Decide(o, |old(port.crtcs)|)
    ensures !d.Run? ==> port.crtcs == old(port.crtcs) && port.writes == old(port.writes) && reports == []
    ensures d.Run? ==>
      && RunsOn(d, |old(port.crtcs)|)
      && port.crtcs == RunCrtcs(old(port.crtcs), d, o.crtc, ln, exp)
      && port.writes == old(port.writes) + RunWrites(old(port.crtcs), d, o.crtc, ln, exp)
      && reports == RunReports(old(port.crtcs), d, o.crtc, ln, exp)
  {
    d := Decide(o, |port.crtcs|);
    reports := [];
    if o.help {
      return;
    }
    var screens := |port.crtcs|;
    if o.screen.Some? && o.screen.value >= screens {
      return;
    }
    var first := if o.screen.Some? then o.screen.value else 0;
    var last := if o.screen.Some? then o.screen.value else screens - 1;
    reports := RunPhases(o, port, d, first, last, ln, exp);
  }

  /** The two loops of a run over screens [first, last]: the toggle, when
      asked for, then the mode. */
  method RunPhases(o: Options, port: Port, d: Decision, first: nat, last: nat, ln: real --> real, exp: real -> real)
    returns (reports: seq<(nat, TempStatus)>)
    requires port.Valid() && LnDefined(ln)
    requires d == Decide(o, |port.crtcs|) && d.Run? && first == d.first && last == d.last
    modifies port
    ensures port.Valid()
    ensures port.crtcs == RunCrtcs(old(port.crtcs), d, o.crtc, ln, exp)
    ensures port.writes == old(port.writes) + RunWrites(old(port.crtcs), d, o.crtc, ln, exp)
    ensures reports == RunReports(old(port.crtcs), d, o.crtc, ln, exp)
  {
    ghost var c0, w0 := port.crtcs, port.writes;
    if o.toggle {
      ApplyToScreens(port, first, last, o.crtc, Toggle, ln, exp);
    }
    ghost var c1 := AfterToggle(c0, d, o.crtc, ln, exp);
    assert port.crtcs == c1;
    ghost var tw := ToggleWrites(c0, d, o.crtc, ln, exp);
    assert port.writes == w0 + tw;
    reports := ModePhase(o, port, d, ln, exp);
    AppendAssociative(w0, tw, ModeWrites(c1, d, o.crtc, ln, exp));
  }

  /** The part of `xsct_standalone` after the toggle: report, set the
      absolute status, reject an incomplete delta, or shift every screen. */
  method ModePhase(o: Options, port: Port, d: Decision, ln: real --> real, exp: real -> real)
    returns (reports: seq<(nat, TempStatus)>)
    requires port.Valid() && LnDefined(ln)
    requires d == Decide(o, |port.crtcs|) && d.Run?
    modifies port
    ensures port.Valid()
    ensures port.crtcs == ModeCrtcs(old(port.crtcs), d, o.crtc, ln, exp)
    ensures port.writes == old(port.writes) + ModeWrites(old(port.crtcs), d, o.crtc, ln, exp)
    ensures reports == ModeReports(old(port.crtcs), d, o.crtc, exp)
  {
    var first, last := d.first, d.last;
    reports := [];
    var temp, brightness := o.temperature, RequestedBrightness(o);
    if temp == DELTA_MIN && !o.delta {
      reports := ReportScreens(port, first, last, o.crtc, exp);
    } else if !o.delta {
      var status := TempStatus(temp, brightness);
      if temp == 0 {
        status := status.(temp := TEMPERATURE_NORM);
      } else {
        var warnings;
        status, warnings := BoundTemp(status);
      }
      PolicyPhase(port, d, o.crtc, Fixed(status), ln, exp);
    } else {
      if temp == DELTA_MIN || brightness == DELTA_MIN as real {
        return;
      }
      PolicyPhase(port, d, o.crtc, Shift(temp, brightness), ln, exp);
    }
  }

  /** The second loop of a run whose action has a policy. */
  method PolicyPhase(port: Port, d: Decision, icrtc: int, p: Policy, ln: real --> real, exp: real -> real)
    requires port.Valid() && LnDefined(ln) && RunsOn(d, |port.crtcs|) && ActionPolicy(d.action) == Some(p)
    modifies port
    ensures port.Valid()
    ensures port.crtcs == ModeCrtcs(old(port.crtcs), d, icrtc, ln, exp)
    ensures port.writes == old(port.writes) + ModeWrites(old(port.crtcs), d, icrtc, ln, exp)
    ensures ModeReports(old(port.crtcs), d, icrtc, exp) == []
  {
    ModeOfPolicy(port.crtcs, d, icrtc, ln, exp, p);
    ApplyToScreens(port, d.first, d.last, icrtc, p, ln, exp);
  }

  /** A run whose action has a policy runs that policy's loop second and
      reports nothing. */
  lemma ModeOfPolicy(c1: seq<seq<GammaRamp>>, d: Decision, icrtc: int, ln: real --> real, exp: real -> real, p: Policy)
    requires RampsValid(c1) && LnDefined(ln) && RunsOn(d, |c1|) && ActionPolicy(d.action) == Some(p)
    ensures ModeCrtcs(c1, d, icrtc, ln, exp) == PolicyCrtcs(c1, d.first, d.last + 1, icrtc, p, ln, exp)
    ensures ModeWrites(c1, d, icrtc, ln, exp) == PolicyWrites(c1, d.first, d.last + 1, icrtc, p, ln, exp)
    ensures ModeReports(c1, d, icrtc, exp) == []
  {
  }
}
