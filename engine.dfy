/** Applying a status to the CRTCs of one screen and estimating a
    screen's status from its ramps (`sct_for_screen` and
    `get_sct_for_screen`), with the CRTC selection both share. */
module Engine {
  import opened GammaMath
  import opened Display

  /** The CRTCs an operation on one screen visits, as (first index,
      count): a valid index selects that CRTC alone; any other value,
      negative or too large, silently selects all of them. */
  function CrtcSpan(icrtc: int, ncrtc: nat): (span: (nat, nat))
    ensures span.0 + span.1 <= ncrtc
    ensures 0 <= icrtc < ncrtc <==> span.0 == icrtc && span.1 == 1
    ensures !(0 <= icrtc < ncrtc) ==> span == (0, ncrtc)
  {
    if 0 <= icrtc < ncrtc then (icrtc, 1) else (0, ncrtc)
  }

  // ---------------------------------------------------------------------
  // Applying a status to one screen

  /** `xs` with the entries at [first, upto) taken from `ys`. */
  function Splice<T>(xs: seq<T>, ys: seq<T>, first: int, upto: int): (r: seq<T>)
    requires |ys| == |xs|
    ensures |r| == |xs|
  {
    seq(|xs|, i requires 0 <= i < |xs| => if first <= i < upto then ys[i] else xs[i])
  }

  /** Extending the spliced range by one entry updates that entry alone. */
  lemma SpliceStep<T>(xs: seq<T>, ys: seq<T>, first: int, s: int)
    requires |ys| == |xs| && first <= s && 0 <= s < |xs|
    ensures Splice(xs, ys, first, s + 1) == Splice(xs, ys, first, s)[s := ys[s]]
  {
  }

  /** The ramp synthesized for `ts` at the gamma size of every CRTC of a row. */
  function Synthesized(row: seq<GammaRamp>, ts: TempStatus, ln: real --> real): (r: seq<GammaRamp>)
    requires LnDefined(ln)
    ensures |r| == |row|
  {
    seq(|row|, c requires 0 <= c < |row| => SynthesizeRamp(row[c].Size(), ts, ln))
  }

  /** The row of ramps after CRTCs [start, upto) have been given the
      ramp synthesized for `ts` at their own size. */
  function PartialRow(row: seq<GammaRamp>, start: int, upto: int, ts: TempStatus, ln: real --> real): (r: seq<GammaRamp>)
    requires LnDefined(ln)
    ensures |r| == |row|
  {
    Splice(row, Synthesized(row, ts, ln), start, upto)
  }

  /** The row of ramps of a screen after `sct_for_screen`. */
  function AppliedRow(row: seq<GammaRamp>, icrtc: int, ts: TempStatus, ln: real --> real): seq<GammaRamp>
    requires LnDefined(ln)
  {
    var (start, n) := CrtcSpan(icrtc, |row|);
    PartialRow(row, start, start + n, ts, ln)
  }

  /** `sct_for_screen` keeps the CRTCs of the screen, and every valid ramp
      stays valid and at its own gamma size. */
  lemma AppliedRowShape(row: seq<GammaRamp>, icrtc: int, ts: TempStatus, ln: real --> real)
    requires LnDefined(ln)
    ensures var r := AppliedRow(row, icrtc, ts, ln);
      && |r| == |row|
      && forall c :: 0 <= c < |row| && row[c].WellFormed() && row[c].Size() >= 1 ==>
           r[c].WellFormed() && r[c].Size() == row[c].Size()
  {
  }

  /** The gamma writes `sct_for_screen` issues, in order. */
  function ScreenWrites(screen: nat, row: seq<GammaRamp>, icrtc: int, ts: TempStatus, ln: real --> real): (ws: seq<GammaWrite>)
    requires LnDefined(ln)
  {
    var (start, n) := CrtcSpan(icrtc, |row|);
    seq(n, k requires 0 <= k < n =>
      GammaWrite(screen, start + k, SynthesizeRamp(row[start + k].Size(), ts, ln)))
  }

  /** Every write of `sct_for_screen` targets that screen, a CRTC in
      range and the CRTC's own gamma size; with a valid CRTC index it is
      a single write. */
  lemma ScreenWritesInBounds(screen: nat, row: seq<GammaRamp>, icrtc: int, ts: TempStatus, ln: real --> real)
    requires LnDefined(ln)
    ensures var ws := ScreenWrites(screen, row, icrtc, ts, ln);
      && (forall k :: 0 <= k < |ws| ==>
            ws[k].screen == screen && ws[k].crtc < |row| &&
            ws[k].ramp.WellFormed() && ws[k].ramp.Size() == row[ws[k].crtc].Size())
      && (0 <= icrtc < |row| ==> |ws| == 1 && ws[0].crtc == icrtc)
      && (!(0 <= icrtc < |row|) ==> |ws| == |row|)
  {
    var ws := ScreenWrites(screen, row, icrtc, ts, ln);
    var (start, n) := CrtcSpan(icrtc, |row|);
    forall k | 0 <= k < |ws|
      ensures ws[k].screen == screen && ws[k].crtc < |row|
      ensures ws[k].ramp.WellFormed() && ws[k].ramp.Size() == row[ws[k].crtc].Size()
    {
      assert ws[k] == GammaWrite(screen, start + k, SynthesizeRamp(row[start + k].Size(), ts, ln));
    }
  }

  /** The three channels of one CRTC, filled entry by entry. */
  method FillRamps(size: nat, b: real, f: Factors) returns (red: array<u16>, green: array<u16>, blue: array<u16>)
    ensures fresh(red) && fresh(green) && fresh(blue)
    ensures red[..] == RampChannel(size, b, f.red)
    ensures green[..] == RampChannel(size, b, f.green)
    ensures blue[..] == RampChannel(size, b, f.blue)
  {
    red, green, blue := new u16[size], new u16[size], new u16[size];
    for i := 0 to size
      invariant forall k :: 0 <= k < i ==> red[k] == RampEntry(k, size, b, f.red)
      invariant forall k :: 0 <= k < i ==> green[k] == RampEntry(k, size, b, f.green)
      invariant forall k :: 0 <= k < i ==> blue[k] == RampEntry(k, size, b, f.blue)
    {
      red[i] := RampEntry(i, size, b, f.red);
      green[i] := RampEntry(i, size, b, f.green);
      blue[i] := RampEntry(i, size, b, f.blue);
    }
    assert red[..] == RampChannel(size, b, f.red);
    assert green[..] == RampChannel(size, b, f.green);
    assert blue[..] == RampChannel(size, b, f.blue);
  }

  /** `sct_for_screen`: synthesize the ramps for `ts` and load them on
      the selected CRTCs of `screen`, one write per CRTC. */
  method SctForScreen(port: Port, screen: nat, icrtc: int, ts: TempStatus, ln: real --> real)
    requires port.Valid() && screen < |port.crtcs| && LnDefined(ln)
    modifies port
    ensures port.Valid()
    ensures port.crtcs == old(port.crtcs)[screen := AppliedRow(old(port.crtcs)[screen], icrtc, ts, ln)]
    ensures port.writes == old(port.writes) + ScreenWrites(screen, old(port.crtcs)[screen], icrtc, ts, ln)
  {
    var b := DoubleTrim(ts.brightness, 0.0, 1.0);
    var f := ChannelFactors(ts.temp, ln);
    ghost var row := port.crtcs[screen];
    ghost var ws := ScreenWrites(screen, row, icrtc, ts, ln);
    ghost var goal := Synthesized(row, ts, ln);
    var (start, n) := CrtcSpan(icrtc, |port.crtcs[screen]|);
    assert PartialRow(row, start, start, ts, ln) == row;
    for c := start to start + n
      invariant port.Valid() && |port.crtcs| == |old(port.crtcs)|
      invariant port.crtcs == old(port.crtcs)[screen := PartialRow(row, start, c, ts, ln)]
      invariant port.writes == old(port.writes) + ws[..c - start]
    {
      ghost var done := PartialRow(row, start, c, ts, ln);
      assert done[c] == row[c];
      var size := port.crtcs[screen][c].Size();
      var red, green, blue := FillRamps(size, b, f);
      var ramp := GammaRamp(red[..], green[..], blue[..]);
      assert ramp == goal[c];
      port.SetCrtcGamma(screen, c, ramp);
      SpliceStep(row, goal, start, c);
      assert port.crtcs == old(port.crtcs)[screen := done[c := ramp]];
      assert ws[c - start] == GammaWrite(screen, c, ramp);
      PrefixStep(ws, c - start);
      AppendAssociative(old(port.writes), ws[..c - start], [ws[c - start]]);
    }
    assert ws[..n] == ws;
  }

  /** A prefix one longer is the shorter prefix and the next element. */
  lemma PrefixStep<T>(xs: seq<T>, k: int)
    requires 0 <= k < |xs|
    ensures xs[..k + 1] == xs[..k] + [xs[k]]
  {
  }

  lemma AppendAssociative<T>(a: seq<T>, b: seq<T>, c: seq<T>)
    ensures (a + b) + c == a + (b + c)
  {
  }

  // ---------------------------------------------------------------------
  // Estimating the status of one screen

  datatype Channel = Red | Green | Blue

  /** The last (peak) level of one channel of a ramp. */
  function Peak(ramp: GammaRamp, ch: Channel): (p: real)
    requires ramp.WellFormed() && ramp.Size() >= 1
    ensures 0.0 <= p
  {
    match ch
    case Red => ramp.red[|ramp.red| - 1] as real
    case Green => ramp.green[|ramp.green| - 1] as real
    case Blue => ramp.blue[|ramp.blue| - 1] as real
  }

  /** The sum of one channel's peaks over CRTCs [lo, hi) of a row. */
  function PeakSum(row: seq<GammaRamp>, lo: int, hi: int, ch: Channel): (s: real)
    requires 0 <= lo <= hi <= |row|
    requires forall c :: 0 <= c < |row| ==> row[c].WellFormed() && row[c].Size() >= 1
    ensures 0.0 <= s
    decreases hi - lo
  {
    if hi == lo then 0.0 else PeakSum(row, lo, hi - 1, ch) + Peak(row[hi - 1], ch)
  }

  /** The status `get_sct_for_screen` reports for a screen whose CRTCs
      hold `row`. */
  function EstimateOf(row: seq<GammaRamp>, icrtc: int, exp: real -> real): (ts: TempStatus)
    requires forall c :: 0 <= c < |row| ==> row[c].WellFormed() && row[c].Size() >= 1
    ensures 0.0 <= ts.brightness <= 1.0
  {
    var (start, n) := CrtcSpan(icrtc, |row|);
    EstimateFromPeaks(PeakSum(row, start, start + n, Red), PeakSum(row, start, start + n, Green),
                      PeakSum(row, start, start + n, Blue), n, exp)
  }

  /** `get_sct_for_screen`: sum the peaks of the selected CRTCs and
      estimate the status from them. Nothing on the port changes. */
  method GetSctForScreen(port: Port, screen: nat, icrtc: int, exp: real -> real) returns (ts: TempStatus)
    requires port.Valid() && screen < |port.crtcs|
    ensures ts == EstimateOf(port.crtcs[screen], icrtc, exp)
  {
    var row := port.crtcs[screen];
    var (start, n) := CrtcSpan(icrtc, |row|);
    var gammar, gammag, gammab := 0.0, 0.0, 0.0;
    for c := start to start + n
      invariant gammar == PeakSum(row, start, c, Red)
      invariant gammag == PeakSum(row, start, c, Green)
      invariant gammab == PeakSum(row, start, c, Blue)
    {
      var gamma := row[c];
      var size := |gamma.red|;
      gammar := gammar + gamma.red[size - 1] as real;
      gammag := gammag + gamma.green[size - 1] as real;
      gammab := gammab + gamma.blue[size - 1] as real;
    }
    ts := EstimateFromPeaks(gammar, gammag, gammab, n, exp);
  }
}
