/** The display connection, reduced to what the engine uses: for every
    screen (X root window) its CRTCs, the gamma ramp each currently holds,
    and the log of every gamma write the port has accepted. Reading the
    screen count, the CRTCs of a screen, a ramp or its size reads the
    fields; the one request that changes anything is `SetCrtcGamma`. */
module Display {
  import opened GammaMath

  /** One `randr_set_crtc_gamma` request. */
  datatype GammaWrite = GammaWrite(screen: nat, crtc: nat, ramp: GammaRamp)

  /** Every ramp has three channels of one common, non-zero size. */
  ghost predicate RampsValid(crtcs: seq<seq<GammaRamp>>)
  {
    forall s, c :: 0 <= s < |crtcs| && 0 <= c < |crtcs[s]| ==>
      crtcs[s][c].WellFormed() && crtcs[s][c].Size() >= 1
  }

  class Port {
    /** crtcs[s][c] is the ramp currently loaded on CRTC c of screen s. */
    var crtcs: seq<seq<GammaRamp>>
    /** Every gamma write the port accepted, oldest first. */
    var writes: seq<GammaWrite>

    /** A server has at least one screen and reports non-empty ramps. */
    ghost predicate Valid()
      reads this
    {
      |crtcs| >= 1 && RampsValid(crtcs)
    }

    constructor (initial: seq<seq<GammaRamp>>)
      requires |initial| >= 1 && RampsValid(initial)
      ensures Valid()
      ensures crtcs == initial && writes == []
    {
      crtcs := initial;
      writes := [];
    }

    /** Load `ramp` on CRTC `crtc` of screen `screen`; the ramp must have
        the CRTC's gamma size. */
    method SetCrtcGamma(screen: nat, crtc: nat, ramp: GammaRamp)
      requires Valid()
      requires screen < |crtcs| && crtc < |crtcs[screen]|
      requires ramp.WellFormed() && ramp.Size() == crtcs[screen][crtc].Size()
      modifies this
      ensures Valid()
      ensures crtcs == old(crtcs)[screen := old(crtcs)[screen][crtc := ramp]]
      ensures writes == old(writes) + [GammaWrite(screen, crtc, ramp)]
    {
      crtcs := crtcs[screen := crtcs[screen][crtc := ramp]];
      writes := writes + [GammaWrite(screen, crtc, ramp)];
    }
  }
}
