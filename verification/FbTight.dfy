/** Where an update without pixels comes from, and what the Tight encoder makes of it. */
module FbTight {
  import opened Common
  import opened FbUpdate
  import Tight
  import TightJobs

  /** The desktop consists of one framebuffer at the origin. */
  ghost predicate Fills(fb: TightJobs.Framebuffer, px: Pixels) {
    fb.xOff == 0 && fb.yOff == 0 && forall q :: q in Screen(px) <==> TightJobs.InFramebuffer(fb, q)
  }

  /**
    Damage is looked at before it is clamped. An update that is started gives the encoder no
    rectangle exactly if the damage, which is not empty, lies wholly outside the desktop.
   */
  lemma {:induction false} EncoderGetsNothingIff(s: State, w: Weather, fb: TightJobs.Framebuffer, dirty: set<Tight.Pos>)
    requires Inv(s) && !s.updating && Process(s, w).updating && Fills(fb, s.px)
    requires forall p :: p in dirty <==>
      Tight.InGrid(TightJobs.Grids([fb]), p) && TightJobs.Hit([fb], InFlight(Process(s, w).px), p)
    ensures s.px.damage != {}
    ensures dirty == {} <==> s.px.damage * Screen(s.px) == {}
  {
    var region := InFlight(Process(s, w).px);
    assert region == s.px.damage * Screen(s.px);
    TightJobs.ReachOfOne(fb);
    assert TightJobs.Clamped([fb], region);
    TightJobs.SingleFramebufferCleanIff(fb, region, dirty);
  }

  /** A request outside a desktop of one pixel, for instance, starts an update with nothing in it. */
  lemma {:induction false} OutsideRequestStartsAnEmptyUpdate(es: seq<Event>, dirty: set<Tight.Pos>)
    requires es == [Request(false, {Point(5, 5)}), Poll(Weather(true, false, true))]
    requires forall p :: p in dirty <==>
      Tight.InGrid(TightJobs.Grids([TightJobs.Framebuffer(0, 0, 1, 1)]), p)
      && TightJobs.Hit([TightJobs.Framebuffer(0, 0, 1, 1)], {}, p)
    ensures After(map[Point(0, 0) := 0], es).Some?
    ensures var s := After(map[Point(0, 0) := 0], es).value;
      s.phase.Compositing? && InFlight(s.px) == {} && Enabled(s, Composited(Started))
    ensures dirty == {}
  {
    var desktop: Picture := map[Point(0, 0) := 0];
    assert es[..1][..0] == [] && es[..2] == es;
    assert After(desktop, []) == Some(Init(desktop));
    var s1 := Next(Init(desktop), es[0]);
    assert After(desktop, es[..1]) == Some(s1);
    assert s1.px.damage == {Point(5, 5)};
    var s2 := Next(s1, es[1]);
    assert After(desktop, es) == Some(s2);
    assert s2.px.flight == Some(Taken(desktop, {Point(5, 5)} * desktop.Keys));
    assert {Point(5, 5)} * desktop.Keys == {};
  }
}
