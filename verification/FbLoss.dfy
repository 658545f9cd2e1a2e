/** When a pixel that was asked for stops being due without having been sent, and what brings it back. */
module FbLoss {
  import opened Common
  import opened FbUpdate

  /** The client was sent the pixel as it is now. */
  predicate Current(px: Pixels, p: Point) {
    p in px.shown && p in px.desktop && px.shown[p] == px.desktop[p]
  }

  /** What is on its way; a client without an encoder keeps its frame for ever. */
  function OnItsWay(s: State): Region {
    if s.phase.Stranded? then {} else InFlight(s.px)
  }

  /** A pixel asked for is not what the client shows, and nothing is on record that would send it. */
  predicate Orphaned(s: State, p: Point) {
    p in s.px.asked && p !in s.px.damage && p !in OnItsWay(s) && !Current(s.px, p)
  }

  /** The event ends the frame on its way without sending it. */
  predicate GivesUp(s: State, e: Event) {
    Leaks(s, e) || e == Composited(NoEncoder)
  }

  /** The damage on record afterwards; noting a resize comes before the stream can refuse the frame. */
  function DamageLeft(s: State, e: Event): Region {
    if e.Encoded? && !Drops(s) && !CannotResize(s) && !s.layoutKnown then Screen(s.px) else s.px.damage
  }

  /** The event damages the pixel again, or sends a frame that covers it. */
  predicate Rescues(s: State, e: Event, p: Point) {
    match e
    case Request(incremental, rect) => !incremental && p in rect
    case FeedFrame(_, damage) => !s.closed && p in damage
    case Encoded(covered, sendOk) =>
      !s.closed && !Drops(s) && !CannotResize(s) && (!s.layoutKnown || (sendOk && p in covered))
    case _ => false
  }

  /** Processing touches pixels only to take a frame. */
  lemma ProcessPixels(s: State, w: Weather)
    requires Inv(s)
    ensures var t := Process(s, w);
      t.closed == s.closed
      && ((t.px == s.px && t.phase == s.phase) || (s.phase.Quiet? && t.px == TakeFrame(s.px) && t.phase.Compositing?))
  {
  }

  /** Only the end of encoding and the end of compositing can orphan a pixel. */
  lemma OthersKeepOrphans(s: State, e: Event, p: Point)
    requires Inv(s) && !s.closed && Enabled(s, e) && !e.Composited? && !e.Encoded?
    ensures Orphaned(Next(s, e), p) <==> Orphaned(s, p) && !Rescues(s, e, p)
  {
    assert AgreesAt(s.px, p);
    if e.Poll? {
      ProcessPixels(s, e.w);
    }
  }

  lemma FinishOrphans(s: State, covered: Region, sendOk: bool, p: Point)
    requires Inv(s) && !s.closed && Enabled(s, Encoded(covered, sendOk))
    ensures var e := Encoded(covered, sendOk);
      Orphaned(FinishUpdate(s, covered, sendOk), p) <==>
        if Leaks(s, e) && p in InFlight(s.px) then p !in DamageLeft(s, e) && !Current(s.px, p)
        else Orphaned(s, p) && !Rescues(s, e, p)
  {
    assert AgreesAt(s.px, p);
  }

  /**
    On an open connection a step orphans a pixel exactly if it gives up a frame that holds
    the pixel, which is not damaged again by then, and the client's copy is stale or missing.
   */
  lemma DamageIsLostExactlyByLeaks(s: State, e: Event, p: Point)
    requires Inv(s) && !s.closed && Enabled(s, e) && !Orphaned(s, p)
    ensures Orphaned(Next(s, e), p)
      <==> GivesUp(s, e) && p in OnItsWay(s) && p !in DamageLeft(s, e) && !Current(s.px, p)
  {
    assert AgreesAt(s.px, p);
    match e
    case Encoded(covered, sendOk) => FinishOrphans(s, covered, sendOk, p);
    case Composited(_) =>
    case _ => OthersKeepOrphans(s, e, p);
  }

  /** What is orphaned is counted as lost, or was stranded. */
  lemma OrphanedIsLost(s: State, p: Point)
    requires Inv(s) && !s.closed && Orphaned(s, p)
    ensures p in s.px.lost || (s.phase.Stranded? && p in InFlight(s.px))
  {
    assert AgreesAt(s.px, p);
  }

  /** On an open connection an orphaned pixel stays so until exactly such an event. */
  lemma OrphanIsRescuedIff(s: State, e: Event, p: Point)
    requires Inv(s) && !s.closed && Enabled(s, e) && Orphaned(s, p)
    ensures Orphaned(Next(s, e), p) <==> !Rescues(s, e, p)
  {
    match e
    case Encoded(covered, sendOk) => FinishOrphans(s, covered, sendOk, p);
    case Composited(_) =>
    case _ => OthersKeepOrphans(s, e, p);
  }

  /** The client's copy of a pixel is the same in both states. */
  predicate SameCopy(px: Pixels, py: Pixels, p: Point) {
    (p in px.shown <==> p in py.shown) && (p in px.shown ==> px.shown[p] == py.shown[p])
  }

  /** Only the end of encoding changes what the client was sent. */
  lemma OnlySendingShows(s: State, e: Event, p: Point)
    requires Inv(s) && Enabled(s, e) && (e.Encoded? ==> p !in e.covered || s.closed || Leaks(s, e))
    ensures SameCopy(s.px, Next(s, e).px, p)
  {
    if e.Poll? {
      ProcessPixels(s, e.w);
    }
  }

  lemma UnrescuedIsUnsent(s: State, e: Event, p: Point)
    requires Inv(s) && Enabled(s, e) && (s.closed || Orphaned(s, p)) && !Rescues(s, e, p)
    ensures SameCopy(s.px, Next(s, e).px, p) && (Next(s, e).closed || Orphaned(Next(s, e), p))
  {
    OnlySendingShows(s, e, p);
    if s.closed {
      assert Next(s, e).closed;
    } else {
      OrphanIsRescuedIff(s, e, p);
    }
  }

  /** No event from the `n`-th on damages the pixel or sends a frame that covers it. */
  ghost predicate Unrescued(desktop: Picture, es: seq<Event>, n: nat, p: Point) {
    forall i :: n <= i < |es| && After(desktop, es[..i]).Some? ==> !Rescues(After(desktop, es[..i]).value, es[i], p)
  }

  /**
    In every continuation of a run, a pixel orphaned on an open connection is not sent, and
    stays orphaned while the connection lasts, unless an event damages it again or sends a
    frame that covers it.
   */
  lemma {:induction false} OrphanStaysUnsent(desktop: Picture, es: seq<Event>, n: nat, p: Point)
    requires n <= |es| && After(desktop, es[..n]).Some? && After(desktop, es).Some?
    requires !After(desktop, es[..n]).value.closed && Orphaned(After(desktop, es[..n]).value, p)
    requires Unrescued(desktop, es, n, p)
    ensures var s, t := After(desktop, es[..n]).value, After(desktop, es).value;
      SameCopy(s.px, t.px, p) && (t.closed || Orphaned(t, p))
  {
    if n == |es| {
      assert es[..n] == es;
    } else {
      var before := es[..|es| - 1];
      assert before[..n] == es[..n];
      forall i | n <= i < |before| && After(desktop, before[..i]).Some?
        ensures !Rescues(After(desktop, before[..i]).value, before[i], p)
      {
        assert before[..i] == es[..i];
      }
      OrphanStaysUnsent(desktop, before, n, p);
      RunsKeep(desktop, before);
      UnrescuedIsUnsent(After(desktop, before).value, es[|es| - 1], p);
    }
  }

  /** Faultless runs orphan nothing, as long as there is an encoder. */
  lemma {:induction false} FaultlessRunsOrphanNothing(desktop: Picture, es: seq<Event>, p: Point)
    requires After(desktop, es).Some? && FaultlessRun(desktop, es)
    requires !After(desktop, es).value.closed && !After(desktop, es).value.phase.Stranded?
    ensures !Orphaned(After(desktop, es).value, p)
  {
    RunsKeep(desktop, es);
    FaultlessRunsLoseNothing(desktop, es);
    if Orphaned(After(desktop, es).value, p) {
      OrphanedIsLost(After(desktop, es).value, p);
    }
  }

  // ---------------------------------------------------------------- an instance

  const origin := Point(0, 0)
  const calm := Weather(true, false, true)
  const plain := Caps(false, false, false, false, false, false)

  /** A client asks for a pixel and changes formats while the frame with it is encoded. */
  predicate BeginsWithADrop(es: seq<Event>) {
    |es| >= 5 && es[..5] == [Request(false, {origin}), Poll(calm), Composited(Started), SetFormats(plain), Encoded({origin}, true)]
  }

  /**
    The dropped-frame branch keeps the request and forgets the pixel: whatever follows, if
    no event damages the pixel or sends a frame that covers it, the client never gets it.
   */
  lemma {:induction false} DroppedFrameIsNeverSent(es: seq<Event>)
    requires BeginsWithADrop(es) && After(map[origin := 7], es).Some?
    ensures After(map[origin := 7], es[..5]).Some?
    ensures var s := After(map[origin := 7], es[..5]).value;
      !s.closed && Orphaned(s, origin) && s.ledger.pending == 1
    ensures Unrescued(map[origin := 7], es, 5, origin) ==> origin !in After(map[origin := 7], es).value.px.shown
  {
    FormatsChangeMeanwhile(es[..5]);
    if Unrescued(map[origin := 7], es, 5, origin) {
      OrphanStaysUnsent(map[origin := 7], es, 5, origin);
    }
  }

  lemma {:induction false} FormatsChangeMeanwhile(es: seq<Event>)
    requires es == [Request(false, {origin}), Poll(calm), Composited(Started), SetFormats(plain), Encoded({origin}, true)]
    ensures After(map[origin := 7], es).Some?
    ensures var s := After(map[origin := 7], es).value;
      !s.closed && Orphaned(s, origin) && origin !in s.px.shown && s.ledger.pending == 1
  {
    var desktop: Picture := map[origin := 7];
    assert es[..4][..3] == es[..3] && es[..3][..2] == es[..2] && es[..2][..1] == es[..1] && es[..1][..0] == [];
    assert After(desktop, []) == Some(Init(desktop));
    var s1 := Next(Init(desktop), es[0]);
    assert After(desktop, es[..1]) == Some(s1);
    assert s1.px.damage == {origin};
    var s2 := Next(s1, es[1]);
    assert After(desktop, es[..2]) == Some(s2);
    assert s2.phase.Compositing? && InFlight(s2.px) == {origin};
    var s3 := Next(s2, es[2]);
    assert After(desktop, es[..3]) == Some(s3);
    var s4 := Next(s3, es[3]);
    assert After(desktop, es[..4]) == Some(s4);
    assert Enabled(s4, es[4]);
    var s5 := Next(s4, es[4]);
    assert es[..5] == es;
    assert After(desktop, es) == Some(s5);
  }
}
