/** Damage gets through: from every state that can go on, a few ordinary events show it to the client. */
module FbProgress {
  import opened Common
  import opened FbUpdate

  /** Nothing stands in the way: there are frames to send, the link is free, the cursor can be encoded. */
  const fair := Weather(true, false, true)

  /** What a well-meaning client and healthy components do. */
  predicate Ordinary(e: Event) {
    match e
    case Poll(w) => w == fair
    case Request(incremental, rect) => incremental && rect == {}
    case Composited(r) => r == Started
    case Encoded(_, sendOk) => sendOk
    case Written => true
    case _ => false
  }

  predicate AllOrdinary(es: seq<Event>) { forall i :: 0 <= i < |es| ==> Ordinary(es[i]) }

  /** The connection is open, has an encoder, and the client knows the layout or can be told. */
  predicate CanGoOn(s: State) {
    !s.closed && !s.phase.Stranded? && (s.layoutKnown || s.caps.desktopSize || s.caps.extDesktopSize)
  }

  /** A pixel is due: damaged, on the screen, and in the area if updates are continuous. */
  predicate Due(s: State, p: Point) {
    p in s.px.damage && p in Screen(s.px) && (s.continuous ==> p in s.area)
  }

  /** The client shows the pixel as it is. */
  predicate ShownAsIs(s: State, p: Point) {
    p in s.px.shown && p in s.px.desktop && s.px.shown[p] == s.px.desktop[p]
  }

  /** What no ordinary event changes. */
  predicate SameSurroundings(s: State, t: State) {
    t.px.desktop == s.px.desktop && t.continuous == s.continuous && t.area == s.area && t.caps == s.caps
    && t.closed == s.closed && (s.layoutKnown ==> t.layoutKnown)
  }

  // ---------------------------------------------------------------- runs, one event at a time

  lemma {:induction false} Extend(desktop: Picture, es: seq<Event>, e: Event)
    requires After(desktop, es).Some? && Enabled(After(desktop, es).value, e)
    ensures After(desktop, es + [e]) == Some(Next(After(desktop, es).value, e))
  {
    assert (es + [e])[..|es|] == es;
  }

  /** A continuation of a run by ordinary events. */
  ghost predicate Continues(desktop: Picture, es: seq<Event>, s: State, more: seq<Event>, t: State) {
    After(desktop, es) == Some(s) && After(desktop, es + more) == Some(t) && AllOrdinary(more)
  }

  lemma {:induction false} ContinueBy(desktop: Picture, es: seq<Event>, s: State, more: seq<Event>, t: State, e: Event)
    requires Continues(desktop, es, s, more, t) && Enabled(t, e) && Ordinary(e)
    ensures Continues(desktop, es, s, more + [e], Next(t, e))
  {
    Extend(desktop, es + more, e);
    Assoc(es, more, [e]);
  }

  lemma {:induction false} Chain(desktop: Picture, es: seq<Event>, s: State, m1: seq<Event>, t: State, m2: seq<Event>, u: State)
    requires Continues(desktop, es, s, m1, t) && Continues(desktop, es + m1, t, m2, u)
    ensures Continues(desktop, es, s, m1 + m2, u)
  {
    Assoc(es, m1, m2);
  }

  // ---------------------------------------------------------------- steps

  /** The end of encoding, with everything in order. */
  lemma EncodedStep(s: State, p: Point)
    requires Inv(s) && CanGoOn(s) && s.phase.Encoding?
    ensures var e := Encoded(InFlight(s.px), true); var t := Next(s, e);
      && Enabled(s, e) && SameSurroundings(s, t) && CanGoOn(t)
      && (Due(s, p) ==> Due(t, p))
      && (t.phase.Writing? || t.phase.Quiet?)
      && (!s.formatsChanged && p in InFlight(s.px) && p !in s.px.damage ==> t.phase.Writing? && ShownAsIs(t, p))
  {
    assert AgreesAt(s.px, p);
  }

  lemma CompositedStep(s: State)
    requires Inv(s) && CanGoOn(s) && s.phase.Compositing?
    ensures var t := Next(s, Composited(Started));
      t.phase.Encoding? && t.px == s.px && SameSurroundings(s, t) && CanGoOn(t) && t.formatsChanged == s.formatsChanged
  {
  }

  lemma WrittenStep(s: State)
    requires Inv(s) && CanGoOn(s) && s.phase.Writing?
    ensures var t := Next(s, Written); t.phase.Quiet? && t.px == s.px && SameSurroundings(s, t) && CanGoOn(t)
  {
  }

  lemma RequestStep(s: State)
    requires Inv(s) && CanGoOn(s) && s.phase.Quiet?
    ensures var t := Next(s, Request(true, {}));
      t.phase.Quiet? && t.px == s.px && SameSurroundings(s, t) && CanGoOn(t)
      && t.ledger.pending == s.ledger.pending + (if s.continuous then 0 else 1)
  {
  }

  /** With five requests, four are left over for what has to be told besides pixels. */
  lemma SideMessagesLeaveOne(s: State)
    requires s.continuous || s.ledger.pending >= 5
    ensures !SideMessages(s, fair).stop
  {
  }

  lemma PollStep(s: State, p: Point)
    requires Inv(s) && CanGoOn(s) && s.phase.Quiet? && Due(s, p) && (s.continuous || s.ledger.pending >= 5)
    ensures var t := Next(s, Poll(fair));
      t.phase.Compositing? && SameSurroundings(s, t) && CanGoOn(t) && !t.formatsChanged
      && p in InFlight(t.px) && p !in t.px.damage
  {
    SideMessagesLeaveOne(s);
    assert s.continuous ==> p in s.px.damage * s.area;
  }

  // ---------------------------------------------------------------- getting through

  /** Whatever update is under way is brought to its end, and the pixel stays due. */
  lemma {:induction false} Settle(desktop: Picture, es: seq<Event>, p: Point) returns (more: seq<Event>, t: State)
    requires After(desktop, es).Some?
    requires var s := After(desktop, es).value; CanGoOn(s) && Due(s, p)
    ensures Continues(desktop, es, After(desktop, es).value, more, t) && |more| <= 3
    ensures t.phase.Quiet? && CanGoOn(t) && Due(t, p) && SameSurroundings(After(desktop, es).value, t)
  {
    var s := After(desktop, es).value;
    RunsKeep(desktop, es);
    assert es + [] == es;
    more, t := [], s;
    if t.phase.Compositing? {
      CompositedStep(t);
      ContinueBy(desktop, es, s, more, t, Composited(Started));
      StepKeeps(t, Composited(Started));
      more, t := more + [Composited(Started)], Next(t, Composited(Started));
    }
    if t.phase.Encoding? {
      var e := Encoded(InFlight(t.px), true);
      EncodedStep(t, p);
      ContinueBy(desktop, es, s, more, t, e);
      StepKeeps(t, e);
      more, t := more + [e], Next(t, e);
    }
    if t.phase.Writing? {
      WrittenStep(t);
      ContinueBy(desktop, es, s, more, t, Written);
      more, t := more + [Written], Next(t, Written);
    }
  }

  /** Requests come in until there are five of them. */
  lemma {:induction false} Ask(desktop: Picture, es: seq<Event>, p: Point, n: nat) returns (more: seq<Event>, t: State)
    requires After(desktop, es).Some?
    requires var s := After(desktop, es).value; CanGoOn(s) && Due(s, p) && s.phase.Quiet?
    ensures Continues(desktop, es, After(desktop, es).value, more, t) && |more| == n
    ensures t.phase.Quiet? && CanGoOn(t) && Due(t, p) && SameSurroundings(After(desktop, es).value, t)
    ensures t.continuous || t.ledger.pending >= n
  {
    var s := After(desktop, es).value;
    RunsKeep(desktop, es);
    if n == 0 {
      more, t := [], s;
      assert es + [] == es;
    } else {
      more, t := Ask(desktop, es, p, n - 1);
      RunsKeep(desktop, es + more);
      RequestStep(t);
      ContinueBy(desktop, es, s, more, t, Request(true, {}));
      more, t := more + [Request(true, {})], Next(t, Request(true, {}));
    }
  }

  /** A quiet client with requests enough is sent the pixel in one frame. */
  lemma {:induction false} SendFrame(desktop: Picture, es: seq<Event>, p: Point) returns (more: seq<Event>, t: State)
    requires After(desktop, es).Some?
    requires var s := After(desktop, es).value;
      CanGoOn(s) && Due(s, p) && s.phase.Quiet? && (s.continuous || s.ledger.pending >= 5)
    ensures Continues(desktop, es, After(desktop, es).value, more, t) && |more| == 4
    ensures t.phase.Quiet? && CanGoOn(t) && ShownAsIs(t, p) && SameSurroundings(After(desktop, es).value, t)
  {
    var s := After(desktop, es).value;
    RunsKeep(desktop, es);
    assert es + [] == es;
    PollStep(s, p);
    ContinueBy(desktop, es, s, [], s, Poll(fair));
    var t1 := Next(s, Poll(fair));
    StepKeeps(s, Poll(fair));
    more := [] + [Poll(fair)];
    CompositedStep(t1);
    ContinueBy(desktop, es, s, more, t1, Composited(Started));
    var t2 := Next(t1, Composited(Started));
    StepKeeps(t1, Composited(Started));
    more := more + [Composited(Started)];
    more, t := Finish(desktop, es, s, more, t2, p);
  }

  lemma {:induction false} Finish(desktop: Picture, es: seq<Event>, s: State, before: seq<Event>, s2: State, p: Point)
    returns (more: seq<Event>, t: State)
    requires Continues(desktop, es, s, before, s2) && Inv(s2) && CanGoOn(s2) && s2.phase.Encoding?
    requires !s2.formatsChanged && p in InFlight(s2.px) && p !in s2.px.damage
    ensures Continues(desktop, es, s, more, t) && |more| == |before| + 2
    ensures t.phase.Quiet? && CanGoOn(t) && ShownAsIs(t, p) && SameSurroundings(s2, t)
  {
    var e := Encoded(InFlight(s2.px), true);
    EncodedStep(s2, p);
    ContinueBy(desktop, es, s, before, s2, e);
    var s3 := Next(s2, e);
    StepKeeps(s2, e);
    WrittenStep(s3);
    ContinueBy(desktop, es, s, before + [e], s3, Written);
    more, t := before + [e] + [Written], Next(s3, Written);
  }

  /**
    Progress: after every run that can go on, at most twelve ordinary events show a pixel that
    is due as the desktop has it, and leave the client ready for the next.
   */
  lemma {:induction false} DueDamageIsSent(desktop: Picture, es: seq<Event>, p: Point) returns (more: seq<Event>)
    requires After(desktop, es).Some?
    requires var s := After(desktop, es).value; CanGoOn(s) && Due(s, p)
    ensures |more| <= 12 && AllOrdinary(more) && After(desktop, es + more).Some?
    ensures var s, t := After(desktop, es).value, After(desktop, es + more).value;
      && p in t.px.shown && p in t.px.desktop && t.px.shown[p] == t.px.desktop[p] && t.px.desktop == s.px.desktop
      && CanGoOn(t) && t.phase.Quiet?
  {
    var s := After(desktop, es).value;
    var m1, t1 := Settle(desktop, es, p);
    var m2, t2 := Ask(desktop, es + m1, p, 5);
    Chain(desktop, es, s, m1, t1, m2, t2);
    Assoc(es, m1, m2);
    var m3, t3 := SendFrame(desktop, es + m1 + m2, p);
    Chain(desktop, es, s, m1 + m2, t2, m3, t3);
    more := m1 + m2 + m3;
  }

  /** What makes a pixel due: a request for it outright, or a frame that damages it. */
  predicate AsksFor(s: State, e: Event, p: Point) {
    match e
    case Request(incremental, rect) => !incremental && p in rect
    case FeedFrame(_, damage) => p in damage
    case _ => false
  }

  lemma AskedIsDue(s: State, e: Event, p: Point)
    requires CanGoOn(s) && Enabled(s, e) && AsksFor(s, e, p) && p in Screen(s.px) && (s.continuous ==> p in s.area)
    ensures CanGoOn(Next(s, e)) && Due(Next(s, e), p)
    ensures e.FeedFrame? ==> Next(s, e).px.desktop == e.picture
    ensures e.Request? ==> Next(s, e).px.desktop == s.px.desktop
  {
  }

  /** A pixel requested outright, or damaged by a new frame, is sent as the desktop then has it. */
  lemma {:induction false} AskedIsSent(desktop: Picture, es: seq<Event>, e: Event, p: Point) returns (more: seq<Event>)
    requires After(desktop, es).Some?
    requires var s := After(desktop, es).value;
      CanGoOn(s) && Enabled(s, e) && AsksFor(s, e, p) && p in Screen(s.px) && (s.continuous ==> p in s.area)
    ensures |more| <= 12 && AllOrdinary(more) && After(desktop, es + [e] + more).Some?
    ensures var s, t := After(desktop, es).value, After(desktop, es + [e] + more).value;
      && p in t.px.shown && p in t.px.desktop && t.px.shown[p] == t.px.desktop[p]
      && t.px.desktop == (if e.FeedFrame? then e.picture else s.px.desktop)
  {
    var s := After(desktop, es).value;
    AskedIsDue(s, e, p);
    Extend(desktop, es, e);
    more := DueDamageIsSent(desktop, es + [e], p);
  }

  // ---------------------------------------------------------------- exactly when, and what else

  /** With requests enough a quiet client starts an update exactly if there is damage (in the area) and nothing holds it up. */
  lemma UpdateStartsIff(s: State, w: Weather)
    requires Inv(s) && !s.closed && s.phase.Quiet? && (s.continuous || s.ledger.pending >= 5)
    ensures Next(s, Poll(w)).phase.Compositing? <==>
      w.haveBuffers && !w.throttled && s.px.damage != {} && (s.continuous ==> s.px.damage * s.area != {})
    ensures Next(s, Poll(w)).phase.Compositing? ==>
      Next(s, Poll(w)).px.damage == {} && InFlight(Next(s, Poll(w)).px) == s.px.damage * Screen(s.px)
  {
  }

  /** Without requests a quiet client that is not updated continuously is sent nothing. */
  lemma NothingWithoutRequests(s: State, w: Weather)
    requires s.ledger.pending == 0 && !s.continuous
    ensures Next(s, Poll(w)) == s
  {
  }

  function Count(b: bool): nat { if b then 1 else 0 }

  /** A notice was sent if due, for one request unless updates are continuous. */
  predicate Sends(t: Turn, u: Turn, continuous: bool, due: bool, after: Notices) {
    && !u.stop && u.notices == (if due then after else t.notices)
    && u.ledger.sent == t.ledger.sent + Count(due)
    && u.ledger.pending == t.ledger.pending - (if continuous then 0 else Count(due))
  }

  lemma SideSends(t: Turn, continuous: bool, due: bool, after: Notices)
    requires !t.stop && (continuous || t.ledger.pending >= 2)
    ensures Sends(t, Side(t, continuous, due, true, after), continuous, due, after)
  {
  }

  lemma ExtensionSends(t: Turn, continuous: bool, caps: Caps)
    requires !t.stop && (continuous || t.ledger.pending >= 2)
    ensures var u := ExtensionNotice(t, continuous, caps);
      Sends(t.(notices := t.notices.(extNotified := true)), u, continuous, !t.notices.extNotified && caps.ext,
            t.notices.(extNotified := true))
  {
  }

  lemma FourSides(t: Turn, a: Turn, b: Turn, c: Turn, d: Turn, continuous: bool, d1: bool, d2: bool, d3: bool, d4: bool,
                  n1: Notices, n2: Notices, n3: Notices, n4: Notices)
    requires Sends(t, a, continuous, d1, n1) && Sends(a, b, continuous, d2, n2)
    requires Sends(b, c, continuous, d3, n3) && Sends(c, d, continuous, d4, n4)
    ensures d.ledger.sent == t.ledger.sent + Count(d1) + Count(d2) + Count(d3) + Count(d4)
    ensures d.ledger.pending
      == t.ledger.pending - (if continuous then 0 else Count(d1) + Count(d2) + Count(d3) + Count(d4))
    ensures !d.stop
  {
  }

  lemma AllSidesAreSent(s: State)
    requires s.continuous || s.ledger.pending >= 5
    ensures var t := SideMessages(s, fair); var n := s.notices;
      var due := Count(!n.extNotified && s.caps.ext) + Count(n.cursorStale && s.caps.cursor)
               + Count(n.nameStale) + Count(n.ledStale && s.caps.led);
      && !t.stop
      && t.ledger.sent == s.ledger.sent + due
      && t.ledger.pending == s.ledger.pending - (if s.continuous then 0 else due)
      && t.notices == Notices(true, n.cursorStale && !s.caps.cursor, false, n.ledStale && !s.caps.led)
  {
    var n, k, caps := s.notices, s.continuous, s.caps;
    var a, b, c, d := FourStages(s);
    var t := Turn(s.ledger, n.(extNotified := true), false);
    FourSides(t, a, b, c, d, k, !n.extNotified && caps.ext, n.cursorStale && caps.cursor, n.nameStale,
              n.ledStale && caps.led, t.notices, a.notices.(cursorStale := false),
              b.notices.(nameStale := false), c.notices.(ledStale := false));
  }

  /** Extensions, cursor, name and LEDs, one after the other. */
  lemma FourStages(s: State) returns (a: Turn, b: Turn, c: Turn, d: Turn)
    requires s.continuous || s.ledger.pending >= 5
    ensures d == SideMessages(s, fair)
    ensures var n, k, caps := s.notices, s.continuous, s.caps; var t := Turn(s.ledger, n.(extNotified := true), false);
      && Sends(t, a, k, !n.extNotified && caps.ext, t.notices)
      && Sends(a, b, k, n.cursorStale && caps.cursor, a.notices.(cursorStale := false))
      && Sends(b, c, k, n.nameStale, b.notices.(nameStale := false))
      && Sends(c, d, k, n.ledStale && caps.led, c.notices.(ledStale := false))
  {
    var n, k, caps := s.notices, s.continuous, s.caps;
    var t := Turn(s.ledger, n, false);
    a := ExtensionNotice(t, k, caps);
    ExtensionSends(t, k, caps);
    b := CursorUpdate(a, k, caps, fair);
    SideSends(a, k, a.notices.cursorStale && caps.cursor, a.notices.(cursorStale := false));
    c := NameUpdate(b, k);
    SideSends(b, k, b.notices.nameStale, b.notices.(nameStale := false));
    d := LedUpdate(c, k, caps);
    SideSends(c, k, c.notices.ledStale && caps.led, c.notices.(ledStale := false));
  }

  /** With requests enough every notice that is due is sent, each once and for one request. */
  lemma NoticesAreServed(s: State)
    requires Inv(s) && CanGoOn(s) && s.phase.Quiet? && (s.continuous || s.ledger.pending >= 5)
    ensures var t := Next(s, Poll(fair)); var n := s.notices;
      var due := Count(!n.extNotified && s.caps.ext) + Count(n.cursorStale && s.caps.cursor)
               + Count(n.nameStale) + Count(n.ledStale && s.caps.led);
      && t.ledger.sent == s.ledger.sent + due
      && t.ledger.pending == s.ledger.pending - (if s.continuous then 0 else due)
      && t.notices == Notices(true, n.cursorStale && !s.caps.cursor, false, n.ledStale && !s.caps.led)
  {
    AllSidesAreSent(s);
  }

  /** A frame taken before the client changed formats is not sent to a client without fences, but its request is kept. */
  lemma FormatsChangeStopsTheFrame(s: State, caps: Caps, covered: Region, sendOk: bool)
    requires Inv(s) && !s.closed && s.phase.Encoding? && !caps.fence
    ensures var t := Next(Next(s, SetFormats(caps)), Encoded(covered, sendOk));
      t.px.shown == s.px.shown && t.ledger.sent == s.ledger.sent && t.ledger.pending == s.ledger.pending + 1
      && t.phase.Quiet? && !t.closed
  {
  }

  /** A frame for which nothing changed is sent as a message of its own. */
  lemma FrameIsSent(s: State, covered: Region)
    requires Inv(s) && CanGoOn(s) && s.phase.Encoding? && !s.formatsChanged
    ensures var t := Next(s, Encoded(covered, true));
      t.ledger.sent == s.ledger.sent + 1 && t.phase.Writing? && t.layoutKnown
      && forall p :: p in covered && p in s.px.flight.value.picture ==>
           p in t.px.shown && t.px.shown[p] == s.px.flight.value.picture[p]
  {
  }

  /** A frame is taken: there is one on its way that was not. */
  predicate Takes(s: State, t: State) { s.px.flight.None? && t.px.flight.Some? }

  /** The end of encoding found out that the client has to be told a new size. */
  predicate Resizes(s: State, e: Event, t: State) { e.Encoded? && !s.layoutKnown && t.layoutKnown }

  /**
    A pixel is on record exactly if it was before and no frame was taken, or if this event asks
    for it; a new size puts the whole screen on record. The frame taken is the desktop as it is.
   */
  lemma {:induction false} DamagedIff(s: State, e: Event, p: Point)
    requires Inv(s) && !s.closed && Enabled(s, e)
    ensures var t := Next(s, e);
      var kept := if Resizes(s, e, t) then p in Screen(s.px) else p in s.px.damage && !Takes(s, t);
      p in t.px.damage <==> (kept || AsksFor(s, e, p))
    ensures var t := Next(s, e);
      Takes(s, t) ==> t.px.flight.value.picture == s.px.desktop && t.px.flight.value.region == s.px.damage * Screen(s.px)
  {
    if e.Poll? {
      ProcessTakes(s, e.w);
    }
  }

  lemma ProcessTakes(s: State, w: Weather)
    requires Inv(s)
    ensures var t := Process(s, w);
      if Takes(s, t) then t.px.damage == {} && t.px.flight == Some(Taken(s.px.desktop, s.px.damage * Screen(s.px)))
      else t.px == s.px
  {
  }
}
