/**
  Framebuffer updates to one client: damage collects, requests are counted, and at most
  one frame is on its way through compositor, encoder and send queue.
 */
module FbUpdate {
  import opened Common

  type Region = set<Point>
  type Picture = map<Point, int>

  function RectPoints(x: int, y: int, w: nat, h: nat): Region {
    set i, j | x <= i < x + w && y <= j < y + h :: Point(i, j)
  }

  // ---------------------------------------------------------------- pixels

  /** The frame on its way: what the displays showed when it was taken, and the part to send. */
  datatype Taken = Taken(picture: Picture, region: Region)

  /**
    `desktop` is what the displays show now (its keys are the screen), `damage` what the
    client has to be sent, `flight` the frame taken but not yet sent. The rest is history:
    `shown` is what the client was last sent, `lost` was taken from the damage and not sent
    since, `asked` was requested outright, fed as damage, or made due by a resize.
   */
  datatype Pixels = Pixels(
    desktop: Picture, damage: Region, flight: Option<Taken>, shown: Picture, lost: Region, asked: Region)

  function Screen(px: Pixels): Region { px.desktop.Keys }

  function InFlight(px: Pixels): Region {
    match px.flight case None => {} case Some(f) => f.region
  }

  /** The damage is exchanged for an empty one and, clamped, becomes a frame. */
  function TakeFrame(px: Pixels): Pixels {
    px.(damage := {}, flight := Some(Taken(px.desktop, px.damage * Screen(px))))
  }

  /** The encoder may send more than the damage, but only pixels of the same frame. */
  function Deliver(px: Pixels, covered: Region): Pixels
    requires px.flight.Some?
  {
    var f := px.flight.value;
    px.(shown := px.shown + (map p | p in covered && p in f.picture :: f.picture[p]),
        lost := px.lost - covered, flight := None)
  }

  function Lose(px: Pixels): Pixels {
    px.(lost := px.lost + InFlight(px), flight := None)
  }

  function FeedDesktop(px: Pixels, picture: Picture, damage: Region): Pixels {
    px.(desktop := picture, damage := px.damage + damage, asked := px.asked + damage * Screen(px))
  }

  function AskFor(px: Pixels, rect: Region): Pixels {
    px.(damage := px.damage + rect, asked := px.asked + rect * Screen(px))
  }

  /** After a resize rectangle the whole screen is damaged. */
  function DamageAll(px: Pixels): Pixels {
    px.(damage := Screen(px), asked := Screen(px))
  }

  /** The client agrees with the server at a point, unless damage is recorded there. */
  predicate AgreesAt(px: Pixels, p: Point) {
    && (p in px.shown && p in px.desktop && p !in px.damage && p !in InFlight(px) && p !in px.lost ==>
          px.shown[p] == px.desktop[p])
    && (px.flight.Some? && p in px.desktop && p in px.flight.value.picture && p !in px.damage ==>
          px.flight.value.picture[p] == px.desktop[p])
    && (p in px.asked ==> p in px.damage || p in InFlight(px) || p in px.lost || p in px.shown)
  }

  ghost predicate Agrees(px: Pixels) {
    && px.shown.Keys <= Screen(px)
    && px.asked <= Screen(px)
    && px.damage * Screen(px) <= px.asked && InFlight(px) <= px.asked
    && (px.flight.Some? ==> px.flight.value.picture.Keys == Screen(px) && px.flight.value.region <= Screen(px))
    && forall p {:trigger AgreesAt(px, p)} :: AgreesAt(px, p)
  }

  lemma TakeFrameAgrees(px: Pixels)
    requires Agrees(px) && px.flight.None?
    ensures Agrees(TakeFrame(px))
  {
    forall p ensures AgreesAt(TakeFrame(px), p) {
      assert AgreesAt(px, p);
    }
  }

  lemma DeliverAgrees(px: Pixels, covered: Region)
    requires Agrees(px) && px.flight.Some? && InFlight(px) <= covered <= Screen(px)
    ensures Agrees(Deliver(px, covered))
  {
    forall p ensures AgreesAt(Deliver(px, covered), p) {
      assert AgreesAt(px, p);
    }
  }

  lemma FeedAgrees(px: Pixels, picture: Picture, damage: Region)
    requires Agrees(px) && picture.Keys == Screen(px)
    requires forall p :: p in picture && picture[p] != px.desktop[p] ==> p in damage
    ensures Agrees(FeedDesktop(px, picture, damage))
  {
    forall p ensures AgreesAt(FeedDesktop(px, picture, damage), p) {
      assert AgreesAt(px, p);
    }
  }

  lemma LoseAgrees(px: Pixels)
    requires Agrees(px)
    ensures Agrees(Lose(px))
  {
    forall p ensures AgreesAt(Lose(px), p) {
      assert AgreesAt(px, p);
    }
  }

  lemma AskAgrees(px: Pixels, rect: Region)
    requires Agrees(px)
    ensures Agrees(AskFor(px, rect))
  {
    forall p ensures AgreesAt(AskFor(px, rect), p) {
      assert AgreesAt(px, p);
    }
  }

  lemma DamageAllAgrees(px: Pixels)
    requires Agrees(px)
    ensures Agrees(DamageAll(px))
  {
    forall p ensures AgreesAt(DamageAll(px), p) {
      assert AgreesAt(px, p);
    }
  }

  // ---------------------------------------------------------------- requests

  /**
    `pending` is the client's counter of unanswered requests. The rest is history: requests
    received, update messages sent, messages sent or begun without a request, and requests
    used up without a message.
   */
  datatype Ledger = Ledger(received: nat, pending: int, sent: nat, unsolicited: nat, unanswered: nat)

  datatype Phase = Quiet | Compositing | Encoding | Writing | Stranded

  ghost predicate Balanced(l: Ledger, phase: Phase) {
    && l.pending >= 0
    && l.received + l.unsolicited == l.sent + l.pending + l.unanswered + if phase.Encoding? then 1 else 0
  }

  // ---------------------------------------------------------------- client

  /** The encodings a client announced, as far as they steer updates. */
  datatype Caps = Caps(ext: bool, cursor: bool, led: bool, fence: bool, desktopSize: bool, extDesktopSize: bool)

  /** What is still to be told to the client besides pixels. */
  datatype Notices = Notices(extNotified: bool, cursorStale: bool, nameStale: bool, ledStale: bool)

  datatype State = State(
    px: Pixels, ledger: Ledger, notices: Notices, phase: Phase, closed: bool, updating: bool, formatsChanged: bool,
    continuous: bool, area: Region, layoutKnown: bool, caps: Caps, everContinuous: bool)

  function Init(desktop: Picture): State {
    State(Pixels(desktop, {}, None, map[], {}, {}), Ledger(0, 0, 0, 0, 0), Notices(false, false, false, false),
          Quiet, false, false, false, false, {}, true, Caps(false, false, false, false, false, false), false)
  }

  /** What the surroundings decide when updates are processed. */
  datatype Weather = Weather(haveBuffers: bool, throttled: bool, cursorOk: bool)

  /** One side message; `ok` says whether it could be put together. */
  function Answer(l: Ledger, continuous: bool, ok: bool): Ledger {
    if continuous then if ok then l.(sent := l.sent + 1, unsolicited := l.unsolicited + 1) else l
    else if ok then l.(sent := l.sent + 1, pending := l.pending - 1)
    else l.(unanswered := l.unanswered + 1, pending := l.pending - 1)
  }

  /** A client being served, and whether its last request is used up. */
  datatype Turn = Turn(ledger: Ledger, notices: Notices, stop: bool)

  /** A side message that is due takes a request, if there was one left. */
  function Side(t: Turn, continuous: bool, due: bool, ok: bool, after: Notices): Turn {
    if t.stop || !due then t
    else
      var l := Answer(t.ledger, continuous, ok);
      Turn(l, after, !continuous && l.pending <= 0)
  }

  function ExtensionNotice(t: Turn, continuous: bool, caps: Caps): Turn {
    var told := t.notices.(extNotified := true);
    if t.notices.extNotified || caps.ext
    then Side(t, continuous, !t.notices.extNotified, true, told)
    else t.(notices := told)
  }

  /** A cursor that cannot be encoded stays due but costs a request all the same. */
  function CursorUpdate(t: Turn, continuous: bool, caps: Caps, w: Weather): Turn {
    Side(t, continuous, t.notices.cursorStale && caps.cursor, w.cursorOk, t.notices.(cursorStale := !w.cursorOk))
  }

  function NameUpdate(t: Turn, continuous: bool): Turn {
    Side(t, continuous, t.notices.nameStale, true, t.notices.(nameStale := false))
  }

  function LedUpdate(t: Turn, continuous: bool, caps: Caps): Turn {
    Side(t, continuous, t.notices.ledStale && caps.led, true, t.notices.(ledStale := false))
  }

  /** Extension notices, cursor, desktop name and LED state go first, while requests last. */
  function SideMessages(s: State, w: Weather): Turn {
    var a := ExtensionNotice(Turn(s.ledger, s.notices, false), s.continuous, s.caps);
    var b := CursorUpdate(a, s.continuous, s.caps, w);
    var c := NameUpdate(b, s.continuous);
    LedUpdate(c, s.continuous, s.caps)
  }

  function HasDamage(s: State): bool {
    s.px.damage != {} && (s.continuous ==> s.px.damage * s.area != {})
  }

  function StartUpdate(s: State): State {
    s.(px := TakeFrame(s.px), phase := Compositing, updating := true, formatsChanged := false)
  }

  /** `process_fb_update_requests` */
  function Process(s: State, w: Weather): State {
    if s.closed || !w.haveBuffers || s.updating || (!s.continuous && s.ledger.pending == 0) then s
    else
      var turn := SideMessages(s, w);
      var t := s.(ledger := turn.ledger, notices := turn.notices);
      if turn.stop || !HasDamage(t) || w.throttled then t else StartUpdate(t)
  }

  /** `complete_fb_update` up to the call that processes further updates. */
  function Complete(s: State): State {
    if !s.updating then s else s.(updating := false, phase := Quiet)
  }

  datatype EncoderStart = NoEncoder | EncodeFailed | Started

  function CompositingDone(s: State, r: EncoderStart): State {
    var l := s.ledger;
    match r
    case NoEncoder => s.(phase := Stranded)
    case EncodeFailed => s.(px := Lose(s.px), phase := Quiet, updating := false, formatsChanged := false)
    case Started =>
      s.(phase := Encoding,
         ledger := if l.pending > 0 then l.(pending := l.pending - 1) else l.(unsolicited := l.unsolicited + 1))
  }

  /** The frame is dropped because the client changed formats meanwhile. */
  predicate Drops(s: State) { s.formatsChanged && !s.caps.fence }

  predicate CannotResize(s: State) {
    !s.layoutKnown && !s.caps.desktopSize && !s.caps.extDesktopSize
  }

  /** The message goes to the send queue, or the stream refuses it. */
  function SendUpdate(s: State, covered: Region, sendOk: bool): State
    requires s.px.flight.Some?
  {
    var l := s.ledger;
    if sendOk then s.(px := Deliver(s.px, covered), ledger := l.(sent := l.sent + 1), phase := Writing)
    else Complete(s.(px := Lose(s.px), ledger := l.(unanswered := l.unanswered + 1)))
  }

  /** `finish_fb_update` */
  function FinishUpdate(s: State, covered: Region, sendOk: bool): State
    requires s.px.flight.Some?
  {
    var l := s.ledger;
    if s.closed then Complete(s.(px := Lose(s.px), ledger := l.(unanswered := l.unanswered + 1)))
    else if Drops(s) then Complete(s.(px := Lose(s.px), ledger := l.(pending := l.pending + 1)))
    else if CannotResize(s) then
      Complete(s.(px := Lose(s.px), ledger := l.(unanswered := l.unanswered + 1), closed := true))
    else SendUpdate(if s.layoutKnown then s else s.(px := DamageAll(s.px), layoutKnown := true), covered, sendOk)
  }

  /** `on_client_fb_update_request` up to the call that processes it. */
  function TakeRequest(s: State, incremental: bool, rect: Region): State {
    var l := s.ledger;
    if incremental && s.continuous then s
    else
      var t := s.(ledger := l.(received := l.received + 1, pending := l.pending + 1));
      if incremental then t
      else t.(px := AskFor(t.px, rect), layoutKnown := t.layoutKnown && !t.caps.extDesktopSize)
  }

  /**
    The atomic steps. Handlers that go on to process updates do so by a `Poll` right after
    their own step; since the theorems allow a `Poll` anywhere, they cover this too.
   */
  datatype Event =
    | Poll(w: Weather)
    | FeedFrame(picture: Picture, damage: Region)
    | Request(incremental: bool, rect: Region)
    | Composited(r: EncoderStart)
    | Encoded(covered: Region, sendOk: bool)
    | Written
    | SetFormats(caps: Caps)
    | SetContinuous(on: bool, area: Region)
    | SetCursor
    | SetName
    | SetLeds
    | Close

  /** What the surroundings may do when. Frame damage covers every pixel that changed. */
  ghost predicate Enabled(s: State, e: Event) {
    match e
    case FeedFrame(picture, damage) =>
      && picture.Keys == Screen(s.px)
      && forall p :: p in picture && picture[p] != s.px.desktop[p] ==> p in damage
    case Request(_, _) => !s.closed
    case Composited(_) => s.phase.Compositing?
    case Encoded(covered, _) => s.phase.Encoding? && s.px.flight.Some? && InFlight(s.px) <= covered <= Screen(s.px)
    case Written => s.phase.Writing?
    case SetFormats(_) => !s.closed
    case SetContinuous(_, _) => !s.closed
    case _ => true
  }

  function Next(s: State, e: Event): State
    requires e.Encoded? ==> s.px.flight.Some?
  {
    match e
    case Poll(w) => Process(s, w)
    case FeedFrame(picture, damage) =>
      s.(px := if s.closed then s.px.(desktop := picture) else FeedDesktop(s.px, picture, damage))
    case Request(incremental, rect) => TakeRequest(s, incremental, rect)
    case Composited(r) => CompositingDone(s, r)
    case Encoded(covered, sendOk) => FinishUpdate(s, covered, sendOk)
    case Written => Complete(s)
    case SetFormats(caps) => s.(caps := caps, formatsChanged := true)
    case SetContinuous(on, area) =>
      if on then s.(continuous := true, area := area, everContinuous := true) else s.(continuous := false, area := {})
    case SetCursor => s.(notices := s.notices.(cursorStale := true))
    case SetName => s.(notices := s.notices.(nameStale := true))
    case SetLeds => s.(notices := s.notices.(ledStale := true))
    case Close => s.(closed := true)
  }

  // ---------------------------------------------------------------- every step keeps the invariant

  ghost predicate Inv(s: State) {
    && (s.updating <==> !s.phase.Quiet?)
    && (s.px.flight.Some? <==> s.phase.Compositing? || s.phase.Encoding? || s.phase.Stranded?)
    && (!s.closed ==> Agrees(s.px))
    && Balanced(s.ledger, s.phase)
    && (!s.everContinuous ==>
          !s.continuous && s.ledger.unsolicited == 0 && (s.phase.Compositing? ==> s.ledger.pending > 0))
  }

  /** Side messages spend requests, at most as many as there are. */
  ghost predicate Served(l: Ledger, t: Turn, continuous: bool) {
    && Balanced(t.ledger, Quiet)
    && (!t.stop && !continuous ==> t.ledger.pending > 0)
    && (!continuous ==> t.ledger.unsolicited == l.unsolicited)
    && t.ledger.received == l.received
  }

  lemma SideServes(l: Ledger, t: Turn, continuous: bool, due: bool, ok: bool, after: Notices)
    requires Served(l, t, continuous)
    ensures Served(l, Side(t, continuous, due, ok, after), continuous)
  {
  }

  lemma SideMessagesServe(s: State, w: Weather)
    requires Balanced(s.ledger, Quiet) && (s.continuous || s.ledger.pending > 0)
    ensures Served(s.ledger, SideMessages(s, w), s.continuous)
  {
    var t := Turn(s.ledger, s.notices, false);
    SideServes(s.ledger, t, s.continuous, !s.notices.extNotified, true, s.notices.(extNotified := true));
    var a := ExtensionNotice(t, s.continuous, s.caps);
    SideServes(s.ledger, a, s.continuous, a.notices.cursorStale && s.caps.cursor, w.cursorOk, a.notices.(cursorStale := !w.cursorOk));
    var b := CursorUpdate(a, s.continuous, s.caps, w);
    SideServes(s.ledger, b, s.continuous, b.notices.nameStale, true, b.notices.(nameStale := false));
    var c := NameUpdate(b, s.continuous);
    SideServes(s.ledger, c, s.continuous, c.notices.ledStale && s.caps.led, true, c.notices.(ledStale := false));
  }

  lemma ProcessKeeps(s: State, w: Weather)
    requires Inv(s)
    ensures Inv(Process(s, w))
  {
    if !(s.closed || !w.haveBuffers || s.updating || (!s.continuous && s.ledger.pending == 0)) {
      SideMessagesServe(s, w);
      TakeFrameAgrees(s.px);
    }
  }

  lemma SendKeeps(s: State, covered: Region, sendOk: bool)
    requires Inv(s) && !s.closed && Enabled(s, Encoded(covered, sendOk))
    ensures Inv(SendUpdate(s, covered, sendOk))
  {
    if sendOk {
      DeliverAgrees(s.px, covered);
    } else {
      LoseAgrees(s.px);
    }
  }

  lemma FinishKeeps(s: State, covered: Region, sendOk: bool)
    requires Inv(s) && Enabled(s, Encoded(covered, sendOk))
    ensures Inv(FinishUpdate(s, covered, sendOk))
  {
    if !s.closed {
      LoseAgrees(s.px);
      if !Drops(s) && !CannotResize(s) {
        if s.layoutKnown {
          SendKeeps(s, covered, sendOk);
        } else {
          DamageAllAgrees(s.px);
          SendKeeps(s.(px := DamageAll(s.px), layoutKnown := true), covered, sendOk);
        }
      }
    }
  }

  lemma RequestKeeps(s: State, incremental: bool, rect: Region)
    requires Inv(s) && !s.closed
    ensures Inv(TakeRequest(s, incremental, rect))
  {
    AskAgrees(s.px, rect);
  }

  lemma CompositedKeeps(s: State, r: EncoderStart)
    requires Inv(s) && s.phase.Compositing?
    ensures Inv(CompositingDone(s, r))
  {
    if !s.closed {
      LoseAgrees(s.px);
    }
  }

  lemma StepKeeps(s: State, e: Event)
    requires Inv(s) && Enabled(s, e)
    ensures Inv(Next(s, e))
  {
    match e
    case Poll(w) => ProcessKeeps(s, w);
    case FeedFrame(picture, damage) =>
      if !s.closed {
        FeedAgrees(s.px, picture, damage);
      }
    case Request(incremental, rect) => RequestKeeps(s, incremental, rect);
    case Composited(r) => CompositedKeeps(s, r);
    case Encoded(covered, sendOk) => FinishKeeps(s, covered, sendOk);
    case _ =>
  }

  // ---------------------------------------------------------------- results over all runs

  /** The state after a list of events, if each was possible when it came. */
  ghost function After(desktop: Picture, es: seq<Event>): Option<State> {
    if es == [] then Some(Init(desktop))
    else
      match After(desktop, es[..|es| - 1])
      case None => None
      case Some(s) => if Enabled(s, es[|es| - 1]) then Some(Next(s, es[|es| - 1])) else None
  }

  lemma {:induction false} RunsKeep(desktop: Picture, es: seq<Event>)
    requires After(desktop, es).Some?
    ensures Inv(After(desktop, es).value)
  {
    if es != [] {
      RunsKeep(desktop, es[..|es| - 1]);
      StepKeeps(After(desktop, es[..|es| - 1]).value, es[|es| - 1]);
    }
  }

  /**
    In every run, while the connection is open, a pixel the client was sent is current
    unless it is recorded as damaged, on its way, or lost; and a pixel on its way is
    current unless it was damaged again.
   */
  lemma {:induction false} ClientIsCurrent(desktop: Picture, es: seq<Event>, p: Point)
    requires After(desktop, es).Some? && !After(desktop, es).value.closed
    ensures var px := After(desktop, es).value.px;
      && (p in px.shown ==>
            p in px.desktop && (p in px.damage || p in InFlight(px) || p in px.lost || px.shown[p] == px.desktop[p]))
      && (p in InFlight(px) ==>
            p in px.desktop && p in px.flight.value.picture
            && (p in px.damage || px.flight.value.picture[p] == px.desktop[p]))
  {
    RunsKeep(desktop, es);
    assert AgreesAt(After(desktop, es).value.px, p);
  }

  /** Once nothing is damaged, on its way or lost, all that was asked for is shown as it is. */
  lemma {:induction false} SettledClientShowsDesktop(desktop: Picture, es: seq<Event>, p: Point)
    requires After(desktop, es).Some? && !After(desktop, es).value.closed
    requires var px := After(desktop, es).value.px; px.damage == {} && InFlight(px) == {} && px.lost == {}
    requires p in After(desktop, es).value.px.asked
    ensures var px := After(desktop, es).value.px;
      p in px.shown && p in px.desktop && px.shown[p] == px.desktop[p]
  {
    RunsKeep(desktop, es);
    assert AgreesAt(After(desktop, es).value.px, p);
  }

  /** Requests are conserved; without continuous updates nothing is sent unasked. */
  lemma {:induction false} RequestsAreConserved(desktop: Picture, es: seq<Event>)
    requires After(desktop, es).Some?
    ensures var s := After(desktop, es).value;
      && s.ledger.pending >= 0
      && s.ledger.received + s.ledger.unsolicited
         == s.ledger.sent + s.ledger.pending + s.ledger.unanswered + (if s.phase.Encoding? then 1 else 0)
      && (!s.everContinuous ==> s.ledger.unsolicited == 0 && s.ledger.sent <= s.ledger.received)
  {
    RunsKeep(desktop, es);
  }

  // ---------------------------------------------------------------- when damage is lost

  /** The event takes a frame off its way without sending it. */
  predicate Leaks(s: State, e: Event) {
    match e
    case Composited(r) => r.EncodeFailed?
    case Encoded(_, sendOk) => Drops(s) || CannotResize(s) || !sendOk
    case _ => false
  }

  /** Nothing is refused, cannot be encoded or meets a closed connection. */
  predicate Faultless(s: State, e: Event) {
    match e
    case Poll(w) => w.cursorOk
    case Composited(_) => !Leaks(s, e)
    case Encoded(_, _) => !Leaks(s, e) && !s.closed
    case _ => true
  }

  ghost predicate FaultlessRun(desktop: Picture, es: seq<Event>) {
    es == [] ||
    (FaultlessRun(desktop, es[..|es| - 1]) && After(desktop, es[..|es| - 1]).Some?
     && Faultless(After(desktop, es[..|es| - 1]).value, es[|es| - 1]))
  }

  lemma FaultlessMessages(s: State, w: Weather)
    requires w.cursorOk && s.ledger.unanswered == 0
    ensures SideMessages(s, w).ledger.unanswered == 0
  {
    var a := ExtensionNotice(Turn(s.ledger, s.notices, false), s.continuous, s.caps);
    var b := CursorUpdate(a, s.continuous, s.caps, w);
    var c := NameUpdate(b, s.continuous);
    assert c.ledger.unanswered == 0;
  }

  lemma {:induction false} FaultlessStep(s: State, e: Event)
    requires Inv(s) && Enabled(s, e) && Faultless(s, e)
    requires s.px.lost == {} && s.ledger.unanswered == 0
    ensures Next(s, e).px.lost == {} && Next(s, e).ledger.unanswered == 0
  {
    if e.Poll? {
      FaultlessMessages(s, e.w);
    }
  }

  /**
    Without faults no damage is ever lost, and without continuous updates every request
    is answered, waiting, or the one being encoded.
   */
  lemma {:induction false} FaultlessRunsLoseNothing(desktop: Picture, es: seq<Event>)
    requires After(desktop, es).Some? && FaultlessRun(desktop, es)
    ensures var s := After(desktop, es).value;
      && s.px.lost == {}
      && (!s.everContinuous ==>
            s.ledger.received == s.ledger.sent + s.ledger.pending + if s.phase.Encoding? then 1 else 0)
    ensures After(desktop, es).value.ledger.unanswered == 0
  {
    RunsKeep(desktop, es);
    if es != [] {
      FaultlessRunsLoseNothing(desktop, es[..|es| - 1]);
      RunsKeep(desktop, es[..|es| - 1]);
      FaultlessStep(After(desktop, es[..|es| - 1]).value, es[|es| - 1]);
    }
  }
}
