/** The client object of the server, with the handlers that move framebuffer updates along. */
module FbClient {
  import opened Common
  import opened FbUpdate

  class Client {
    var px: Pixels
    var ledger: Ledger
    var notices: Notices
    ghost var phase: Phase
    var closed: bool
    var isUpdating: bool
    var formatsChanged: bool
    var continuous: bool
    var area: Region
    var layoutKnown: bool
    var caps: Caps
    ghost var everContinuous: bool

    ghost function View(): State
      reads this
    {
      State(px, ledger, notices, phase, closed, isUpdating, formatsChanged,
            continuous, area, layoutKnown, caps, everContinuous)
    }

    constructor (desktop: Picture)
      ensures View() == Init(desktop)
    {
      px := Pixels(desktop, {}, None, map[], {}, {});
      ledger, notices := Ledger(0, 0, 0, 0, 0), Notices(false, false, false, false);
      phase, closed, isUpdating, formatsChanged := Quiet, false, false, false;
      continuous, area, layoutKnown := false, {}, true;
      caps, everContinuous := Caps(false, false, false, false, false, false), false;
    }

    method DecrementPendingRequests() returns (left: int)
      modifies this`ledger
      ensures ledger == old(ledger).(pending := old(ledger).pending - (if continuous then 0 else 1))
      ensures left == if continuous then 1 else ledger.pending
    {
      if continuous {
        return 1;
      }
      ledger := ledger.(pending := ledger.pending - 1);
      return ledger.pending;
    }

    /** An update message without pixels goes out (or fails to) and a request is taken for it. */
    method SendSideMessage(ok: bool) returns (stop: bool)
      modifies this`ledger
      ensures ledger == Answer(old(ledger), continuous, ok)
      ensures stop == (!continuous && ledger.pending <= 0)
    {
      if ok {
        ledger := ledger.(sent := ledger.sent + 1,
                          unsolicited := if continuous then ledger.unsolicited + 1 else ledger.unsolicited);
      } else if !continuous {
        ledger := ledger.(unanswered := ledger.unanswered + 1);
      }
      var left := DecrementPendingRequests();
      stop := left <= 0;
    }

    method TellExtensions() returns (stop: bool)
      modifies this`ledger, this`notices
      ensures Turn(ledger, notices, stop) == ExtensionNotice(Turn(old(ledger), old(notices), false), continuous, caps)
    {
      stop := false;
      if !notices.extNotified {
        notices := notices.(extNotified := true);
        if caps.ext {
          stop := SendSideMessage(true);
        }
      }
    }

    method TellCursor(w: Weather) returns (stop: bool)
      modifies this`ledger, this`notices
      ensures Turn(ledger, notices, stop) == CursorUpdate(Turn(old(ledger), old(notices), false), continuous, caps, w)
    {
      stop := false;
      if notices.cursorStale && caps.cursor {
        notices := notices.(cursorStale := !w.cursorOk);
        stop := SendSideMessage(w.cursorOk);
      }
    }

    method TellName() returns (stop: bool)
      modifies this`ledger, this`notices
      ensures Turn(ledger, notices, stop) == NameUpdate(Turn(old(ledger), old(notices), false), continuous)
    {
      stop := false;
      if notices.nameStale {
        notices := notices.(nameStale := false);
        stop := SendSideMessage(true);
      }
    }

    method TellLeds() returns (stop: bool)
      modifies this`ledger, this`notices
      ensures Turn(ledger, notices, stop) == LedUpdate(Turn(old(ledger), old(notices), false), continuous, caps)
    {
      stop := false;
      if notices.ledStale && caps.led {
        notices := notices.(ledStale := false);
        stop := SendSideMessage(true);
      }
    }

    /** The part of `process_fb_update_requests` that sends everything but pixels. */
    method ServeNotices(w: Weather) returns (stop: bool)
      modifies this`ledger, this`notices
      ensures Turn(ledger, notices, stop) == SideMessages(old(View()), w)
    {
      stop := TellExtensions();
      if stop {
        return;
      }
      stop := TellCursor(w);
      if stop {
        return;
      }
      stop := TellName();
      if stop {
        return;
      }
      stop := TellLeds();
    }

    method ClientHasDamage() returns (r: bool)
      ensures r == HasDamage(View())
    {
      if px.damage == {} {
        return false;
      }
      if !continuous {
        return true;
      }
      return px.damage * area != {};
    }

    /** `process_fb_update_requests` */
    method ProcessFbUpdateRequests(w: Weather)
      modifies this
      ensures View() == Next(old(View()), Poll(w))
    {
      if closed || !w.haveBuffers || isUpdating || (!continuous && ledger.pending == 0) {
        return;
      }
      var stop := ServeNotices(w);
      if stop {
        return;
      }
      var hasDamage := ClientHasDamage();
      if !hasDamage || w.throttled {
        return;
      }
      StartUpdate();
    }

    /** The damage is exchanged for an empty one and the frame goes to the compositor. */
    method StartUpdate()
      modifies this
      ensures View() == FbUpdate.StartUpdate(old(View()))
    {
      var region := px.damage;
      px := px.(damage := {});
      isUpdating := true;
      formatsChanged := false;
      region := region * px.desktop.Keys;
      px := px.(flight := Some(Taken(px.desktop, region)));
      phase := Compositing;
    }

    /** `on_client_fb_update_request` */
    method OnClientFbUpdateRequest(incremental: bool, x: int, y: int, width: nat, height: nat, w: Weather)
      requires !closed
      modifies this
      ensures var request := Request(incremental, RectPoints(x, y, width, height));
        View() == if incremental && old(continuous) then Next(old(View()), request)
                  else Next(Next(old(View()), request), Poll(w))
    {
      if incremental && continuous {
        return;
      }
      AdmitRequest(incremental, RectPoints(x, y, width, height));
      ProcessFbUpdateRequests(w);
    }

    method AdmitRequest(incremental: bool, rect: Region)
      requires !(incremental && continuous)
      modifies this
      ensures View() == TakeRequest(old(View()), incremental, rect)
    {
      ledger := ledger.(received := ledger.received + 1, pending := ledger.pending + 1);
      if !incremental {
        px := px.(damage := px.damage + rect, asked := px.asked + rect * px.desktop.Keys);
        if caps.extDesktopSize {
          layoutKnown := false;
        }
      }
    }

    /** `on_compositing_done` */
    method OnCompositingDone(r: EncoderStart)
      requires phase.Compositing?
      modifies this
      ensures View() == Next(old(View()), Composited(r))
    {
      if r.NoEncoder? {
        phase := Stranded;
      } else if r.Started? {
        if ledger.pending > 0 {
          ledger := ledger.(pending := ledger.pending - 1);
        } else {
          ledger := ledger.(unsolicited := ledger.unsolicited + 1);
        }
        phase := Encoding;
      } else {
        px := Lose(px);
        isUpdating := false;
        formatsChanged := false;
        phase := Quiet;
      }
    }

    /** `complete_fb_update` */
    method CompleteFbUpdate(w: Weather)
      requires isUpdating
      modifies this
      ensures View() == Next(Complete(old(View())), Poll(w))
    {
      isUpdating := false;
      phase := Quiet;
      ProcessFbUpdateRequests(w);
    }

    /** `finish_fb_update`, called when the encoder is done; a refused or dropped frame completes at once. */
    method FinishFbUpdate(covered: Region, sendOk: bool, w: Weather)
      requires px.flight.Some? && isUpdating
      modifies this
      ensures var done := Next(old(View()), Encoded(covered, sendOk));
        View() == if done.updating then done else Next(done, Poll(w))
    {
      SettleFrame(covered, sendOk);
      if !isUpdating {
        ProcessFbUpdateRequests(w);
      }
    }

    /** The decisions of `finish_fb_update`, in its order. */
    method SettleFrame(covered: Region, sendOk: bool)
      requires px.flight.Some? && isUpdating
      modifies this
      ensures View() == FinishUpdate(old(View()), covered, sendOk)
    {
      if closed {
        DropFrame(ledger.(unanswered := ledger.unanswered + 1));
        return;
      }
      if formatsChanged && !caps.fence {
        DropFrame(ledger.(pending := ledger.pending + 1));
        return;
      }
      if !layoutKnown {
        if !caps.desktopSize && !caps.extDesktopSize {
          closed := true;
          DropFrame(ledger.(unanswered := ledger.unanswered + 1));
          return;
        }
        px := px.(damage := px.desktop.Keys, asked := px.desktop.Keys);
        layoutKnown := true;
      }
      SendFrame(covered, sendOk);
    }

    method DropFrame(after: Ledger)
      requires isUpdating
      modifies this
      ensures View() == Complete(old(View()).(px := Lose(old(px)), ledger := after))
    {
      px := Lose(px);
      ledger := after;
      isUpdating := false;
      phase := Quiet;
    }

    /** The part of `finish_fb_update` that writes to the stream. */
    method SendFrame(covered: Region, sendOk: bool)
      requires px.flight.Some? && isUpdating
      modifies this
      ensures View() == SendUpdate(old(View()), covered, sendOk)
    {
      if sendOk {
        px := Deliver(px, covered);
        ledger := ledger.(sent := ledger.sent + 1);
        phase := Writing;
      } else {
        DropFrame(ledger.(unanswered := ledger.unanswered + 1));
      }
    }

    /** `on_write_frame_done` */
    method OnWriteFrameDone(w: Weather)
      requires phase.Writing? && isUpdating
      modifies this
      ensures View() == Next(Next(old(View()), Written), Poll(w))
    {
      CompleteFbUpdate(w);
    }

    /** A display is fed a frame and `nvnc__damage_region` reaches this client. */
    method DamageRegion(picture: Picture, region: Region, w: Weather)
      modifies this
      ensures View() == Next(Next(old(View()), FeedFrame(picture, region)), Poll(w))
    {
      if !closed {
        px := px.(damage := px.damage + region, asked := px.asked + region * px.desktop.Keys);
      }
      px := px.(desktop := picture);
      ProcessFbUpdateRequests(w);
    }

    /** `on_client_set_encodings` and `on_client_set_pixel_format` */
    method OnSetFormats(caps: Caps)
      modifies this
      ensures View() == Next(old(View()), SetFormats(caps))
    {
      this.caps := caps;
      formatsChanged := true;
    }

    /** `on_client_enable_continuous_updates` */
    method OnEnableContinuousUpdates(on: bool, area: Region, w: Weather)
      modifies this
      ensures var switched := Next(old(View()), SetContinuous(on, area));
        View() == if on then Next(switched, Poll(w)) else switched
    {
      continuous := on;
      if on {
        this.area := area;
        everContinuous := true;
        ProcessFbUpdateRequests(w);
      } else {
        this.area := {};
      }
    }
  }
}
