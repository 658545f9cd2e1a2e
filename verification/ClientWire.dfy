/**
  The messages of a client as bytes on the wire, field by field: section 7.5 of RFC 6143 and
  the extensions for continuous updates, fences, desktop sizes, time and QEMU key events.
 */
module ClientWire {
  import opened Common
  import opened ClientMessages

  type Short = x: int | 0 <= x < 0x1_0000
  type Long = x: int | 0 <= x < 0x1_0000_0000

  datatype Area = Area(x: Short, y: Short, width: Short, height: Short)

  datatype PixelFormat = PixelFormat(
    bitsPerPixel: Byte, depth: Byte, bigEndian: Byte, trueColour: Byte,
    redMax: Short, greenMax: Short, blueMax: Short, redShift: Byte, greenShift: Byte, blueShift: Byte)

  datatype Screen = Screen(id: Long, area: Area, flags: Long)

  datatype ClientMessage =
    | SetPixelFormat(format: PixelFormat)
    | SetEncodings(encodings: seq<Long>)
    | UpdateRequest(incremental: Byte, area: Area)
    | KeyEvent(down: Byte, key: Long)
    | PointerEvent(buttons: Byte, x: Short, y: Short)
    | CutText(text: seq<Byte>)
    | EnableContinuousUpdates(on: Byte, area: Area)
    | Ntp(t0: Long, t1: Long, t2: Long, t3: Long)
    | Fence(flags: Long, payload: seq<Byte>)
    | SetDesktopSize(width: Short, height: Short, screens: seq<Screen>)
    | QemuKeyEvent(pressed: Short, keysym: Long, keycode: Long)

  /** Counts fit their fields, and texts and fences the limits of the server. */
  predicate Legal(m: ClientMessage) {
    match m
    case SetEncodings(encodings) => |encodings| < 0x1_0000
    case CutText(text) => |text| <= 10000000
    case Fence(_, payload) => |payload| <= 64
    case SetDesktopSize(_, _, screens) => |screens| < 256
    case _ => true
  }

  // ---------------------------------------------------------------- fields

  function Be16(n: Short): (bs: seq<Byte>)
    ensures |bs| == 2
  {
    [n / 256, n % 256]
  }

  function Be32(n: Long): (bs: seq<Byte>)
    ensures |bs| == 4
  {
    Be16(n / 65536) + Be16(n % 65536)
  }

  function AreaBytes(a: Area): (bs: seq<Byte>)
    ensures |bs| == 8
  {
    Be16(a.x) + Be16(a.y) + Be16(a.width) + Be16(a.height)
  }

  function FormatBytes(f: PixelFormat): (bs: seq<Byte>)
    ensures |bs| == 16
  {
    [f.bitsPerPixel, f.depth, f.bigEndian, f.trueColour] + Be16(f.redMax) + Be16(f.greenMax) + Be16(f.blueMax)
    + [f.redShift, f.greenShift, f.blueShift, 0, 0, 0]
  }

  function EncodingsBytes(es: seq<Long>): (bs: seq<Byte>)
    ensures |bs| == 4 * |es|
  {
    if es == [] then [] else Be32(es[0]) + EncodingsBytes(es[1..])
  }

  function ScreensBytes(ss: seq<Screen>): (bs: seq<Byte>)
    ensures |bs| == 16 * |ss|
  {
    if ss == [] then [] else Be32(ss[0].id) + AreaBytes(ss[0].area) + Be32(ss[0].flags) + ScreensBytes(ss[1..])
  }

  /** The message on the wire. */
  function Wire(m: ClientMessage): seq<Byte>
    requires Legal(m)
  {
    match m
    case SetPixelFormat(format) => [0, 0, 0, 0] + FormatBytes(format)
    case SetEncodings(encodings) => [2, 0] + Be16(|encodings|) + EncodingsBytes(encodings)
    case UpdateRequest(incremental, area) => [3, incremental] + AreaBytes(area)
    case KeyEvent(down, key) => [4, down, 0, 0] + Be32(key)
    case PointerEvent(buttons, x, y) => [5, buttons] + Be16(x) + Be16(y)
    case CutText(text) => [6, 0, 0, 0] + Be32(|text|) + text
    case EnableContinuousUpdates(on, area) => [150, on] + AreaBytes(area)
    case Ntp(t0, t1, t2, t3) => [160, 0, 0, 0] + Be32(t0) + Be32(t1) + Be32(t2) + Be32(t3)
    case Fence(flags, payload) => [248, 0, 0, 0] + Be32(flags) + [|payload|] + payload
    case SetDesktopSize(width, height, screens) =>
      [251, 0] + Be16(width) + Be16(height) + [|screens|, 0] + ScreensBytes(screens)
    case QemuKeyEvent(pressed, keysym, keycode) => [255, 0] + Be16(pressed) + Be32(keysym) + Be32(keycode)
  }

  /** What the application is to see of it. */
  function Seen(m: ClientMessage): Msg
    requires Legal(m)
  {
    match m
    case CutText(text) => Text(text)
    case _ => Other(Wire(m))
  }

  // ---------------------------------------------------------------- each is one message

  lemma ShortComesBack(bs: seq<Byte>, i: nat, n: Short)
    requires i + 2 <= |bs| && bs[i..i + 2] == Be16(n)
    ensures U16(bs, i) == n
  {
    assert bs[i] == bs[i..i + 2][0] && bs[i + 1] == bs[i..i + 2][1];
  }

  lemma LongComesBack(bs: seq<Byte>, i: nat, n: Long)
    requires i + 4 <= |bs| && bs[i..i + 4] == Be32(n)
    ensures U32(bs, i) == n
  {
    assert bs[i..i + 2] == bs[i..i + 4][..2] && bs[i + 2..i + 4] == bs[i..i + 4][2..];
    ShortComesBack(bs, i, n / 65536);
    ShortComesBack(bs, i + 2, n % 65536);
  }

  lemma ListIsOneMessage(m: ClientMessage)
    requires Legal(m) && m.SetEncodings?
    ensures Judge(Wire(m)) == Whole(4 + 4 * |m.encodings|) && |Wire(m)| == 4 + 4 * |m.encodings|
  {
    var w := Wire(m);
    assert w[2..4] == Be16(|m.encodings|);
    ShortComesBack(w, 2, |m.encodings|);
  }

  lemma TextIsOneMessage(m: ClientMessage)
    requires Legal(m) && m.CutText?
    ensures Judge(Wire(m)) == Whole(8 + |m.text|) && |Wire(m)| == 8 + |m.text|
    ensures Deliver(Wire(m)) == Text(m.text)
  {
    var w := Wire(m);
    assert w[4..8] == Be32(|m.text|);
    LongComesBack(w, 4, |m.text|);
    assert w[8..] == m.text;
  }

  lemma CountedAreMessages(m: ClientMessage)
    requires Legal(m)
    ensures m.Fence? ==> Judge(Wire(m)) == Whole(9 + |m.payload|) && |Wire(m)| == 9 + |m.payload|
    ensures m.SetDesktopSize? ==> Judge(Wire(m)) == Whole(8 + 16 * |m.screens|) && |Wire(m)| == 8 + 16 * |m.screens|
  {
    var w := Wire(m);
    if m.Fence? {
      assert w[8] == |m.payload|;
    } else if m.SetDesktopSize? {
      assert w[6] == |m.screens|;
    }
  }

  lemma FixedAreMessages(m: ClientMessage)
    requires Legal(m)
    ensures m.SetPixelFormat? ==> Judge(Wire(m)) == Whole(20) && |Wire(m)| == 20
    ensures m.UpdateRequest? ==> Judge(Wire(m)) == Whole(10) && |Wire(m)| == 10
    ensures m.KeyEvent? ==> Judge(Wire(m)) == Whole(8) && |Wire(m)| == 8
    ensures m.PointerEvent? ==> Judge(Wire(m)) == Whole(6) && |Wire(m)| == 6
    ensures m.EnableContinuousUpdates? ==> Judge(Wire(m)) == Whole(10) && |Wire(m)| == 10
    ensures m.Ntp? ==> Judge(Wire(m)) == Whole(20) && |Wire(m)| == 20
    ensures m.QemuKeyEvent? ==> Judge(Wire(m)) == Whole(12) && |Wire(m)| == 12
  {
  }

  /** Every message, of whatever type, is judged to be as long as it is, and is delivered as it is. */
  lemma WireIsOneMessage(m: ClientMessage)
    requires Legal(m)
    ensures Judge(Wire(m)) == Whole(|Wire(m)|) && Deliver(Wire(m)) == Seen(m)
    ensures IsLongList(Wire(m)) <==> m.SetEncodings? && |m.encodings| > 1023
  {
    match m {
      case SetEncodings(encodings) =>
        ListIsOneMessage(m);
        assert Wire(m)[2..4] == Be16(|encodings|);
        ShortComesBack(Wire(m), 2, |encodings|);
      case CutText(_) => TextIsOneMessage(m);
      case Fence(_, _) => CountedAreMessages(m);
      case SetDesktopSize(_, _, _) => CountedAreMessages(m);
      case _ => FixedAreMessages(m);
    }
  }

  /** No proper beginning of a message is taken for a message, or refused. */
  lemma {:induction false} BeginningsWait(m: ClientMessage, n: nat)
    requires Legal(m) && n < |Wire(m)|
    ensures Judge(Wire(m)[..n]) == More
  {
    WireIsOneMessage(m);
    var w := Wire(m);
    assert w[..n] + w[n..] == w;
    if Judge(w[..n]) != More {
      JudgeIsStable(w[..n], w[n..]);
      if Judge(w[..n]).Whole? {
        WholeIsThere(w[..n]);
      }
      assert false;
    }
  }

  // ---------------------------------------------------------------- runs

  function Wires(ms: seq<ClientMessage>): (ws: seq<seq<Byte>>)
    requires forall i :: 0 <= i < |ms| ==> Legal(ms[i])
    ensures |ws| == |ms|
  {
    seq(|ms|, i requires 0 <= i < |ms| => Wire(ms[i]))
  }

  /** A run that read these messages, in whatever pieces, has delivered exactly them, in order. */
  lemma {:induction false} MessagesAreDelivered(ms: seq<ClientMessage>, chunks: seq<seq<Byte>>)
    requires forall i :: 0 <= i < |ms| ==> Legal(ms[i])
    requires After(chunks).Some? && Concat(chunks) == Concat(Wires(ms))
    ensures var s := After(chunks).value;
      && |s.out| == |ms| && (forall i :: 0 <= i < |ms| ==> s.out[i] == Seen(ms[i]))
      && !s.closed && Pending(s) == []
  {
    var ws := Wires(ms);
    forall i | 0 <= i < |ms| ensures Judge(ws[i]) == Whole(|ws[i]|) && Deliver(ws[i]) == Seen(ms[i]) {
      WireIsOneMessage(ms[i]);
    }
    FragmentationDoesNotMatter(chunks);
    assert Concat(ws) + [] == Concat(ws);
    MessagesComeBack(ws, []);
  }

  /** Up to the last byte of such messages, without a long list among them, reading goes on. */
  lemma {:induction false} MessagesKeepComing(ms: seq<ClientMessage>, chunks: seq<seq<Byte>>, more: seq<Byte>)
    requires forall i :: 0 <= i < |ms| ==> Legal(ms[i]) && (ms[i].SetEncodings? ==> |ms[i].encodings| <= 1023)
    requires After(chunks).Some? && Concat(chunks) + more == Concat(Wires(ms))
    ensures var s := After(chunks).value; !s.closed && !s.hungUp && Space(s) > 0
  {
    var ws := Wires(ms);
    forall i | 0 <= i < |ms| ensures IsMessage(ws[i]) && !IsLongList(ws[i]) {
      WireIsOneMessage(ms[i]);
    }
    ReadingNeverStops(ws, chunks, more);
  }

  /** A type that no client message has, or a size over one of the server's limits. */
  predicate GoesTooFar(bs: seq<Byte>)
    requires bs != []
  {
    if bs[0] == 6 then |bs| >= 8 && U32(bs, 4) > 10000000
    else if bs[0] == 248 then |bs| >= 9 && bs[8] > 64 && |bs| >= 9 + bs[8] as int
    else if bs[0] == 255 then |bs| >= 2 && bs[1] != 0
    else bs[0] !in {0, 2, 3, 4, 5, 150, 160, 251}
  }

  lemma RefusedIff(bs: seq<Byte>)
    ensures Judge(bs) == Bad <==> (bs != [] && GoesTooFar(bs))
  {
  }
}
