/**
  How the bytes a client sends become messages: a fixed buffer, parsed greedily, and a
  separate path for clipboard texts that are not in the buffer as a whole.
 */
module ClientMessages {
  import opened Common

  // ---------------------------------------------------------------- single messages

  function U16(bs: seq<Byte>, i: nat): nat
    requires i + 2 <= |bs|
  {
    (bs[i] as int) * 256 + bs[i + 1]
  }

  function U32(bs: seq<Byte>, i: nat): nat
    requires i + 4 <= |bs|
  {
    U16(bs, i) * 65536 + U16(bs, i + 2)
  }

  /** What the first bytes of the input say about the message they begin. */
  datatype Verdict = More | Bad | Whole(size: nat)

  function Fixed(bs: seq<Byte>, size: nat): Verdict { if |bs| < size then More else Whole(size) }

  /** A message that is a header and `n` items of `unit` bytes. */
  function Counted(bs: seq<Byte>, header: nat, n: nat, unit: nat): Verdict {
    if |bs| < header + n * unit then More else Whole(header + n * unit)
  }

  /** ClientCutText (6) with at least its header present. */
  predicate IsCutText(bs: seq<Byte>) { |bs| >= 8 && bs[0] == 6 }

  function Judge(bs: seq<Byte>): Verdict {
    if |bs| < 1 then More
    else match bs[0]
      case 0 => Fixed(bs, 20)
      case 2 => if |bs| < 4 then More else Counted(bs, 4, U16(bs, 2), 4)
      case 3 => Fixed(bs, 10)
      case 4 => Fixed(bs, 8)
      case 5 => Fixed(bs, 6)
      case 6 =>
        if |bs| < 8 then More
        else if U32(bs, 4) > 10000000 then Bad
        else Fixed(bs, 8 + U32(bs, 4))
      case 150 => Fixed(bs, 10)
      case 160 => Fixed(bs, 20)
      case 248 =>
        if |bs| < 9 then More
        else
          var n: int := bs[8];
          if |bs| < 9 + n then More else if n > 64 then Bad else Whole(9 + n)
      case 251 => if |bs| < 8 then More else Counted(bs, 8, bs[6], 16)
      case 255 => if |bs| < 2 then More else if bs[1] == 0 then Fixed(bs, 12) else Bad
      case _ => Bad
  }

  /** What the application sees of a message: the text alone, or the message. */
  datatype Msg = Text(text: seq<Byte>) | Other(bytes: seq<Byte>)

  function Deliver(m: seq<Byte>): Msg {
    if IsCutText(m) then Text(m[8..]) else Other(m)
  }

  lemma WholeIsThere(bs: seq<Byte>)
    ensures Judge(bs).Whole? ==> 0 < Judge(bs).size <= |bs|
  {
  }

  /** A verdict other than `More` does not depend on what follows. */
  lemma JudgeIsStable(bs: seq<Byte>, more: seq<Byte>)
    requires Judge(bs) != More
    ensures Judge(bs + more) == Judge(bs)
  {
    var cs := bs + more;
    assert forall i :: 0 <= i < |bs| ==> cs[i] == bs[i];
    assert cs[0] == bs[0];
  }

  // ---------------------------------------------------------------- the reference

  datatype Parsed = Parsed(msgs: seq<Msg>, rest: seq<Byte>, bad: bool)

  /** All messages of a string of bytes, what is left over, and whether that is hopeless. */
  function ParseAll(bs: seq<Byte>): Parsed
    decreases |bs|
  {
    match Judge(bs)
    case More => Parsed([], bs, false)
    case Bad => Parsed([], bs, true)
    case Whole(n) =>
      WholeIsThere(bs);
      var p := ParseAll(bs[n..]);
      p.(msgs := [Deliver(bs[..n])] + p.msgs)
  }

  /** A first message is split off, whatever follows it. */
  lemma ParseFirst(bs: seq<Byte>, more: seq<Byte>)
    requires Judge(bs).Whole?
    ensures var n := Judge(bs).size;
      0 < n <= |bs|
      && var p, q := ParseAll(bs[n..] + more), ParseAll(bs + more);
        q.msgs == [Deliver(bs[..n])] + p.msgs && q.rest == p.rest && q.bad == p.bad
  {
    WholeIsThere(bs);
    JudgeIsStable(bs, more);
    var n := Judge(bs).size;
    assert (bs + more)[..n] == bs[..n] && (bs + more)[n..] == bs[n..] + more;
  }

  /** Parsing goes on where it stopped when more bytes arrive. */
  lemma {:induction false} ParseMore(bs: seq<Byte>, more: seq<Byte>)
    ensures var p := ParseAll(bs); var q := ParseAll(p.rest + more); var r := ParseAll(bs + more);
      r.msgs == p.msgs + q.msgs && r.rest == q.rest && r.bad == q.bad
    decreases |bs|
  {
    if Judge(bs).Whole? {
      var n := Judge(bs).size;
      ParseFirst(bs, more);
      ParseFirst(bs, []);
      assert bs + [] == bs && bs[n..] + [] == bs[n..];
      ParseMore(bs[n..], more);
      var p := ParseAll(bs[n..]);
      Assoc([Deliver(bs[..n])], p.msgs, ParseAll(p.rest + more).msgs);
    }
  }

  /** Messages put one after the other are parsed as those messages. */
  lemma {:induction false} MessagesComeBack(ms: seq<seq<Byte>>, tail: seq<Byte>)
    requires forall i :: 0 <= i < |ms| ==> Judge(ms[i]) == Whole(|ms[i]|)
    ensures var p, q := ParseAll(Concat(ms) + tail), ParseAll(tail);
      && |p.msgs| == |ms| + |q.msgs| && p.msgs[|ms|..] == q.msgs
      && (forall i :: 0 <= i < |ms| ==> p.msgs[i] == Deliver(ms[i]))
      && p.rest == q.rest && p.bad == q.bad
    decreases |ms|
  {
    if ms == [] {
      assert Concat(ms) + tail == tail;
    } else {
      var m, rest := ms[0], Concat(ms[1..]) + tail;
      assert Concat(ms) + tail == m + rest;
      ParseFirst(m, rest);
      assert m[..|m|] == m && m[|m|..] + rest == rest;
      MessagesComeBack(ms[1..], tail);
    }
  }

  /** Section 7.5.6 of RFC 6143. */
  function CutTextMessage(text: seq<Byte>): seq<Byte>
    requires |text| < 0x1_0000_0000
  {
    var n := |text|;
    [6, 0, 0, 0, n / 16777216, n / 65536 % 256, n / 256 % 256, n % 256] + text
  }

  lemma CutTextIsOneMessage(text: seq<Byte>)
    requires |text| <= 10000000
    ensures Judge(CutTextMessage(text)) == Whole(|CutTextMessage(text)|)
    ensures Deliver(CutTextMessage(text)) == Text(text)
  {
    var m := CutTextMessage(text);
    assert U32(m, 4) == |text|;
    assert m[8..] == text;
  }

  // ---------------------------------------------------------------- the parser

  /** A text under way: its header, its announced length and the part that arrived. */
  datatype Cut = Cut(header: seq<Byte>, length: nat, text: seq<Byte>)

  /** `closed`: given up because of a bad message; `hungUp`: taken for a remote hang-up. */
  datatype State = State(buf: seq<Byte>, cut: Option<Cut>, closed: bool, hungUp: bool, out: seq<Msg>)

  function Init(): State { State([], None, false, false, []) }

  /** `process_client_messages` on a full input buffer. */
  function Process(buf: seq<Byte>, out: seq<Msg>): State
    decreases |buf|
  {
    match Judge(buf)
    case Bad => State(buf, None, true, false, out)
    case Whole(n) => WholeIsThere(buf); Process(buf[n..], out + [Deliver(buf[..n])])
    case More =>
      if IsCutText(buf) then State([], Some(Cut(buf[..8], U32(buf, 4), buf[8..])), false, false, out)
      else State(buf, None, false, false, out)
  }

  /** How many bytes the next read asks for. */
  function Space(s: State): int {
    match s.cut
    case Some(c) => if c.length - |c.text| < 4096 then c.length - |c.text| else 4096
    case None => 4096 - |s.buf|
  }

  /**
    `on_client_event`, where the read yields `chunk`. A read of no bytes at all yields none,
    which the TCP stream takes for a hang-up of the client; otherwise an empty chunk means
    that nothing had arrived yet.
   */
  function Read(s: State, chunk: seq<Byte>): State {
    if s.closed || s.hungUp then s
    else if Space(s) <= 0 then s.(hungUp := true)
    else if chunk == [] then s
    else match s.cut
      case None => Process(s.buf + chunk, s.out)
      case Some(c) =>
        var text := c.text + chunk;
        if |text| != c.length then s.(cut := Some(c.(text := text)))
        else s.(cut := None, out := s.out + [Text(text)])
  }

  /** The state after reading `chunks` one by one, if each fitted the space then asked for. */
  function After(chunks: seq<seq<Byte>>): Option<State> {
    if chunks == [] then Some(Init())
    else
      var chunk := chunks[|chunks| - 1];
      match After(chunks[..|chunks| - 1])
      case None => None
      case Some(s) => if !s.closed && !s.hungUp && |chunk| <= Space(s) then Some(Read(s, chunk)) else None
  }

  // ---------------------------------------------------------------- the parser against the reference

  /** What was read and not yet handled. */
  function Pending(s: State): seq<Byte> {
    match s.cut case None => s.buf case Some(c) => c.header + c.text
  }

  predicate CutOk(c: Cut) {
    |c.header| == 8 && IsCutText(c.header) && U32(c.header, 4) == c.length <= 10000000 && |c.text| < c.length
  }

  predicate Inv(s: State) {
    && |s.buf| <= 4096
    && (s.cut.Some? ==> s.buf == [] && CutOk(s.cut.value))
    && (s.cut == None && !s.closed ==> Judge(s.buf) == More && !IsCutText(s.buf))
    && (s.hungUp ==> !s.closed && Space(s) == 0)
  }

  /** `s` is where a parser that had delivered `out` should be after `bs`. */
  predicate Tracks(s: State, out: seq<Msg>, bs: seq<Byte>) {
    var p := ParseAll(bs);
    Inv(s) && s.out == out + p.msgs && s.closed == p.bad && Pending(s) == p.rest
  }

  lemma ProcessStops(buf: seq<Byte>, out: seq<Msg>)
    requires |buf| <= 4096 && !Judge(buf).Whole?
    ensures Tracks(Process(buf, out), out, buf)
  {
    if Judge(buf) == More && IsCutText(buf) {
      var h := buf[..8];
      assert h[0] == buf[0] && U32(h, 4) == U32(buf, 4);
      assert h + buf[8..] == buf;
    }
  }

  /** Where no message can be taken off the buffer, and no text is begun, processing ends. */
  lemma ProcessEnds(s: State)
    requires !Judge(s.buf).Whole? && !(Judge(s.buf) == More && IsCutText(s.buf))
    ensures s.cut == None && !s.hungUp ==> Process(s.buf, s.out) == s.(closed := Judge(s.buf) == Bad)
    ensures s.buf == [] ==> Judge(s.buf) == More
  {
  }

  lemma {:induction false} ProcessParses(buf: seq<Byte>, out: seq<Msg>)
    requires |buf| <= 4096
    ensures Tracks(Process(buf, out), out, buf)
    decreases |buf|
  {
    if Judge(buf).Whole? {
      WholeIsThere(buf);
      var n := Judge(buf).size;
      ProcessParses(buf[n..], out + [Deliver(buf[..n])]);
      Assoc(out, [Deliver(buf[..n])], ParseAll(buf[n..]).msgs);
    } else {
      ProcessStops(buf, out);
    }
  }

  /** A text that is complete is parsed as such; one that is not is not. */
  lemma PendingText(header: seq<Byte>, text: seq<Byte>)
    requires |header| == 8 && IsCutText(header) && U32(header, 4) <= 10000000 && |text| <= U32(header, 4)
    ensures |text| < U32(header, 4) ==> ParseAll(header + text) == Parsed([], header + text, false)
    ensures |text| == U32(header, 4) ==> ParseAll(header + text) == Parsed([Text(text)], [], false)
  {
    var m := header + text;
    assert m[0] == 6 && U32(m, 4) == U32(header, 4);
    if |text| == U32(header, 4) {
      assert Judge(m) == Whole(|m|);
      assert m[..|m|] == m && m[|m|..] == [] && m[8..] == text;
    }
  }

  lemma ReadCutParses(s: State, chunk: seq<Byte>)
    requires Inv(s) && s.cut.Some? && !s.closed && !s.hungUp && |chunk| <= Space(s) && chunk != []
    ensures Tracks(Read(s, chunk), s.out, Pending(s) + chunk)
  {
    var c := s.cut.value;
    Assoc(c.header, c.text, chunk);
    PendingText(c.header, c.text + chunk);
  }

  lemma ReadParses(s: State, chunk: seq<Byte>)
    requires Inv(s) && !s.closed && !s.hungUp && |chunk| <= Space(s)
    ensures Tracks(Read(s, chunk), s.out, Pending(s) + chunk)
  {
    if chunk == [] {
      assert Pending(s) + chunk == Pending(s);
      if s.cut.Some? {
        PendingText(s.cut.value.header, s.cut.value.text);
      }
    } else if s.cut == None {
      ProcessParses(s.buf + chunk, s.out);
    } else {
      ReadCutParses(s, chunk);
    }
  }

  /** `s` is where the parser should be after `bs`. */
  predicate At(s: State, bs: seq<Byte>) {
    var p := ParseAll(bs);
    Inv(s) && s.out == p.msgs && s.closed == p.bad && Pending(s) == p.rest
  }

  lemma ReadTracks(s: State, bs: seq<Byte>, chunk: seq<Byte>)
    requires At(s, bs) && Tracks(Read(s, chunk), s.out, Pending(s) + chunk)
    ensures At(Read(s, chunk), bs + chunk)
  {
    ParseMore(bs, chunk);
  }

  /**
    For every fragmentation of the input, the messages delivered so far, the unhandled bytes
    and whether the connection was given up are those of a parse of all bytes read at once.
   */
  lemma {:induction false} FragmentationDoesNotMatter(chunks: seq<seq<Byte>>)
    requires After(chunks).Some?
    ensures var s := After(chunks).value; var p := ParseAll(Concat(chunks));
      Inv(s) && s.out == p.msgs && s.closed == p.bad && Pending(s) == p.rest
  {
    RunTracks(chunks);
  }

  lemma {:induction false} RunTracks(chunks: seq<seq<Byte>>)
    requires After(chunks).Some?
    ensures At(After(chunks).value, Concat(chunks))
  {
    if chunks != [] {
      var before, chunk := chunks[..|chunks| - 1], chunks[|chunks| - 1];
      RunTracks(before);
      assert chunks == before + [chunk];
      ConcatSnoc(before, chunk);
      ReadParses(After(before).value, chunk);
      ReadTracks(After(before).value, Concat(before), chunk);
    }
  }

  /** Two clients that sent the same bytes are in the same position, however these arrived. */
  lemma {:induction false} SameBytesSameMessages(xs: seq<seq<Byte>>, ys: seq<seq<Byte>>)
    requires After(xs).Some? && After(ys).Some? && Concat(xs) == Concat(ys)
    ensures After(xs).value.out == After(ys).value.out && After(xs).value.closed == After(ys).value.closed
    ensures Pending(After(xs).value) == Pending(After(ys).value)
  {
    FragmentationDoesNotMatter(xs);
    FragmentationDoesNotMatter(ys);
  }

  /**
    A clipboard text of up to the length the source allows, however cut, is delivered once,
    exactly as announced, between the messages around it; parsing goes on with the byte after it.
   */
  lemma TextIsDeliveredOnce(before: seq<seq<Byte>>, text: seq<Byte>, rest: seq<Byte>, chunks: seq<seq<Byte>>)
    requires |text| <= 10000000
    requires forall i :: 0 <= i < |before| ==> Judge(before[i]) == Whole(|before[i]|)
    requires After(chunks).Some? && Concat(chunks) == Concat(before + [CutTextMessage(text)]) + rest
    ensures var s := After(chunks).value; var n := |before|;
      && |s.out| == n + 1 + |ParseAll(rest).msgs|
      && (forall i :: 0 <= i < n ==> s.out[i] == Deliver(before[i]))
      && s.out[n] == Text(text)
      && s.out[n + 1..] == ParseAll(rest).msgs
      && Pending(s) == ParseAll(rest).rest
  {
    FragmentationDoesNotMatter(chunks);
    CutTextIsOneMessage(text);
    var ms := before + [CutTextMessage(text)];
    assert ms[|before|] == CutTextMessage(text);
    assert forall i :: 0 <= i < |before| ==> ms[i] == before[i];
    MessagesComeBack(ms, rest);
  }

  // ---------------------------------------------------------------- messages that do not fit

  /** SetEncodings (2) with more entries than the buffer has room for. */
  predicate IsLongList(m: seq<Byte>) { |m| >= 4 && m[0] == 2 && U16(m, 2) > 1023 }

  predicate IsMessage(m: seq<Byte>) { Judge(m) == Whole(|m|) }

  /** A full buffer holds the beginning of a long list, and the next event is taken for a hang-up. */
  lemma {:induction false} FullBufferIsALongList(chunks: seq<seq<Byte>>)
    requires After(chunks).Some? && !After(chunks).value.closed
    ensures var s := After(chunks).value;
      && Space(s) >= 0
      && (Space(s) == 0 ==> |s.buf| == 4096 && IsLongList(s.buf) && s.cut == None && Read(s, []).hungUp)
      && (s.hungUp ==> Space(s) == 0)
  {
    FragmentationDoesNotMatter(chunks);
    FullIsLong(After(chunks).value.buf);
  }

  lemma FullIsLong(buf: seq<Byte>)
    requires |buf| == 4096 ==> Judge(buf) == More && !IsCutText(buf)
    ensures |buf| == 4096 ==> IsLongList(buf)
  {
  }

  /** A message that needs more bytes than the buffer has is a long list or a text. */
  lemma LongMessages(m: seq<Byte>)
    requires IsMessage(m)
    ensures IsLongList(m) ==> Deliver(m) == Other(m) && |m| > 4096
    ensures |m| > 4096 ==> IsLongList(m) || IsCutText(m)
  {
  }

  predicate Fits(out: seq<Msg>) {
    forall i :: 0 <= i < |out| && out[i].Other? ==> |out[i].bytes| <= 4096
  }

  lemma {:induction false} ProcessFits(buf: seq<Byte>, out: seq<Msg>)
    requires |buf| <= 4096 && Fits(out)
    ensures Fits(Process(buf, out).out)
    decreases |buf|
  {
    if Judge(buf).Whole? {
      WholeIsThere(buf);
      ProcessFits(buf[Judge(buf).size..], out + [Deliver(buf[..Judge(buf).size])]);
    }
  }

  /** Whatever is delivered, but for texts, was in the buffer as a whole. */
  lemma {:induction false} DeliveredFits(chunks: seq<seq<Byte>>)
    requires After(chunks).Some?
    ensures Fits(After(chunks).value.out)
  {
    if chunks != [] {
      var before, chunk := chunks[..|chunks| - 1], chunks[|chunks| - 1];
      DeliveredFits(before);
      var s := After(before).value;
      if s.cut == None && Space(s) > 0 {
        ProcessFits(s.buf + chunk, s.out);
      }
    }
  }

  /** A stream of messages parsed in two parts. */
  lemma {:induction false} PartsOfMessages(ms: seq<seq<Byte>>, t: seq<Byte>, more: seq<Byte>)
    requires (forall i :: 0 <= i < |ms| ==> IsMessage(ms[i])) && t + more == Concat(ms)
    ensures var p, q := ParseAll(t).msgs, ParseAll(ParseAll(t).rest + more);
      && !q.bad && q.rest == [] && |p| + |q.msgs| == |ms|
      && (forall i :: 0 <= i < |ms| ==> (p + q.msgs)[i] == Deliver(ms[i]))
  {
    assert Concat(ms) + [] == Concat(ms);
    MessagesComeBack(ms, []);
    ParseMore(t, more);
  }

  /** Where a stream of messages was parsed up to `t` and goes on with `more`. */
  lemma {:induction false} RestOfMessages(ms: seq<seq<Byte>>, t: seq<Byte>, more: seq<Byte>)
    requires (forall i :: 0 <= i < |ms| ==> IsMessage(ms[i])) && t + more == Concat(ms)
    ensures var p, q := ParseAll(t), ParseAll(ParseAll(t).rest + more);
      && !p.bad && q.rest == [] && |p.msgs| + |q.msgs| == |ms|
      && (forall i :: 0 <= i < |q.msgs| ==> q.msgs[i] == Deliver(ms[|p.msgs| + i]))
  {
    PartsOfMessages(ms, t, more);
    var p, q := ParseAll(t).msgs, ParseAll(ParseAll(t).rest + more).msgs;
    forall i | 0 <= i < |q| ensures q[i] == Deliver(ms[|p| + i]) {
      assert (p + q)[|p| + i] == q[i];
    }
    RestIsBad(t);
    if ParseAll(t).bad {
      JudgeIsStable(ParseAll(t).rest, more);
    }
  }

  lemma {:induction false} RestIsBad(t: seq<Byte>)
    ensures ParseAll(t).bad <==> Judge(ParseAll(t).rest) == Bad
    decreases |t|
  {
    if Judge(t).Whole? {
      WholeIsThere(t);
      RestIsBad(t[Judge(t).size..]);
    }
  }

  /** The remaining input begins with a long list only if one of the messages is one. */
  lemma LongListIsAMessage(ms: seq<seq<Byte>>, t: seq<Byte>, more: seq<Byte>)
    requires (forall i :: 0 <= i < |ms| ==> IsMessage(ms[i])) && t + more == Concat(ms)
    requires IsLongList(ParseAll(t).rest)
    ensures exists i :: 0 <= i < |ms| && IsLongList(ms[i])
  {
    RestOfMessages(ms, t, more);
    var p := ParseAll(t);
    var bs := p.rest + more;
    assert bs[0] == p.rest[0] && U16(bs, 2) == U16(p.rest, 2) && bs != [];
    assert Judge(bs).Whole?;
    WholeIsThere(bs);
    var n, m := Judge(bs).size, ms[|p.msgs|];
    assert ParseAll(bs).msgs[0] == Other(bs[..n]) == Deliver(m);
    assert m == bs[..n] && IsLongList(m);
  }

  /**
    While messages other than long lists arrive, in whatever pieces, the client is neither
    given up nor taken for gone, and more can be read.
   */
  lemma {:induction false} ReadingNeverStops(ms: seq<seq<Byte>>, chunks: seq<seq<Byte>>, more: seq<Byte>)
    requires forall i :: 0 <= i < |ms| ==> IsMessage(ms[i]) && !IsLongList(ms[i])
    requires After(chunks).Some? && Concat(chunks) + more == Concat(ms)
    ensures var s := After(chunks).value; !s.closed && !s.hungUp && Space(s) > 0
  {
    FragmentationDoesNotMatter(chunks);
    RestOfMessages(ms, Concat(chunks), more);
    FullBufferIsALongList(chunks);
    if Space(After(chunks).value) == 0 {
      LongListIsAMessage(ms, Concat(chunks), more);
    }
  }

  /** Some way of reading the bytes `bs` leads to the end. */
  ghost predicate Readable(bs: seq<Byte>) {
    exists chunks: seq<seq<Byte>> :: After(chunks).Some? && Concat(chunks) == bs
  }

  lemma {:induction false} ReadByteByByte(ms: seq<seq<Byte>>, n: nat) returns (chunks: seq<seq<Byte>>)
    requires forall i :: 0 <= i < |ms| ==> IsMessage(ms[i]) && !IsLongList(ms[i])
    requires n <= |Concat(ms)|
    ensures After(chunks).Some? && Concat(chunks) == Concat(ms)[..n]
  {
    if n == 0 {
      chunks := [];
    } else {
      var all := Concat(ms);
      var before := ReadByteByByte(ms, n - 1);
      assert all[..n - 1] + all[n - 1..] == all;
      ReadingNeverStops(ms, before, all[n - 1..]);
      chunks := before + [[all[n - 1]]];
      ConcatSnoc(before, [all[n - 1]]);
      assert chunks[..|chunks| - 1] == before;
      assert all[..n - 1] + [all[n - 1]] == all[..n];
    }
  }

  /** Input read to the end has been delivered to the end. */
  lemma {:induction false} LastIsDelivered(before: seq<seq<Byte>>, m: seq<Byte>, chunks: seq<seq<Byte>>)
    requires (forall i :: 0 <= i < |before| ==> IsMessage(before[i])) && IsMessage(m)
    requires After(chunks).Some? && Concat(chunks) == Concat(before + [m])
    ensures var out := After(chunks).value.out; |out| == |before| + 1 && out[|before|] == Deliver(m)
  {
    var ms := before + [m];
    FragmentationDoesNotMatter(chunks);
    assert Concat(ms) + [] == Concat(ms);
    forall i | 0 <= i < |ms| ensures IsMessage(ms[i]) {
    }
    MessagesComeBack(ms, []);
    assert ms[|before|] == m;
  }

  lemma {:induction false} LongListIsNotReadable(before: seq<seq<Byte>>, m: seq<Byte>, chunks: seq<seq<Byte>>)
    requires (forall i :: 0 <= i < |before| ==> IsMessage(before[i])) && IsMessage(m) && IsLongList(m)
    requires After(chunks).Some?
    ensures Concat(chunks) != Concat(before + [m])
  {
    DeliveredFits(chunks);
    LongMessages(m);
    if Concat(chunks) == Concat(before + [m]) {
      LastIsDelivered(before, m, chunks);
      assert false;
    }
  }

  /**
    After messages that are none, a message can be read to its end, in whatever pieces, if
    and only if it is not a SetEncodings message of more than 1023 entries.
   */
  lemma {:induction false} MessageIsReadableIff(before: seq<seq<Byte>>, m: seq<Byte>)
    requires forall i :: 0 <= i < |before| ==> IsMessage(before[i]) && !IsLongList(before[i])
    requires IsMessage(m)
    ensures Readable(Concat(before + [m])) <==> !IsLongList(m)
  {
    var ms := before + [m];
    if IsLongList(m) {
      forall chunks: seq<seq<Byte>> | After(chunks).Some? ensures Concat(chunks) != Concat(ms) {
        LongListIsNotReadable(before, m, chunks);
      }
    } else {
      var chunks := ReadByteByByte(ms, |Concat(ms)|);
      assert Concat(ms)[..|Concat(ms)|] == Concat(ms);
    }
  }

  /** A list of 1024 encodings, all of them raw: one entry too many. */
  function OverlongList(): seq<Byte> { [2, 0, 4, 0] + seq(4096, i => 0) }

  /** The buffer takes all but four bytes of it; the event after that ends the connection. */
  lemma {:induction false} OverlongListHangsUp()
    ensures var m := OverlongList();
      && IsMessage(m) && IsLongList(m)
      && After([m[..4096], []]).Some?
      && var s := After([m[..4096], []]).value; s.hungUp && !s.closed && s.out == []
  {
    var m := OverlongList();
    var b := m[..4096];
    assert b[0] == 2 && U16(b, 2) == 1024 && U16(m, 2) == 1024;
    var one: seq<seq<Byte>> := [b];
    assert one[..0] == [] && [b, []][..1] == one;
    assert After([]) == Some(Init());
    assert [] + b == b;
    assert After([b]) == Some(Process(b, []));
    assert Process(b, []) == State(b, None, false, false, []);
  }

  // ---------------------------------------------------------------- the client object

  /** The input side of `struct nvnc_client`. */
  class Input {
    const msgBuffer: array<Byte>
    var bufferLen: nat
    var bufferIndex: nat
    var cut: Option<Cut>
    var closed: bool
    var hungUp: bool
    var out: seq<Msg>

    ghost predicate Bounds() reads this, msgBuffer {
      msgBuffer.Length == 4096 && bufferIndex <= bufferLen <= 4096
    }

    ghost function View(): State
      reads this, msgBuffer
      requires Bounds()
    {
      State(msgBuffer[bufferIndex..bufferLen], cut, closed, hungUp, out)
    }

    ghost predicate Valid() reads this, msgBuffer {
      Bounds() && bufferIndex == 0 && Inv(View())
    }

    constructor ()
      ensures Valid() && View() == Init() && fresh(msgBuffer)
    {
      msgBuffer := new Byte[4096](_ => 0);
      bufferLen, bufferIndex, cut, closed, hungUp, out := 0, 0, None, false, false, [];
    }

    /** `process_client_cut_text` and the handlers of other messages: how much was handled, if anything. */
    method TryMessage() returns (rc: int)
      requires Bounds() && !closed && (cut.Some? ==> bufferIndex == bufferLen)
      modifies this
      ensures Bounds() && bufferLen == old(bufferLen) && bufferIndex == old(bufferIndex) && hungUp == old(hungUp)
      ensures var buf := old(View().buf); match Judge(buf)
        case Bad => rc == -1 && closed && cut == old(cut) && out == old(out)
        case Whole(n) => rc == n && !closed && cut == old(cut) && out == old(out) + [Deliver(buf[..n])]
        case More =>
          if IsCutText(buf) then
            rc == |buf| && !closed && out == old(out) && cut == Some(Cut(buf[..8], U32(buf, 4), buf[8..]))
          else rc == 0 && !closed && cut == old(cut) && out == old(out)
    {
      var buf := msgBuffer[bufferIndex..bufferLen];
      match Judge(buf)
      case Bad =>
        closed := true;
        return -1;
      case Whole(n) =>
        WholeIsThere(buf);
        out := out + [Deliver(buf[..n])];
        return n;
      case More =>
        if IsCutText(buf) {
          cut := Some(Cut(buf[..8], U32(buf, 4), buf[8..]));
          return |buf|;
        }
        return 0;
    }

    /** The loop of `process_client_messages`. */
    method ParseLoop()
      requires Bounds() && cut == None && !closed && !hungUp
      modifies this
      ensures Bounds() && View() == Process(old(View().buf), old(out))
    {
      ghost var end := Process(View().buf, out);
      while true
        invariant Bounds() && !closed && !hungUp
        invariant cut == None ==> Process(View().buf, out) == end
        invariant cut.Some? ==> bufferIndex == bufferLen && View() == end
        decreases bufferLen - bufferIndex
      {
        ghost var buf := View().buf;
        ghost var s := View();
        var rc := TryMessage();
        WholeIsThere(buf);
        if rc <= 0 {
          ProcessEnds(s);
          assert View() == s.(closed := Judge(buf) == Bad);
          break;
        }
        bufferIndex := bufferIndex + rc;
        assert View().buf == buf[rc..];
      }
    }

    /** Moves the unhandled bytes to the front of the buffer. */
    method Compact()
      requires Bounds()
      modifies this, msgBuffer
      ensures Bounds() && bufferIndex == 0 && View() == old(View())
    {
      ghost var rest := msgBuffer[bufferIndex..bufferLen];
      bufferLen := bufferLen - bufferIndex;
      forall i | 0 <= i < bufferLen {
        msgBuffer[i] := msgBuffer[bufferIndex + i];
      }
      assert msgBuffer[..bufferLen] == rest;
      bufferIndex := 0;
    }

    /** `process_big_cut_text` */
    method ProcessBigCutText(chunk: seq<Byte>)
      requires Valid() && cut.Some? && !closed && !hungUp && |chunk| <= Space(View())
      modifies this
      ensures Bounds() && bufferIndex == 0 && View() == Read(old(View()), chunk)
    {
      if chunk == [] {
        return;
      }
      var c := cut.value;
      c := c.(text := c.text + chunk);
      cut := Some(c);
      if |c.text| != c.length {
        return;
      }
      out := out + [Text(c.text)];
      cut := None;
    }

    /** `on_client_event`, where the read yields `chunk`. */
    method OnReadable(chunk: seq<Byte>)
      requires Valid() && !closed && !hungUp && |chunk| <= Space(View())
      modifies this, msgBuffer
      ensures Valid() && View() == Read(old(View()), chunk)
    {
      ReadParses(View(), chunk);
      if cut.Some? {
        ProcessBigCutText(chunk);
        return;
      }
      var space := 4096 - bufferLen;
      if space == 0 {
        hungUp := true;
        return;
      }
      if chunk == [] {
        return;
      }
      ghost var buf := View().buf;
      forall i | 0 <= i < |chunk| {
        msgBuffer[bufferLen + i] := chunk[i];
      }
      bufferLen := bufferLen + |chunk|;
      assert msgBuffer[..bufferLen] == buf + chunk;
      ParseLoop();
      Compact();
    }
  }
}
