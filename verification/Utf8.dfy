/** Clipboard text between Latin-1 and UTF-8. */
module Utf8 {
  import opened Common

  // ---------------------------------------------------------------- UTF-8 by section 4 of RFC 3629

  predicate IsTail(b: Byte) { 0x80 <= b <= 0xbf }

  /** The length of the well-formed character at the start of `s`, or 0 if there is none. */
  function CharLen(s: seq<Byte>): (n: nat)
    ensures n <= 4 && n <= |s|
  {
    if |s| >= 1 && s[0] <= 0x7f then 1
    else if |s| >= 2 && 0xc2 <= s[0] <= 0xdf && IsTail(s[1]) then 2
    else if |s| >= 3 && IsTail(s[2]) && (
      || (s[0] == 0xe0 && 0xa0 <= s[1] <= 0xbf)
      || (0xe1 <= s[0] <= 0xec && IsTail(s[1]))
      || (s[0] == 0xed && 0x80 <= s[1] <= 0x9f)
      || (0xee <= s[0] <= 0xef && IsTail(s[1]))) then 3
    else if |s| >= 4 && IsTail(s[2]) && IsTail(s[3]) && (
      || (s[0] == 0xf0 && 0x90 <= s[1] <= 0xbf)
      || (0xf1 <= s[0] <= 0xf3 && IsTail(s[1]))
      || (s[0] == 0xf4 && 0x80 <= s[1] <= 0x8f)) then 4
    else 0
  }

  /** The code point of the character at the start of `s`. */
  function CodePoint(s: seq<Byte>): nat
    requires CharLen(s) > 0
  {
    var a: int := s[0];
    match CharLen(s)
    case 1 => a
    case 2 => (a - 0xc0) * 64 + (s[1] as int - 0x80)
    case 3 => (a - 0xe0) * 4096 + (s[1] as int - 0x80) * 64 + (s[2] as int - 0x80)
    case _ => (a - 0xf0) * 262144 + (s[1] as int - 0x80) * 4096 + (s[2] as int - 0x80) * 64 + (s[3] as int - 0x80)
  }

  predicate WellFormed(s: seq<Byte>)
    decreases |s|
  {
    s == [] || (CharLen(s) > 0 && WellFormed(s[CharLen(s)..]))
  }

  function CodePoints(s: seq<Byte>): seq<nat>
    requires WellFormed(s)
    decreases |s|
  {
    if s == [] then [] else [CodePoint(s)] + CodePoints(s[CharLen(s)..])
  }

  // ---------------------------------------------------------------- the converters, as functions

  function EncodedLatin1(c: Byte): seq<Byte> {
    if c < 0x80 then [c] else [0xc0 + c / 64, 0x80 + c % 64]
  }

  function ToUtf8(s: seq<Byte>): seq<Byte> {
    if s == [] then [] else EncodedLatin1(s[0]) + ToUtf8(s[1..])
  }

  /** What a lead byte announces: how many bytes, its own bits, and the least value allowed. */
  datatype Lead = Lead(n: nat, bits: nat, least: nat) | NoLead

  function LeadOf(c: Byte): Lead {
    if c < 0x80 then Lead(1, c, 0)
    else if c / 32 == 6 then Lead(2, c % 32, 0x80)
    else if c / 16 == 14 then Lead(3, c % 16, 0x800)
    else if c / 8 == 30 then Lead(4, c % 8, 0x10000)
    else NoLead
  }

  /** The value with the continuation bytes from `k` up to `n` shifted in, if that is what they are. */
  function Shifted(s: seq<Byte>, k: nat, n: nat, cp: nat): Option<nat>
    requires k <= n <= |s|
    decreases n - k
  {
    if k == n then Some(cp)
    else if s[k] / 64 != 2 then None
    else Shifted(s, k + 1, n, cp * 64 + s[k] % 64)
  }

  predicate Rejected(cp: nat, least: nat) { cp < least || 0xd800 <= cp <= 0xdfff || cp > 0x10ffff }

  /** What is written for the bytes at the start of `s`, and how many of these are used up. */
  datatype Step = Step(b: Byte, used: nat)

  function StepOf(s: seq<Byte>): (t: Step)
    requires s != []
    ensures 1 <= t.used <= |s|
  {
    match LeadOf(s[0])
    case NoLead => Step(63, 1)
    case Lead(n, bits, least) =>
      if n == 1 then Step(s[0], 1)
      else if n > |s| then Step(63, |s|)
      else match Shifted(s, 1, n, bits)
        case None => Step(63, 1)
        case Some(cp) => Step(if Rejected(cp, least) || cp > 0xff then 63 else cp, n)
  }

  function ToLatin1(s: seq<Byte>): seq<Byte>
    decreases |s|
  {
    if s == [] then [] else [StepOf(s).b] + ToLatin1(s[StepOf(s).used..])
  }

  // ---------------------------------------------------------------- what the decoder accepts

  /** The bytes at the start of `s` pass all checks of the decoder, as code point `cp`. */
  predicate Passes(s: seq<Byte>, n: nat, cp: nat) {
    s != [] && LeadOf(s[0]).Lead? && LeadOf(s[0]).n == n <= |s|
    && Shifted(s, 1, n, LeadOf(s[0]).bits) == Some(cp)
    && !Rejected(cp, LeadOf(s[0]).least)
  }

  /** The bits of continuation byte `k`. */
  function Bits(s: seq<Byte>, k: nat): nat
    requires k < |s|
  {
    s[k] % 64
  }

  lemma TailBits(s: seq<Byte>, k: nat)
    requires k < |s|
    ensures s[k] / 64 == 2 <==> IsTail(s[k])
    ensures IsTail(s[k]) ==> Bits(s, k) == s[k] as int - 0x80
  {
  }

  lemma TwoBytes(s: seq<Byte>, a: nat)
    requires |s| >= 2
    ensures Shifted(s, 1, 2, a) == if IsTail(s[1]) then Some(a * 64 + Bits(s, 1)) else None
  {
    TailBits(s, 1);
    assert Shifted(s, 2, 2, a * 64 + Bits(s, 1)) == Some(a * 64 + Bits(s, 1));
  }

  lemma ThreeBytes(s: seq<Byte>, a: nat)
    requires |s| >= 3
    ensures Shifted(s, 1, 3, a)
      == if IsTail(s[1]) && IsTail(s[2]) then Some((a * 64 + Bits(s, 1)) * 64 + Bits(s, 2)) else None
  {
    TailBits(s, 1);
    TailBits(s, 2);
    var b := a * 64 + Bits(s, 1);
    assert Shifted(s, 3, 3, b * 64 + Bits(s, 2)) == Some(b * 64 + Bits(s, 2));
    assert Shifted(s, 2, 3, b) == if IsTail(s[2]) then Some(b * 64 + Bits(s, 2)) else None;
  }

  lemma FourBytes(s: seq<Byte>, a: nat)
    requires |s| >= 4
    ensures Shifted(s, 1, 4, a)
      == if IsTail(s[1]) && IsTail(s[2]) && IsTail(s[3])
         then Some(((a * 64 + Bits(s, 1)) * 64 + Bits(s, 2)) * 64 + Bits(s, 3)) else None
  {
    TailBits(s, 1);
    TailBits(s, 2);
    TailBits(s, 3);
    var b := a * 64 + Bits(s, 1);
    var c := b * 64 + Bits(s, 2);
    assert Shifted(s, 4, 4, c * 64 + Bits(s, 3)) == Some(c * 64 + Bits(s, 3));
    assert Shifted(s, 3, 4, c) == if IsTail(s[3]) then Some(c * 64 + Bits(s, 3)) else None;
    assert Shifted(s, 2, 4, b) == if IsTail(s[2]) then Shifted(s, 3, 4, c) else None;
  }

  /** The ranges of lead bytes. */
  lemma Leads(c: Byte)
    ensures LeadOf(c) == (
      if c <= 0x7f then Lead(1, c, 0)
      else if 0xc0 <= c <= 0xdf then Lead(2, c as int - 0xc0, 0x80)
      else if 0xe0 <= c <= 0xef then Lead(3, c as int - 0xe0, 0x800)
      else if 0xf0 <= c <= 0xf7 then Lead(4, c as int - 0xf0, 0x10000)
      else NoLead)
  {
  }

  /**
    The decoder's checks (continuation bytes, least value, surrogates, upper limit) accept
    exactly the characters of the grammar, with their code points.
   */
  lemma AcceptsExactlyTheGrammar(s: seq<Byte>, n: nat, cp: nat)
    ensures Passes(s, n, cp) <==> CharLen(s) > 0 && CharLen(s) == n && CodePoint(s) == cp
  {
    if s != [] {
      Leads(s[0]);
      var a: int := s[0];
      if 0xc0 <= a <= 0xdf && |s| >= 2 {
        TwoBytes(s, a - 0xc0);
        TailBits(s, 1);
      } else if 0xe0 <= a <= 0xef && |s| >= 3 {
        ThreeBytes(s, a - 0xe0);
        TailBits(s, 1);
        TailBits(s, 2);
      } else if 0xf0 <= a <= 0xf7 && |s| >= 4 {
        FourBytes(s, a - 0xf0);
        TailBits(s, 1);
        TailBits(s, 2);
        TailBits(s, 3);
      } else if a <= 0x7f {
        assert Shifted(s, 1, 1, a) == Some(a);
      }
    }
  }

  // ---------------------------------------------------------------- well-formed input

  /** What becomes of a code point. */
  function Replaced(cp: nat): Byte { if cp <= 0xff then cp else 63 }

  function ReplacedAll(cps: seq<nat>): seq<Byte> {
    if cps == [] then [] else [Replaced(cps[0])] + ReplacedAll(cps[1..])
  }

  lemma StepOfCharacter(s: seq<Byte>)
    requires CharLen(s) > 0
    ensures StepOf(s) == Step(Replaced(CodePoint(s)), CharLen(s))
  {
    AcceptsExactlyTheGrammar(s, CharLen(s), CodePoint(s));
    assert Shifted(s, 1, 1, s[0]) == Some(s[0] as int);
  }

  /** On well-formed UTF-8 the decoder maps code points, with '?' for those above 0xff. */
  lemma {:induction false} WellFormedIsMapped(s: seq<Byte>)
    requires WellFormed(s)
    ensures ToLatin1(s) == ReplacedAll(CodePoints(s))
    decreases |s|
  {
    if s != [] {
      StepOfCharacter(s);
      var rest := s[CharLen(s)..];
      WellFormedIsMapped(rest);
      assert ([CodePoint(s)] + CodePoints(rest))[1..] == CodePoints(rest);
    }
  }

  /** The encoder's output is well-formed, and its code points are the Latin-1 characters. */
  lemma {:induction false} Latin1IsWellFormed(s: seq<Byte>)
    ensures WellFormed(ToUtf8(s)) && |CodePoints(ToUtf8(s))| == |s|
    ensures forall i :: 0 <= i < |s| ==> CodePoints(ToUtf8(s))[i] == s[i]
  {
    if s != [] {
      Latin1IsWellFormed(s[1..]);
      var t := ToUtf8(s);
      var head := EncodedLatin1(s[0]);
      assert head <= t && t[|head|..] == ToUtf8(s[1..]);
      assert CharLen(t) == |head| && CodePoint(t) == s[0] as int;
    }
  }

  lemma {:induction false} ReplacedAt(cps: seq<nat>, i: nat)
    requires i < |cps|
    ensures |ReplacedAll(cps)| == |cps| && ReplacedAll(cps)[i] == Replaced(cps[i])
  {
    if i > 0 {
      ReplacedAt(cps[1..], i - 1);
    } else if |cps| > 1 {
      ReplacedAt(cps[1..], 0);
    }
  }

  /** Decoding undoes encoding, for every byte string. */
  lemma {:induction false} Latin1RoundTrip(s: seq<Byte>)
    ensures ToLatin1(ToUtf8(s)) == s
  {
    Latin1IsWellFormed(s);
    WellFormedIsMapped(ToUtf8(s));
    var cps := CodePoints(ToUtf8(s));
    forall i | 0 <= i < |s| ensures |ReplacedAll(cps)| == |s| && ReplacedAll(cps)[i] == s[i] {
      ReplacedAt(cps, i);
    }
  }

  /** On any input, at most one byte is written for each byte read. */
  lemma {:induction false} Latin1IsNoLonger(s: seq<Byte>)
    ensures |ToLatin1(s)| <= |s|
    decreases |s|
  {
    if s != [] {
      Latin1IsNoLonger(s[StepOf(s).used..]);
    }
  }

  /**
    Resynchronisation: a byte that begins no sequence the input could complete costs one
    '?', and decoding goes on with the very next byte.
   */
  lemma BadByteIsSkipped(s: seq<Byte>, rest: seq<Byte>)
    requires |s| == 1 && (LeadOf(s[0]) == NoLead || (LeadOf(s[0]).n > 1 && rest != [] && !IsTail(rest[0])))
    requires LeadOf(s[0]).Lead? ==> LeadOf(s[0]).n <= 1 + |rest|
    ensures ToLatin1(s + rest) == [63] + ToLatin1(rest)
  {
    var t := s + rest;
    assert t[1..] == rest && t[0] == s[0];
    if LeadOf(s[0]).Lead? {
      TailBits(t, 1);
      assert t[1] == rest[0];
      assert Shifted(t, 1, LeadOf(s[0]).n, LeadOf(s[0]).bits) == None;
    }
  }

  // ---------------------------------------------------------------- the converters

  /** `latin1_to_utf8` */
  method Latin1ToUtf8(dst: array<Byte>, src: seq<Byte>) returns (o: nat)
    requires dst.Length >= 2 * |src| + 1
    modifies dst
    ensures o < dst.Length && dst[..o] == ToUtf8(src) && dst[o] == 0
  {
    o := 0;
    for i := 0 to |src|
      invariant o <= 2 * i
      invariant dst[..o] + ToUtf8(src[i..]) == ToUtf8(src)
    {
      var c := src[i];
      ghost var done := dst[..o];
      assert src[i..][1..] == src[i + 1..];
      Assoc(done, EncodedLatin1(c), ToUtf8(src[i + 1..]));
      if c < 0x80 {
        dst[o] := c;
        o := o + 1;
        assert dst[..o] == done + EncodedLatin1(c);
      } else {
        dst[o] := 0xc0 + c / 64;
        dst[o + 1] := 0x80 + c % 64;
        o := o + 2;
        assert dst[..o] == done + EncodedLatin1(c);
      }
    }
    dst[o] := 0;
  }

  /** The inner loop of `utf8_to_latin1`. */
  method Continue(s: seq<Byte>, n: nat, bits: nat) returns (cp: nat, valid: bool)
    requires 1 <= n <= |s|
    ensures Shifted(s, 1, n, bits) == if valid then Some(cp) else None
  {
    cp, valid := bits, true;
    for k := 1 to n
      invariant Shifted(s, k, n, cp) == Shifted(s, 1, n, bits)
    {
      if s[k] / 64 != 2 {
        return cp, false;
      }
      cp := cp * 64 + s[k] % 64;
    }
  }

  /** One round of the outer loop: what is written, and how far to move on. */
  method DecodeOne(s: seq<Byte>) returns (b: Byte, used: nat)
    requires s != []
    ensures Step(b, used) == StepOf(s)
  {
    var c := s[0];
    var cp, n, least := 0, 0, 0;
    if c < 0x80 {
      return c, 1;
    } else if c / 32 == 6 {
      cp, n, least := c % 32, 2, 0x80;
    } else if c / 16 == 14 {
      cp, n, least := c % 16, 3, 0x800;
    } else if c / 8 == 30 {
      cp, n, least := c % 8, 4, 0x10000;
    } else {
      return 63, 1;
    }
    if n > |s| {
      return 63, |s|;
    }
    var valid;
    cp, valid := Continue(s, n, cp);
    if !valid {
      return 63, 1;
    }
    if cp < least || (cp >= 0xd800 && cp <= 0xdfff) || cp > 0x10ffff {
      return 63, n;
    }
    return if cp <= 0xff then cp else 63, n;
  }

  /** `utf8_to_latin1` */
  method Utf8ToLatin1(dst: array<Byte>, src: seq<Byte>) returns (o: nat)
    requires dst.Length >= |src| + 1
    modifies dst
    ensures o <= |src| && dst[..o] == ToLatin1(src) && dst[o] == 0
  {
    o := 0;
    var i := 0;
    while i < |src|
      invariant o <= i <= |src|
      invariant dst[..o] + ToLatin1(src[i..]) == ToLatin1(src)
      decreases |src| - i
    {
      var b, used := DecodeOne(src[i..]);
      ghost var done := dst[..o];
      assert src[i..][used..] == src[i + used..];
      Assoc(done, [b], ToLatin1(src[i + used..]));
      dst[o] := b;
      o := o + 1;
      assert dst[..o] == done + [b];
      i := i + used;
    }
    dst[o] := 0;
  }
}
