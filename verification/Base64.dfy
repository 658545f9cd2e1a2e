/** Base64 by sections 4 and 5 of RFC 4648. Text is a C string without its terminator. */
module Base64 {
  import opened Common
  import opened Bits

  // ---------------------------------------------------------------- the alphabets

  type Sextet = x: int | 0 <= x < 64

  /** `base64_enc_lut` */
  function Letter(v: Sextet): Byte {
    if v < 26 then 65 + v
    else if v < 52 then 97 + (v - 26)
    else if v < 62 then 48 + (v - 52)
    else if v == 62 then 43
    else 47
  }

  predicate IsLetter(c: Byte) {
    65 <= c <= 90 || 97 <= c <= 122 || 48 <= c <= 57 || c == 43 || c == 47 || c == 45 || c == 95
  }

  /** `base64_validation_lut`; '=' is 61. */
  predicate IsValidByte(c: Byte) { IsLetter(c) || c == 61 }

  /** `base64_dec_lut`, for both alphabets. */
  function ValueOf(c: Byte): Sextet {
    if 65 <= c <= 90 then c - 65
    else if 97 <= c <= 122 then c - 97 + 26
    else if 48 <= c <= 57 then c - 48 + 52
    else if c == 43 || c == 45 then 62
    else if c == 47 || c == 95 then 63
    else 0
  }

  // ---------------------------------------------------------------- the code, block by block

  /** The four sextets of up to three bytes; missing ones count as zero. */
  function Sextets(a: Byte, b: Byte, c: Byte): seq<Sextet> {
    [a / 4, a % 4 * 16 + b / 16, b % 16 * 4 + c / 64, c % 64]
  }

  function Letters(vs: seq<Sextet>): (t: seq<Byte>)
    ensures |t| == |vs|
  {
    seq(|vs|, i requires 0 <= i < |vs| => Letter(vs[i]))
  }

  function Encoded(s: seq<Byte>): (t: seq<Byte>)
    ensures |t| == (|s| + 2) / 3 * 4
    decreases |s|
  {
    if s == [] then []
    else if |s| == 1 then Letters(Sextets(s[0], 0, 0)[..2]) + [61, 61]
    else if |s| == 2 then Letters(Sextets(s[0], s[1], 0)[..3]) + [61]
    else Letters(Sextets(s[0], s[1], s[2])) + Encoded(s[3..])
  }

  /** The three bytes of four sextets. */
  function Octets(p: Sextet, q: Sextet, r: Sextet, t: Sextet): seq<Byte> {
    [p * 4 + q / 16, q % 16 * 16 + r / 4, r % 4 * 64 + t]
  }

  /** The bytes of a string of letters; a single letter at the end gives none. */
  function Bytes(t: seq<Byte>): (s: seq<Byte>)
    decreases |t|
  {
    if |t| <= 1 then []
    else if |t| == 2 then Octets(ValueOf(t[0]), ValueOf(t[1]), 0, 0)[..1]
    else if |t| == 3 then Octets(ValueOf(t[0]), ValueOf(t[1]), ValueOf(t[2]), 0)[..2]
    else Octets(ValueOf(t[0]), ValueOf(t[1]), ValueOf(t[2]), ValueOf(t[3])) + Bytes(t[4..])
  }

  /** The letters before the first '='. */
  function Body(t: seq<Byte>): (b: seq<Byte>)
    ensures |b| <= |t|
  {
    if t == [] || t[0] == 61 then [] else [t[0]] + Body(t[1..])
  }

  predicate IsValid(t: seq<Byte>) { forall i :: 0 <= i < |t| ==> IsValidByte(t[i]) }

  function Decoded(t: seq<Byte>): Option<seq<Byte>> {
    if IsValid(t) then Some(Bytes(Body(t))) else None
  }

  // ---------------------------------------------------------------- decoding undoes encoding

  lemma OctetsRoundTrip(a: Byte, b: Byte, c: Byte)
    ensures var v := Sextets(a, b, c); Octets(v[0], v[1], v[2], v[3]) == [a, b, c]
  {
  }

  /** The letters of an encoding, without the padding. */
  function Unpadded(s: seq<Byte>): (t: seq<Byte>)
    decreases |s|
  {
    if s == [] then []
    else if |s| == 1 then Letters(Sextets(s[0], 0, 0)[..2])
    else if |s| == 2 then Letters(Sextets(s[0], s[1], 0)[..3])
    else Letters(Sextets(s[0], s[1], s[2])) + Unpadded(s[3..])
  }

  function Padding(n: nat): seq<Byte> {
    if n % 3 == 1 then [61, 61] else if n % 3 == 2 then [61] else []
  }

  lemma {:induction false} EncodedIsPadded(s: seq<Byte>)
    ensures Encoded(s) == Unpadded(s) + Padding(|s|)
    ensures forall i :: 0 <= i < |Unpadded(s)| ==> IsLetter(Unpadded(s)[i]) && Unpadded(s)[i] != 61
    decreases |s|
  {
    if |s| >= 3 {
      EncodedIsPadded(s[3..]);
      assert (|s| - 3) % 3 == |s| % 3;
      Assoc(Letters(Sextets(s[0], s[1], s[2])), Unpadded(s[3..]), Padding(|s|));
    }
  }

  lemma {:induction false} BodyOfPadded(t: seq<Byte>, pad: seq<Byte>)
    requires forall i :: 0 <= i < |t| ==> t[i] != 61
    requires pad == [] || pad[0] == 61
    ensures Body(t + pad) == t
  {
    if t == [] {
      assert t + pad == pad;
    } else {
      assert (t + pad)[1..] == t[1..] + pad;
      BodyOfPadded(t[1..], pad);
    }
  }

  /** Four letters stand for three bytes, whatever follows. */
  lemma BytesOfBlock(t: seq<Byte>, rest: seq<Byte>)
    requires |t| == 4
    ensures Bytes(t + rest) == Octets(ValueOf(t[0]), ValueOf(t[1]), ValueOf(t[2]), ValueOf(t[3])) + Bytes(rest)
  {
    assert (t + rest)[4..] == rest;
  }

  lemma ValuesOfLetters(vs: seq<Sextet>)
    ensures forall i :: 0 <= i < |vs| ==> ValueOf(Letters(vs)[i]) == vs[i]
  {
  }

  lemma {:induction false} BlockComesBack(a: Byte, b: Byte, c: Byte, rest: seq<Byte>)
    ensures Bytes(Letters(Sextets(a, b, c)) + rest) == [a, b, c] + Bytes(rest)
  {
    var vs := Sextets(a, b, c);
    OctetsRoundTrip(a, b, c);
    ValuesOfLetters(vs);
    BytesOfBlock(Letters(vs), rest);
  }

  lemma OneComesBack(a: Byte)
    ensures Bytes(Letters(Sextets(a, 0, 0)[..2])) == [a]
  {
    ValuesOfLetters(Sextets(a, 0, 0)[..2]);
    OctetsRoundTrip(a, 0, 0);
  }

  lemma TwoComeBack(a: Byte, b: Byte)
    ensures Bytes(Letters(Sextets(a, b, 0)[..3])) == [a, b]
  {
    ValuesOfLetters(Sextets(a, b, 0)[..3]);
    OctetsRoundTrip(a, b, 0);
  }

  lemma {:induction false} BytesOfUnpadded(s: seq<Byte>)
    ensures Bytes(Unpadded(s)) == s
    decreases |s|
  {
    if |s| == 1 {
      OneComesBack(s[0]);
    } else if |s| == 2 {
      TwoComeBack(s[0], s[1]);
    } else if |s| >= 3 {
      BlockComesBack(s[0], s[1], s[2], Unpadded(s[3..]));
      BytesOfUnpadded(s[3..]);
      assert s == [s[0], s[1], s[2]] + s[3..];
    }
  }

  /** Decoding undoes encoding, for every byte string. */
  lemma {:induction false} Base64RoundTrip(s: seq<Byte>)
    ensures Decoded(Encoded(s)) == Some(s)
  {
    EncodedIsPadded(s);
    BodyOfPadded(Unpadded(s), Padding(|s|));
    BytesOfUnpadded(s);
  }

  // ---------------------------------------------------------------- the same bits

  /** The low `n` bits of a number, most significant first. */
  function BitString(v: nat, n: nat): (bs: seq<int>)
    ensures |bs| == n
    decreases n, v
  {
    if n == 0 then [] else BitString(v / 2, n - 1) + [v % 2]
  }

  function ByteBits(s: seq<Byte>): seq<int> { if s == [] then [] else BitString(s[0], 8) + ByteBits(s[1..]) }

  function LetterBits(t: seq<Byte>): seq<int> { if t == [] then [] else BitString(ValueOf(t[0]), 6) + LetterBits(t[1..]) }

  /** The bits of a number put together from two are theirs. */
  lemma {:induction false} BitStringSplit(h: nat, l: nat, n: nat, k: nat)
    requires l < Pow2(k)
    ensures BitString(Shl(h, k) + l, n + k) == BitString(h, n) + BitString(l, k)
    decreases k
  {
    if k != 0 {
      assert (Shl(h, k) + l) / 2 == Shl(h, k - 1) + l / 2 && (Shl(h, k) + l) % 2 == l % 2;
      BitStringSplit(h, l / 2, n, k - 1);
      Assoc(BitString(h, n), BitString(l / 2, k - 1), [l % 2]);
    }
  }

  lemma SmallPowers()
    ensures Pow2(2) == 4 && Pow2(4) == 16 && Pow2(6) == 64
  {
    assert Pow2(3) == 8;
    assert Pow2(5) == 32;
  }

  lemma {:induction false} Split2(x: nat, h: nat, l: nat, n: nat)
    requires l < 4 && x == h * 4 + l
    ensures BitString(x, n + 2) == BitString(h, n) + BitString(l, 2)
  {
    SmallPowers();
    ShlIsMul(h, 2);
    BitStringSplit(h, l, n, 2);
  }

  lemma {:induction false} Split4(x: nat, h: nat, l: nat, n: nat)
    requires l < 16 && x == h * 16 + l
    ensures BitString(x, n + 4) == BitString(h, n) + BitString(l, 4)
  {
    SmallPowers();
    ShlIsMul(h, 4);
    BitStringSplit(h, l, n, 4);
  }

  lemma {:induction false} Split6(x: nat, h: nat, l: nat, n: nat)
    requires l < 64 && x == h * 64 + l
    ensures BitString(x, n + 6) == BitString(h, n) + BitString(l, 6)
  {
    SmallPowers();
    ShlIsMul(h, 6);
    BitStringSplit(h, l, n, 6);
  }

  lemma Regroup(p: seq<int>, q: seq<int>, r: seq<int>, s: seq<int>, t: seq<int>, u: seq<int>,
                v: seq<int>, w: seq<int>, a: seq<int>, b: seq<int>, c: seq<int>)
    requires v == q + r && w == s + t && a == p + q && b == r + s && c == t + u
    ensures p + v + w + u == a + b + c
  {
    Assoc(p, q, r);
    Assoc(p + q, r, s + t);
    Assoc(r, s, t);
    Assoc(a + b, t, u);
    Assoc(a, b, t);
  }

  /** Six pieces of 24 bits, joined to sextets `v`, `w` and joined to bytes `a`, `b`, `c`. */
  lemma {:induction false} PiecesBits(p: nat, q: nat, r: nat, s: nat, t: nat, u: nat, v: nat, w: nat, a: nat, b: nat, c: nat)
    requires q < 4 && r < 16 && s < 16 && t < 4 && u < 64
    requires v == q * 16 + r && w == s * 4 + t && a == p * 4 + q && b == r * 16 + s && c == t * 64 + u
    ensures BitString(p, 6) + BitString(v, 6) + BitString(w, 6) + BitString(u, 6)
      == BitString(a, 8) + BitString(b, 8) + BitString(c, 8)
  {
    Split2(a, p, q, 6);
    Split4(b, r, s, 4);
    Split6(c, t, u, 2);
    Split4(v, q, r, 2);
    Split2(w, s, t, 4);
    Regroup(BitString(p, 6), BitString(q, 2), BitString(r, 4), BitString(s, 4), BitString(t, 2), BitString(u, 6),
            BitString(v, 6), BitString(w, 6), BitString(a, 8), BitString(b, 8), BitString(c, 8));
  }

  /** Three bytes and their four sextets are the same 24 bits. */
  lemma {:induction false} BlockBits(a: Byte, b: Byte, c: Byte)
    ensures var v := Sextets(a, b, c);
      BitString(v[0], 6) + BitString(v[1], 6) + BitString(v[2], 6) + BitString(v[3], 6)
      == BitString(a, 8) + BitString(b, 8) + BitString(c, 8)
  {
    PiecesBits(a / 4, a % 4, b / 16, b % 16, c / 64, c % 64, a % 4 * 16 + b / 16, b % 16 * 4 + c / 64, a, b, c);
  }

  function Zeros(n: nat): seq<int> { seq(n, i => 0) }

  lemma LetterBitsOf(vs: seq<Sextet>, rest: seq<Byte>)
    requires |vs| == 4
    ensures LetterBits(Letters(vs) + rest)
      == BitString(vs[0], 6) + BitString(vs[1], 6) + BitString(vs[2], 6) + BitString(vs[3], 6) + LetterBits(rest)
  {
    var t := Letters(vs) + rest;
    ValuesOfLetters(vs);
    assert t[1..][1..] == t[2..] && t[2..][1..] == t[3..] && t[3..][1..] == rest;
    assert LetterBits(t[3..]) == BitString(vs[3], 6) + LetterBits(rest);
    assert LetterBits(t[2..]) == BitString(vs[2], 6) + LetterBits(t[3..]);
    assert LetterBits(t[1..]) == BitString(vs[1], 6) + LetterBits(t[2..]);
  }

  lemma ByteBitsOf(a: Byte, b: Byte, c: Byte, rest: seq<Byte>)
    ensures ByteBits([a, b, c] + rest) == BitString(a, 8) + BitString(b, 8) + BitString(c, 8) + ByteBits(rest)
  {
    var s := [a, b, c] + rest;
    assert s[1..] == [b, c] + rest && s[1..][1..] == [c] + rest && ([c] + rest)[1..] == rest;
    assert ByteBits([c] + rest) == BitString(c, 8) + ByteBits(rest);
    assert ByteBits([b, c] + rest) == BitString(b, 8) + ByteBits([c] + rest);
  }

  /** How many zero bits fill up the last letter. */
  function Fill(n: nat): nat { if n % 3 == 1 then 4 else if n % 3 == 2 then 2 else 0 }

  lemma FillBy3(n: nat)
    requires n >= 3
    ensures Fill(n - 3) == Fill(n)
  {
  }

  /** The letters of an encoding hold the bits of the input, in order, filled up with zeros. */
  lemma {:induction false} EncodingKeepsBits(s: seq<Byte>)
    ensures LetterBits(Unpadded(s)) == ByteBits(s) + Zeros(Fill(|s|))
    decreases |s|
  {
    if |s| == 1 {
      OneByteBits(s[0]);
      assert s == [s[0]];
    } else if |s| == 2 {
      TwoByteBits(s[0], s[1]);
      assert s == [s[0], s[1]];
    } else if |s| >= 3 {
      EncodingKeepsBits(s[3..]);
      FirstBlockBits(s, Unpadded(s[3..]));
      FillBy3(|s|);
      var head := BitString(s[0], 8) + BitString(s[1], 8) + BitString(s[2], 8);
      Assoc(head, ByteBits(s[3..]), Zeros(Fill(|s|)));
    }
  }

  lemma {:induction false} FirstBlockBits(s: seq<Byte>, rest: seq<Byte>)
    requires |s| >= 3
    ensures var head := BitString(s[0], 8) + BitString(s[1], 8) + BitString(s[2], 8);
      LetterBits(Letters(Sextets(s[0], s[1], s[2])) + rest) == head + LetterBits(rest)
      && ByteBits(s) == head + ByteBits(s[3..])
  {
    LetterBitsOf(Sextets(s[0], s[1], s[2]), rest);
    BlockBits(s[0], s[1], s[2]);
    ByteBitsOf(s[0], s[1], s[2], s[3..]);
    assert s == [s[0], s[1], s[2]] + s[3..];
  }

  lemma {:induction false} OneByteBits(a: Byte)
    ensures LetterBits(Letters(Sextets(a, 0, 0)[..2])) == ByteBits([a]) + Zeros(4)
  {
    var v := Sextets(a, 0, 0);
    BlockBits(a, 0, 0);
    LetterBitsOf2(v);
    assert ByteBits([a]) == BitString(a, 8) + [];
    ZeroBitString(6);
    ZeroBitString(8);
    var x, y := BitString(v[0], 6) + BitString(v[1], 6), BitString(a, 8);
    Assoc(x, Zeros(6), Zeros(6));
    Assoc(y, Zeros(8), Zeros(8));
    assert Zeros(6) + Zeros(6) == Zeros(12) && Zeros(8) + Zeros(8) == Zeros(16);
    Trim(x, y, 12, 4);
  }

  lemma {:induction false} LetterBitsOf2(v: seq<Sextet>)
    requires |v| == 4
    ensures LetterBits(Letters(v[..2])) == BitString(v[0], 6) + BitString(v[1], 6)
  {
    var t := Letters(v[..2]);
    ValuesOfLetters(v[..2]);
    assert LetterBits(t[1..]) == BitString(v[1], 6) + [];
  }

  lemma TwoByteBits(a: Byte, b: Byte)
    ensures LetterBits(Letters(Sextets(a, b, 0)[..3])) == ByteBits([a, b]) + Zeros(2)
  {
    BlockBits(a, b, 0);
    var v := Sextets(a, b, 0);
    LetterBitsOf3(v);
    assert ByteBits([a, b][1..]) == BitString(b, 8) + [];
    assert ByteBits([a, b]) == BitString(a, 8) + ByteBits([a, b][1..]);
    ZeroBitString(6);
    ZeroBitString(8);
    Trim(BitString(v[0], 6) + BitString(v[1], 6) + BitString(v[2], 6), BitString(a, 8) + BitString(b, 8), 6, 2);
  }

  lemma LetterBitsOf3(v: seq<Sextet>)
    requires |v| == 4
    ensures LetterBits(Letters(v[..3])) == BitString(v[0], 6) + BitString(v[1], 6) + BitString(v[2], 6)
  {
    var t := Letters(v[..3]);
    ValuesOfLetters(v[..3]);
    assert t[1..][1..] == t[2..];
    assert LetterBits(t[2..]) == BitString(v[2], 6) + [];
    assert LetterBits(t[1..]) == BitString(v[1], 6) + LetterBits(t[2..]);
  }

  lemma {:induction false} ZeroBitString(n: nat)
    ensures BitString(0, n) == Zeros(n)
  {
    if n != 0 {
      ZeroBitString(n - 1);
    }
  }

  /** `n` zeros at the end on one side leave the others. */
  lemma Trim(x: seq<int>, y: seq<int>, n: nat, m: nat)
    requires x + Zeros(n) == y + Zeros(n + m)
    ensures x == y + Zeros(m)
  {
    var z := y + Zeros(n + m);
    assert |x + Zeros(n)| == |z|;
    forall i | 0 <= i < |x| ensures x[i] == (y + Zeros(m))[i] {
      assert (x + Zeros(n))[i] == z[i];
    }
  }

  // ---------------------------------------------------------------- the other alphabet and sizes

  /** The same text in the alphabet of section 5. */
  function UrlSafe(t: seq<Byte>): (u: seq<Byte>)
    ensures |u| == |t|
  {
    seq(|t|, i requires 0 <= i < |t| => if t[i] == 43 then 45 else if t[i] == 47 then 95 else t[i])
  }

  lemma UrlSafeIsValid(t: seq<Byte>)
    ensures IsValid(UrlSafe(t)) <==> IsValid(t)
  {
    var u := UrlSafe(t);
    forall i | 0 <= i < |t| ensures IsValidByte(u[i]) <==> IsValidByte(t[i]) {
    }
  }

  lemma {:induction false} UrlSafeBody(t: seq<Byte>)
    ensures Body(UrlSafe(t)) == UrlSafe(Body(t))
  {
    if t != [] && t[0] != 61 {
      assert UrlSafe(t)[1..] == UrlSafe(t[1..]);
      UrlSafeBody(t[1..]);
      assert UrlSafe([t[0]] + Body(t[1..])) == [UrlSafe(t)[0]] + UrlSafe(Body(t[1..]));
    }
  }

  lemma {:induction false} UrlSafeBytes(t: seq<Byte>)
    ensures Bytes(UrlSafe(t)) == Bytes(t)
    decreases |t|
  {
    var u := UrlSafe(t);
    assert forall i :: 0 <= i < |t| ==> ValueOf(u[i]) == ValueOf(t[i]);
    if |t| >= 4 {
      assert u[4..] == UrlSafe(t[4..]);
      UrlSafeBytes(t[4..]);
    }
  }

  /** Both alphabets decode alike, valid or not. */
  lemma UrlSafeDecodesAlike(t: seq<Byte>)
    ensures Decoded(UrlSafe(t)) == Decoded(t)
  {
    UrlSafeIsValid(t);
    UrlSafeBody(t);
    UrlSafeBytes(Body(t));
  }

  lemma {:induction false} BytesLength(t: seq<Byte>)
    ensures |Bytes(t)| == |t| * 3 / 4
    decreases |t|
  {
    if |t| >= 4 {
      BytesLength(t[4..]);
    }
  }

  /** `BASE64_DECODED_MAX_SIZE` */
  lemma DecodedFits(t: seq<Byte>)
    ensures Decoded(t).Some? ==> |Decoded(t).value| <= (|t| + 3) / 4 * 3
  {
    BytesLength(Body(t));
  }

  // ---------------------------------------------------------------- the encoder

  /** 24 bits, as three bytes. */
  function Tmp8(a: Byte, b: Byte, c: Byte): int { (a as int) * 65536 + (b as int) * 256 + c as int }

  /** 24 bits, as four sextets. */
  function Tmp6(p: Sextet, q: Sextet, r: Sextet, t: Sextet): int {
    (p as int) * 262144 + (q as int) * 4096 + (r as int) * 64 + t as int
  }

  lemma {:induction false} SextetsOfTmp(p: Sextet, q: Sextet, r: Sextet, t: Sextet)
    ensures var x := Tmp6(p, q, r, t);
      x / 262144 == p && x / 4096 % 64 == q && x / 64 % 64 == r && x % 64 == t
  {
    var x := Tmp6(p, q, r, t);
    assert x / 4096 == (p as int) * 64 + q as int;
    assert x / 64 == ((p as int) * 64 + q as int) * 64 + r as int;
  }

  lemma OctetsOfTmp(a: Byte, b: Byte, c: Byte)
    ensures var x := Tmp8(a, b, c); x / 65536 == a && x / 256 % 256 == b && x % 256 == c
  {
    var x := Tmp8(a, b, c);
    assert x / 256 == (a as int) * 256 + b as int;
  }

  lemma SameTmp(a: Byte, b: Byte, c: Byte)
    ensures var v := Sextets(a, b, c); Tmp6(v[0], v[1], v[2], v[3]) == Tmp8(a, b, c)
  {
  }

  lemma SameTmpBack(p: Sextet, q: Sextet, r: Sextet, t: Sextet)
    ensures var o := Octets(p, q, r, t); Tmp8(o[0], o[1], o[2]) == Tmp6(p, q, r, t)
  {
  }

  lemma {:induction false} TmpSextets(a: Byte, b: Byte, c: Byte)
    ensures var x := Tmp8(a, b, c); var v := Sextets(a, b, c);
      x / 262144 == v[0] && x / 4096 % 64 == v[1] && x / 64 % 64 == v[2] && x % 64 == v[3]
  {
    SameTmp(a, b, c);
    var v := Sextets(a, b, c);
    SextetsOfTmp(v[0], v[1], v[2], v[3]);
  }

  lemma TmpOctets(p: Sextet, q: Sextet, r: Sextet, t: Sextet)
    ensures var x := Tmp6(p, q, r, t); var o := Octets(p, q, r, t);
      x / 65536 == o[0] && x / 256 % 256 == o[1] && x % 256 == o[2]
  {
    SameTmpBack(p, q, r, t);
    var o := Octets(p, q, r, t);
    OctetsOfTmp(o[0], o[1], o[2]);
  }

  /** One round of the loop of `base64_encode`. */
  method EncodeBlock(dst: array<Byte>, at: nat, a: Byte, b: Byte, c: Byte)
    requires at + 4 <= dst.Length
    modifies dst
    ensures dst[..at + 4] == old(dst[..at]) + Letters(Sextets(a, b, c))
  {
    var tmp := Tmp8(a, b, c);
    TmpSextets(a, b, c);
    dst[at] := Letter(tmp / 262144);
    dst[at + 1] := Letter(tmp / 4096 % 64);
    dst[at + 2] := Letter(tmp / 64 % 64);
    dst[at + 3] := Letter(tmp % 64);
  }

  /** The loop of `base64_encode` over whole blocks. */
  method EncodeBlocks(dst: array<Byte>, src: seq<Byte>) returns (i: nat)
    requires dst.Length >= (|src| + 2) / 3 * 4 + 1
    modifies dst
    ensures i == |src| / 3 && 4 * i <= dst.Length
    ensures dst[..4 * i] + Encoded(src[3 * i..]) == Encoded(src)
  {
    i := 0;
    while i < |src| / 3
      invariant i <= |src| / 3
      invariant dst[..4 * i] + Encoded(src[3 * i..]) == Encoded(src)
    {
      ghost var done := dst[..4 * i];
      EncodedBlockAt(src, 3 * i);
      EncodeBlock(dst, 4 * i, src[3 * i], src[3 * i + 1], src[3 * i + 2]);
      Assoc(done, Letters(Sextets(src[3 * i], src[3 * i + 1], src[3 * i + 2])), Encoded(src[3 * i + 3..]));
      i := i + 1;
    }
  }

  lemma {:induction false} EncodedBlockAt(s: seq<Byte>, k: nat)
    requires k + 3 <= |s|
    ensures Encoded(s[k..]) == Letters(Sextets(s[k], s[k + 1], s[k + 2])) + Encoded(s[k + 3..])
  {
    assert s[k..][3..] == s[k + 3..];
  }

  /** The bits of one or two last bytes, collected. */
  method CollectBytes(rest: seq<Byte>) returns (tmp: int)
    requires 1 <= |rest| <= 2
    ensures tmp == Tmp8(rest[0], if |rest| == 2 then rest[1] else 0, 0)
  {
    tmp := 0;
    var unit := [65536, 256];
    for r := 0 to |rest|
      invariant tmp == (if r > 0 then (rest[0] as int) * 65536 else 0) + (if r > 1 then (rest[1] as int) * 256 else 0)
    {
      tmp := tmp + (rest[r] as int) * unit[r];
    }
  }

  /** Stores `n` letters of 24 collected bits. */
  method PutLetters(dst: array<Byte>, at: nat, tmp: int, n: nat, ghost a: Byte, ghost b: Byte)
    requires n <= 3 && at + n <= dst.Length && tmp == Tmp8(a, b, 0)
    modifies dst
    ensures dst[..at + n] == old(dst[..at]) + Letters(Sextets(a, b, 0)[..n])
  {
    ghost var vs := Sextets(a, b, 0);
    for di := 0 to n
      invariant dst[..at + di] == old(dst[..at]) + Letters(vs[..di])
    {
      SextetAt(a, b, di);
      dst[at + di] := Letter(tmp / Unit(di) % 64);
      assert Letters(vs[..di + 1]) == Letters(vs[..di]) + [Letter(vs[di])];
      assert dst[..at + di + 1] == dst[..at + di] + [dst[at + di]];
    }
  }

  /** What shifting right by six bits less for each letter divides by. */
  function Unit(di: nat): nat
    requires di < 3
  {
    [262144, 4096, 64][di]
  }

  lemma {:induction false} SextetAt(a: Byte, b: Byte, di: nat)
    requires di < 3
    ensures Unit(di) > 0 && Tmp8(a, b, 0) / Unit(di) % 64 == Sextets(a, b, 0)[di]
  {
    TmpSextets(a, b, 0);
  }

  /** The rest of `base64_encode`: one or two last bytes. */
  method EncodeRest(dst: array<Byte>, at: nat, rest: seq<Byte>)
    requires 1 <= |rest| <= 2 && dst.Length >= at + 5
    modifies dst
    ensures dst[..at + 4] == old(dst[..at]) + Encoded(rest)
    ensures dst[at + 4] == 0
  {
    var tmp := CollectBytes(rest);
    var rem := |rest|;
    ghost var done, vs := dst[..at], Sextets(rest[0], if rem == 2 then rest[1] else 0, 0);
    PutLetters(dst, at, tmp, rem + 1, rest[0], if rem == 2 then rest[1] else 0);
    ghost var letters := Letters(vs[..rem + 1]);
    for di := rem + 1 to 4
      invariant dst[..at + di] == done + letters + [61, 61][..di - rem - 1]
    {
      dst[at + di] := 61;
      assert dst[..at + di + 1] == dst[..at + di] + [dst[at + di]];
    }
    dst[at + 4] := 0;
    Assoc(done, letters, [61, 61][..3 - rem]);
  }

  /** `base64_encode`: fills exactly `BASE64_ENCODED_SIZE` bytes, terminator included. */
  method Base64Encode(dst: array<Byte>, src: seq<Byte>)
    requires dst.Length >= (|src| + 2) / 3 * 4 + 1
    modifies dst
    ensures dst[..(|src| + 2) / 3 * 4] == Encoded(src)
    ensures dst[(|src| + 2) / 3 * 4] == 0
  {
    var i := EncodeBlocks(dst, src);
    if |src| % 3 == 0 {
      assert src[3 * i..] == [];
      dst[4 * i] := 0;
      return;
    }
    ghost var done := dst[..4 * i];
    EncodeRest(dst, 4 * i, src[3 * i..]);
  }

  // ---------------------------------------------------------------- the decoder

  /** `base64_is_valid` */
  method CheckValid(src: seq<Byte>) returns (ok: bool)
    ensures ok <==> IsValid(src)
  {
    for i := 0 to |src|
      invariant forall k :: 0 <= k < i ==> IsValidByte(src[k])
    {
      if !IsValidByte(src[i]) {
        return false;
      }
    }
    return true;
  }

  /** `strcspn(src, "=")` */
  method BodyLength(src: seq<Byte>) returns (n: nat)
    ensures n <= |src| && src[..n] == Body(src)
  {
    n := 0;
    while n < |src| && src[n] != 61
      invariant n <= |src|
      invariant src[..n] + Body(src[n..]) == Body(src)
    {
      assert src[n..][1..] == src[n + 1..];
      assert src[..n + 1] == src[..n] + [src[n]];
      Assoc(src[..n], [src[n]], Body(src[n + 1..]));
      n := n + 1;
    }
  }

  /** One round of the loop of `base64_decode`. */
  method DecodeBlock(dst: array<Byte>, at: nat, p: Sextet, q: Sextet, r: Sextet, u: Sextet)
    requires at + 3 <= dst.Length
    modifies dst
    ensures dst[..at + 3] == old(dst[..at]) + Octets(p, q, r, u)
  {
    var tmp := Tmp6(p, q, r, u);
    TmpOctets(p, q, r, u);
    dst[at] := tmp / 65536;
    dst[at + 1] := tmp / 256 % 256;
    dst[at + 2] := tmp % 256;
  }

  /** The loop of `base64_decode` over whole blocks. */
  method DecodeBlocks(dst: array<Byte>, t: seq<Byte>) returns (i: nat)
    requires dst.Length >= (|t| + 3) / 4 * 3
    modifies dst
    ensures i == |t| / 4 && 3 * i <= dst.Length
    ensures dst[..3 * i] + Bytes(t[4 * i..]) == Bytes(t)
  {
    i := 0;
    while i < |t| / 4
      invariant i <= |t| / 4
      invariant dst[..3 * i] + Bytes(t[4 * i..]) == Bytes(t)
    {
      ghost var done := dst[..3 * i];
      BytesOfBlockAt(t, 4 * i);
      DecodeBlock(dst, 3 * i, ValueOf(t[4 * i]), ValueOf(t[4 * i + 1]), ValueOf(t[4 * i + 2]), ValueOf(t[4 * i + 3]));
      Assoc(done, BlockAt(t, 4 * i), Bytes(t[4 * i + 4..]));
      i := i + 1;
    }
  }

  function BlockAt(t: seq<Byte>, k: nat): seq<Byte>
    requires k + 4 <= |t|
  {
    Octets(ValueOf(t[k]), ValueOf(t[k + 1]), ValueOf(t[k + 2]), ValueOf(t[k + 3]))
  }

  lemma {:induction false} BytesOfBlockAt(t: seq<Byte>, k: nat)
    requires k + 4 <= |t|
    ensures Bytes(t[k..]) == BlockAt(t, k) + Bytes(t[k + 4..])
  {
    assert t[k..][4..] == t[k + 4..];
  }

  /** The rest of `base64_decode`: up to three last letters. */
  method DecodeRest(dst: array<Byte>, at: nat, rest: seq<Byte>) returns (di: nat)
    requires 1 <= |rest| <= 3 && dst.Length >= at + 3
    modifies dst
    ensures di <= 2 && dst[..at + di] == old(dst[..at]) + Bytes(rest)
  {
    var tmp: int := 0;
    var unit := [262144, 4096, 64];
    ghost var q: Sextet := if |rest| > 1 then ValueOf(rest[1]) else 0;
    ghost var r: Sextet := if |rest| > 2 then ValueOf(rest[2]) else 0;
    for k := 0 to |rest|
      invariant tmp == (if k > 0 then (ValueOf(rest[0]) as int) * 262144 else 0)
        + (if k > 1 then (q as int) * 4096 else 0) + (if k > 2 then (r as int) * 64 else 0)
    {
      tmp := tmp + (ValueOf(rest[k]) as int) * unit[k];
    }
    TmpOctets(ValueOf(rest[0]), q, r, 0);
    assert tmp == Tmp6(ValueOf(rest[0]), q, r, 0) && tmp / 65536 % 256 == tmp / 65536;
    ghost var octets := Octets(ValueOf(rest[0]), q, r, 0);
    var steps := [65536, 256];
    ghost var done := dst[..at];
    di := 0;
    while di < |rest| * 3 / 4
      invariant di <= |rest| * 3 / 4 <= 2
      invariant dst[..at + di] == done + octets[..di]
    {
      dst[at + di] := tmp / steps[di] % 256;
      assert octets[..di + 1] == octets[..di] + [octets[di]];
      assert dst[..at + di + 1] == dst[..at + di] + [dst[at + di]];
      di := di + 1;
    }
  }

  lemma RoomForRest(len: nat, n: nat)
    requires len <= n && len % 4 != 0
    ensures 3 * (len / 4) + 3 <= (n + 3) / 4 * 3
  {
    assert len / 4 + 1 == (len + 3) / 4;
    assert (len + 3) / 4 <= (n + 3) / 4;
  }

  /** `base64_decode`: -1 for an invalid text, else the number of bytes written. */
  method Base64Decode(dst: array<Byte>, src: seq<Byte>) returns (n: int)
    requires dst.Length >= (|src| + 3) / 4 * 3
    modifies dst
    ensures match Decoded(src)
      case None => n == -1 && dst[..] == old(dst[..])
      case Some(bytes) => n == |bytes| && n <= dst.Length && dst[..n] == bytes
  {
    var ok := CheckValid(src);
    if !ok {
      return -1;
    }
    var len := BodyLength(src);
    var t := src[..len];
    var i := DecodeBlocks(dst, t);
    if |t| % 4 == 0 {
      assert t[4 * i..] == [];
      return 3 * i;
    }
    RoomForRest(|t|, |src|);
    var di := DecodeRest(dst, 3 * i, t[4 * i..]);
    assert dst[..3 * i + di] == Bytes(t);
    return 3 * i + di;
  }
}
