/** Pixel formats, the conversion of pixels between them, and their form on the wire. */
module Pixels {
  import opened Common
  import opened Bits

  /** One colour channel: where it lies in a pixel, its width and its largest value. */
  datatype Channel = Channel(shift: nat, size: nat, max: nat)

  datatype Format = Format(bytesPerPixel: nat, red: Channel, green: Channel, blue: Channel)

  // ---------------------------------------------------------------- one pixel

  /** Shifts left are cut to 32 bits. */
  function Shl32(x: nat, k: nat): nat { Low(Shl(x, k), 32) }

  function Extract(px: nat, c: Channel): nat { And(Shr(px, c.shift), c.max) }

  function Rescale(v: nat, from: nat, to: nat): nat { Shr(Shl32(v, to), from) }

  /** Three channel values put together. */
  function Pack(f: Format, r: nat, g: nat, b: nat): nat {
    Or(Or(Shl32(r, f.red.shift), Shl32(g, f.green.shift)), Shl32(b, f.blue.shift))
  }

  /** `convert_pixel` */
  function ConvertPixel(px: nat, s: Format, d: Format): nat {
    Pack(d, Rescale(Extract(px, s.red), s.red.size, d.red.size),
            Rescale(Extract(px, s.green), s.green.size, d.green.size),
            Rescale(Extract(px, s.blue), s.blue.size, d.blue.size))
  }

  // ---------------------------------------------------------------- well-formed formats

  /** A channel of a format of `n` bits; 16-bit maxima are all that the wire can express. */
  predicate ChannelOk(c: Channel, n: nat) {
    c.size <= 16 && c.shift + c.size <= n && c.max == Pow2(c.size) - 1
  }

  predicate Apart(c: Channel, d: Channel) { c.shift + c.size <= d.shift || d.shift + d.size <= c.shift }

  predicate FormatOk(f: Format) {
    && 1 <= f.bytesPerPixel <= 4
    && ChannelOk(f.red, 8 * f.bytesPerPixel) && ChannelOk(f.green, 8 * f.bytesPerPixel)
    && ChannelOk(f.blue, 8 * f.bytesPerPixel)
    && Apart(f.red, f.green) && Apart(f.red, f.blue) && Apart(f.green, f.blue)
  }

  // ---------------------------------------------------------------- channels do not mix

  lemma ExtractBit(px: nat, c: Channel, i: nat)
    requires c.max == Pow2(c.size) - 1
    ensures Bit(Extract(px, c), i) == (i < c.size && Bit(px, c.shift + i))
  {
    MaskIsLow(Shr(px, c.shift), c.size);
    BitLow(Shr(px, c.shift), c.size, i);
    BitShr(px, c.shift, i);
  }

  lemma ExtractLess(px: nat, c: Channel)
    requires c.max == Pow2(c.size) - 1
    ensures Extract(px, c) < Pow2(c.size)
  {
    MaskIsLow(Shr(px, c.shift), c.size);
    LowLess(Shr(px, c.shift), c.size);
  }

  /** A value placed in its channel occupies that channel and nothing else. */
  lemma PlacedBit(v: nat, c: Channel, i: nat)
    requires ChannelOk(c, 32) && v < Pow2(c.size)
    ensures Bit(Shl32(v, c.shift), i) == (c.shift <= i < c.shift + c.size && Bit(v, i - c.shift))
  {
    BitLow(Shl(v, c.shift), 32, i);
    BitShl(v, c.shift, i);
    if i >= c.shift + c.size {
      HighBits(v, c.size, i - c.shift);
    }
  }

  predicate Fits(f: Format, r: nat, g: nat, b: nat) {
    r < Pow2(f.red.size) && g < Pow2(f.green.size) && b < Pow2(f.blue.size)
  }

  predicate Holds(c: Channel, i: nat) { c.shift <= i < c.shift + c.size }

  lemma PackBit(f: Format, r: nat, g: nat, b: nat, i: nat)
    requires FormatOk(f) && Fits(f, r, g, b)
    ensures Bit(Pack(f, r, g, b), i) == (
      || (Holds(f.red, i) && Bit(r, i - f.red.shift))
      || (Holds(f.green, i) && Bit(g, i - f.green.shift))
      || (Holds(f.blue, i) && Bit(b, i - f.blue.shift)))
  {
    BitOr(Or(Shl32(r, f.red.shift), Shl32(g, f.green.shift)), Shl32(b, f.blue.shift), i);
    BitOr(Shl32(r, f.red.shift), Shl32(g, f.green.shift), i);
    PlacedBit(r, f.red, i);
    PlacedBit(g, f.green, i);
    PlacedBit(b, f.blue, i);
  }

  /** Unpacking a packed pixel gives every channel back. */
  lemma {:induction false} PackRoundTrip(f: Format, r: nat, g: nat, b: nat)
    requires FormatOk(f) && Fits(f, r, g, b)
    ensures var px := Pack(f, r, g, b);
      Extract(px, f.red) == r && Extract(px, f.green) == g && Extract(px, f.blue) == b
  {
    var px := Pack(f, r, g, b);
    forall i: nat ensures BitOf3(px, i, f.red, r, f.green, g, f.blue, b) {
      PackBit(f, r, g, b, i);
    }
    ChannelComesBack(px, f.red, r, f.green, g, f.blue, b);
    assert forall i: nat {:trigger BitOf3(px, i, f.green, g, f.red, r, f.blue, b)} ::
      BitOf3(px, i, f.red, r, f.green, g, f.blue, b) ==> BitOf3(px, i, f.green, g, f.red, r, f.blue, b);
    ChannelComesBack(px, f.green, g, f.red, r, f.blue, b);
    assert forall i: nat {:trigger BitOf3(px, i, f.blue, b, f.red, r, f.green, g)} ::
      BitOf3(px, i, f.red, r, f.green, g, f.blue, b) ==> BitOf3(px, i, f.blue, b, f.red, r, f.green, g);
    ChannelComesBack(px, f.blue, b, f.red, r, f.green, g);
  }

  /** Bit `i` of a pixel is that of the channel that holds it. */
  predicate BitOf3(px: nat, i: nat, c: Channel, v: nat, d: Channel, w: nat, e: Channel, x: nat) {
    Bit(px, i) == (
      || (Holds(c, i) && Bit(v, i - c.shift)) || (Holds(d, i) && Bit(w, i - d.shift)) || (Holds(e, i) && Bit(x, i - e.shift)))
  }

  lemma ChannelComesBack(px: nat, c: Channel, v: nat, d: Channel, w: nat, e: Channel, x: nat)
    requires c.max == Pow2(c.size) - 1 && v < Pow2(c.size) && Apart(c, d) && Apart(c, e)
    requires forall i: nat :: BitOf3(px, i, c, v, d, w, e, x)
    ensures Extract(px, c) == v
  {
    forall i: nat ensures Bit(Extract(px, c), i) == Bit(v, i) {
      ExtractBit(px, c, i);
      if i < c.size {
        assert BitOf3(px, c.shift + i, c, v, d, w, e, x);
        assert !Holds(d, c.shift + i) && !Holds(e, c.shift + i);
      } else {
        HighBits(v, c.size, i);
      }
    }
    SameBits(Extract(px, c), v);
  }

  // ---------------------------------------------------------------- what a conversion computes

  lemma {:induction false} RescaleIsFloor(v: nat, from: nat, to: nat)
    requires v < Pow2(from) && from <= 16 && to <= 16
    ensures Rescale(v, from, to) == v * Pow2(to) / Pow2(from) < Pow2(to)
  {
    ShlLess(v, from, to);
    Pow2Mono(from + to, 32);
    LowOfSmall(Shl(v, to), 32);
    ShrLess(Shl(v, to), to, from);
    ShlIsMul(v, to);
    ShrIsDiv(Shl(v, to), from);
  }

  /** What a channel becomes: its share of the range, rounded down. */
  function Scaled(px: nat, s: Channel, d: Channel): int { Extract(px, s) * Pow2(d.size) / Pow2(s.size) }

  /**
    Every channel of the converted pixel is the source channel scaled and rounded down, and
    the pixel holds nothing else.
   */
  lemma {:induction false} ConversionScalesChannels(px: nat, s: Format, d: Format)
    requires FormatOk(s) && FormatOk(d)
    ensures var c := ConvertPixel(px, s, d);
      && Extract(c, d.red) == Scaled(px, s.red, d.red)
      && Extract(c, d.green) == Scaled(px, s.green, d.green)
      && Extract(c, d.blue) == Scaled(px, s.blue, d.blue)
      && c == Pack(d, Extract(c, d.red), Extract(c, d.green), Extract(c, d.blue))
  {
    ExtractLess(px, s.red);
    ExtractLess(px, s.green);
    ExtractLess(px, s.blue);
    RescaleIsFloor(Extract(px, s.red), s.red.size, d.red.size);
    RescaleIsFloor(Extract(px, s.green), s.green.size, d.green.size);
    RescaleIsFloor(Extract(px, s.blue), s.blue.size, d.blue.size);
    PackRoundTrip(d, Scaled(px, s.red, d.red), Scaled(px, s.green, d.green), Scaled(px, s.blue, d.blue));
  }

  predicate Wider(s: Format, d: Format) {
    s.red.size <= d.red.size && s.green.size <= d.green.size && s.blue.size <= d.blue.size
  }

  lemma {:induction false} WidenNarrow(v: nat, from: nat, to: nat)
    requires v < Pow2(from) && from <= to <= 16
    ensures Rescale(Rescale(v, from, to), to, from) == v
  {
    RescaleIsFloor(v, from, to);
    var w := Rescale(v, from, to);
    RescaleIsFloor(w, to, from);
    ShrOfShl(v, from, to);
    ShlIsMul(v, to);
    ShrIsDiv(Shl(v, to), from);
    ShrOfShlBack(v, from, to);
    ShlIsMul(w, from);
    ShrIsDiv(Shl(w, from), to);
  }

  lemma {:induction false} ShrOfShl(v: nat, from: nat, to: nat)
    requires from <= to
    ensures Shr(Shl(v, to), from) == Shl(v, to - from)
  {
    if from != 0 {
      assert Shl(v, to) / 2 == Shl(v, to - 1);
      ShrOfShl(v, from - 1, to - 1);
    }
  }

  lemma {:induction false} ShrOfShlBack(v: nat, from: nat, to: nat)
    requires from <= to
    ensures Shr(Shl(Shl(v, to - from), from), to) == v
  {
    ShlShl(v, to - from, from);
    ShrShl(v, to);
  }

  lemma {:induction false} ShlShl(v: nat, a: nat, b: nat)
    ensures Shl(Shl(v, a), b) == Shl(v, a + b)
  {
    if b != 0 {
      ShlShl(v, a, b - 1);
    }
  }

  /** Widening and narrowing again gives the pixel back, without what was not colour. */
  lemma {:induction false} WidenThenNarrow(px: nat, s: Format, d: Format)
    requires FormatOk(s) && FormatOk(d) && Wider(s, d)
    ensures ConvertPixel(ConvertPixel(px, s, d), d, s) == Pack(s, Extract(px, s.red), Extract(px, s.green), Extract(px, s.blue))
  {
    ExtractLess(px, s.red);
    ExtractLess(px, s.green);
    ExtractLess(px, s.blue);
    var r, g, b := Extract(px, s.red), Extract(px, s.green), Extract(px, s.blue);
    RescaleIsFloor(r, s.red.size, d.red.size);
    RescaleIsFloor(g, s.green.size, d.green.size);
    RescaleIsFloor(b, s.blue.size, d.blue.size);
    PackRoundTrip(d, Rescale(r, s.red.size, d.red.size), Rescale(g, s.green.size, d.green.size),
                  Rescale(b, s.blue.size, d.blue.size));
    WidenNarrow(r, s.red.size, d.red.size);
    WidenNarrow(g, s.green.size, d.green.size);
    WidenNarrow(b, s.blue.size, d.blue.size);
  }

  // ---------------------------------------------------------------- rows of pixels

  /** Where pixel `i` of a row begins. */
  function Offset(bpp: nat, i: nat): nat { if i == 0 then 0 else Offset(bpp, i - 1) + bpp }

  lemma {:induction false} OffsetMono(bpp: nat, i: nat, j: nat)
    requires i <= j
    ensures Offset(bpp, i) <= Offset(bpp, j)
  {
    if i < j {
      OffsetMono(bpp, i, j - 1);
    }
  }

  lemma {:induction false} OffsetIsProduct(bpp: nat, i: nat)
    ensures Offset(bpp, i) == bpp * i
  {
    if i != 0 {
      OffsetIsProduct(bpp, i - 1);
    }
  }

  lemma {:induction false} OffsetOf3(i: nat)
    ensures Offset(3, i) == 3 * i
  {
    if i != 0 {
      OffsetOf3(i - 1);
    }
  }

  /** The bytes of pixel `i` of a row. */
  function PixelBytes(src: seq<Byte>, bpp: nat, i: nat): seq<Byte>
    requires Offset(bpp, i + 1) <= |src|
  {
    src[Offset(bpp, i)..Offset(bpp, i + 1)]
  }

  /** A row of `n` pixels of `from` bytes, converted one by one to pixels of `to` bytes. */
  function Converted(src: seq<Byte>, from: nat, to: nat, recipe: nat -> nat, n: nat): (r: seq<Byte>)
    requires Offset(from, n) <= |src|
    ensures |r| == Offset(to, n)
  {
    if n == 0 then []
    else Converted(src, from, to, recipe, n - 1) + LeBytes(recipe(LeNat(PixelBytes(src, from, n - 1))), to)
  }

  /** Stores the low `n` bytes of a pixel. */
  method StorePixel(dst: array<Byte>, at: nat, px: nat, n: nat)
    requires at + n <= dst.Length
    modifies dst
    ensures dst[..at + n] == old(dst[..at]) + LeBytes(px, n)
    ensures forall i :: at + n <= i < dst.Length ==> dst[i] == old(dst[i])
  {
    var rest := px;
    for k := 0 to n
      invariant dst[..at + k] + LeBytes(rest, n - k) == old(dst[..at]) + LeBytes(px, n)
      invariant forall i :: at + k <= i < dst.Length ==> dst[i] == old(dst[i])
    {
      ghost var before, tail := dst[..at + k], LeBytes(rest, n - k);
      assert tail == [rest % 256] + LeBytes(rest / 256, n - k - 1);
      dst[at + k] := rest % 256;
      assert dst[..at + k + 1] == before + [rest % 256];
      rest := rest / 256;
    }
  }

  /** `convert_pixels_dstN_src`: the plain loop. */
  method ConvertPlain(dst: array<Byte>, src: seq<Byte>, from: nat, to: nat, recipe: nat -> nat, len: nat)
    requires Offset(from, len) <= |src| && Offset(to, len) <= dst.Length
    modifies dst
    ensures dst[..Offset(to, len)] == Converted(src, from, to, recipe, len)
    ensures forall i :: Offset(to, len) <= i < dst.Length ==> dst[i] == old(dst[i])
  {
    var r, w := 0, 0;
    for i := 0 to len
      invariant r == Offset(from, i) <= |src| && w == Offset(to, i) <= dst.Length
      invariant dst[..w] == Converted(src, from, to, recipe, i)
      invariant forall k :: w <= k < dst.Length ==> dst[k] == old(dst[k])
    {
      OffsetMono(from, i + 1, len);
      OffsetMono(to, i + 1, len);
      var px := LeNat(src[r..r + from]);
      r := r + from;
      StorePixel(dst, w, recipe(px), to);
      w := w + to;
    }
  }

  predicate IgnoresFourth(recipe: nat -> nat, bs: seq<Byte>)
    requires |bs| == 4
  {
    recipe(LeNat(bs)) == recipe(LeNat(bs[..3]))
  }

  lemma FourOrThree(recipe: nat -> nat, src: seq<Byte>, i: nat)
    requires 3 * i == Offset(3, i) && 3 * i + 4 <= |src|
    requires forall bs: seq<Byte> :: |bs| == 4 ==> IgnoresFourth(recipe, bs)
    ensures recipe(LeNat(src[3 * i..3 * i + 4])) == recipe(LeNat(PixelBytes(src, 3, i)))
  {
    assert IgnoresFourth(recipe, src[3 * i..3 * i + 4]);
    assert src[3 * i..3 * i + 4][..3] == PixelBytes(src, 3, i);
  }

  /** One turn of the loop of `convert_pixels_dstN_src3`: a pixel loaded as four bytes. */
  method ConvertOneOf3(dst: array<Byte>, src: seq<Byte>, to: nat, recipe: nat -> nat, i: nat, w: nat)
    requires 3 * i == Offset(3, i) && 3 * (i + 1) == Offset(3, i + 1) && 3 * i + 4 <= |src|
    requires w == Offset(to, i) && w + to <= dst.Length
    requires dst[..w] == Converted(src, 3, to, recipe, i)
    requires forall bs: seq<Byte> :: |bs| == 4 ==> IgnoresFourth(recipe, bs)
    modifies dst
    ensures w + to == Offset(to, i + 1) && dst[..w + to] == Converted(src, 3, to, recipe, i + 1)
    ensures forall k :: w + to <= k < dst.Length ==> dst[k] == old(dst[k])
  {
    FourOrThree(recipe, src, i);
    ConvertedSnoc(src, 3, to, recipe, i);
    var px := LeNat(src[3 * i..3 * i + 4]);
    StorePixel(dst, w, recipe(px), to);
  }

  /** The loop of `convert_pixels_dstN_src3`: all pixels but the last, loaded four bytes at a time. */
  method ConvertAllButLast(dst: array<Byte>, src: seq<Byte>, to: nat, recipe: nat -> nat, len: nat) returns (w: nat)
    requires len >= 1 && |src| == 3 * len == Offset(3, len) && Offset(to, len) <= dst.Length
    requires forall bs: seq<Byte> :: |bs| == 4 ==> IgnoresFourth(recipe, bs)
    modifies dst
    ensures Offset(3, len - 1) == 3 * (len - 1) && w == Offset(to, len - 1) <= dst.Length
    ensures dst[..w] == Converted(src, 3, to, recipe, len - 1)
    ensures forall k :: w <= k < dst.Length ==> dst[k] == old(dst[k])
  {
    var i, last := 0, len - 1;
    w := 0;
    OffsetMono(to, last, len);
    OffsetMono(3, last, len);
    while i < last
      invariant i <= last && w == Offset(to, i) <= dst.Length && 3 * i == Offset(3, i) <= |src|
      invariant dst[..w] == Converted(src, 3, to, recipe, i)
      invariant forall k :: w <= k < dst.Length ==> dst[k] == old(dst[k])
    {
      OffsetMono(to, i + 1, len);
      OffsetMono(3, i + 1, len);
      OffsetOf3(i + 1);
      ConvertOneOf3(dst, src, to, recipe, i, w);
      w := w + to;
      i := i + 1;
    }
  }

  lemma {:induction false} ConvertedSnoc(src: seq<Byte>, from: nat, to: nat, recipe: nat -> nat, n: nat)
    requires Offset(from, n + 1) <= |src|
    ensures Offset(from, n) <= |src|
    ensures Converted(src, from, to, recipe, n + 1)
      == Converted(src, from, to, recipe, n) + LeBytes(recipe(LeNat(PixelBytes(src, from, n))), to)
  {
  }

  /**
    `convert_pixels_dstN_src3`: three-byte pixels. The last one is converted even if the row
    is empty, so the row must not be empty.
   */
  method ConvertFrom3(dst: array<Byte>, src: seq<Byte>, to: nat, recipe: nat -> nat, len: nat)
    requires len >= 1 && |src| == 3 * len && Offset(to, len) <= dst.Length
    requires forall bs: seq<Byte> :: |bs| == 4 ==> IgnoresFourth(recipe, bs)
    modifies dst
    ensures Offset(3, len) == 3 * len
    ensures dst[..Offset(to, len)] == Converted(src, 3, to, recipe, len)
    ensures forall i :: Offset(to, len) <= i < dst.Length ==> dst[i] == old(dst[i])
  {
    OffsetOf3(len);
    var w := ConvertAllButLast(dst, src, to, recipe, len);
    var r := 3 * (len - 1);
    assert w + to == Offset(to, len) && r + 3 == Offset(3, len);
    assert src[r..r + 3] == PixelBytes(src, 3, len - 1);
    var px := LeNat(src[r..r + 3]);
    StorePixel(dst, w, recipe(px), to);
  }

  /** `struct nvnc_format_conversion_recipe` */
  function Recipe(s: Format, d: Format): nat -> nat { (px: nat) => ConvertPixel(px, s, d) }

  /** `nvnc_convert_pixels`: whichever loop is chosen, the row is converted pixel by pixel. */
  method ConvertPixels(dst: array<Byte>, d: Format, src: seq<Byte>, s: Format, len: nat)
    requires FormatOk(s) && 1 <= d.bytesPerPixel <= 4
    requires s.bytesPerPixel == 3 ==> len >= 1
    requires |src| == s.bytesPerPixel * len && Offset(d.bytesPerPixel, len) <= dst.Length
    modifies dst
    ensures Offset(s.bytesPerPixel, len) == |src|
    ensures dst[..Offset(d.bytesPerPixel, len)]
      == Converted(src, s.bytesPerPixel, d.bytesPerPixel, Recipe(s, d), len)
    ensures forall i :: Offset(d.bytesPerPixel, len) <= i < dst.Length ==> dst[i] == old(dst[i])
  {
    OffsetIsProduct(s.bytesPerPixel, len);
    var recipe := Recipe(s, d);
    if s.bytesPerPixel == 3 {
      forall bs: seq<Byte> | |bs| == 4 ensures IgnoresFourth(recipe, bs) {
        FourthByteIsIgnored(bs, s, d);
      }
      ConvertFrom3(dst, src, d.bytesPerPixel, recipe, len);
    } else {
      ConvertPlain(dst, src, s.bytesPerPixel, d.bytesPerPixel, recipe, len);
    }
  }

  /** Of four loaded bytes, only the three of the pixel matter. */
  lemma {:induction false} FourthByteIsIgnored(bs: seq<Byte>, s: Format, d: Format)
    requires |bs| == 4 && FormatOk(s) && s.bytesPerPixel == 3
    ensures ConvertPixel(LeNat(bs), s, d) == ConvertPixel(LeNat(bs[..3]), s, d)
  {
    ExtractIgnoresHigh(bs, s.red);
    ExtractIgnoresHigh(bs, s.green);
    ExtractIgnoresHigh(bs, s.blue);
  }

  lemma ExtractIgnoresHigh(bs: seq<Byte>, c: Channel)
    requires |bs| == 4 && ChannelOk(c, 24)
    ensures Extract(LeNat(bs), c) == Extract(LeNat(bs[..3]), c)
  {
    forall i: nat ensures Bit(Extract(LeNat(bs), c), i) == Bit(Extract(LeNat(bs[..3]), c), i) {
      ExtractBit(LeNat(bs), c, i);
      ExtractBit(LeNat(bs[..3]), c, i);
      LeNatBit(bs, c.shift + i);
      LeNatBit(bs[..3], c.shift + i);
    }
    SameBits(Extract(LeNat(bs), c), Extract(LeNat(bs[..3]), c));
  }

  /** A converted pixel fits the bytes of its format, so what is stored reads back unchanged. */
  lemma {:induction false} StoredPixelReadsBack(px: nat, s: Format, d: Format)
    requires FormatOk(s) && FormatOk(d)
    ensures LeNat(LeBytes(ConvertPixel(px, s, d), d.bytesPerPixel)) == ConvertPixel(px, s, d)
  {
    var c, n := ConvertPixel(px, s, d), 8 * d.bytesPerPixel;
    BytesRoundTrip(c, d.bytesPerPixel);
    ConversionScalesChannels(px, s, d);
    var r, g, b := Extract(c, d.red), Extract(c, d.green), Extract(c, d.blue);
    ExtractLess(c, d.red);
    ExtractLess(c, d.green);
    ExtractLess(c, d.blue);
    forall i: nat ensures Bit(Low(c, n), i) == Bit(c, i) {
      BitLow(c, n, i);
      PackBit(d, r, g, b, i);
    }
    SameBits(Low(c, n), c);
  }

  /** Pixel `i` of a converted row. */
  lemma {:induction false} ConvertedAt(src: seq<Byte>, from: nat, to: nat, recipe: nat -> nat, n: nat, i: nat)
    requires i < n && Offset(from, n) <= |src|
    ensures Offset(from, i + 1) <= |src| && Offset(to, i + 1) <= |Converted(src, from, to, recipe, n)|
    ensures PixelBytes(Converted(src, from, to, recipe, n), to, i) == LeBytes(recipe(LeNat(PixelBytes(src, from, i))), to)
  {
    OffsetMono(from, i + 1, n);
    OffsetMono(to, i + 1, n);
    ConvertedSnoc(src, from, to, recipe, n - 1);
    var front := Converted(src, from, to, recipe, n - 1);
    var last := LeBytes(recipe(LeNat(PixelBytes(src, from, n - 1))), to);
    if i < n - 1 {
      OffsetMono(to, i + 1, n - 1);
      ConvertedAt(src, from, to, recipe, n - 1, i);
      SliceOfSum(front, last, Offset(to, i), Offset(to, i + 1));
    } else {
      LastOfSum(front, last);
    }
  }

  lemma LastOfSum(front: seq<Byte>, last: seq<Byte>)
    ensures (front + last)[|front|..|front| + |last|] == last
  {
  }

  lemma SliceOfSum(front: seq<Byte>, last: seq<Byte>, i: nat, j: nat)
    requires i <= j <= |front|
    ensures (front + last)[i..j] == front[i..j]
  {
  }

  /**
    A reader of the converted row finds in each pixel the scaled channels of the source pixel:
    neither the stores nor their neighbours cut anything off.
   */
  lemma {:induction false} ConvertedRowReadsBack(src: seq<Byte>, s: Format, d: Format, n: nat, i: nat)
    requires FormatOk(s) && FormatOk(d) && i < n && Offset(s.bytesPerPixel, n) <= |src|
    ensures var row := Converted(src, s.bytesPerPixel, d.bytesPerPixel, Recipe(s, d), n);
      && Offset(s.bytesPerPixel, i + 1) <= |src| && Offset(d.bytesPerPixel, i + 1) <= |row|
      && var px, c := LeNat(PixelBytes(src, s.bytesPerPixel, i)), LeNat(PixelBytes(row, d.bytesPerPixel, i));
        && Extract(c, d.red) == Scaled(px, s.red, d.red)
        && Extract(c, d.green) == Scaled(px, s.green, d.green)
        && Extract(c, d.blue) == Scaled(px, s.blue, d.blue)
  {
    ConvertedAt(src, s.bytesPerPixel, d.bytesPerPixel, Recipe(s, d), n, i);
    var px := LeNat(PixelBytes(src, s.bytesPerPixel, i));
    StoredPixelReadsBack(px, s, d);
    ConversionScalesChannels(px, s, d);
  }

  // ---------------------------------------------------------------- formats on the wire

  /** `struct rfb_pixel_format`; the maxima are stored in network byte order. */
  datatype RfbFormat = RfbFormat(
    bitsPerPixel: Byte, depth: Byte, bigEndian: bool, trueColour: bool,
    redMax: nat, greenMax: nat, blueMax: nat, redShift: Byte, greenShift: Byte, blueShift: Byte)

  /** `htons` and `ntohs` on a little-endian machine. */
  function Swap16(x: nat): nat { x % 256 * 256 + x / 256 % 256 }

  function Depth(f: Format): nat { f.red.size + f.green.size + f.blue.size }

  function ToRfb(f: Format): RfbFormat {
    RfbFormat(
      f.bytesPerPixel * 8 % 256, Depth(f) % 256, false, true,
      Swap16(f.red.max), Swap16(f.green.max), Swap16(f.blue.max),
      f.red.shift % 256, f.green.shift % 256, f.blue.shift % 256)
  }

  function ShiftFromRfb(r: RfbFormat, shift: Byte, size: nat): int {
    if r.bigEndian then r.bitsPerPixel - shift - size else shift
  }

  /** Unsigned differences wrap around. */
  function Wrap32(x: int): nat { x % 0x1_0000_0000 }

  lemma WrapOfSmall(x: int)
    requires 0 <= x < 0x1_0000_0000
    ensures Wrap32(x) == x
  {
  }

  function ChannelFromRfb(r: RfbFormat, max: nat, shift: Byte): Channel {
    var size := PopCount(Swap16(max));
    Channel(Wrap32(ShiftFromRfb(r, shift, size)), size, Swap16(max))
  }

  function FromRfb(r: RfbFormat): Format {
    Format(r.bitsPerPixel / 8,
           ChannelFromRfb(r, r.redMax, r.redShift),
           ChannelFromRfb(r, r.greenMax, r.greenShift),
           ChannelFromRfb(r, r.blueMax, r.blueShift))
  }

  /** What the wire can express of a channel. */
  predicate Expressible(c: Channel) { c.max < 65536 && c.size == PopCount(c.max) && c.shift < 256 }

  lemma {:induction false} SwapBytes(a: Byte, b: Byte)
    ensures Swap16((a as int) * 256 + b as int) == (b as int) * 256 + a as int
  {
  }

  lemma {:induction false} LowTwoBytes(x: nat)
    ensures x % 65536 == x / 256 % 256 * 256 + x % 256
  {
  }

  lemma {:induction false} SwapTwice(x: nat)
    ensures Swap16(Swap16(x)) == x % 65536
  {
    SwapBytes(x % 256, x / 256 % 256);
    LowTwoBytes(x);
  }

  lemma {:induction false} ChannelRoundTrip(r: RfbFormat, c: Channel)
    requires !r.bigEndian
    ensures ChannelFromRfb(r, Swap16(c.max), c.shift % 256) == c <==> Expressible(c)
  {
    SwapTwice(c.max);
    var shift := c.shift % 256;
    assert Wrap32(shift) == shift;
    assert c.max % 65536 == c.max <==> c.max < 65536;
    assert shift == c.shift <==> c.shift < 256;
  }

  lemma BytesFit(n: nat)
    ensures n * 8 % 256 / 8 == n <==> n < 32
  {
  }

  /** The two conversions undo each other exactly for the formats the wire can express. */
  lemma {:induction false} RfbRoundTrip(f: Format)
    ensures FromRfb(ToRfb(f)) == f
      <==> f.bytesPerPixel < 32 && Expressible(f.red) && Expressible(f.green) && Expressible(f.blue)
  {
    var r := ToRfb(f);
    ChannelRoundTrip(r, f.red);
    ChannelRoundTrip(r, f.green);
    ChannelRoundTrip(r, f.blue);
    BytesFit(f.bytesPerPixel);
  }

  lemma {:induction false} OkChannelsAreExpressible(c: Channel, n: nat)
    requires ChannelOk(c, n) && n <= 32
    ensures Expressible(c)
  {
    PopCountOfOnes(c.size);
    Pow2Mono(c.size, 16);
    Pow2Of8();
    assert Pow2(16) == 65536 by {
      ShlIsMul(256, 8);
      ShlIsMul(1, 16);
      ShlShl(1, 8, 8);
      ShlIsMul(1, 8);
    }
  }

  /** Formats with disjoint channels of at most 16 bits survive the wire. */
  lemma {:induction false} OkFormatsSurviveTheWire(f: Format)
    requires FormatOk(f)
    ensures FromRfb(ToRfb(f)) == f
  {
    OkChannelsAreExpressible(f.red, 8 * f.bytesPerPixel);
    OkChannelsAreExpressible(f.green, 8 * f.bytesPerPixel);
    OkChannelsAreExpressible(f.blue, 8 * f.bytesPerPixel);
    RfbRoundTrip(f);
  }

  // ---------------------------------------------------------------- big-endian clients

  /** Where bit `i` of a big-endian pixel of `n` bytes lies when the bytes are read little-endian. */
  function Mirror(n: nat, i: nat): nat
    requires i < 8 * n
  {
    8 * (n - 1 - i / 8) + i % 8
  }

  lemma BeNatBit(bs: seq<Byte>, i: nat)
    requires i < 8 * |bs|
    ensures Bit(BeNat(bs), i) == Bit(LeNat(bs), Mirror(|bs|, i))
  {
    LeNatBit(Reversed(bs), i);
    var m := Mirror(|bs|, i);
    LeNatBit(bs, m);
    assert m / 8 == |bs| - 1 - i / 8 && m % 8 == i % 8;
  }

  /** The channel that the server uses for channel `c` of a big-endian client. */
  function BigEndianChannel(c: Channel, n: nat): Channel
    requires ChannelOk(c, 8 * n)
  {
    Channel(8 * n - c.shift - c.size, c.size, c.max)
  }

  /** The server's little-endian channel means the same as the client's big-endian one. */
  ghost predicate SameMeaning(c: Channel, n: nat)
    requires ChannelOk(c, 8 * n)
  {
    forall bs: seq<Byte> :: |bs| == n ==> Extract(BeNat(bs), c) == Extract(LeNat(bs), BigEndianChannel(c, n))
  }

  lemma CentredChannel(c: Channel, n: nat, bs: seq<Byte>)
    requires ChannelOk(c, 8 * n) && |bs| == n && 2 * (c.shift % 8) + c.size == 8
    ensures Extract(BeNat(bs), c) == Extract(LeNat(bs), BigEndianChannel(c, n))
  {
    var e := BigEndianChannel(c, n);
    forall i: nat ensures Bit(Extract(BeNat(bs), c), i) == Bit(Extract(LeNat(bs), e), i) {
      ExtractBit(BeNat(bs), c, i);
      ExtractBit(LeNat(bs), e, i);
      if i < c.size {
        BeNatBit(bs, c.shift + i);
        CentredMirror(c.shift, c.size, n, i);
      }
    }
    SameBits(Extract(BeNat(bs), c), Extract(LeNat(bs), e));
  }

  lemma CentredMirror(shift: nat, size: nat, n: nat, i: nat)
    requires shift + size <= 8 * n && i < size && 2 * (shift % 8) + size == 8
    ensures Mirror(n, shift + i) == 8 * n - shift - size + i
  {
    assert (shift + i) / 8 == shift / 8 && (shift + i) % 8 == shift % 8 + i;
  }

  /** A pixel with only bit `i` of its little-endian value set. */
  function OneBit(n: nat, i: nat): (bs: seq<Byte>)
    requires i < 8 * n
    ensures |bs| == n
  {
    seq(n, k requires 0 <= k < n => if k == i / 8 then ByteBit(i % 8) else 0)
  }

  function ByteBit(i: nat): (b: Byte)
    requires i < 8
  {
    [1, 2, 4, 8, 16, 32, 64, 128][i]
  }

  lemma ByteBits(i: nat, j: nat)
    requires i < 8 && j < 8
    ensures Bit(ByteBit(i), j) == (i == j)
  {
    var x := ByteBit(i);
    ByteBitIsPower(i);
    Joined(0, 1, i, j);
    ShlIsMul(1, i);
    if j >= i {
      OneHasOneBit(j - i);
    } else {
      ZeroBits(j);
    }
  }

  lemma OneHasOneBit(i: nat)
    ensures Bit(1, i) == (i == 0)
  {
    if i != 0 {
      ZeroBits(i - 1);
    }
  }

  lemma ByteBitIsPower(i: nat)
    requires i < 8
    ensures ByteBit(i) == Pow2(i)
  {
    assert Pow2(2) == 4;
    assert Pow2(4) == 16;
    assert Pow2(6) == 64;
  }

  lemma OneBitBits(n: nat, i: nat, j: nat)
    requires i < 8 * n && j < 8 * n
    ensures Bit(LeNat(OneBit(n, i)), j) == (i == j)
  {
    LeNatBit(OneBit(n, i), j);
    if j / 8 == i / 8 {
      ByteBits(i % 8, j % 8);
    } else {
      ZeroBits(j % 8);
    }
  }

  lemma {:induction false} OffCentreChannel(c: Channel, n: nat) returns (bs: seq<Byte>)
    requires ChannelOk(c, 8 * n) && c.size > 0 && 2 * (c.shift % 8) + c.size != 8
    ensures |bs| == n && Extract(BeNat(bs), c) != Extract(LeNat(bs), BigEndianChannel(c, n))
  {
    var e := BigEndianChannel(c, n);
    bs := OneBit(n, Mirror(n, c.shift));
    BeNatBit(bs, c.shift);
    OneBitBits(n, Mirror(n, c.shift), Mirror(n, c.shift));
    ExtractBit(BeNat(bs), c, 0);
    OneBitBits(n, Mirror(n, c.shift), e.shift);
    ExtractBit(LeNat(bs), e, 0);
  }

  /**
    A big-endian client is understood exactly when every channel sits centred in a byte, as
    8-bit channels on byte boundaries do; a 5-6-5 format is not.
   */
  lemma BigEndianIsUnderstoodIff(c: Channel, n: nat)
    requires ChannelOk(c, 8 * n) && c.size > 0
    ensures SameMeaning(c, n) <==> 2 * (c.shift % 8) + c.size == 8
  {
    if 2 * (c.shift % 8) + c.size == 8 {
      forall bs: seq<Byte> | |bs| == n
        ensures Extract(BeNat(bs), c) == Extract(LeNat(bs), BigEndianChannel(c, n))
      {
        CentredChannel(c, n, bs);
      }
    } else {
      var bs := OffCentreChannel(c, n);
      assert !SameMeaning(c, n);
    }
  }

  /** The red channel of a 5-6-5 format, for instance, is misread. */
  lemma RedOf565IsMisread()
    ensures var c := Channel(11, 5, 31); ChannelOk(c, 16) && !SameMeaning(c, 2)
  {
    assert Pow2(3) == 8;
    assert Pow2(5) == 32;
    BigEndianIsUnderstoodIff(Channel(11, 5, 31), 2);
  }

  /** The channel used is the one that the conversion from the wire yields. */
  lemma BigEndianChannelIsUsed(r: RfbFormat, c: Channel, n: nat, max: nat)
    requires ChannelOk(c, 8 * n) && n <= 4 && r.bigEndian && r.bitsPerPixel == 8 * n && Swap16(max) == c.max
    ensures ChannelFromRfb(r, max, c.shift) == BigEndianChannel(c, n)
  {
    OkChannelsAreExpressible(c, 8 * n);
    WrapOfSmall(8 * n - c.shift - c.size);
  }

  // ---------------------------------------------------------------- compact pixels

  /** `nvnc_pixel_format_to_cpixel` */
  function ToCpixel(f: Format): Format
    requires f.bytesPerPixel == 4
  {
    var bytes := (Depth(f) + 7) / 8;
    if bytes != 3 then f.(bytesPerPixel := bytes)
    else
      var m := Min(f.red.shift, Min(f.green.shift, f.blue.shift));
      Format(3, f.red.(shift := f.red.shift - m), f.green.(shift := f.green.shift - m), f.blue.(shift := f.blue.shift - m))
  }

  predicate InRange(c: Channel, lo: nat) { lo <= c.shift && c.shift + c.size <= lo + 24 }

  /**
    A 32-bit format of depth 17 to 24 becomes a well-formed three-byte one exactly when its
    channels lie within some 24 consecutive bits, not only when these are the upper or lower
    three bytes.
   */
  lemma CpixelIsWellFormedIff(f: Format)
    requires FormatOk(f) && f.bytesPerPixel == 4 && 17 <= Depth(f) <= 24
    ensures FormatOk(ToCpixel(f))
      <==> exists lo :: InRange(f.red, lo) && InRange(f.green, lo) && InRange(f.blue, lo)
  {
    var m := Min(f.red.shift, Min(f.green.shift, f.blue.shift));
    if FormatOk(ToCpixel(f)) {
      assert InRange(f.red, m) && InRange(f.green, m) && InRange(f.blue, m);
    }
  }

  /** Red in the highest byte and blue in the lowest, for instance, leave a gap that three bytes cannot span. */
  lemma GappedFormatBreaks()
    ensures var f := Format(4, Channel(24, 8, 255), Channel(8, 8, 255), Channel(0, 8, 255));
      FormatOk(f) && Depth(f) == 24 && !FormatOk(ToCpixel(f))
  {
    Pow2Of8();
    var f := Format(4, Channel(24, 8, 255), Channel(8, 8, 255), Channel(0, 8, 255));
    assert ToCpixel(f).red == Channel(24, 8, 255) && !ChannelOk(ToCpixel(f).red, 24);
  }
}
