/** Cutting a rectangle out of a frame in memory while converting its pixels. */
module FrameCopy {
  import opened Common
  import opened Bits
  import opened Pixels
  import opened ZrleTile
  import opened ZrleBox

  /** A frame in memory; `stride` is the distance of rows in pixels. */
  datatype Bitmap = Bitmap(mem: seq<Byte>, width: nat, height: nat, stride: nat, format: Format)

  predicate BitmapOk(f: Bitmap) {
    && FormatOk(f.format) && f.width <= f.stride
    && Offset(f.format.bytesPerPixel, Offset(f.stride, f.height)) <= |f.mem|
  }

  /** Where pixel `(x, y)` lies, counted in pixels from the start of the memory. */
  function Index(f: Bitmap, x: nat, y: nat): nat { Offset(f.stride, y) + x }

  lemma IndexInside(f: Bitmap, x: nat, y: nat)
    requires BitmapOk(f) && x < f.width && y < f.height
    ensures Offset(f.format.bytesPerPixel, Index(f, x, y) + 1) <= |f.mem|
  {
    OffsetMono(f.stride, y + 1, f.height);
    OffsetMono(f.format.bytesPerPixel, Index(f, x, y) + 1, Offset(f.stride, f.height));
  }

  /** How pixels are converted: the size of the results, and the conversion proper. */
  datatype Conversion = Conversion(to: nat, recipe: nat -> nat)

  function ConversionTo(f: Bitmap, d: Format): Conversion { Conversion(d.bytesPerPixel, Recipe(f.format, d)) }

  /** A pixel of the frame, converted, as bytes. */
  function PixelIn(f: Bitmap, c: Conversion, x: nat, y: nat): (px: seq<Byte>)
    requires BitmapOk(f) && x < f.width && y < f.height
    ensures |px| == c.to
  {
    IndexInside(f, x, y);
    LeBytes(c.recipe(LeNat(PixelBytes(f.mem, f.format.bytesPerPixel, Index(f, x, y)))), c.to)
  }

  predicate DepictsAt(img: Image, f: Bitmap, c: Conversion, ox: nat, oy: nat, x: nat, y: nat)
    requires BitmapOk(f) && ox + x < f.width && oy + y < f.height
  {
    img(x, y) == PixelIn(f, c, ox + x, oy + y)
  }

  /** The image shows the converted frame from `(ox, oy)` on. */
  ghost predicate Depicts(img: Image, f: Bitmap, c: Conversion, ox: nat, oy: nat)
    requires BitmapOk(f)
  {
    forall x: nat, y: nat :: ox + x < f.width && oy + y < f.height ==> DepictsAt(img, f, c, ox, oy, x, y)
  }

  /** Such an image. */
  function ImageOf(f: Bitmap, c: Conversion, ox: nat, oy: nat): Image
    requires BitmapOk(f)
  {
    (x: int, y: int) =>
      if 0 <= x && 0 <= y && ox + x < f.width && oy + y < f.height then PixelIn(f, c, ox + x, oy + y) else []
  }

  lemma {:induction false} ImageDepicts(f: Bitmap, c: Conversion, ox: nat, oy: nat)
    requires BitmapOk(f)
    ensures Depicts(ImageOf(f, c, ox, oy), f, c, ox, oy)
  {
    var img := ImageOf(f, c, ox, oy);
    forall x: nat, y: nat | ox + x < f.width && oy + y < f.height ensures DepictsAt(img, f, c, ox, oy, x, y) {
      PixelOfImage(f, c, ox, oy, x, y);
    }
  }

  lemma {:induction false} PixelOfImage(f: Bitmap, c: Conversion, ox: nat, oy: nat, x: nat, y: nat)
    requires BitmapOk(f) && ox + x < f.width && oy + y < f.height
    ensures ImageOf(f, c, ox, oy)(x, y) == PixelIn(f, c, ox + x, oy + y)
  {
  }

  lemma {:induction false} ImageIsSized(img: Image, f: Bitmap, c: Conversion, ox: nat, oy: nat, w: nat, h: nat)
    requires BitmapOk(f) && Depicts(img, f, c, ox, oy) && ox + w <= f.width && oy + h <= f.height
    ensures SizedImage(img, w, h, c.to)
  {
    forall x, y | 0 <= x < w && 0 <= y < h ensures |img(x, y)| == c.to {
      assert DepictsAt(img, f, c, ox, oy, x, y);
    }
  }

  /** `n` pixels of a row of an image. */
  function RowOf(img: Image, x: nat, y: nat, n: nat): (px: seq<Pixel>)
    ensures |px| == n
  {
    seq(n, i requires 0 <= i < n => img(x + i, y))
  }

  /** The first `h` rows of a rectangle of an image. */
  function RowsOf(img: Image, x: nat, y: nat, w: nat, h: nat): seq<Pixel> {
    if h == 0 then [] else RowsOf(img, x, y, w, h - 1) + RowOf(img, x, y + h - 1, w)
  }

  lemma {:induction false} OffsetAdd(bpp: nat, i: nat, j: nat)
    ensures Offset(bpp, i + j) == Offset(bpp, i) + Offset(bpp, j)
  {
    if j != 0 {
      OffsetAdd(bpp, i, j - 1);
    }
  }

  /** Pixel `i` of a row in memory, converted, is the pixel of the image. */
  predicate RowShows(row: seq<Byte>, from: nat, to: nat, recipe: nat -> nat, img: Image, x: nat, y: nat, i: nat) {
    Offset(from, i + 1) <= |row| && LeBytes(recipe(LeNat(PixelBytes(row, from, i))), to) == img(x + i, y)
  }

  /** A converted row holds the pixels of the image one after the other. */
  lemma {:induction false} ConvertedRow(
    row: seq<Byte>, from: nat, to: nat, recipe: nat -> nat, img: Image, x: nat, y: nat, n: nat)
    requires Offset(from, n) <= |row| && forall i: nat :: i < n ==> RowShows(row, from, to, recipe, img, x, y, i)
    ensures Converted(row, from, to, recipe, n) == Concat(RowOf(img, x, y, n))
  {
    if n != 0 {
      OffsetMono(from, n - 1, n);
      ConvertedRow(row, from, to, recipe, img, x, y, n - 1);
      assert RowShows(row, from, to, recipe, img, x, y, n - 1);
      var px := RowOf(img, x, y, n - 1);
      assert RowOf(img, x, y, n) == px + [img(x + (n - 1), y)];
      ConcatSnoc(px, img(x + (n - 1), y));
    }
  }

  /** Pixel `i` of a run of memory is pixel `x + i` of the row. */
  lemma {:induction false} RowByte(f: Bitmap, x: nat, y: nat, w: nat, i: nat, row: seq<Byte>)
    requires BitmapOk(f) && x + w <= f.width && y < f.height && i < w
    requires IsRow(f, x, y, w, row)
    ensures var b := f.format.bytesPerPixel;
      Offset(b, i + 1) <= |row| && Offset(b, Index(f, x + i, y) + 1) <= |f.mem|
      && PixelBytes(row, b, i) == PixelBytes(f.mem, b, Index(f, x + i, y))
  {
    IndexInside(f, x + i, y);
    assert Index(f, x + i, y) == Index(f, x, y) + i;
    RunPixel(f.mem, f.format.bytesPerPixel, Index(f, x, y), w, i, row);
  }

  lemma {:induction false} RunPixel(mem: seq<Byte>, b: nat, k: nat, w: nat, i: nat, row: seq<Byte>)
    requires i < w && |row| == Offset(b, w) && Offset(b, k) + |row| <= |mem|
    requires row == mem[Offset(b, k)..Offset(b, k) + |row|]
    ensures Offset(b, i + 1) <= |row| && Offset(b, k + i + 1) <= |mem|
    ensures PixelBytes(row, b, i) == PixelBytes(mem, b, k + i)
  {
    OffsetMono(b, i + 1, w);
    OffsetAdd(b, k, i);
    OffsetAdd(b, k, i + 1);
    SliceOfSlice(mem, Offset(b, k), |row|, Offset(b, i), Offset(b, i + 1));
  }

  lemma SliceOfSlice(s: seq<Byte>, at: nat, n: nat, i: nat, j: nat)
    requires at + n <= |s| && i <= j <= n
    ensures s[at..at + n][i..j] == s[at + i..at + j]
  {
    var t := s[at..at + n];
    forall k | 0 <= k < j - i ensures t[i..j][k] == s[at + i..at + j][k] {
      assert t[i..j][k] == t[i + k] == s[at + i + k];
    }
  }

  /** The bytes of `w` pixels from `(x, y)` on. */
  predicate IsRow(f: Bitmap, x: nat, y: nat, w: nat, row: seq<Byte>) {
    var b := f.format.bytesPerPixel;
    var at := Offset(b, Index(f, x, y));
    |row| == Offset(b, w) && at + |row| <= |f.mem| && row == f.mem[at..at + |row|]
  }

  lemma {:induction false} MemoryPixel(
    f: Bitmap, c: Conversion, img: Image, ox: nat, oy: nat, x: nat, y: nat, w: nat, row: seq<Byte>, i: nat)
    requires BitmapOk(f) && Depicts(img, f, c, ox, oy) && ox + x + w <= f.width && oy + y < f.height && i < w
    requires IsRow(f, ox + x, oy + y, w, row)
    ensures RowShows(row, f.format.bytesPerPixel, c.to, c.recipe, img, x, y, i)
  {
    RowByte(f, ox + x, oy + y, w, i, row);
    assert DepictsAt(img, f, c, ox, oy, x + i, y);
    assert ox + (x + i) == ox + x + i;
  }

  /** The memory of a row, converted, is a row of the image. */
  lemma {:induction false} MemoryRow(
    f: Bitmap, c: Conversion, img: Image, ox: nat, oy: nat, x: nat, y: nat, w: nat, row: seq<Byte>)
    requires BitmapOk(f) && Depicts(img, f, c, ox, oy) && ox + x + w <= f.width && oy + y < f.height
    requires IsRow(f, ox + x, oy + y, w, row)
    ensures Converted(row, f.format.bytesPerPixel, c.to, c.recipe, w) == Concat(RowOf(img, x, y, w))
  {
    forall i: nat | i < w ensures RowShows(row, f.format.bytesPerPixel, c.to, c.recipe, img, x, y, i) {
      MemoryPixel(f, c, img, ox, oy, x, y, w, row, i);
    }
    ConvertedRow(row, f.format.bytesPerPixel, c.to, c.recipe, img, x, y, w);
  }

  /** One row of the rectangle, converted into a buffer of its own. */
  method CopyRow(f: Bitmap, d: Format, ghost img: Image, ox: nat, oy: nat, x: nat, y: nat, w: nat, src: nat)
    returns (out: seq<Byte>)
    requires BitmapOk(f) && Depicts(img, f, ConversionTo(f, d), ox, oy) && 1 <= d.bytesPerPixel <= 4
    requires w > 0 && ox + x + w <= f.width && oy + y < f.height
    requires src == Offset(f.format.bytesPerPixel, Index(f, ox + x, oy + y))
    ensures out == Concat(RowOf(img, x, y, w))
  {
    var b := f.format.bytesPerPixel;
    OffsetAdd(b, Index(f, ox + x, oy + y), w);
    IndexInside(f, ox + x + (w - 1), oy + y);
    assert Index(f, ox + x, oy + y) + w == Index(f, ox + x + (w - 1), oy + y) + 1;
    OffsetIsProduct(b, w);
    OffsetIsProduct(d.bytesPerPixel, w);
    var row := f.mem[src..src + b * w];
    var dst := new Byte[d.bytesPerPixel * w](i => 0);
    ConvertPixels(dst, d, row, f.format, w);
    MemoryRow(f, ConversionTo(f, d), img, ox, oy, x, y, w, row);
    out := dst[..];
    assert dst[..Offset(d.bytesPerPixel, w)] == dst[..];
  }

  /**
    `nvnc_frame_copy_region` of a tile at `(x, y)` in the rectangle at `(ox, oy)`, where the
    rows of the copy lie close together.
   */
  method CopyRegion(f: Bitmap, d: Format, ghost img: Image, ox: nat, oy: nat, x: nat, y: nat, w: nat, h: nat)
    returns (out: seq<Byte>)
    requires BitmapOk(f) && Depicts(img, f, ConversionTo(f, d), ox, oy) && 1 <= d.bytesPerPixel <= 4
    requires w > 0 && ox + x + w <= f.width && oy + y + h <= f.height
    ensures out == Concat(TilePixels(img, x, y, w, h))
  {
    var b := f.format.bytesPerPixel;
    OffsetIsProduct(b, f.stride);
    var src := FirstByte(f, ox + x, oy + y);
    out := CopyRows(f, d, img, ox, oy, x, y, w, h, src, b * f.stride);
    RowsAreTile(img, x, y, w, h);
  }

  /** The loop of `nvnc_frame_copy_region`. */
  method CopyRows(
    f: Bitmap, d: Format, ghost img: Image, ox: nat, oy: nat, x: nat, y: nat, w: nat, h: nat,
    src0: nat, byteStride: nat)
    returns (out: seq<Byte>)
    requires BitmapOk(f) && Depicts(img, f, ConversionTo(f, d), ox, oy) && 1 <= d.bytesPerPixel <= 4
    requires w > 0 && ox + x + w <= f.width && oy + y + h <= f.height
    requires src0 == Offset(f.format.bytesPerPixel, Index(f, ox + x, oy + y))
    requires byteStride == Offset(f.format.bytesPerPixel, f.stride)
    ensures out == Concat(RowsOf(img, x, y, w, h))
  {
    var src, line := src0, y;
    out := [];
    while line < y + h
      invariant y <= line <= y + h
      invariant src == Offset(f.format.bytesPerPixel, Index(f, ox + x, oy + line))
      invariant out == Concat(RowsOf(img, x, y, w, line - y))
    {
      var row := CopyRow(f, d, img, ox, oy, x, line, w, src);
      RowsSnoc(img, x, y, w, line);
      out := out + row;
      src := NextRow(f, ox + x, oy + line, src, byteStride);
      line := line + 1;
    }
  }

  lemma {:induction false} RowsSnoc(img: Image, x: nat, y: nat, w: nat, line: nat)
    requires y <= line
    ensures Concat(RowsOf(img, x, y, w, line + 1 - y))
      == Concat(RowsOf(img, x, y, w, line - y)) + Concat(RowOf(img, x, line, w))
  {
    ConcatAppend(RowsOf(img, x, y, w, line - y), RowOf(img, x, line, w));
  }

  method NextRow(f: Bitmap, x: nat, y: nat, src: nat, byteStride: nat) returns (next: nat)
    requires src == Offset(f.format.bytesPerPixel, Index(f, x, y))
    requires byteStride == Offset(f.format.bytesPerPixel, f.stride)
    ensures next == Offset(f.format.bytesPerPixel, Index(f, x, y + 1))
  {
    OffsetAdd(f.format.bytesPerPixel, Index(f, x, y), f.stride);
    assert Index(f, x, y + 1) == Index(f, x, y) + f.stride;
    next := src + byteStride;
  }

  /** The address of the first pixel, by multiplication. */
  method FirstByte(f: Bitmap, x0: nat, y0: nat) returns (src: nat)
    ensures src == Offset(f.format.bytesPerPixel, Index(f, x0, y0))
  {
    var b := f.format.bytesPerPixel;
    OffsetIsProduct(f.stride, y0);
    OffsetIsProduct(b, f.stride * y0 + x0);
    src := b * (f.stride * y0 + x0);
  }

  // ---------------------------------------------------------------- the tiles of the ZRLE encoder

  lemma {:induction false} RowsLength(img: Image, x: nat, y: nat, w: nat, h: nat)
    ensures |RowsOf(img, x, y, w, h)| == w * h
  {
    if h != 0 {
      RowsLength(img, x, y, w, h - 1);
      assert w * (h - 1) + w == w * h;
    }
  }

  lemma {:induction false} RowsPixel(img: Image, x: nat, y: nat, w: nat, h: nat, i: nat, j: nat)
    requires i < w && j < h
    ensures 0 <= w * j + i < |RowsOf(img, x, y, w, h)| && RowsOf(img, x, y, w, h)[w * j + i] == img(x + i, y + j)
    decreases h
  {
    RowsLength(img, x, y, w, h - 1);
    assert |RowsOf(img, x, y, w, h)| == w * (h - 1) + w;
    if j < h - 1 {
      RowsPixel(img, x, y, w, h - 1, i, j);
    }
  }

  /** Row by row, a rectangle is the tile that the encoder works on. */
  lemma {:induction false} RowsAreTile(img: Image, x: nat, y: nat, w: nat, h: nat)
    requires w > 0
    ensures RowsOf(img, x, y, w, h) == TilePixels(img, x, y, w, h)
  {
    RowsLength(img, x, y, w, h);
    forall k | 0 <= k < w * h ensures RowsOf(img, x, y, w, h)[k] == TilePixels(img, x, y, w, h)[k] {
      TileIndex(w, h, k);
      RowsPixel(img, x, y, w, h, k % w, k / w);
    }
  }

  lemma TileIndex(w: nat, h: nat, i: nat)
    requires w > 0 && i < w * h
    ensures i / w < h && i % w < w && i == w * (i / w) + i % w
  {
    if i / w >= h {
      MulMono(h, i / w, w);
      assert false;
    }
  }
}
