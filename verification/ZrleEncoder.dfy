/** The ZRLE encoder from framebuffer to compressed stream and back on the viewer's side. */
module ZrleEncoder {
  import opened Common
  import opened ZrleTile
  import opened ZrleBox
  import opened ParallelDeflate
  import opened FrameCopy
  import opened Pixels
  import Vec
  import ZrleTileEncoder

  lemma {:induction false} SchedulingFeedsNothing(s: State)
    requires s.caller.Feeding?
    ensures ScheduleAll(s).fed == s.fed && ScheduleAll(s).caller.Idle?
    decreases |s.input|
  {
    if |s.input| >= INPUT_BLOCK_SIZE {
      SchedulingFeedsNothing(Schedule(s, s.input[..INPUT_BLOCK_SIZE]).(input := s.input[INPUT_BLOCK_SIZE..]));
    }
  }

  lemma TileFits(w: nat, h: nat, tx: nat, ty: nat)
    requires tx < w && ty < h
    ensures 0 < Extent(w, tx) * Extent(h, ty) <= 4096
  {
    MulMono(1, Extent(h, ty), Extent(w, tx));
    MulMono(Extent(h, ty), 64, Extent(w, tx));
  }

  /**
    The tile loop of `zrle_encode_box`: every tile is cut out, encoded into the scratch
    vector and fed to the compressor, in order.
   */
  method FeedBox(c: Compressor, f: Bitmap, d: Format, ghost img: Image, x0: nat, y0: nat, w: nat, h: nat)
    requires c.caller.Idle? && 1 <= d.bytesPerPixel <= 4 && BitmapOk(f) && Depicts(img, f, ConversionTo(f, d), x0, y0)
    requires x0 + w <= f.width && y0 + h <= f.height
    modifies c
    ensures c.caller.Idle? && c.fed == old(c.fed) + BoxBytes(img, d.bytesPerPixel, w, h, 0)
  {
    var bpp := d.bytesPerPixel;
    var scratch := new Vec.ByteVec(1 + bpp * 4096 + 16 * 4);
    ghost var done: seq<Byte> := [];
    var nTiles := TilesAcross(w) * TilesAcross(h);
    ImageIsSized(img, f, ConversionTo(f, d), x0, y0, w, h);
    for i := 0 to nTiles
      invariant c.caller.Idle? && scratch.Valid() && scratch.cap >= 1 + bpp * 4096 + 64 && fresh(scratch)
      invariant c.fed == old(c.fed) + done
      invariant done + BoxBytes(img, bpp, w, h, i) == BoxBytes(img, bpp, w, h, 0)
    {
      assert w > 0;
      BoxPeeled(img, bpp, w, h, i, []);
      FeedTile(c, scratch, f, d, img, x0, y0, w, h, TileX(w, i), TileY(w, i));
      ghost var tile := TileBytes(img, bpp, w, h, TileX(w, i), TileY(w, i));
      Peel(done, tile, BoxBytes(img, bpp, w, h, i + 1), old(c.fed));
      done := done + tile;
    }
  }

  lemma Peel(done: seq<Byte>, tile: seq<Byte>, more: seq<Byte>, before: seq<Byte>)
    ensures done + (tile + more) == (done + tile) + more
    ensures (before + done) + tile == before + (done + tile)
  {
  }

  method FeedTile(
    c: Compressor, scratch: Vec.ByteVec, f: Bitmap, d: Format, ghost img: Image, x0: nat, y0: nat, w: nat, h: nat,
    tx: nat, ty: nat)
    requires c.caller.Idle? && 1 <= d.bytesPerPixel <= 4 && BitmapOk(f) && Depicts(img, f, ConversionTo(f, d), x0, y0)
    requires x0 + w <= f.width && y0 + h <= f.height && tx < w && ty < h
    requires scratch.Valid() && scratch.cap >= 1 + d.bytesPerPixel * 4096 + 64
    modifies c, scratch
    ensures c.caller.Idle? && c.fed == old(c.fed) + TileBytes(img, d.bytesPerPixel, w, h, tx, ty)
    ensures scratch.Valid() && scratch.cap >= old(scratch.cap)
  {
    var tile := CutTile(f, d, img, x0, y0, w, h, tx, ty);
    ZrleTileEncoder.ZrleEncodeTile(scratch, d.bytesPerPixel, tile);
    SchedulingFeedsNothing(Next(c.z, c.View(), Event.Feed(scratch.data)));
    c.Feed(scratch.data);
  }

  /** Bytes seen as pixels of `bpp` bytes. */
  function AsPixels(bytes: seq<Byte>, bpp: nat): seq<Pixel>
    requires bpp > 0
  {
    if |bytes| < bpp then [] else [bytes[..bpp]] + AsPixels(bytes[bpp..], bpp)
  }

  lemma {:induction false} PixelsComeBack(px: seq<Pixel>, bpp: nat)
    requires Sized(px, bpp) && bpp > 0
    ensures AsPixels(Concat(px), bpp) == px
  {
    if px != [] {
      var bytes := Concat(px);
      assert bytes[..bpp] == px[0] && bytes[bpp..] == Concat(px[1..]);
      PixelsComeBack(px[1..], bpp);
    }
  }

  /** One tile, copied out of the frame and converted. */
  method CutTile(f: Bitmap, d: Format, ghost img: Image, x0: nat, y0: nat, w: nat, h: nat, tx: nat, ty: nat)
    returns (tile: seq<Pixel>)
    requires 1 <= d.bytesPerPixel <= 4 && BitmapOk(f) && Depicts(img, f, ConversionTo(f, d), x0, y0)
    requires x0 + w <= f.width && y0 + h <= f.height && tx < w && ty < h
    ensures tile == TilePixels(img, tx, ty, Extent(w, tx), Extent(h, ty))
    ensures 0 < |tile| <= 4096 && Sized(tile, d.bytesPerPixel)
  {
    ghost var pixels := TilePixels(img, tx, ty, Extent(w, tx), Extent(h, ty));
    TileFits(w, h, tx, ty);
    ImageIsSized(img, f, ConversionTo(f, d), x0, y0, w, h);
    TileIsSized(img, d.bytesPerPixel, w, h, tx, ty, Extent(w, tx), Extent(h, ty));
    var bytes := CopyRegion(f, d, img, x0, y0, tx, ty, Extent(w, tx), Extent(h, ty));
    PixelsComeBack(pixels, d.bytesPerPixel);
    tile := AsPixels(bytes, d.bytesPerPixel);
  }

  // ---------------------------------------------------------------- end to end

  datatype Box = Box(img: Image, w: nat, h: nat)

  function BoxesBytes(bpp: nat, boxes: seq<Box>): seq<Byte> {
    if boxes == [] then []
    else BoxBytes(boxes[0].img, bpp, boxes[0].w, boxes[0].h, 0) + BoxesBytes(bpp, boxes[1..])
  }

  /** A viewer that knows the sizes sees every rectangle, one after the other, and nothing is left over. */
  ghost predicate Shown(bytes: seq<Byte>, bpp: nat, boxes: seq<Box>)
    decreases |boxes|
  {
    if boxes == [] then bytes == []
    else
      var b := boxes[0];
      var r := DecodeBox(bytes, bpp, b.w, b.h, 0, 0);
      && r.Some?
      && (forall x, y :: r.value.0(x, y) == if 0 <= x < b.w && 0 <= y < b.h then Some(b.img(x, y)) else None)
      && Shown(r.value.1, bpp, boxes[1..])
  }

  lemma {:induction false} BoxesShown(bpp: nat, boxes: seq<Box>)
    requires forall i :: 0 <= i < |boxes| ==> SizedImage(boxes[i].img, boxes[i].w, boxes[i].h, bpp)
    ensures Shown(BoxesBytes(bpp, boxes), bpp, boxes)
  {
    if boxes != [] {
      BoxRoundTrip(boxes[0].img, bpp, boxes[0].w, boxes[0].h, BoxesBytes(bpp, boxes[1..]));
      BoxesShown(bpp, boxes[1..]);
    }
  }

  /**
    In every interleaving of encoder and compression jobs, once a rectangle's sync has
    returned, inflating the whole output and decoding it shows all rectangles fed so far.
   */
  lemma {:induction false} CompressedBoxesShown(z: Zlib, es: seq<Event>, bpp: nat, boxes: seq<Box>)
    requires InflatesBlockwise(z)
    requires After(z, es + [Consolidate]).Some? && After(z, es + [Consolidate]).value.caller.Idle?
    requires FedBytes(es) == BoxesBytes(bpp, boxes)
    requires forall i :: 0 <= i < |boxes| ==> SizedImage(boxes[i].img, boxes[i].w, boxes[i].h, bpp)
    ensures var inflated := z.inflate(After(z, es + [Consolidate]).value.out);
      inflated.Some? && Shown(inflated.value, bpp, boxes)
  {
    SyncedOutputInflates(z, es);
    BoxesShown(bpp, boxes);
  }
}
