/**
  A whole ZRLE rectangle: the encoder numbers its 64 by 64 tiles and derives positions by
  division, the viewer of section 7.7.6 of RFC 6143 walks left to right and top to bottom.
 */
module ZrleBox {
  import opened Common
  import opened ZrleTile

  /** Pixels by position relative to the rectangle, already in the viewer's format. */
  type Image = (int, int) -> Pixel

  ghost predicate SizedImage(img: Image, w: nat, h: nat, bpp: nat) {
    forall x, y :: 0 <= x < w && 0 <= y < h ==> |img(x, y)| == bpp
  }

  function TilesAcross(n: nat): nat { (n + 63) / 64 }

  /** The extent of a tile that starts at `at`: cut off at the far side. */
  function Extent(n: nat, at: nat): nat
    requires at <= n
  {
    if n - at >= 64 then 64 else n - at
  }

  // ---------------------------------------------------------------- encoder

  /** The pixels of a tile, row by row. */
  function TilePixels(img: Image, tx: nat, ty: nat, tw: nat, th: nat): (px: seq<Pixel>)
    requires tw > 0
    ensures |px| == tw * th
  {
    seq(tw * th, i requires 0 <= i < tw * th => img(tx + i % tw, ty + i / tw))
  }

  function TileX(w: nat, i: nat): nat
    requires w > 0
  {
    (i % TilesAcross(w)) * 64
  }

  function TileY(w: nat, i: nat): nat
    requires w > 0
  {
    (i / TilesAcross(w)) * 64
  }

  /** The encoded tile at pixel offset `(tx, ty)`. */
  function TileBytes(img: Image, bpp: nat, w: nat, h: nat, tx: nat, ty: nat): seq<Byte>
    requires tx < w && ty < h
  {
    var px := TilePixels(img, tx, ty, Extent(w, tx), Extent(h, ty));
    if px == [] then [] else EncodeTile(bpp, px)
  }

  /** Tile `i` of `across * down` lies inside the rectangle. */
  lemma TileInside(w: nat, h: nat, i: nat)
    requires w > 0 && i < TilesAcross(w) * TilesAcross(h)
    ensures TileX(w, i) < w && TileY(w, i) < h
  {
    var nx, ny := TilesAcross(w), TilesAcross(h);
    var q, r := i / nx, i % nx;
    assert i == q * nx + r;
    if q >= ny {
      MulMono(ny, q, nx);
      assert false;
    }
  }

  /** The tiles from number `i` on, as they are fed to the compressor. */
  function BoxBytes(img: Image, bpp: nat, w: nat, h: nat, i: nat): seq<Byte>
    requires i <= TilesAcross(w) * TilesAcross(h)
    decreases TilesAcross(w) * TilesAcross(h) - i
  {
    if i == TilesAcross(w) * TilesAcross(h) then []
    else
      assert w > 0;
      TileInside(w, h, i);
      TileBytes(img, bpp, w, h, TileX(w, i), TileY(w, i)) + BoxBytes(img, bpp, w, h, i + 1)
  }

  // ---------------------------------------------------------------- viewer

  /** What a viewer shows at a position, if it has painted there. */
  type Screen = (int, int) -> Option<Pixel>

  const BLANK: Screen := (x, y) => None

  /** A decoded tile on top of what is there. */
  function Paint(below: Screen, px: seq<Pixel>, tx: nat, ty: nat, tw: nat, th: nat): Screen {
    (x, y) =>
      if tx <= x < tx + tw && ty <= y < ty + th && 0 <= (y - ty) * tw + (x - tx) < |px|
      then Some(px[(y - ty) * tw + (x - tx)])
      else below(x, y)
  }

  function DecodeBox(bytes: seq<Byte>, bpp: nat, w: nat, h: nat, tx: nat, ty: nat): Option<(Screen, seq<Byte>)>
    decreases h - ty, w - tx
  {
    if ty >= h then Some((BLANK, bytes))
    else if tx >= w then DecodeBox(bytes, bpp, w, h, 0, ty + 64)
    else
      var tw, th := Extent(w, tx), Extent(h, ty);
      match DecodeTile(bytes, bpp, tw, th)
      case None => None
      case Some((px, rest)) =>
        match DecodeBox(rest, bpp, w, h, tx + 64, ty)
        case None => None
        case Some((screen, end)) => Some((Paint(screen, px, tx, ty, tw, th), end))
  }

  // ---------------------------------------------------------------- the viewer sees the rectangle

  /** The position is still to be painted when the viewer stands at `(tx, ty)`. */
  predicate Ahead(w: nat, h: nat, tx: nat, ty: nat, x: int, y: int) {
    0 <= x < w && 0 <= y < h && (y >= ty + 64 || (y >= ty && x >= tx))
  }

  ghost predicate ShowsAhead(screen: Screen, img: Image, w: nat, h: nat, tx: nat, ty: nat) {
    forall x, y :: screen(x, y) == if Ahead(w, h, tx, ty, x, y) then Some(img(x, y)) else None
  }

  /** Decoding ended well: the picture is right from `(tx, ty)` on, and `rest` is untouched. */
  ghost predicate Decoded(
    r: Option<(Screen, seq<Byte>)>, img: Image, w: nat, h: nat, tx: nat, ty: nat, rest: seq<Byte>)
  {
    r.Some? && r.value.1 == rest && ShowsAhead(r.value.0, img, w, h, tx, ty)
  }

  lemma {:induction false} InTile(x: nat, y: nat, tw: nat, th: nat)
    requires x < tw && y < th
    ensures 0 <= y * tw + x < tw * th
    ensures (y * tw + x) / tw == y && (y * tw + x) % tw == x
  {
    DivModUnique(y * tw + x, tw, y, x);
    MulMono(y + 1, th, tw);
  }

  lemma {:induction false} PaintShows(below: Screen, img: Image, tx: nat, ty: nat, tw: nat, th: nat, x: int, y: int)
    requires tw > 0
    ensures Paint(below, TilePixels(img, tx, ty, tw, th), tx, ty, tw, th)(x, y)
         == if tx <= x < tx + tw && ty <= y < ty + th then Some(img(x, y)) else below(x, y)
  {
    if tx <= x < tx + tw && ty <= y < ty + th {
      InTile(x - tx, y - ty, tw, th);
    }
  }

  lemma {:induction false} PaintAdvances(below: Screen, img: Image, w: nat, h: nat, tx: nat, ty: nat)
    requires tx < w && ty < h && ShowsAhead(below, img, w, h, tx + 64, ty)
    ensures var tw, th := Extent(w, tx), Extent(h, ty);
      ShowsAhead(Paint(below, TilePixels(img, tx, ty, tw, th), tx, ty, tw, th), img, w, h, tx, ty)
  {
    var tw, th := Extent(w, tx), Extent(h, ty);
    var screen := Paint(below, TilePixels(img, tx, ty, tw, th), tx, ty, tw, th);
    forall x, y ensures screen(x, y) == if Ahead(w, h, tx, ty, x, y) then Some(img(x, y)) else None {
      PaintShows(below, img, tx, ty, tw, th, x, y);
      assert below(x, y) == if Ahead(w, h, tx + 64, ty, x, y) then Some(img(x, y)) else None;
    }
  }

  lemma RowInTile(k: nat, tw: nat, th: nat)
    requires 0 < tw && k < tw * th
    ensures k / tw < th
  {
    var q := k / tw;
    assert k == q * tw + k % tw;
    if q >= th {
      MulMono(th, q, tw);
      assert false;
    }
  }

  lemma {:induction false} TilePixelIsSized(img: Image, bpp: nat, w: nat, h: nat, tx: nat, ty: nat, tw: nat, th: nat, k: nat)
    requires SizedImage(img, w, h, bpp) && 0 < tw && tx + tw <= w && ty + th <= h && k < tw * th
    ensures |TilePixels(img, tx, ty, tw, th)[k]| == bpp
  {
    RowInTile(k, tw, th);
    var x, y := tx + k % tw, ty + k / tw;
    assert |img(x, y)| == bpp;
  }

  lemma {:induction false} TileIsSized(img: Image, bpp: nat, w: nat, h: nat, tx: nat, ty: nat, tw: nat, th: nat)
    requires SizedImage(img, w, h, bpp) && 0 < tw && tx + tw <= w && 0 < th && ty + th <= h
    ensures Sized(TilePixels(img, tx, ty, tw, th), bpp)
    ensures TilePixels(img, tx, ty, tw, th) != []
  {
    MulMono(1, th, tw);
    forall k | 0 <= k < tw * th ensures |TilePixels(img, tx, ty, tw, th)[k]| == bpp {
      TilePixelIsSized(img, bpp, w, h, tx, ty, tw, th, k);
    }
  }

  /** The viewer takes one tile off the stream. */
  lemma {:induction false} OneTile(img: Image, bpp: nat, w: nat, h: nat, tx: nat, ty: nat, more: seq<Byte>)
    requires SizedImage(img, w, h, bpp) && tx < w && ty < h
    ensures DecodeTile(TileBytes(img, bpp, w, h, tx, ty) + more, bpp, Extent(w, tx), Extent(h, ty))
         == Some((TilePixels(img, tx, ty, Extent(w, tx), Extent(h, ty)), more))
  {
    TileIsSized(img, bpp, w, h, tx, ty, Extent(w, tx), Extent(h, ty));
    TileRoundTrip(bpp, TilePixels(img, tx, ty, Extent(w, tx), Extent(h, ty)), Extent(w, tx), Extent(h, ty), more);
  }

  lemma {:induction false} OneTilePainted(img: Image, bpp: nat, w: nat, h: nat, tx: nat, ty: nat, more: seq<Byte>, rest: seq<Byte>)
    requires SizedImage(img, w, h, bpp) && tx < w && ty < h
    requires Decoded(DecodeBox(more, bpp, w, h, tx + 64, ty), img, w, h, tx + 64, ty, rest)
    ensures Decoded(DecodeBox(TileBytes(img, bpp, w, h, tx, ty) + more, bpp, w, h, tx, ty), img, w, h, tx, ty, rest)
  {
    OneTile(img, bpp, w, h, tx, ty, more);
    PaintAdvances(DecodeBox(more, bpp, w, h, tx + 64, ty).value.0, img, w, h, tx, ty);
  }

  /** A row that is complete continues with the next one. */
  lemma RowEnds(img: Image, bpp: nat, w: nat, h: nat, tx: nat, ty: nat, more: seq<Byte>, rest: seq<Byte>)
    requires tx >= w && ty < h
    requires Decoded(DecodeBox(more, bpp, w, h, 0, ty + 64), img, w, h, 0, ty + 64, rest)
    ensures Decoded(DecodeBox(more, bpp, w, h, tx, ty), img, w, h, tx, ty, rest)
  {
    var screen := DecodeBox(more, bpp, w, h, 0, ty + 64).value.0;
    forall x, y ensures screen(x, y) == if Ahead(w, h, tx, ty, x, y) then Some(img(x, y)) else None {
      assert screen(x, y) == if Ahead(w, h, 0, ty + 64, x, y) then Some(img(x, y)) else None;
    }
  }

  /** Tile `i + 1` is the next one in the row or the first of the next row. */
  lemma {:induction false} NextTile(w: nat, i: nat)
    requires w > 0
    ensures var nx := TilesAcross(w);
      if i % nx + 1 < nx
      then TileX(w, i + 1) == TileX(w, i) + 64 < w && TileY(w, i + 1) == TileY(w, i)
      else TileX(w, i + 1) == 0 && TileX(w, i) + 64 >= w && TileY(w, i + 1) == TileY(w, i) + 64
  {
    var nx := TilesAcross(w);
    var q, r := i / nx, i % nx;
    assert i == q * nx + r;
    if r + 1 < nx {
      DivModUnique(i + 1, nx, q, r + 1);
    } else {
      assert (q + 1) * nx == q * nx + nx;
      DivModUnique(i + 1, nx, q + 1, 0);
    }
  }

  lemma {:induction false} LastTile(w: nat, h: nat, i: nat)
    requires w > 0 && i == TilesAcross(w) * TilesAcross(h)
    ensures TileX(w, i) == 0 && TileY(w, i) >= h
  {
    DivModUnique(i, TilesAcross(w), TilesAcross(h), 0);
  }

  lemma BoxPeeled(img: Image, bpp: nat, w: nat, h: nat, i: nat, rest: seq<Byte>)
    requires w > 0 && i < TilesAcross(w) * TilesAcross(h)
    ensures TileX(w, i) < w && TileY(w, i) < h
    ensures BoxBytes(img, bpp, w, h, i) + rest
         == TileBytes(img, bpp, w, h, TileX(w, i), TileY(w, i)) + (BoxBytes(img, bpp, w, h, i + 1) + rest)
  {
    TileInside(w, h, i);
  }

  /** The viewer's walk from where tile `i` starts. */
  lemma {:induction false} WalkFromTile(img: Image, bpp: nat, w: nat, h: nat, i: nat, rest: seq<Byte>)
    requires SizedImage(img, w, h, bpp) && w > 0 && i <= TilesAcross(w) * TilesAcross(h)
    ensures Decoded(DecodeBox(BoxBytes(img, bpp, w, h, i) + rest, bpp, w, h, TileX(w, i), TileY(w, i)),
                    img, w, h, TileX(w, i), TileY(w, i), rest)
    decreases TilesAcross(w) * TilesAcross(h) - i
  {
    if i == TilesAcross(w) * TilesAcross(h) {
      LastTile(w, h, i);
      assert BoxBytes(img, bpp, w, h, i) + rest == rest;
    } else {
      WalkFromTile(img, bpp, w, h, i + 1, rest);
      WalkOneTile(img, bpp, w, h, i, rest);
    }
  }

  lemma {:induction false} WalkOneTile(img: Image, bpp: nat, w: nat, h: nat, i: nat, rest: seq<Byte>)
    requires SizedImage(img, w, h, bpp) && w > 0 && i < TilesAcross(w) * TilesAcross(h)
    requires Decoded(DecodeBox(BoxBytes(img, bpp, w, h, i + 1) + rest, bpp, w, h, TileX(w, i + 1), TileY(w, i + 1)),
                     img, w, h, TileX(w, i + 1), TileY(w, i + 1), rest)
    ensures Decoded(DecodeBox(BoxBytes(img, bpp, w, h, i) + rest, bpp, w, h, TileX(w, i), TileY(w, i)),
                    img, w, h, TileX(w, i), TileY(w, i), rest)
  {
    var more := BoxBytes(img, bpp, w, h, i + 1) + rest;
    TileInside(w, h, i);
    NextTile(w, i);
    if TileX(w, i) + 64 >= w {
      RowEnds(img, bpp, w, h, TileX(w, i) + 64, TileY(w, i), more, rest);
    }
    OneTilePainted(img, bpp, w, h, TileX(w, i), TileY(w, i), more, rest);
    BoxPeeled(img, bpp, w, h, i, rest);
  }

  /**
    Decoding what the encoder feeds for a rectangle shows every pixel of the rectangle and
    paints nothing else, for all sizes, and leaves the bytes of the next rectangle untouched.
   */
  lemma {:induction false} BoxRoundTrip(img: Image, bpp: nat, w: nat, h: nat, rest: seq<Byte>)
    requires SizedImage(img, w, h, bpp)
    ensures var r := DecodeBox(BoxBytes(img, bpp, w, h, 0) + rest, bpp, w, h, 0, 0);
      && r.Some? && r.value.1 == rest
      && forall x, y :: r.value.0(x, y) == if 0 <= x < w && 0 <= y < h then Some(img(x, y)) else None
  {
    if w == 0 {
      NoTiles(img, bpp, h, 0, rest);
      assert BoxBytes(img, bpp, w, h, 0) + rest == rest;
    } else {
      WalkFromTile(img, bpp, w, h, 0, rest);
    }
    var screen := DecodeBox(BoxBytes(img, bpp, w, h, 0) + rest, bpp, w, h, 0, 0).value.0;
    forall x, y ensures screen(x, y) == if 0 <= x < w && 0 <= y < h then Some(img(x, y)) else None {
      assert screen(x, y) == if Ahead(w, h, 0, 0, x, y) then Some(img(x, y)) else None;
    }
  }

  lemma {:induction false} NoTiles(img: Image, bpp: nat, h: nat, ty: nat, rest: seq<Byte>)
    ensures Decoded(DecodeBox(rest, bpp, 0, h, 0, ty), img, 0, h, 0, ty, rest)
    decreases h - ty
  {
    if ty < h {
      NoTiles(img, bpp, h, ty + 64, rest);
      RowEnds(img, bpp, 0, h, 0, ty, rest, rest);
    }
  }
}
