/**
  One ZRLE tile: the encoder's choice between solid, palette-RLE and raw tiles, and a
  decoder for all tile types of sections 7.7.5 and 7.7.6 of RFC 6143.
 */
module ZrleTile {
  import opened Common

  /** A pixel in the client's compressed pixel format: `bpp` bytes. */
  type Pixel = seq<Byte>

  predicate Sized(px: seq<Pixel>, bpp: nat) {
    forall i :: 0 <= i < |px| ==> |px[i]| == bpp
  }

  // ---------------------------------------------------------------- what the encoder writes

  /** The position of a colour in a palette, -1 if it is not there. */
  function Find(pal: seq<Pixel>, p: Pixel): (i: int)
    ensures -1 <= i < |pal|
    ensures i >= 0 ==> pal[i] == p
  {
    if pal == [] then -1
    else if pal[0] == p then 0
    else
      var i := Find(pal[1..], p);
      if i < 0 then -1 else i + 1
  }

  /** The different colours of a tile, in the order of their first occurrence. */
  function PaletteOf(px: seq<Pixel>): (pal: seq<Pixel>)
    ensures |pal| <= |px|
    ensures px != [] ==> pal != []
  {
    if px == [] then []
    else
      var pal, last := PaletteOf(px[..|px| - 1]), px[|px| - 1];
      if Find(pal, last) < 0 then pal + [last] else pal
  }

  /** A run length of at least 2 as a chain of 255s and a final byte below 255. */
  function LengthBytes(n: nat): seq<Byte>
    requires n > 0
  {
    if n > 255 then [255] + LengthBytes(n - 255) else [n - 1]
  }

  /** `index` is written as an unsigned byte; the top bit announces a run length. */
  function RunBytes(index: int, n: nat): seq<Byte>
    requires -1 <= index < 128 && n > 0
  {
    if n == 1 then [index % 256]
    else [if index < 0 then 255 else index + 128] + LengthBytes(n)
  }

  /** The position behind the run that starts at `start`. */
  function RunEnd(px: seq<Pixel>, start: nat): (end: nat)
    requires start < |px|
    ensures start < end <= |px|
    decreases |px| - start
  {
    if start + 1 < |px| && px[start + 1] == px[start] then RunEnd(px, start + 1) else start + 1
  }

  /** The runs of a tile from `start` on. */
  function RunsBytes(pal: seq<Pixel>, px: seq<Pixel>, start: nat): seq<Byte>
    requires |pal| <= 16 && start <= |px|
    decreases |px| - start
  {
    if start == |px| then []
    else RunBytes(Find(pal, px[start]), RunEnd(px, start) - start) + RunsBytes(pal, px, RunEnd(px, start))
  }

  function PackedTile(pal: seq<Pixel>, px: seq<Pixel>): seq<Byte>
    requires 1 < |pal| <= 16
  {
    [128 + |pal|] + Concat(pal) + RunsBytes(pal, px, 0)
  }

  function EncodeTile(bpp: nat, px: seq<Pixel>): seq<Byte>
    requires px != []
  {
    var pal := PaletteOf(px);
    if |pal| == 1 then [1] + pal[0]
    else if |pal| <= 16 && |PackedTile(pal, px)| <= 1 + bpp * |px| then PackedTile(pal, px)
    else [0] + Concat(px)
  }

  // ---------------------------------------------------------------- what a viewer reads

  function Cons(p: Pixel, r: Option<(seq<Pixel>, seq<Byte>)>): Option<(seq<Pixel>, seq<Byte>)> {
    match r case None => None case Some((px, rest)) => Some(([p] + px, rest))
  }

  function TakePixels(bytes: seq<Byte>, bpp: nat, n: nat): Option<(seq<Pixel>, seq<Byte>)> {
    if n == 0 then Some(([], bytes))
    else if |bytes| < bpp then None
    else Cons(bytes[..bpp], TakePixels(bytes[bpp..], bpp, n - 1))
  }

  function TakeLength(bytes: seq<Byte>): Option<(nat, seq<Byte>)> {
    if bytes == [] then None
    else if bytes[0] != 255 then Some((bytes[0] + 1, bytes[1..]))
    else
      match TakeLength(bytes[1..])
      case None => None
      case Some((n, rest)) => Some((n + 255, rest))
  }

  function Repeat(p: Pixel, n: nat): (px: seq<Pixel>)
    ensures |px| == n && forall i :: 0 <= i < n ==> px[i] == p
  {
    seq(n, _ => p)
  }

  function Prepend(run: seq<Pixel>, r: Option<(seq<Pixel>, seq<Byte>)>): Option<(seq<Pixel>, seq<Byte>)> {
    match r case None => None case Some((px, rest)) => Some((run + px, rest))
  }

  /** Palette RLE: a set top bit announces a run length after the palette index. */
  function TakePaletteRuns(bytes: seq<Byte>, pal: seq<Pixel>, n: nat): Option<(seq<Pixel>, seq<Byte>)>
    decreases n
  {
    if n == 0 then Some(([], bytes))
    else if bytes == [] then None
    else
      var b := bytes[0];
      if b < 128 then
        if b < |pal| then Prepend([pal[b]], TakePaletteRuns(bytes[1..], pal, n - 1)) else None
      else
        match TakeLength(bytes[1..])
        case None => None
        case Some((k, rest)) =>
          if b - 128 < |pal| && 0 < k <= n
          then Prepend(Repeat(pal[b - 128], k), TakePaletteRuns(rest, pal, n - k))
          else None
  }

  function TakePaletteRle(bytes: seq<Byte>, bpp: nat, paletteSize: nat, n: nat): Option<(seq<Pixel>, seq<Byte>)> {
    match TakePixels(bytes, bpp, paletteSize)
    case None => None
    case Some((pal, data)) => TakePaletteRuns(data, pal, n)
  }

  /** Plain RLE: a pixel and a run length. */
  function TakePlainRuns(bytes: seq<Byte>, bpp: nat, n: nat): Option<(seq<Pixel>, seq<Byte>)>
    decreases n
  {
    if n == 0 then Some(([], bytes))
    else if |bytes| < bpp then None
    else
      match TakeLength(bytes[bpp..])
      case None => None
      case Some((k, rest)) =>
        if 0 < k <= n then Prepend(Repeat(bytes[..bpp], k), TakePlainRuns(rest, bpp, n - k)) else None
  }

  /** Packed palette: fields of 1, 2 or 4 bits, most significant first, rows padded to bytes. */
  function FieldBits(paletteSize: nat): nat {
    if paletteSize <= 2 then 1 else if paletteSize <= 4 then 2 else 4
  }

  function Field(row: seq<Byte>, bits: nat, x: nat): nat
    requires bits == 1 || bits == 2 || bits == 4
    requires x * bits < 8 * |row|
  {
    var b := row[(x * bits) / 8];
    var slot := 8 / bits - 1 - x % (8 / bits);
    if bits == 1 then (b / [1, 2, 4, 8, 16, 32, 64, 128][slot]) % 2
    else if bits == 2 then (b / [1, 4, 16, 64][slot]) % 4
    else (b / [1, 16][slot]) % 16
  }

  function TakePackedRows(bytes: seq<Byte>, pal: seq<Pixel>, w: nat, h: nat): Option<(seq<Pixel>, seq<Byte>)>
    requires |pal| > 0
  {
    if h == 0 then Some(([], bytes))
    else
      var bits := FieldBits(|pal|);
      var rowLen := (w * bits + 7) / 8;
      if |bytes| < rowLen then None
      else
        var row := bytes[..rowLen];
        if forall x :: 0 <= x < w ==> Field(row, bits, x) < |pal|
        then Prepend(seq(w, x requires 0 <= x < w => pal[Field(row, bits, x)]), TakePackedRows(bytes[rowLen..], pal, w, h - 1))
        else None
  }

  /** One tile of `w` by `h` pixels from the front of the inflated stream. */
  function DecodeTile(bytes: seq<Byte>, bpp: nat, w: nat, h: nat): Option<(seq<Pixel>, seq<Byte>)> {
    if bytes == [] then None
    else
      var sub, rest := bytes[0], bytes[1..];
      if sub == 0 then TakePixels(rest, bpp, w * h)
      else if sub == 1 then
        if |rest| < bpp then None else Some((Repeat(rest[..bpp], w * h), rest[bpp..]))
      else if sub <= 16 then
        match TakePixels(rest, bpp, sub)
        case None => None
        case Some((pal, data)) => if |pal| == 0 then None else TakePackedRows(data, pal, w, h)
      else if sub == 128 then TakePlainRuns(rest, bpp, w * h)
      else if sub >= 130 then TakePaletteRle(rest, bpp, sub - 128, w * h)
      else None
  }

  // ---------------------------------------------------------------- the viewer undoes the encoder

  /** Every pixel of the tile is found in its palette. */
  ghost predicate Covers(pal: seq<Pixel>, px: seq<Pixel>) {
    forall i :: 0 <= i < |px| ==> Find(pal, px[i]) >= 0
  }

  lemma {:induction false} FindInLonger(pal: seq<Pixel>, extra: Pixel, p: Pixel)
    ensures Find(pal + [extra], p) >= 0 <==> Find(pal, p) >= 0 || p == extra
  {
    if pal != [] {
      assert (pal + [extra])[1..] == pal[1..] + [extra];
      FindInLonger(pal[1..], extra, p);
    }
  }

  lemma {:induction false} PaletteIsRight(px: seq<Pixel>, bpp: nat)
    requires Sized(px, bpp)
    ensures Covers(PaletteOf(px), px) && Sized(PaletteOf(px), bpp)
  {
    if px != [] {
      var front, last := px[..|px| - 1], px[|px| - 1];
      PaletteIsRight(front, bpp);
      var pal := PaletteOf(front);
      forall i | 0 <= i < |px| ensures Find(PaletteOf(px), px[i]) >= 0 {
        assert i < |front| ==> px[i] == front[i];
        FindInLonger(pal, last, px[i]);
      }
    }
  }

  lemma {:induction false} PixelsRoundTrip(px: seq<Pixel>, bpp: nat, rest: seq<Byte>)
    requires Sized(px, bpp)
    ensures TakePixels(Concat(px) + rest, bpp, |px|) == Some((px, rest))
  {
    if px == [] {
      assert Concat(px) + rest == rest;
    } else {
      var tail := Concat(px[1..]) + rest;
      assert Concat(px) + rest == px[0] + tail;
      assert (px[0] + tail)[..bpp] == px[0] && (px[0] + tail)[bpp..] == tail;
      PixelsRoundTrip(px[1..], bpp, rest);
      assert [px[0]] + px[1..] == px;
    }
  }

  lemma {:induction false} LengthRoundTrip(n: nat, rest: seq<Byte>)
    requires n > 0
    ensures TakeLength(LengthBytes(n) + rest) == Some((n, rest))
  {
    var bytes := LengthBytes(n) + rest;
    if n > 255 {
      LengthRoundTrip(n - 255, rest);
      assert bytes[1..] == LengthBytes(n - 255) + rest;
    } else {
      assert bytes[1..] == rest;
    }
  }

  lemma SingleRoundTrip(pal: seq<Pixel>, index: nat, m: nat, tail: seq<Byte>)
    requires index < |pal| <= 16 && 0 < m
    ensures TakePaletteRuns([index] + tail, pal, m) == Prepend([pal[index]], TakePaletteRuns(tail, pal, m - 1))
  {
    assert ([index] + tail)[1..] == tail;
  }

  lemma LongRunRoundTrip(pal: seq<Pixel>, index: nat, n: nat, m: nat, tail: seq<Byte>)
    requires index < |pal| <= 16 && 0 < n <= m
    ensures TakePaletteRuns([index + 128] + (LengthBytes(n) + tail), pal, m)
         == Prepend(Repeat(pal[index], n), TakePaletteRuns(tail, pal, m - n))
  {
    assert ([index + 128] + (LengthBytes(n) + tail))[1..] == LengthBytes(n) + tail;
    LengthRoundTrip(n, tail);
  }

  lemma RunRoundTrip(pal: seq<Pixel>, index: nat, n: nat, m: nat, tail: seq<Byte>)
    requires index < |pal| <= 16 && 0 < n <= m
    ensures TakePaletteRuns(RunBytes(index, n) + tail, pal, m)
         == Prepend(Repeat(pal[index], n), TakePaletteRuns(tail, pal, m - n))
  {
    if n == 1 {
      SingleRoundTrip(pal, index, m, tail);
      assert Repeat(pal[index], 1) == [pal[index]];
    } else {
      LongRunRoundTrip(pal, index, n, m, tail);
      assert RunBytes(index, n) + tail == [index + 128] + (LengthBytes(n) + tail);
    }
  }

  lemma {:induction false} RunRepeats(px: seq<Pixel>, start: nat)
    requires start < |px|
    ensures forall k :: start <= k < RunEnd(px, start) ==> px[k] == px[start]
    decreases |px| - start
  {
    if start + 1 < |px| && px[start + 1] == px[start] {
      RunRepeats(px, start + 1);
    }
  }

  lemma RunThenRest(
    pal: seq<Pixel>, px: seq<Pixel>, start: nat, bytes: seq<Byte>, tail: seq<Byte>, rest: seq<Byte>)
    requires start < |px| && |pal| <= 16 && Find(pal, px[start]) >= 0
    requires bytes == RunBytes(Find(pal, px[start]), RunEnd(px, start) - start) + tail
    requires var end := RunEnd(px, start); TakePaletteRuns(tail, pal, |px| - end) == Some((px[end..], rest))
    ensures TakePaletteRuns(bytes, pal, |px| - start) == Some((px[start..], rest))
  {
    var end := RunEnd(px, start);
    RunRoundTrip(pal, Find(pal, px[start]), end - start, |px| - start, tail);
    RunRepeats(px, start);
    assert Repeat(px[start], end - start) + px[end..] == px[start..];
  }

  lemma FirstRun(pal: seq<Pixel>, px: seq<Pixel>, start: nat, rest: seq<Byte>)
    requires |pal| <= 16 && start < |px|
    ensures RunsBytes(pal, px, start) + rest
         == RunBytes(Find(pal, px[start]), RunEnd(px, start) - start) + (RunsBytes(pal, px, RunEnd(px, start)) + rest)
  {
  }

  lemma {:induction false} RunsRoundTrip(pal: seq<Pixel>, px: seq<Pixel>, start: nat, rest: seq<Byte>)
    requires |pal| <= 16 && Covers(pal, px) && start <= |px|
    ensures TakePaletteRuns(RunsBytes(pal, px, start) + rest, pal, |px| - start) == Some((px[start..], rest))
    decreases |px| - start
  {
    if start == |px| {
      assert RunsBytes(pal, px, start) + rest == rest && px[start..] == [];
    } else {
      var end := RunEnd(px, start);
      FirstRun(pal, px, start, rest);
      RunsRoundTrip(pal, px, end, rest);
      RunThenRest(pal, px, start, RunsBytes(pal, px, start) + rest, RunsBytes(pal, px, end) + rest, rest);
    }
  }

  lemma SplitFirst(b: Byte, x: seq<Byte>, y: seq<Byte>, z: seq<Byte>)
    ensures [b] + x + y + z == [b] + (x + (y + z))
  {
  }

  lemma DecodePaletteRle(sub: Byte, data: seq<Byte>, bpp: nat, w: nat, h: nat)
    requires sub >= 130
    ensures DecodeTile([sub] + data, bpp, w, h) == TakePaletteRle(data, bpp, sub - 128, w * h)
  {
    assert ([sub] + data)[1..] == data;
  }

  lemma {:induction false} PaletteRleRoundTrip(bpp: nat, pal: seq<Pixel>, px: seq<Pixel>, rest: seq<Byte>)
    requires |pal| <= 16 && Sized(pal, bpp) && Covers(pal, px)
    ensures TakePaletteRle(Concat(pal) + (RunsBytes(pal, px, 0) + rest), bpp, |pal|, |px|) == Some((px, rest))
  {
    PixelsRoundTrip(pal, bpp, RunsBytes(pal, px, 0) + rest);
    RunsRoundTrip(pal, px, 0, rest);
    assert px[0..] == px;
  }

  lemma PackedRoundTrip(bpp: nat, pal: seq<Pixel>, px: seq<Pixel>, w: nat, h: nat, rest: seq<Byte>)
    requires 1 < |pal| <= 16 && Sized(pal, bpp) && Covers(pal, px)
    requires |px| == w * h
    ensures DecodeTile(PackedTile(pal, px) + rest, bpp, w, h) == Some((px, rest))
  {
    var table, data := Concat(pal), RunsBytes(pal, px, 0);
    PaletteRleRoundTrip(bpp, pal, px, rest);
    SplitFirst(128 + |pal|, table, data, rest);
    DecodePaletteRle(128 + |pal|, table + (data + rest), bpp, w, h);
  }

  lemma SolidRoundTrip(bpp: nat, colour: Pixel, px: seq<Pixel>, w: nat, h: nat, rest: seq<Byte>)
    requires |colour| == bpp && Covers([colour], px) && |px| == w * h
    ensures DecodeTile([1] + colour + rest, bpp, w, h) == Some((px, rest))
  {
    var bytes := [1] + colour + rest;
    assert bytes[1..] == colour + rest;
    assert (colour + rest)[..bpp] == colour && (colour + rest)[bpp..] == rest;
    assert Repeat(colour, w * h) == px;
  }

  lemma RawRoundTrip(bpp: nat, px: seq<Pixel>, w: nat, h: nat, rest: seq<Byte>)
    requires Sized(px, bpp) && |px| == w * h
    ensures DecodeTile([0] + Concat(px) + rest, bpp, w, h) == Some((px, rest))
  {
    var bytes := [0] + Concat(px) + rest;
    assert bytes[1..] == Concat(px) + rest;
    PixelsRoundTrip(px, bpp, rest);
  }

  /** Whatever the contents, a viewer gets back the pixels of the tile and nothing of what follows. */
  lemma {:induction false} TileRoundTrip(bpp: nat, px: seq<Pixel>, w: nat, h: nat, rest: seq<Byte>)
    requires px != [] && Sized(px, bpp) && |px| == w * h
    ensures DecodeTile(EncodeTile(bpp, px) + rest, bpp, w, h) == Some((px, rest))
  {
    var pal := PaletteOf(px);
    PaletteIsRight(px, bpp);
    if |pal| == 1 {
      assert pal == [pal[0]];
      SolidRoundTrip(bpp, pal[0], px, w, h, rest);
    } else if |pal| <= 16 && |PackedTile(pal, px)| <= 1 + bpp * |px| {
      PackedRoundTrip(bpp, pal, px, w, h, rest);
    } else {
      RawRoundTrip(bpp, px, w, h, rest);
    }
  }

  // ---------------------------------------------------------------- sizes

  lemma {:induction false} LengthCost(n: nat)
    requires n > 1
    ensures |LengthBytes(n)| < n
  {
    if n > 256 {
      LengthCost(n - 255);
    }
  }

  /** A run of `n` pixels costs at most `n` bytes. */
  lemma RunCost(index: int, n: nat)
    requires -1 <= index < 128 && n > 0
    ensures 0 < |RunBytes(index, n)| <= n
  {
    if n > 1 {
      LengthCost(n);
    }
  }

  lemma {:induction false} RunsCost(pal: seq<Pixel>, px: seq<Pixel>, start: nat)
    requires |pal| <= 16 && start <= |px|
    ensures |RunsBytes(pal, px, start)| <= |px| - start
    decreases |px| - start
  {
    if start != |px| {
      RunCost(Find(pal, px[start]), RunEnd(px, start) - start);
      RunsCost(pal, px, RunEnd(px, start));
    }
  }

  lemma {:induction false} PixelsLength(px: seq<Pixel>, bpp: nat)
    requires Sized(px, bpp)
    ensures |Concat(px)| == bpp * |px|
  {
    if px != [] {
      PixelsLength(px[1..], bpp);
      var n := |px| - 1;
      assert bpp * (n + 1) == bpp * n + bpp;
    }
  }

  /** A packed tile fits the scratch space even before it is compared with the raw form. */
  lemma PackedSize(bpp: nat, px: seq<Pixel>)
    requires Sized(px, bpp) && 1 < |PaletteOf(px)| <= 16
    ensures |PackedTile(PaletteOf(px), px)| <= 1 + 16 * bpp + |px|
  {
    var pal := PaletteOf(px);
    PaletteIsRight(px, bpp);
    PixelsLength(pal, bpp);
    RunsCost(pal, px, 0);
    MulMono(|pal|, 16, bpp);
  }

  /** No tile is larger than its raw form. */
  lemma TileSize(bpp: nat, px: seq<Pixel>)
    requires px != [] && Sized(px, bpp)
    ensures |EncodeTile(bpp, px)| <= 1 + bpp * |px|
  {
    PaletteIsRight(px, bpp);
    PixelsLength(px, bpp);
    MulMono(1, |px|, bpp);
  }
}
