/** The ZRLE tile encoder as it works: a palette, a run counter and a scratch vector. */
module ZrleTileEncoder {
  import opened Common
  import opened ZrleTile
  import opened Vec

  method FindColourInPalette(palette: seq<Pixel>, colour: Pixel) returns (index: int)
    ensures index == Find(palette, colour)
  {
    assert palette[0..] == palette;
    for i := 0 to |palette|
      invariant var r := Find(palette[i..], colour); Find(palette, colour) == if r < 0 then -1 else i + r
    {
      if palette[i] == colour {
        return i;
      }
      assert palette[i..][1..] == palette[i + 1..];
    }
    return -1;
  }

  lemma {:induction false} PaletteGrows(px: seq<Pixel>, i: nat)
    requires i <= |px|
    ensures |PaletteOf(px[..i])| <= |PaletteOf(px)|
    decreases |px|
  {
    if i < |px| {
      var front := px[..|px| - 1];
      assert front[..i] == px[..i];
      PaletteGrows(front, i);
    } else {
      assert px[..i] == px;
    }
  }

  lemma {:induction false} PaletteStep(px: seq<Pixel>, i: nat)
    requires i < |px|
    ensures PaletteOf(px[..i + 1])
         == if Find(PaletteOf(px[..i]), px[i]) < 0 then PaletteOf(px[..i]) + [px[i]] else PaletteOf(px[..i])
  {
    assert px[..i + 1][..i] == px[..i];
  }

  /** The palette of the first `i` pixels; the first colour is there from the start. */
  function Colours(src: seq<Pixel>, i: nat): seq<Pixel>
    requires src != [] && i <= |src|
  {
    if i == 0 then [src[0]] else PaletteOf(src[..i])
  }

  lemma {:induction false} ColoursStep(src: seq<Pixel>, i: nat)
    requires i < |src|
    ensures Colours(src, i + 1)
      == if Find(Colours(src, i), src[i]) < 0 then Colours(src, i) + [src[i]] else Colours(src, i)
  {
    PaletteStep(src, i);
    if i == 0 {
      assert src[..0] == [];
    }
  }

  /** The palette, or none if the tile has more than 16 colours. */
  method GetTilePalette(src: seq<Pixel>) returns (palette: Option<seq<Pixel>>)
    requires src != []
    ensures palette == if |PaletteOf(src)| <= 16 then Some(PaletteOf(src)) else None
  {
    var colours := [src[0]];
    for i := 0 to |src|
      invariant |colours| <= 16 && colours == Colours(src, i)
    {
      ColoursStep(src, i);
      var found := FindColourInPalette(colours, src[i]);
      if found < 0 {
        if |colours| >= 16 {
          PaletteGrows(src, i + 1);
          assert |Colours(src, i + 1)| == 17;
          return None;
        }
        colours := colours + [src[i]];
      }
    }
    assert src[..|src|] == src;
    return Some(colours);
  }

  method EncodeRunLength(dst: ByteVec, index: int, runLength: nat)
    requires dst.Valid() && -1 <= index < 16 && runLength > 0
    requires |dst.data| + |RunBytes(index, runLength)| <= dst.cap
    modifies dst`data
    ensures dst.Valid() && dst.data == old(dst.data) + RunBytes(index, runLength)
  {
    if runLength == 1 {
      dst.FastAppend8(index % 256);
    } else {
      dst.FastAppend8(if index < 0 then 255 else index + 128);
      AppendLength(dst, runLength);
    }
  }

  method AppendLength(dst: ByteVec, runLength: nat)
    requires dst.Valid() && runLength > 0
    requires |dst.data| + |LengthBytes(runLength)| <= dst.cap
    modifies dst`data
    ensures dst.Valid() && dst.data == old(dst.data) + LengthBytes(runLength)
  {
    var left := runLength;
    ghost var written: seq<Byte> := [];
    while left > 255
      invariant 0 < left && dst.data == old(dst.data) + written
      invariant written + LengthBytes(left) == LengthBytes(runLength)
    {
      LengthPeeled(written, left);
      dst.FastAppend8(255);
      left := left - 255;
      written := written + [255];
    }
    dst.FastAppend8(left - 1);
  }

  lemma LengthPeeled(written: seq<Byte>, left: nat)
    requires left > 255
    ensures written + LengthBytes(left) == (written + [255]) + LengthBytes(left - 255)
  {
    assert LengthBytes(left) == [255] + LengthBytes(left - 255);
  }

  /** A run that ends at `i` is the one that `RunEnd` finds. */
  lemma {:induction false} RunEndsHere(px: seq<Pixel>, start: nat, i: nat)
    requires start < i <= |px|
    requires forall k :: start <= k < i ==> px[k] == px[start]
    requires i < |px| ==> px[i] != px[start]
    ensures RunEnd(px, start) == i
    decreases i - start
  {
    if start + 1 < i {
      assert px[start + 1] == px[start];
      RunEndsHere(px, start + 1, i);
    }
  }

  lemma PaletteLength(palette: seq<Pixel>, bpp: nat)
    requires |palette| <= 16 && Sized(palette, bpp)
    ensures |Concat(palette)| <= 16 * bpp
  {
    PixelsLength(palette, bpp);
    MulMono(|palette|, 16, bpp);
  }

  method EncodePackedTile(dst: ByteVec, src: seq<Pixel>, palette: seq<Pixel>, ghost bpp: nat)
    requires dst.Valid() && dst.data == [] && src != []
    requires 1 < |palette| <= 16 && Sized(palette, bpp)
    requires 1 + 16 * bpp + |src| <= dst.cap
    modifies dst
    ensures dst.Valid() && dst.cap >= old(dst.cap) && dst.data == PackedTile(palette, src)
  {
    PaletteLength(palette, bpp);
    dst.FastAppend8(128 + |palette|);
    var table := Concat(palette);
    dst.Append(table);
    assert |dst.data| <= 1 + 16 * bpp;
    EncodeRuns(dst, src, palette);
  }

  /** The run-length loop over the whole tile. */
  method EncodeRuns(dst: ByteVec, src: seq<Pixel>, palette: seq<Pixel>)
    requires dst.Valid() && src != [] && |palette| <= 16
    requires |dst.data| + |src| <= dst.cap
    modifies dst`data
    ensures dst.Valid() && dst.data == old(dst.data) + RunsBytes(palette, src, 0)
  {
    ghost var goal := dst.data + RunsBytes(palette, src, 0);
    var runLength := 1;
    ghost var start := 0;
    for i := 1 to |src|
      invariant 0 <= start < i && runLength == i - start && dst.Valid()
      invariant forall k :: start <= k < i ==> src[k] == src[start]
      invariant |dst.data| + (|src| - start) <= dst.cap
      invariant dst.data + RunsBytes(palette, src, start) == goal
    {
      if src[i] == src[i - 1] {
        runLength := runLength + 1;
      } else {
        EmitRun(dst, src, palette, i, runLength, start, goal);
        runLength := 1;
        start := i;
      }
    }
    EmitRun(dst, src, palette, |src|, runLength, start, goal);
  }

  lemma AppendAssoc(x: seq<Byte>, y: seq<Byte>, z: seq<Byte>)
    ensures x + (y + z) == (x + y) + z
  {
  }

  /** The run of `runLength` pixels before `i` is looked up and written. */
  method EmitRun(
    dst: ByteVec, src: seq<Pixel>, palette: seq<Pixel>, i: nat, runLength: nat, ghost start: nat, ghost goal: seq<Byte>)
    requires dst.Valid() && start < i <= |src| && runLength == i - start && |palette| <= 16
    requires forall k :: start <= k < i ==> src[k] == src[start]
    requires i < |src| ==> src[i] != src[i - 1]
    requires |dst.data| + (|src| - start) <= dst.cap
    requires dst.data + RunsBytes(palette, src, start) == goal
    modifies dst`data
    ensures dst.Valid()
    ensures |dst.data| + (|src| - i) <= dst.cap
    ensures dst.data + RunsBytes(palette, src, i) == goal
  {
    var index := FindColourInPalette(palette, src[i - 1]);
    RunEndsHere(src, start, i);
    RunCost(index, runLength);
    AppendAssoc(dst.data, RunBytes(index, runLength), RunsBytes(palette, src, i));
    EncodeRunLength(dst, index, runLength);
  }

  method EncodeUnichromeTile(dst: ByteVec, colour: Pixel)
    requires dst.Valid() && dst.data == [] && 1 + |colour| <= dst.cap
    modifies dst`data
    ensures dst.Valid() && dst.data == [1] + colour
  {
    dst.FastAppend8(1);
    dst.CopyBehind(colour);
  }

  method EncodeRawTile(dst: ByteVec, bpp: nat, src: seq<Pixel>)
    requires dst.Valid() && dst.data == []
    requires |src| <= 4096 && Sized(src, bpp) && dst.cap >= 1 + bpp * 4096
    modifies dst`data
    ensures dst.Valid() && dst.data == [0] + Concat(src)
  {
    RawFits(bpp, src, dst.cap);
    dst.FastAppend8(0);
    dst.CopyBehind(Concat(src));
  }

  /** `zrle_encode_tile`: no append ever finds the scratch vector full. */
  method ZrleEncodeTile(dst: ByteVec, bpp: nat, src: seq<Pixel>)
    requires dst.Valid() && 1 <= bpp <= 4
    requires 0 < |src| <= 4096 && Sized(src, bpp)
    requires dst.cap >= 1 + bpp * 4096 + 64
    modifies dst
    ensures dst.Valid() && dst.cap >= old(dst.cap) && dst.data == EncodeTile(bpp, src)
  {
    dst.Clear();
    var palette := GetTilePalette(src);
    PaletteIsRight(src, bpp);
    if palette.Some? && |palette.value| == 1 {
      EncodeUnichromeTile(dst, palette.value[0]);
      return;
    }
    if palette.Some? && |palette.value| > 1 {
      EncodePackedTile(dst, src, palette.value, bpp);
      if |dst.data| <= 1 + bpp * |src| {
        return;
      }
      dst.Truncate(0);
    }
    EncodeRawTile(dst, bpp, src);
  }

  lemma RawFits(bpp: nat, src: seq<Pixel>, cap: nat)
    requires |src| <= 4096 && Sized(src, bpp) && cap >= 1 + bpp * 4096
    ensures 1 + |Concat(src)| <= cap
  {
    PixelsLength(src, bpp);
    MulMono(|src|, 4096, bpp);
  }
}
