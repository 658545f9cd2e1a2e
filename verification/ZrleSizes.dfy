/** Which of the three kinds of tile is chosen, and what it costs. */
module ZrleSizes {
  import opened Common
  import opened ZrleTile

  // ---------------------------------------------------------------- colours

  function Colours(px: seq<Pixel>): set<Pixel> { set i | 0 <= i < |px| :: px[i] }

  ghost predicate Distinct(pal: seq<Pixel>) {
    forall i, j :: 0 <= i < j < |pal| ==> pal[i] != pal[j]
  }

  lemma {:induction false} FindIff(pal: seq<Pixel>, p: Pixel)
    ensures Find(pal, p) >= 0 <==> p in pal
  {
    if pal != [] {
      assert pal == [pal[0]] + pal[1..];
      FindIff(pal[1..], p);
    }
  }

  /** The palette holds each colour of the tile once. */
  lemma {:induction false} PaletteIsDistinct(px: seq<Pixel>)
    ensures Distinct(PaletteOf(px))
    ensures forall p :: p in PaletteOf(px) <==> p in px
  {
    if px != [] {
      var front, last := px[..|px| - 1], px[|px| - 1];
      assert px == front + [last];
      PaletteIsDistinct(front);
      FindIff(PaletteOf(front), last);
    }
  }

  lemma {:induction false} DistinctCount(pal: seq<Pixel>, s: set<Pixel>)
    requires Distinct(pal) && forall p :: p in pal <==> p in s
    ensures |pal| == |s|
  {
    if pal == [] {
      assert s == {};
    } else {
      var front, last := pal[..|pal| - 1], pal[|pal| - 1];
      assert pal == front + [last];
      DistinctCount(front, s - {last});
    }
  }

  lemma {:induction false} PaletteCounts(px: seq<Pixel>)
    ensures |PaletteOf(px)| == |Colours(px)|
  {
    PaletteIsDistinct(px);
    DistinctCount(PaletteOf(px), Colours(px));
  }

  // ---------------------------------------------------------------- runs

  /** A tile as runs: colours and lengths. */
  datatype Run = Run(colour: Pixel, length: nat)

  function Unrolled(runs: seq<Run>): seq<Pixel> {
    if runs == [] then [] else Repeat(runs[0].colour, runs[0].length) + Unrolled(runs[1..])
  }

  /** No run is empty, and none could be longer. */
  predicate Maximal(runs: seq<Run>) {
    && (forall i :: 0 <= i < |runs| ==> runs[i].length > 0)
    && forall i :: 0 <= i < |runs| - 1 ==> runs[i].colour != runs[i + 1].colour
  }

  /** One byte for a single pixel; for more the colour and one byte for every 255 pixels begun. */
  function RunSize(n: nat): nat
    requires n > 0
  {
    if n == 1 then 1 else 2 + (n - 1) / 255
  }

  function RunsSize(runs: seq<Run>): nat
    requires forall i :: 0 <= i < |runs| ==> runs[i].length > 0
  {
    if runs == [] then 0 else RunSize(runs[0].length) + RunsSize(runs[1..])
  }

  lemma {:induction false} LengthSize(n: nat)
    requires n > 0
    ensures |LengthBytes(n)| == 1 + (n - 1) / 255
  {
    if n > 255 {
      LengthSize(n - 255);
    }
  }

  lemma {:induction false} RunBytesSize(index: int, n: nat)
    requires -1 <= index < 128 && n > 0
    ensures |RunBytes(index, n)| == RunSize(n)
  {
    LengthSize(n);
  }

  lemma {:induction false} RunEndsAt(px: seq<Pixel>, start: nat, end: nat)
    requires start < end <= |px|
    requires forall k :: start <= k < end ==> px[k] == px[start]
    requires end < |px| ==> px[end] != px[start]
    ensures RunEnd(px, start) == end
    decreases end - start
  {
    if start + 1 < end {
      RunEndsAt(px, start + 1, end);
    }
  }

  lemma {:induction false} FirstOfRuns(runs: seq<Run>)
    requires Maximal(runs) && runs != []
    ensures var u, n := Unrolled(runs), runs[0].length;
      && 0 < n <= |u| && (forall k :: 0 <= k < n ==> u[k] == runs[0].colour)
      && (n < |u| ==> u[n] != runs[0].colour)
      && u[n..] == Unrolled(runs[1..]) && (n < |u| <==> |runs| > 1)
  {
    if |runs| > 1 {
      FirstOfRuns(runs[1..]);
    }
  }

  /** The run that starts at `start` is the first of those that the rest is made of. */
  lemma {:induction false} RunStarts(px: seq<Pixel>, start: nat, runs: seq<Run>)
    requires start <= |px| && Maximal(runs) && runs != [] && px[start..] == Unrolled(runs)
    ensures start < |px| && RunEnd(px, start) == start + runs[0].length <= |px|
    ensures px[start + runs[0].length..] == Unrolled(runs[1..])
  {
    var n, u := runs[0].length, Unrolled(runs);
    FirstOfRuns(runs);
    forall k | start <= k < |px| ensures px[k] == u[k - start] {
    }
    RunEndsAt(px, start, start + n);
    assert px[start + n..] == px[start..][n..];
  }

  lemma MaximalTail(runs: seq<Run>)
    requires Maximal(runs) && runs != []
    ensures Maximal(runs[1..]) && RunsSize(runs) == RunSize(runs[0].length) + RunsSize(runs[1..])
  {
  }

  lemma {:induction false} FirstRunSize(pal: seq<Pixel>, px: seq<Pixel>, start: nat, n: nat)
    requires |pal| <= 16 && start < |px| && n > 0 && RunEnd(px, start) == start + n
    ensures |RunsBytes(pal, px, start)| == RunSize(n) + |RunsBytes(pal, px, start + n)|
  {
    var head, tail := RunBytes(Find(pal, px[start]), n), RunsBytes(pal, px, start + n);
    assert RunsBytes(pal, px, start) == head + tail;
    RunBytesSize(Find(pal, px[start]), n);
  }

  /** Whatever a tile is made of, what is written for it is the sizes of its maximal runs. */
  lemma {:induction false} RunsBytesSize(pal: seq<Pixel>, px: seq<Pixel>, start: nat, runs: seq<Run>)
    requires |pal| <= 16 && start <= |px| && Maximal(runs) && px[start..] == Unrolled(runs)
    ensures |RunsBytes(pal, px, start)| == RunsSize(runs)
    decreases |runs|
  {
    if runs != [] {
      RunStarts(px, start, runs);
      FirstRunSize(pal, px, start, runs[0].length);
      MaximalTail(runs);
      RunsBytesSize(pal, px, start + runs[0].length, runs[1..]);
    }
  }

  // ---------------------------------------------------------------- the choice

  /** What a palette tile takes: its type, its colours and its runs. */
  function PaletteSize(colours: nat, bpp: nat, runs: seq<Run>): nat
    requires Maximal(runs)
  {
    1 + colours * bpp + RunsSize(runs)
  }

  lemma {:induction false} PackedTileSize(bpp: nat, px: seq<Pixel>, runs: seq<Run>)
    requires Sized(px, bpp) && 1 < |PaletteOf(px)| <= 16 && Maximal(runs) && Unrolled(runs) == px
    ensures |PackedTile(PaletteOf(px), px)| == PaletteSize(|PaletteOf(px)|, bpp, runs)
    ensures PackedTile(PaletteOf(px), px)[0] == 128 + |PaletteOf(px)|
  {
    var pal := PaletteOf(px);
    PaletteIsRight(px, bpp);
    PixelsLength(pal, bpp);
    assert px[0..] == px;
    RunsBytesSize(pal, px, 0, runs);
  }

  /**
    The kind of tile and its size, for every tile made of these maximal runs: solid for one
    colour, a palette with runs for up to 16 where that is no larger than the pixels, and the
    pixels themselves otherwise.
   */
  lemma {:induction false} KindIsChosen(bpp: nat, px: seq<Pixel>, runs: seq<Run>)
    requires px != [] && Sized(px, bpp) && Maximal(runs) && Unrolled(runs) == px
    ensures var n, tile := |Colours(px)|, EncodeTile(bpp, px);
      var palette := 2 <= n <= 16 && PaletteSize(n, bpp, runs) <= 1 + bpp * |px|;
      && tile != [] && n > 0
      && tile[0] == (if n == 1 then 1 else if palette then 128 + n else 0)
      && |tile| == (if n == 1 then 1 + bpp else if palette then PaletteSize(n, bpp, runs) else 1 + bpp * |px|)
  {
    PaletteCounts(px);
    PaletteIsRight(px, bpp);
    PixelsLength(px, bpp);
    if 1 < |PaletteOf(px)| <= 16 {
      PackedTileSize(bpp, px, runs);
    }
  }

  /** Every tile is made of maximal runs, in one way only. */
  lemma {:induction false} RunsOf(px: seq<Pixel>) returns (runs: seq<Run>)
    ensures Maximal(runs) && Unrolled(runs) == px
  {
    if px == [] {
      runs := [];
    } else {
      var rest := RunsOf(px[1..]);
      if rest != [] && rest[0].colour == px[0] {
        runs := [Run(px[0], rest[0].length + 1)] + rest[1..];
        assert Repeat(px[0], rest[0].length + 1) == [px[0]] + Repeat(px[0], rest[0].length);
        assert runs[1..] == rest[1..];
        assert px == [px[0]] + px[1..];
      } else {
        runs := [Run(px[0], 1)] + rest;
        assert Repeat(px[0], 1) == [px[0]] && runs[1..] == rest;
        if rest != [] { assert runs[1] == rest[0]; }
        forall i | 0 <= i < |runs| ensures runs[i].length > 0 {
          assert i > 0 ==> runs[i] == rest[i - 1];
        }
        forall i | 0 <= i < |runs| - 1 ensures runs[i].colour != runs[i + 1].colour {
          if i > 0 {
            assert runs[i] == rest[i - 1] && runs[i + 1] == rest[i];
          }
        }
      }
    }
  }

  lemma {:induction false} RunsAreUnique(xs: seq<Run>, ys: seq<Run>)
    requires Maximal(xs) && Maximal(ys) && Unrolled(xs) == Unrolled(ys)
    ensures xs == ys
  {
    if xs != [] && ys != [] {
      FirstOfRuns(xs);
      FirstOfRuns(ys);
      var u, n, m := Unrolled(xs), xs[0].length, ys[0].length;
      assert u[0] == xs[0].colour == ys[0].colour;
      assert n == m;
      RunsAreUnique(xs[1..], ys[1..]);
      assert xs == [xs[0]] + xs[1..] && ys == [ys[0]] + ys[1..];
    } else if xs != [] {
      FirstOfRuns(xs);
    } else if ys != [] {
      FirstOfRuns(ys);
    }
  }
}
