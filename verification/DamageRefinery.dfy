/**
  The damage refinery: the damage an application reports is cut down to the 32 by 32 tiles
  whose hash differs from the one remembered.
 */
module DamageRefinery {
  import opened Common
  import opened Boxes
  import Bits
  import Xxh3

  /** A frame in memory; `pixel` gives the bytes of each pixel. */
  datatype Frame = Frame(width: nat, height: nat, bpp: nat, pixel: (int, int) -> seq<Byte>)

  ghost predicate Sized(f: Frame) {
    forall x, y :: 0 <= x < f.width && 0 <= y < f.height ==> |f.pixel(x, y)| == f.bpp
  }

  datatype Tile = Tile(x: int, y: int)

  function UDivUp(a: nat): nat { (a + 31) / 32 }

  predicate InGrid(width: nat, height: nat, t: Tile) {
    0 <= t.x < UDivUp(width) && 0 <= t.y < UDivUp(height)
  }

  predicate InTile(t: Tile, x: int, y: int) {
    t.x * 32 <= x < (t.x + 1) * 32 && t.y * 32 <= y < (t.y + 1) * 32
  }

  function TileOf(x: int, y: int): Tile { Tile(x / 32, y / 32) }

  // ---------------------------------------------------------------- the hash of a tile

  /** The pixels of one row from `x1` up to `x2`. */
  function RowPixels(f: Frame, y: int, x1: int, x2: int): (px: seq<seq<Byte>>)
    requires x1 <= x2
    ensures |px| == x2 - x1 && forall i :: 0 <= i < |px| ==> px[i] == f.pixel(x1 + i, y)
  {
    seq(x2 - x1, i requires 0 <= i < x2 - x1 => f.pixel(x1 + i, y))
  }

  function RowBytes(f: Frame, y: int, x1: int, x2: int): seq<Byte>
    requires x1 <= x2
  {
    Concat(RowPixels(f, y, x1, x2))
  }

  function Rows(f: Frame, t: Tile): seq<seq<Byte>>
    requires InGrid(f.width, f.height, t)
  {
    var x1, x2 := t.x * 32, Min((t.x + 1) * 32, f.width);
    var y1, y2 := t.y * 32, Min((t.y + 1) * 32, f.height);
    seq(y2 - y1, i requires 0 <= i < y2 - y1 => RowBytes(f, y1 + i, x1, x2))
  }

  /** The bytes hashed for a tile. */
  function TileBytes(f: Frame, t: Tile): seq<Byte>
    requires InGrid(f.width, f.height, t)
  {
    Concat(Rows(f, t))
  }

  /** The digest is cut to 32 bits when it is stored. */
  function TileHash<A>(h: Xxh3.Primitives<A, nat>, f: Frame, t: Tile): nat
    requires InGrid(f.width, f.height, t)
  {
    Xxh3.Hash(h, TileBytes(f, t)) % 0x1_0000_0000
  }

  /** The low 32 bits of the digest of some bytes, which is what is kept of it. */
  function Digest32<A>(h: Xxh3.Primitives<A, nat>, bytes: seq<Byte>): nat {
    var digest: nat := Xxh3.Hash(h, bytes);
    digest % Bits.Pow2(32)
  }

  lemma {:induction false} TileHashIsDigest<A>(h: Xxh3.Primitives<A, nat>, f: Frame, t: Tile)
    requires InGrid(f.width, f.height, t)
    ensures TileHash(h, f, t) == Digest32(h, TileBytes(f, t)) < 0x1_0000_0000
    ensures (Xxh3.Hash(h, TileBytes(f, t)) - TileHash(h, f, t)) % 0x1_0000_0000 == 0
  {
    Bits.Pow2Of32();
    Remainder32(Xxh3.Hash(h, TileBytes(f, t)));
  }

  lemma Remainder32(x: nat)
    ensures (x - x % 0x1_0000_0000) % 0x1_0000_0000 == 0
  {
    assert x - x % 0x1_0000_0000 == x / 0x1_0000_0000 * 0x1_0000_0000;
  }

  /** `damage_hash_tile`: the stream is reset, and every row is one update of it. */
  method HashTile<A>(state: Xxh3.Stream<A, nat>, f: Frame, t: Tile) returns (r: nat)
    requires state.Valid() && InGrid(f.width, f.height, t)
    modifies state, state.buffer
    ensures state.Valid() && r == TileHash(state.f, f, t)
    ensures r < 0x1_0000_0000 && (Xxh3.Hash(state.f, TileBytes(f, t)) - r) % 0x1_0000_0000 == 0
    ensures r == Digest32(state.f, TileBytes(f, t))
  {
    TileHashIsDigest(state.f, f, t);
    var digest := DigestRows(state, Rows(f, t));
    r := digest % 0x1_0000_0000;
  }

  method DigestRows<A>(state: Xxh3.Stream<A, nat>, rows: seq<seq<Byte>>) returns (digest: nat)
    requires state.Valid()
    modifies state, state.buffer
    ensures state.Valid() && digest == Xxh3.Hash(state.f, Concat(rows))
  {
    state.Reset();
    for i := 0 to |rows|
      invariant state.Valid() && state.seen == Concat(rows[..i])
    {
      assert rows[..i + 1] == rows[..i] + [rows[i]];
      ConcatSnoc(rows[..i], rows[i]);
      state.Update(rows[i]);
    }
    assert rows[..|rows|] == rows;
    digest := state.Digest();
  }

  // ---------------------------------------------------------------- equal bytes, equal pixels

  lemma {:induction false} ConcatInjective(xs: seq<seq<Byte>>, ys: seq<seq<Byte>>)
    requires |xs| == |ys| && forall i :: 0 <= i < |xs| ==> |xs[i]| == |ys[i]|
    requires Concat(xs) == Concat(ys)
    ensures xs == ys
  {
    if xs != [] {
      assert xs[0] == Concat(xs)[..|xs[0]|] && ys[0] == Concat(ys)[..|ys[0]|];
      assert Concat(xs[1..]) == Concat(xs)[|xs[0]|..] && Concat(ys[1..]) == Concat(ys)[|ys[0]|..];
      ConcatInjective(xs[1..], ys[1..]);
      assert xs == [xs[0]] + xs[1..] && ys == [ys[0]] + ys[1..];
    }
  }

  lemma {:induction false} ConcatLength(xs: seq<seq<Byte>>, n: nat)
    requires forall i :: 0 <= i < |xs| ==> |xs[i]| == n
    ensures |Concat(xs)| == |xs| * n
  {
    if xs != [] {
      ConcatLength(xs[1..], n);
      var k := |xs| - 1;
      assert (k + 1) * n == k * n + n;
    }
  }

  predicate SameFormat(f: Frame, g: Frame) {
    f.width == g.width && f.height == g.height && f.bpp == g.bpp
  }

  /** The frames agree on all pixels of the tile. */
  ghost predicate TileSame(f: Frame, g: Frame, t: Tile)
    requires SameFormat(f, g)
  {
    forall x, y :: InTile(t, x, y) && 0 <= x < f.width && 0 <= y < f.height ==> f.pixel(x, y) == g.pixel(x, y)
  }

  lemma RowLength(f: Frame, y: int, x1: int, x2: int)
    requires Sized(f) && 0 <= y < f.height && 0 <= x1 <= x2 <= f.width
    ensures |RowBytes(f, y, x1, x2)| == (x2 - x1) * f.bpp
  {
    ConcatLength(RowPixels(f, y, x1, x2), f.bpp);
  }

  lemma EqualRowsEqualPixels(f: Frame, g: Frame, y: int, x1: int, x2: int, x: int)
    requires SameFormat(f, g) && Sized(f) && Sized(g) && 0 <= y < f.height && 0 <= x1 <= x < x2 <= f.width
    requires RowBytes(f, y, x1, x2) == RowBytes(g, y, x1, x2)
    ensures f.pixel(x, y) == g.pixel(x, y)
  {
    var a, b := RowPixels(f, y, x1, x2), RowPixels(g, y, x1, x2);
    ConcatInjective(a, b);
    assert a[x - x1] == b[x - x1];
  }

  lemma EqualBytesSameTile(f: Frame, g: Frame, t: Tile)
    requires SameFormat(f, g) && Sized(f) && Sized(g) && InGrid(f.width, f.height, t)
    requires TileBytes(f, t) == TileBytes(g, t)
    ensures TileSame(f, g, t)
  {
    var x1, x2 := t.x * 32, Min((t.x + 1) * 32, f.width);
    var y1 := t.y * 32;
    var a, b := Rows(f, t), Rows(g, t);
    forall i | 0 <= i < |a| ensures |a[i]| == |b[i]| {
      RowLength(f, y1 + i, x1, x2);
      RowLength(g, y1 + i, x1, x2);
    }
    ConcatInjective(a, b);
    forall x, y | InTile(t, x, y) && 0 <= x < f.width && 0 <= y < f.height
      ensures f.pixel(x, y) == g.pixel(x, y)
    {
      assert a[y - y1] == RowBytes(f, y, x1, x2) && b[y - y1] == RowBytes(g, y, x1, x2);
      EqualRowsEqualPixels(f, g, y, x1, x2, x);
    }
  }

  lemma SameTileEqualBytes(f: Frame, g: Frame, t: Tile)
    requires SameFormat(f, g) && InGrid(f.width, f.height, t) && TileSame(f, g, t)
    ensures TileBytes(f, t) == TileBytes(g, t)
  {
    var x1, x2 := t.x * 32, Min((t.x + 1) * 32, f.width);
    var y1 := t.y * 32;
    var a, b := Rows(f, t), Rows(g, t);
    forall i | 0 <= i < |a| ensures a[i] == b[i] {
      var p, q := RowPixels(f, y1 + i, x1, x2), RowPixels(g, y1 + i, x1, x2);
      forall j | 0 <= j < |p| ensures p[j] == q[j] {
        assert InTile(t, x1 + j, y1 + i);
      }
      assert p == q;
      assert a[i] == RowBytes(f, y1 + i, x1, x2) && b[i] == RowBytes(g, y1 + i, x1, x2);
    }
    assert a == b;
  }

  // ---------------------------------------------------------------- refining

  /** Hashes by tile; 0 stands for a tile never hashed. */
  type Cache = map<Tile, nat>

  ghost predicate CacheFor(c: Cache, width: nat, height: nat) {
    forall t :: t in c <==> InGrid(width, height, t)
  }

  /** The tiles that a hint touches. */
  predicate Touches(hint: set<Tile>, x: int, y: int) { TileOf(x, y) in hint }

  /** What `damage_refine` leaves in the cache for the tiles it visits. */
  function Refined<A>(h: Xxh3.Primitives<A, nat>, c: Cache, f: Frame, visited: set<Tile>): (r: Cache)
    ensures r.Keys == c.Keys
  {
    map t | t in c :: if t in visited && InGrid(f.width, f.height, t) then TileHash(h, f, t) else c[t]
  }

  /** The tiles reported: visited, and with a hash other than the remembered one. */
  function Reported<A>(h: Xxh3.Primitives<A, nat>, c: Cache, f: Frame, visited: set<Tile>): set<Tile> {
    set t | t in visited && t in c && InGrid(f.width, f.height, t) && TileHash(h, f, t) != c[t]
  }

  /** A pixel of the refined damage: the tile boxes are clipped to the frame. */
  predicate InRefined(reported: set<Tile>, f: Frame, x: int, y: int) {
    0 <= x < f.width && 0 <= y < f.height && TileOf(x, y) in reported
  }

  /** A frame as it is fed, with the tiles its damage hint touches. */
  datatype Fed = Fed(frame: Frame, hint: set<Tile>)

  /** The hint covers every pixel that changed. */
  ghost predicate HintCovers(f: Frame, g: Fed)
    requires SameFormat(f, g.frame)
  {
    forall x, y :: 0 <= x < f.width && 0 <= y < f.height && f.pixel(x, y) != g.frame.pixel(x, y) ==> Touches(g.hint, x, y)
  }

  /** All frames have one format and honest hints; the first hint may be anything in the frame. */
  ghost predicate Feeds(fs: seq<Fed>) {
    && (forall i :: 0 <= i < |fs| ==> Sized(fs[i].frame) && SameFormat(fs[0].frame, fs[i].frame))
    && (forall i :: 0 < i < |fs| ==> HintCovers(fs[i - 1].frame, fs[i]))
  }

  /** The cache after `n` frames, starting from zeros. */
  function CacheAfter<A>(h: Xxh3.Primitives<A, nat>, zero: Cache, fs: seq<Fed>, n: nat): (c: Cache)
    requires n <= |fs|
    ensures c.Keys == zero.Keys
  {
    if n == 0 then zero else Refined(h, CacheAfter(h, zero, fs, n - 1), fs[n - 1].frame, fs[n - 1].hint)
  }

  ghost predicate Zeroed(c: Cache, f: Frame) {
    CacheFor(c, f.width, f.height) && forall t :: t in c ==> c[t] == 0
  }

  /** A remembered hash is that of the tile as it is now: what no hint touched has not changed. */
  lemma {:induction false} CacheIsCurrent<A>(h: Xxh3.Primitives<A, nat>, zero: Cache, fs: seq<Fed>, n: nat, t: Tile)
    requires 0 < n <= |fs| && Feeds(fs) && Zeroed(zero, fs[0].frame) && InGrid(fs[0].frame.width, fs[0].frame.height, t)
    ensures var c := CacheAfter(h, zero, fs, n);
      t in c && (c[t] == 0 || c[t] == TileHash(h, fs[n - 1].frame, t))
  {
    if n > 1 {
      CacheIsCurrent(h, zero, fs, n - 1, t);
      if t !in fs[n - 1].hint {
        UntouchedTileSame(fs[n - 2].frame, fs[n - 1], t);
        SameTileEqualBytes(fs[n - 2].frame, fs[n - 1].frame, t);
      }
    }
  }

  lemma UntouchedTileSame(f: Frame, g: Fed, t: Tile)
    requires SameFormat(f, g.frame) && HintCovers(f, g) && t !in g.hint
    ensures TileSame(f, g.frame, t)
  {
    forall x, y | InTile(t, x, y) && 0 <= x < f.width && 0 <= y < f.height
      ensures f.pixel(x, y) == g.frame.pixel(x, y)
    {
      assert TileOf(x, y) == t;
      assert !Touches(g.hint, x, y);
    }
  }

  /**
    The n-th frame's changed pixel is missed exactly when the new hash of its tile equals
    the remembered one, which is 0 or the hash of the tile before the change.
   */
  lemma {:induction false} ChangeIsMissedOnlyByCollision<A>(h: Xxh3.Primitives<A, nat>, zero: Cache, fs: seq<Fed>, n: nat, x: int, y: int)
    requires 0 < n < |fs| && Feeds(fs) && Zeroed(zero, fs[0].frame)
    requires 0 <= x < fs[0].frame.width && 0 <= y < fs[0].frame.height
    requires fs[n - 1].frame.pixel(x, y) != fs[n].frame.pixel(x, y)
    ensures var c, t := CacheAfter(h, zero, fs, n), TileOf(x, y);
      && InGrid(fs[n].frame.width, fs[n].frame.height, t) && t in c
      && (InRefined(Reported(h, c, fs[n].frame, fs[n].hint), fs[n].frame, x, y) <==>
            Digest32(h, TileBytes(fs[n].frame, t)) != c[t])
      && (c[t] == 0 || c[t] == Digest32(h, TileBytes(fs[n - 1].frame, t)))
  {
    TileHashIsDigest(h, fs[n].frame, TileOf(x, y));
    TileHashIsDigest(h, fs[n - 1].frame, TileOf(x, y));
    CacheIsCurrent(h, zero, fs, n, TileOf(x, y));
    assert HintCovers(fs[n - 1].frame, fs[n]);
    assert Touches(fs[n].hint, x, y);
  }

  /** Between consecutive frames the low 32 bits of a tile's digest change with its bytes, and are never 0. */
  ghost predicate CollisionFree<A>(h: Xxh3.Primitives<A, nat>, f: Frame, g: Frame) {
    && SameFormat(f, g)
    && forall t :: InGrid(f.width, f.height, t) ==>
         Digest32(h, TileBytes(g, t)) != 0
         && (Digest32(h, TileBytes(f, t)) == Digest32(h, TileBytes(g, t)) ==> TileBytes(f, t) == TileBytes(g, t))
  }

  /** With a collision-free hash, refined damage contains every changed pixel, in every run. */
  lemma {:induction false} NoChangeIsMissed<A>(h: Xxh3.Primitives<A, nat>, zero: Cache, fs: seq<Fed>, n: nat, x: int, y: int)
    requires 0 < n < |fs| && Feeds(fs) && Zeroed(zero, fs[0].frame)
    requires CollisionFree(h, fs[n - 1].frame, fs[n].frame)
    requires 0 <= x < fs[0].frame.width && 0 <= y < fs[0].frame.height
    requires fs[n - 1].frame.pixel(x, y) != fs[n].frame.pixel(x, y)
    ensures InRefined(Reported(h, CacheAfter(h, zero, fs, n), fs[n].frame, fs[n].hint), fs[n].frame, x, y)
  {
    ChangeIsMissedOnlyByCollision(h, zero, fs, n, x, y);
    var t := TileOf(x, y);
    if Digest32(h, TileBytes(fs[n - 1].frame, t)) == Digest32(h, TileBytes(fs[n].frame, t)) {
      EqualBytesSameTile(fs[n - 1].frame, fs[n].frame, t);
      assert InTile(t, x, y);
    }
  }

  /** What the cache holds for a tile that some hint touched is its hash as it is now, be it 0. */
  lemma {:induction false} SeenIsRemembered<A>(h: Xxh3.Primitives<A, nat>, zero: Cache, fs: seq<Fed>, n: nat, i: nat, t: Tile)
    requires i < n <= |fs| && Feeds(fs) && Zeroed(zero, fs[0].frame) && InGrid(fs[0].frame.width, fs[0].frame.height, t)
    requires t in fs[i].hint
    ensures var c := CacheAfter(h, zero, fs, n); t in c && c[t] == TileHash(h, fs[n - 1].frame, t)
  {
    if t !in fs[n - 1].hint {
      SeenIsRemembered(h, zero, fs, n - 1, i, t);
      UntouchedTileSame(fs[n - 2].frame, fs[n - 1], t);
      SameTileEqualBytes(fs[n - 2].frame, fs[n - 1].frame, t);
    }
  }

  /** A tile that some earlier hint touched, and that did not change, is never reported, whatever the hash. */
  lemma {:induction false} SeenUnchangedTileIsNotReported<A>(
    h: Xxh3.Primitives<A, nat>, zero: Cache, fs: seq<Fed>, n: nat, i: nat, t: Tile)
    requires i < n < |fs| && Feeds(fs) && Zeroed(zero, fs[0].frame)
    requires InGrid(fs[0].frame.width, fs[0].frame.height, t) && t in fs[i].hint
    requires TileSame(fs[n - 1].frame, fs[n].frame, t)
    ensures t !in Reported(h, CacheAfter(h, zero, fs, n), fs[n].frame, fs[n].hint)
  {
    SeenIsRemembered(h, zero, fs, n, i, t);
    SameTileEqualBytes(fs[n - 1].frame, fs[n].frame, t);
  }

  /** A tile with a remembered hash and unchanged is never reported, whatever the hash. */
  lemma {:induction false} UnchangedTileIsNotReported<A>(h: Xxh3.Primitives<A, nat>, zero: Cache, fs: seq<Fed>, n: nat, t: Tile)
    requires 0 < n < |fs| && Feeds(fs) && Zeroed(zero, fs[0].frame)
    requires InGrid(fs[0].frame.width, fs[0].frame.height, t)
    requires t in CacheAfter(h, zero, fs, n) && CacheAfter(h, zero, fs, n)[t] != 0
    requires TileSame(fs[n - 1].frame, fs[n].frame, t)
    ensures t !in Reported(h, CacheAfter(h, zero, fs, n), fs[n].frame, fs[n].hint)
  {
    CacheIsCurrent(h, zero, fs, n, t);
    SameTileEqualBytes(fs[n - 1].frame, fs[n].frame, t);
  }

  // ---------------------------------------------------------------- the object

  function BoxTiles(b: Box): set<Tile> {
    set x, y | b.x1 <= x < b.x2 && b.y1 <= y < b.y2 :: Tile(x, y)
  }

  /** One rectangle of the hint, in tiles. */
  function TileBox(b: Box): Box
    requires 0 <= b.x1 < b.x2 && 0 <= b.y1 < b.y2
  {
    Box(b.x1 / 32, b.y1 / 32, (b.x2 + 31) / 32, (b.y2 + 31) / 32)
  }

  /** The rounded rectangle holds exactly the tiles that the pixels of the rectangle lie in. */
  lemma TileBoxIsTight(b: Box, t: Tile)
    requires 0 <= b.x1 < b.x2 && 0 <= b.y1 < b.y2
    ensures t in BoxTiles(TileBox(b)) <==> exists x, y :: InBox(b, x, y) && TileOf(x, y) == t
  {
    var tb := TileBox(b);
    if t in BoxTiles(tb) {
      var x := if t.x * 32 < b.x1 then b.x1 else t.x * 32;
      var y := if t.y * 32 < b.y1 then b.y1 else t.y * 32;
      assert InBox(b, x, y) && TileOf(x, y) == t;
    }
    forall x, y | InBox(b, x, y) && TileOf(x, y) == t ensures t in BoxTiles(tb) {
    }
  }

  /** `tile_region_from_region` */
  method TileRegionFromRegion(hint: seq<Box>) returns (tiles: set<Tile>)
    requires forall i :: 0 <= i < |hint| ==> 0 <= hint[i].x1 < hint[i].x2 && 0 <= hint[i].y1 < hint[i].y2
    ensures forall t :: t in tiles <==> exists x, y :: Covers(hint, x, y) && TileOf(x, y) == t
  {
    tiles := {};
    for i := 0 to |hint|
      invariant forall t :: t in tiles <==> exists k :: 0 <= k < i && t in BoxTiles(TileBox(hint[k]))
    {
      tiles := tiles + BoxTiles(TileBox(hint[i]));
    }
    forall t ensures t in tiles <==> exists x, y :: Covers(hint, x, y) && TileOf(x, y) == t {
      TouchedByHint(hint, t);
    }
  }

  lemma TouchedByHint(hint: seq<Box>, t: Tile)
    requires forall i :: 0 <= i < |hint| ==> 0 <= hint[i].x1 < hint[i].x2 && 0 <= hint[i].y1 < hint[i].y2
    ensures (exists k :: 0 <= k < |hint| && t in BoxTiles(TileBox(hint[k])))
       <==> exists x, y :: Covers(hint, x, y) && TileOf(x, y) == t
  {
    if exists k :: 0 <= k < |hint| && t in BoxTiles(TileBox(hint[k])) {
      var k :| 0 <= k < |hint| && t in BoxTiles(TileBox(hint[k]));
      TileBoxIsTight(hint[k], t);
      var x, y :| InBox(hint[k], x, y) && TileOf(x, y) == t;
      assert Covers(hint, x, y);
    }
    if exists x, y :: Covers(hint, x, y) && TileOf(x, y) == t {
      var x, y :| Covers(hint, x, y) && TileOf(x, y) == t;
      var k :| 0 <= k < |hint| && InBox(hint[k], x, y);
      TileBoxIsTight(hint[k], t);
    }
  }

  /** `pixman_region_rectangles`: some rectangles that make up the region. */
  method Rectangles(region: set<Tile>) returns (boxes: seq<Box>)
    ensures forall t: Tile :: t in region <==> Covers(boxes, t.x, t.y)
  {
    boxes := [];
    var left := region;
    while left != {}
      invariant left <= region
      invariant forall t: Tile :: t in region - left <==> Covers(boxes, t.x, t.y)
    {
      var t :| t in left;
      var grown := boxes + [Box(t.x, t.y, t.x + 1, t.y + 1)];
      UnitBoxAdded(boxes, grown, t);
      boxes := grown;
      left := left - {t};
    }
    assert region - left == region;
  }

  lemma UnitBoxAdded(boxes: seq<Box>, grown: seq<Box>, t: Tile)
    requires grown == boxes + [Box(t.x, t.y, t.x + 1, t.y + 1)]
    ensures forall x, y :: Covers(grown, x, y) <==> Covers(boxes, x, y) || (x == t.x && y == t.y)
  {
    forall x, y ensures Covers(grown, x, y) <==> Covers(boxes, x, y) || (x == t.x && y == t.y) {
      assert InBox(grown[|boxes|], t.x, t.y);
      if Covers(boxes, x, y) {
        var i :| 0 <= i < |boxes| && InBox(boxes[i], x, y);
        assert InBox(grown[i], x, y);
      }
    }
  }
}
