/**
  Runs of a display in which frames change size and clients that want refined damage come and
  go, so that the refinery is used, emptied and set up again.
 */
module DisplayRuns {
  import opened Common
  import opened Boxes
  import opened DamageRefinery
  import opened DamageRefineryObject
  import opened Display
  import T = Transform
  import Xxh3

  /** A frame as it is fed: its hint, the tiles that touches, and whether damage is refined. */
  datatype Feed = Feed(frame: Frame, hint: seq<Box>, tiles: set<Tile>, refined: bool)

  /** What a refinery remembers. */
  datatype Memory = Memory(width: nat, height: nat, cache: Cache)

  function ZeroCache(width: nat, height: nat): Cache {
    map t | t in BoxTiles(GridBox(width, height)) :: 0
  }

  predicate SameSize(f: Frame, g: Frame) { f.width == g.width && f.height == g.height }

  /** What refining starts from: nothing, if the frame's size is new. */
  function Start(m: Memory, f: Frame): Cache {
    if m.width == f.width && m.height == f.height then m.cache else ZeroCache(f.width, f.height)
  }

  function Step<A>(h: Xxh3.Primitives<A, nat>, m: Memory, g: Feed): Memory {
    if g.refined then Memory(g.frame.width, g.frame.height, Refined(h, Start(m, g.frame), g.frame, g.tiles))
    else Memory(0, 0, map[])
  }

  /** What is remembered after `n` feeds, starting with nothing. */
  function MemoryAfter<A>(h: Xxh3.Primitives<A, nat>, width: nat, height: nat, gs: seq<Feed>, n: nat): Memory
    requires n <= |gs|
  {
    if n == 0 then Memory(width, height, ZeroCache(width, height))
    else Step(h, MemoryAfter(h, width, height, gs, n - 1), gs[n - 1])
  }

  /** The desktop pixels damaged by a feed. */
  ghost predicate Damages<A>(h: Xxh3.Primitives<A, nat>, m: Memory, g: Feed, pl: T.Placement, X: int, Y: int)
    requires pl.size.width > 0 && pl.size.height > 0
  {
    if g.refined then ShowsReported(pl, Reported(h, Start(m, g.frame), g.frame, g.tiles), g.frame, X, Y)
    else T.DesktopDamage(pl, g.hint, X, Y)
  }

  /** `nvnc_display_feed_frame`, as far as damage goes, with or without a client that wants it refined. */
  method FeedDisplay<A>(r: Refinery<A>, f: Frame, hint: seq<Box>, refined: bool, pl: T.Placement)
    returns (damage: seq<Box>, ghost tiles: set<Tile>)
    requires r.Valid() && f.width > 0 && f.height > 0 && pl.size == T.Size(f.width, f.height)
    requires forall i :: 0 <= i < |hint| ==>
      0 <= hint[i].x1 < hint[i].x2 <= f.width && 0 <= hint[i].y1 < hint[i].y2 <= f.height
    modifies r, r.hashes, r.state, r.state.buffer
    ensures r.Valid()
    ensures refined ==> forall t :: t in tiles <==> exists x, y :: Covers(hint, x, y) && TileOf(x, y) == t
    ensures var m, g := old(Memory(r.width, r.height, r.Cached())), Feed(f, hint, tiles, refined);
      && Memory(r.width, r.height, r.Cached()) == Step(r.h, m, g)
      && forall X, Y :: Covers(damage, X, Y) <==> Damages(r.h, m, g, pl, X, Y)
  {
    tiles := {};
    if refined {
      ghost var start;
      damage, tiles, start := FeedFrame(r, hint, f, pl);
      ZerosAreZeroCache(start, f);
    } else {
      damage := FeedUnrefined(r, hint, pl);
      assert r.Cached() == map[];
    }
  }

  lemma ZerosAreZeroCache(c: Cache, f: Frame)
    ensures Zeroed(c, f) ==> c == ZeroCache(f.width, f.height)
  {
  }

  // ---------------------------------------------------------------- honest runs

  /** A pixel is not what the frame before had there; after a change of size, every pixel. */
  predicate Differs(f: Frame, g: Frame, x: int, y: int) { !SameSize(f, g) || f.pixel(x, y) != g.pixel(x, y) }

  ghost predicate Follows(f: Frame, g: Feed) {
    && (SameSize(f, g.frame) ==> SameFormat(f, g.frame))
    && forall x, y :: 0 <= x < g.frame.width && 0 <= y < g.frame.height && Differs(f, g.frame, x, y) ==> Covers(g.hint, x, y)
  }

  ghost predicate FeedOk(g: Feed) {
    && Sized(g.frame) && g.frame.width > 0 && g.frame.height > 0
    && (g.refined ==> forall t :: t in g.tiles <==> exists x, y :: Covers(g.hint, x, y) && TileOf(x, y) == t)
  }

  ghost predicate Honest(gs: seq<Feed>) {
    && (forall i :: 0 <= i < |gs| ==> FeedOk(gs[i]))
    && (forall i :: 0 < i < |gs| ==> Follows(gs[i - 1].frame, gs[i]))
  }

  lemma {:induction false} UntouchedTileIsSame(f: Frame, g: Feed, t: Tile)
    requires FeedOk(g) && g.refined && Follows(f, g) && SameSize(f, g.frame) && t !in g.tiles
    ensures SameFormat(f, g.frame) && TileSame(f, g.frame, t)
  {
    forall x, y | InTile(t, x, y) && 0 <= x < f.width && 0 <= y < f.height
      ensures f.pixel(x, y) == g.frame.pixel(x, y)
    {
      assert TileOf(x, y) == t;
      assert !Covers(g.hint, x, y);
    }
  }

  /** What a feed starts from is nothing, or current for the frame fed just before. */
  ghost predicate StartsCurrent<A>(h: Xxh3.Primitives<A, nat>, c: Cache, gs: seq<Feed>, n: nat, t: Tile)
    requires n < |gs| && InGrid(gs[n].frame.width, gs[n].frame.height, t)
  {
    t in c && (c[t] == 0 || (n > 0 && SameSize(gs[n - 1].frame, gs[n].frame) && c[t] == TileHash(h, gs[n - 1].frame, t)))
  }

  lemma {:induction false} MemoryIsCurrent<A>(
    h: Xxh3.Primitives<A, nat>, width: nat, height: nat, gs: seq<Feed>, n: nat, t: Tile)
    requires n < |gs| && Honest(gs) && InGrid(gs[n].frame.width, gs[n].frame.height, t)
    ensures StartsCurrent(h, Start(MemoryAfter(h, width, height, gs, n), gs[n].frame), gs, n, t)
  {
    var m, f := MemoryAfter(h, width, height, gs, n), gs[n].frame;
    assert t in ZeroCache(f.width, f.height);
    if n > 0 && m.width == f.width && m.height == f.height {
      var g := gs[n - 1];
      assert FeedOk(gs[n]) && FeedOk(g) && g.refined && SameSize(g.frame, f);
      MemoryIsCurrent(h, width, height, gs, n - 1, t);
      if t !in g.tiles && n > 1 && SameSize(gs[n - 2].frame, g.frame) {
        assert Follows(gs[n - 2].frame, g);
        UntouchedTileIsSame(gs[n - 2].frame, g, t);
        SameTileEqualBytes(gs[n - 2].frame, g.frame, t);
      }
    }
  }

  /** No tile's digest has 32 low bits of 0, and with frames of one size these change with the tile's bytes. */
  ghost predicate NoCollision<A>(h: Xxh3.Primitives<A, nat>, f: Frame, g: Frame) {
    && (forall t :: InGrid(g.width, g.height, t) ==> Digest32(h, TileBytes(g, t)) != 0)
    && (SameFormat(f, g) ==> CollisionFree(h, f, g))
  }

  /** In every honest run the pixels that differ are among those reported. */
  lemma {:induction false} DifferenceIsReported<A>(
    h: Xxh3.Primitives<A, nat>, width: nat, height: nat, gs: seq<Feed>, n: nat, x: int, y: int)
    requires 0 < n < |gs| && Honest(gs) && gs[n].refined && NoCollision(h, gs[n - 1].frame, gs[n].frame)
    requires 0 <= x < gs[n].frame.width && 0 <= y < gs[n].frame.height
    requires Differs(gs[n - 1].frame, gs[n].frame, x, y)
    ensures var c := Start(MemoryAfter(h, width, height, gs, n), gs[n].frame);
      InRefined(Reported(h, c, gs[n].frame, gs[n].tiles), gs[n].frame, x, y)
  {
    var f, g, t := gs[n - 1].frame, gs[n], TileOf(x, y);
    assert FeedOk(g) && Follows(f, g);
    assert Covers(g.hint, x, y) && t in g.tiles;
    assert InGrid(g.frame.width, g.frame.height, t);
    MemoryIsCurrent(h, width, height, gs, n, t);
    var c := Start(MemoryAfter(h, width, height, gs, n), g.frame);
    TileHashIsDigest(h, g.frame, t);
    if SameSize(f, g.frame) {
      TileHashIsDigest(h, f, t);
    }
    if SameSize(f, g.frame) && TileHash(h, f, t) == TileHash(h, g.frame, t) {
      EqualBytesSameTile(f, g.frame, t);
      assert InTile(t, x, y);
      assert false;
    }
    assert TileHash(h, g.frame, t) != c[t];
  }

  /**
    In every run of frames with honest hints, refined or not, whatever their sizes, a desktop
    pixel that shows the inside of a frame pixel that differs is damaged.
   */
  lemma {:induction false} EveryChangeReachesTheDesktop<A>(
    h: Xxh3.Primitives<A, nat>, width: nat, height: nat, gs: seq<Feed>, n: nat, pl: T.Placement,
    p: T.Pixel, d: T.RealPoint, X: int, Y: int)
    requires 0 < n < |gs| && Honest(gs) && (gs[n].refined ==> NoCollision(h, gs[n - 1].frame, gs[n].frame))
    requires gs[n].frame.width > 0 && gs[n].frame.height > 0
    requires pl.size == T.Size(gs[n].frame.width, gs[n].frame.height) && T.InSize(pl.size, p)
    requires Differs(gs[n - 1].frame, gs[n].frame, p.x, p.y)
    requires T.HScale(pl) > 0.0 && T.VScale(pl) > 0.0
    requires X as real <= d.u < X as real + 1.0 && Y as real <= d.v < Y as real + 1.0
    requires T.Inside(p, T.Pull(pl, d))
    ensures Damages(h, MemoryAfter(h, width, height, gs, n), gs[n], pl, X, Y)
  {
    var pixel := [Box(p.x, p.y, p.x + 1, p.y + 1)];
    assert Covers(pixel, p.x, p.y) by {
      assert InBox(pixel[0], p.x, p.y);
    }
    T.ShownChangeIsDamaged(pl, pixel, p, d, X, Y);
    var q: T.Pixel :| Covers(pixel, q.x, q.y) && T.Shows(pl, X, Y, q);
    assert q == p;
    if gs[n].refined {
      DifferenceIsReported(h, width, height, gs, n, p.x, p.y);
    } else {
      assert Follows(gs[n - 1].frame, gs[n]);
    }
  }
}
