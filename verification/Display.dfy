/** Feeding a frame to a display: refine the damage, then rotate, scale and translate it. */
module Display {
  import opened Common
  import opened Boxes
  import opened DamageRefinery
  import opened DamageRefineryObject
  import T = Transform
  import Xxh3

  /** The rectangle of a tile, clipped to the frame. */
  function ClippedTile(t: Tile, f: Frame): Box {
    Box(t.x * 32, t.y * 32, Min(t.x * 32 + 32, f.width), Min(t.y * 32 + 32, f.height))
  }

  lemma ClippedTileHolds(t: Tile, f: Frame, x: int, y: int)
    requires t.x >= 0 && t.y >= 0
    ensures InBox(ClippedTile(t, f), x, y) <==> 0 <= x < f.width && 0 <= y < f.height && TileOf(x, y) == t
  {
  }

  /** The refined region in rectangles: the reported tiles, clipped to the frame. */
  method RefinedBoxes(reported: set<Tile>, f: Frame) returns (damage: seq<Box>)
    requires forall t :: t in reported ==> t.x >= 0 && t.y >= 0
    ensures forall x, y :: Covers(damage, x, y) <==> InRefined(reported, f, x, y)
  {
    damage := [];
    var left := reported;
    while left != {}
      invariant left <= reported
      invariant forall x, y :: Covers(damage, x, y) <==> InRefined(reported - left, f, x, y)
    {
      var t :| t in left;
      forall x, y ensures InBox(ClippedTile(t, f), x, y) <==> InRefined({t}, f, x, y) {
        ClippedTileHolds(t, f, x, y);
      }
      CoversSnoc(damage, ClippedTile(t, f));
      damage := damage + [ClippedTile(t, f)];
      left := left - {t};
      assert forall x, y :: InRefined(reported - left, f, x, y) <==>
        InRefined(reported - left - {t}, f, x, y) || InRefined({t}, f, x, y);
    }
    assert reported - left == reported;
  }

  /** Frame pixels of the reported tiles that desktop pixel `(X, Y)` shows. */
  ghost predicate ShowsReported(pl: T.Placement, reported: set<Tile>, f: Frame, X: int, Y: int)
    requires pl.size.width > 0 && pl.size.height > 0
  {
    exists p: T.Pixel :: InRefined(reported, f, p.x, p.y) && T.Shows(pl, X, Y, p)
  }

  /** What the refinery remembers when refining starts: nothing, if the frame's size is new to it. */
  ghost predicate StartsFrom(start: Cache, before: Cache, sameSize: bool, f: Frame) {
    if sameSize then start == before else Zeroed(start, f)
  }

  /** Without a client that wants damage refined, the refinery is emptied and the hint stands. */
  method FeedUnrefined<A>(r: Refinery<A>, hint: seq<Box>, pl: T.Placement) returns (damage: seq<Box>)
    requires r.Valid() && pl.size.width > 0 && pl.size.height > 0
    modifies r
    ensures r.Valid() && r.width == 0 && r.height == 0
    ensures forall X, Y :: Covers(damage, X, Y) <==> T.DesktopDamage(pl, hint, X, Y)
  {
    r.Resize(0, 0);
    damage := T.PlaceDamage(pl, hint);
  }

  /** The damage part of `nvnc_display_feed_frame`, with a client that wants refined damage. */
  method FeedFrame<A>(r: Refinery<A>, hint: seq<Box>, f: Frame, pl: T.Placement)
    returns (damage: seq<Box>, ghost visited: set<Tile>, ghost start: Cache)
    requires r.Valid() && f.width > 0 && f.height > 0 && pl.size == T.Size(f.width, f.height)
    requires forall i :: 0 <= i < |hint| ==>
      0 <= hint[i].x1 < hint[i].x2 <= f.width && 0 <= hint[i].y1 < hint[i].y2 <= f.height
    modifies r, r.hashes, r.state, r.state.buffer
    ensures r.Valid() && r.width == f.width && r.height == f.height
    ensures forall t :: t in visited <==> exists x, y :: Covers(hint, x, y) && TileOf(x, y) == t
    ensures StartsFrom(start, old(r.Cached()), old(r.width) == f.width && old(r.height) == f.height, f)
    ensures r.Cached() == Refined(r.h, start, f, visited)
    ensures forall X, Y :: Covers(damage, X, Y) <==> ShowsReported(pl, Reported(r.h, start, f, visited), f, X, Y)
  {
    r.Resize(f.width, f.height);
    start := r.Cached();
    var reported;
    reported, visited := r.Refine(hint, f);
    var refined := RefinedBoxes(reported, f);
    damage := T.PlaceDamage(pl, refined);
    forall X, Y ensures T.DesktopDamage(pl, refined, X, Y) <==> ShowsReported(pl, reported, f, X, Y) {
    }
  }

  /**
    From the application to the desktop: in every run of frames with honest hints and a
    collision-free hash, a desktop pixel that shows the inside of a changed frame pixel is
    damaged.
   */
  lemma {:induction false} ChangeReachesTheDesktop<A>(
    h: Xxh3.Primitives<A, nat>, zero: Cache, fs: seq<Fed>, n: nat, pl: T.Placement,
    p: T.Pixel, d: T.RealPoint, X: int, Y: int)
    requires 0 < n < |fs| && Feeds(fs) && Zeroed(zero, fs[0].frame) && CollisionFree(h, fs[n - 1].frame, fs[n].frame)
    requires fs[0].frame.width > 0 && fs[0].frame.height > 0
    requires pl.size == T.Size(fs[0].frame.width, fs[0].frame.height) && T.InSize(pl.size, p)
    requires fs[n - 1].frame.pixel(p.x, p.y) != fs[n].frame.pixel(p.x, p.y)
    requires T.HScale(pl) > 0.0 && T.VScale(pl) > 0.0
    requires X as real <= d.u < X as real + 1.0 && Y as real <= d.v < Y as real + 1.0
    requires T.Inside(p, T.Pull(pl, d))
    ensures ShowsReported(pl, Reported(h, CacheAfter(h, zero, fs, n), fs[n].frame, fs[n].hint), fs[n].frame, X, Y)
  {
    NoChangeIsMissed(h, zero, fs, n, p.x, p.y);
    ReportedIsShown(Reported(h, CacheAfter(h, zero, fs, n), fs[n].frame, fs[n].hint), fs[n].frame, pl, p, d, X, Y);
  }

  /** A desktop pixel that shows the inside of a reported pixel is damaged. */
  lemma {:induction false} ReportedIsShown(
    reported: set<Tile>, f: Frame, pl: T.Placement, p: T.Pixel, d: T.RealPoint, X: int, Y: int)
    requires InRefined(reported, f, p.x, p.y)
    requires pl.size.width > 0 && pl.size.height > 0 && T.HScale(pl) > 0.0 && T.VScale(pl) > 0.0
    requires X as real <= d.u < X as real + 1.0 && Y as real <= d.v < Y as real + 1.0
    requires T.Inside(p, T.Pull(pl, d))
    ensures ShowsReported(pl, reported, f, X, Y)
  {
    var pixel := [Box(p.x, p.y, p.x + 1, p.y + 1)];
    assert Covers(pixel, p.x, p.y) by {
      assert InBox(pixel[0], p.x, p.y);
    }
    T.ShownChangeIsDamaged(pl, pixel, p, d, X, Y);
    var q: T.Pixel :| Covers(pixel, q.x, q.y) && T.Shows(pl, X, Y, q);
    assert q == p;
  }
}
