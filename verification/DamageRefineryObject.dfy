/** The damage refinery as an object: an array of hashes that every refinement updates in place. */
module DamageRefineryObject {
  import opened Common
  import opened Boxes
  import opened DamageRefinery
  import Xxh3

  function GridBox(width: nat, height: nat): Box { Box(0, 0, UDivUp(width), UDivUp(height)) }

  /** The place of a tile's hash in the array. */
  function Slot(width: nat, t: Tile): int { t.x + t.y * UDivUp(width) }

  /** How many tiles there are. */
  function Slots(width: nat, height: nat): nat { UDivUp(width) * UDivUp(height) }

  lemma {:induction false} SlotInRange(width: nat, height: nat, t: Tile)
    requires InGrid(width, height, t)
    ensures 0 <= Slot(width, t) < Slots(width, height)
  {
    MulMono(t.y + 1, UDivUp(height), UDivUp(width));
    MulMono(0, t.y, UDivUp(width));
  }

  lemma {:induction false} SlotsAreDistinct(width: nat, height: nat, t: Tile, u: Tile)
    requires InGrid(width, height, t) && InGrid(width, height, u) && Slot(width, t) == Slot(width, u)
    ensures t == u
  {
    SlotInRange(width, height, t);
    DivModUnique(Slot(width, t), UDivUp(width), t.y, t.x);
    DivModUnique(Slot(width, u), UDivUp(width), u.y, u.x);
  }

  /** The array read as a cache. */
  ghost function CacheOf(hashes: seq<nat>, width: nat, height: nat): (c: Cache)
    ensures CacheFor(c, width, height)
  {
    map t | t in BoxTiles(GridBox(width, height)) ::
      if 0 <= Slot(width, t) < |hashes| then hashes[Slot(width, t)] else 0
  }

  lemma {:induction false} NothingCached(hashes: seq<nat>, width: nat, height: nat)
    requires forall i :: 0 <= i < |hashes| ==> hashes[i] == 0
    ensures forall t :: t in CacheOf(hashes, width, height) ==> CacheOf(hashes, width, height)[t] == 0
  {
  }

  lemma {:induction false} CacheUpdated(hashes: seq<nat>, width: nat, height: nat, t: Tile, v: nat)
    requires |hashes| == Slots(width, height) && InGrid(width, height, t)
    ensures 0 <= Slot(width, t) < |hashes|
    ensures CacheOf(hashes[Slot(width, t) := v], width, height) == CacheOf(hashes, width, height)[t := v]
  {
    SlotInRange(width, height, t);
    var c, d := CacheOf(hashes, width, height), CacheOf(hashes[Slot(width, t) := v], width, height);
    forall u | u in c ensures d[u] == c[t := v][u] {
      if Slot(width, u) == Slot(width, t) {
        SlotsAreDistinct(width, height, u, t);
      }
    }
    assert d.Keys == c[t := v].Keys;
  }

  /** Visiting one more tile, seen or not, is what `Refined` and `Reported` say. */
  lemma VisitOne<A>(h: Xxh3.Primitives<A, nat>, c: Cache, f: Frame, visited: set<Tile>, t: Tile)
    requires t in c && InGrid(f.width, f.height, t)
    ensures Refined(h, c, f, visited + {t}) == Refined(h, c, f, visited)[t := TileHash(h, f, t)]
    ensures Reported(h, c, f, visited + {t})
         == Reported(h, c, f, visited) + if TileHash(h, f, t) != Refined(h, c, f, visited)[t] then {t} else {}
  {
  }

  class Refinery<A> {
    const h: Xxh3.Primitives<A, nat>
    var width: nat
    var height: nat
    var hashes: array<nat>
    const state: Xxh3.Stream<A, nat>

    ghost predicate Valid()
      reads this, hashes, state, state.buffer
    {
      state.Valid() && state.f == h && hashes.Length == Slots(width, height)
    }

    ghost function Cached(): Cache
      requires Valid()
      reads this, hashes, state, state.buffer
    {
      CacheOf(hashes[..], width, height)
    }

    /** `damage_refinery_init` */
    constructor (h: Xxh3.Primitives<A, nat>, width: nat, height: nat)
      requires h.Valid()
      ensures Valid() && fresh(hashes) && fresh(state) && fresh(state.buffer)
      ensures this.h == h && this.width == width && this.height == height
      ensures forall t :: t in Cached() ==> Cached()[t] == 0
    {
      this.h := h;
      state := new Xxh3.Stream(h);
      this.width, this.height := width, height;
      var n := Slots(width, height);
      hashes := new nat[n](i => 0);
      new;
      NothingCached(hashes[..], width, height);
    }

    /** `damage_refinery_resize`: a refinery of another size remembers nothing. */
    method Resize(width: nat, height: nat)
      requires Valid()
      modifies this
      ensures Valid() && this.width == width && this.height == height
      ensures if width == old(this.width) && height == old(this.height) then hashes == old(hashes) && Cached() == old(Cached())
              else fresh(hashes) && forall t :: t in Cached() ==> Cached()[t] == 0
    {
      if width == this.width && height == this.height {
        return;
      }
      this.width, this.height := width, height;
      var n := Slots(width, height);
      hashes := new nat[n](i => 0);
      NothingCached(hashes[..], width, height);
    }

    /** `damage_refine_tile` */
    method RefineTile(f: Frame, t: Tile) returns (isDamaged: bool)
      requires Valid() && f.width == width && f.height == height && InGrid(width, height, t)
      modifies hashes, state, state.buffer
      ensures Valid()
      ensures t in old(Cached()) && isDamaged == (TileHash(h, f, t) != old(Cached())[t])
      ensures Cached() == old(Cached())[t := TileHash(h, f, t)]
    {
      var hash := HashTile(state, f, t);
      isDamaged := Remember(t, hash);
    }

    /** The hash takes its tile's place; says whether it is another one. */
    method Remember(t: Tile, hash: nat) returns (isNew: bool)
      requires Valid() && InGrid(width, height, t)
      modifies hashes
      ensures Valid()
      ensures t in old(Cached()) && isNew == (hash != old(Cached())[t])
      ensures Cached() == old(Cached())[t := hash]
    {
      ghost var before := hashes[..];
      SlotInRange(width, height, t);
      CacheUpdated(before, width, height, t, hash);
      var slot := t.x + t.y * UDivUp(width);
      isNew := hash != hashes[slot];
      hashes[slot] := hash;
      assert hashes[..] == before[slot := hash];
    }

    /** One tile of the loops in `damage_refine`. */
    method Visit(f: Frame, t: Tile, reported0: set<Tile>, ghost c: Cache, ghost visited: set<Tile>)
      returns (reported: set<Tile>)
      requires Valid() && f.width == width && f.height == height && InGrid(width, height, t)
      requires t in c && Cached() == Refined(h, c, f, visited) && reported0 == Reported(h, c, f, visited)
      modifies hashes, state, state.buffer
      ensures Valid()
      ensures Cached() == Refined(h, c, f, visited + {t}) && reported == Reported(h, c, f, visited + {t})
    {
      VisitOne(h, c, f, visited, t);
      reported := reported0;
      var isDamaged := RefineTile(f, t);
      if isDamaged {
        reported := reported + {t};
      }
    }

    /** `damage_refine`: visits every tile that the hint touches and reports those whose hash is new. */
    method Refine(hint: seq<Box>, f: Frame) returns (reported: set<Tile>, ghost visited: set<Tile>)
      requires Valid() && f.width == width && f.height == height
      requires forall i :: 0 <= i < |hint| ==>
        0 <= hint[i].x1 < hint[i].x2 <= width && 0 <= hint[i].y1 < hint[i].y2 <= height
      modifies hashes, state, state.buffer
      ensures Valid()
      ensures forall t :: t in visited <==> exists x, y :: Covers(hint, x, y) && TileOf(x, y) == t
      ensures Cached() == Refined(h, old(Cached()), f, visited)
      ensures reported == Reported(h, old(Cached()), f, visited)
    {
      var tiles := TileRegionFromRegion(hint);
      HintInGrid(hint, tiles, width, height);
      var rects := Rectangles(tiles);
      AllBoxes(rects, tiles);
      reported := VisitAll(f, rects, Cached());
      visited := tiles;
    }

    /** The nested loops of `damage_refine` over the rectangles of the tile region. */
    method VisitAll(f: Frame, rects: seq<Box>, ghost c: Cache) returns (reported: set<Tile>)
      requires Valid() && f.width == width && f.height == height
      requires TilesInGrid(BoxesTiles(rects, |rects|)) && Cached() == c
      modifies hashes, state, state.buffer
      ensures Valid()
      ensures Cached() == Refined(h, c, f, BoxesTiles(rects, |rects|))
      ensures reported == Reported(h, c, f, BoxesTiles(rects, |rects|))
    {
      reported := {};
      NothingVisited(h, c, f);
      assert CacheFor(c, width, height) && BoxesTiles(rects, 0) == {};
      for i := 0 to |rects|
        invariant Valid()
        invariant Cached() == Refined(h, c, f, BoxesTiles(rects, i))
        invariant reported == Reported(h, c, f, BoxesTiles(rects, i))
      {
        reported := VisitNext(f, rects, i, reported, c);
      }
    }

    method VisitNext(f: Frame, rects: seq<Box>, i: nat, reported0: set<Tile>, ghost c: Cache) returns (reported: set<Tile>)
      requires Valid() && f.width == width && f.height == height && CacheFor(c, width, height) && i < |rects|
      requires TilesInGrid(BoxesTiles(rects, |rects|))
      requires Cached() == Refined(h, c, f, BoxesTiles(rects, i)) && reported0 == Reported(h, c, f, BoxesTiles(rects, i))
      modifies hashes, state, state.buffer
      ensures Valid()
      ensures Cached() == Refined(h, c, f, BoxesTiles(rects, i + 1))
      ensures reported == Reported(h, c, f, BoxesTiles(rects, i + 1))
    {
      BoxAmongBoxes(rects, i, |rects|);
      reported := VisitRect(f, rects[i], reported0, c, BoxesTiles(rects, i));
    }

    ghost predicate TilesInGrid(tiles: set<Tile>)
      reads this
    {
      forall t :: t in tiles ==> InGrid(width, height, t)
    }

    method VisitRect(f: Frame, r: Box, reported0: set<Tile>, ghost c: Cache, ghost visited0: set<Tile>)
      returns (reported: set<Tile>)
      requires Valid() && f.width == width && f.height == height && CacheFor(c, width, height)
      requires forall t :: t in BoxTiles(r) ==> InGrid(width, height, t)
      requires Cached() == Refined(h, c, f, visited0) && reported0 == Reported(h, c, f, visited0)
      modifies hashes, state, state.buffer
      ensures Valid()
      ensures Cached() == Refined(h, c, f, visited0 + BoxTiles(r))
      ensures reported == Reported(h, c, f, visited0 + BoxTiles(r))
    {
      reported := reported0;
      ghost var visited := visited0;
      var ty := r.y1;
      EmptyBox(Box(r.x1, r.y1, r.x2, r.y1));
      while ty < r.y2
        invariant Valid() && r.y1 <= ty && (ty <= r.y2 || ty == r.y1)
        invariant Cached() == Refined(h, c, f, visited) && reported == Reported(h, c, f, visited)
        invariant visited == visited0 + BoxTiles(Box(r.x1, r.y1, r.x2, ty))
      {
        RowAdded(r, ty, visited0);
        reported := VisitRow(f, Box(r.x1, ty, r.x2, ty + 1), reported, c, visited);
        visited := visited + BoxTiles(Box(r.x1, ty, r.x2, ty + 1));
        ty := ty + 1;
      }
      BoxDone(r, Box(r.x1, r.y1, r.x2, ty));
    }

    method VisitRow(f: Frame, r: Box, reported0: set<Tile>, ghost c: Cache, ghost visited0: set<Tile>)
      returns (reported: set<Tile>)
      requires Valid() && f.width == width && f.height == height && CacheFor(c, width, height)
      requires r.y2 == r.y1 + 1 && forall t :: t in BoxTiles(r) ==> InGrid(width, height, t)
      requires Cached() == Refined(h, c, f, visited0) && reported0 == Reported(h, c, f, visited0)
      modifies hashes, state, state.buffer
      ensures Valid()
      ensures Cached() == Refined(h, c, f, visited0 + BoxTiles(r))
      ensures reported == Reported(h, c, f, visited0 + BoxTiles(r))
    {
      reported := reported0;
      ghost var visited := visited0;
      var tx := r.x1;
      EmptyBox(Box(r.x1, r.y1, r.x1, r.y2));
      while tx < r.x2
        invariant Valid() && r.x1 <= tx && (tx <= r.x2 || tx == r.x1)
        invariant Cached() == Refined(h, c, f, visited) && reported == Reported(h, c, f, visited)
        invariant visited == visited0 + BoxTiles(Box(r.x1, r.y1, tx, r.y2))
      {
        assert Tile(tx, r.y1) in BoxTiles(r);
        TileAdded(r, tx, visited0);
        reported := Visit(f, Tile(tx, r.y1), reported, c, visited);
        visited := visited + {Tile(tx, r.y1)};
        tx := tx + 1;
      }
      BoxDone(r, Box(r.x1, r.y1, tx, r.y2));
    }
  }

  lemma EmptyBox(b: Box)
    requires b.x1 >= b.x2 || b.y1 >= b.y2
    ensures BoxTiles(b) == {}
  {
  }

  lemma BoxDone(r: Box, b: Box)
    requires b == r || ((b.x1 >= b.x2 || b.y1 >= b.y2) && (r.x1 >= r.x2 || r.y1 >= r.y2))
    ensures BoxTiles(b) == BoxTiles(r)
  {
    if b != r {
      EmptyBox(b);
      EmptyBox(r);
    }
  }

  lemma RowAdded(r: Box, ty: int, visited: set<Tile>)
    requires r.y1 <= ty < r.y2
    ensures visited + BoxTiles(Box(r.x1, r.y1, r.x2, ty)) + BoxTiles(Box(r.x1, ty, r.x2, ty + 1))
         == visited + BoxTiles(Box(r.x1, r.y1, r.x2, ty + 1))
    ensures BoxTiles(Box(r.x1, ty, r.x2, ty + 1)) <= BoxTiles(r)
  {
  }

  lemma TileAdded(r: Box, tx: int, visited: set<Tile>)
    requires r.y2 == r.y1 + 1 && r.x1 <= tx < r.x2
    ensures visited + BoxTiles(Box(r.x1, r.y1, tx, r.y2)) + {Tile(tx, r.y1)}
         == visited + BoxTiles(Box(r.x1, r.y1, tx + 1, r.y2))
  {
  }

  lemma NothingVisited<A>(h: Xxh3.Primitives<A, nat>, c: Cache, f: Frame)
    ensures Refined(h, c, f, {}) == c && Reported(h, c, f, {}) == {}
  {
  }

  function BoxesTiles(rects: seq<Box>, n: nat): set<Tile>
    requires n <= |rects|
  {
    if n == 0 then {} else BoxesTiles(rects, n - 1) + BoxTiles(rects[n - 1])
  }

  lemma {:induction false} BoxesHold(rects: seq<Box>, n: nat, t: Tile)
    requires n <= |rects|
    ensures t in BoxesTiles(rects, n) <==> exists k :: 0 <= k < n && InBox(rects[k], t.x, t.y)
  {
    if n != 0 {
      BoxesHold(rects, n - 1, t);
    }
  }

  lemma AllBoxes(rects: seq<Box>, tiles: set<Tile>)
    requires forall t: Tile :: t in tiles <==> Covers(rects, t.x, t.y)
    ensures BoxesTiles(rects, |rects|) == tiles
  {
    forall t ensures t in BoxesTiles(rects, |rects|) <==> t in tiles {
      BoxesHold(rects, |rects|, t);
    }
  }

  lemma {:induction false} BoxAmongBoxes(rects: seq<Box>, i: nat, n: nat)
    requires i < n <= |rects|
    ensures BoxTiles(rects[i]) <= BoxesTiles(rects, n)
  {
    if i < n - 1 {
      BoxAmongBoxes(rects, i, n - 1);
    }
  }

  lemma HintInGrid(hint: seq<Box>, tiles: set<Tile>, width: nat, height: nat)
    requires forall i :: 0 <= i < |hint| ==>
      0 <= hint[i].x1 < hint[i].x2 <= width && 0 <= hint[i].y1 < hint[i].y2 <= height
    requires forall t :: t in tiles <==> exists x, y :: Covers(hint, x, y) && TileOf(x, y) == t
    ensures forall t :: t in tiles ==> InGrid(width, height, t)
  {
    forall t | t in tiles ensures InGrid(width, height, t) {
      var x, y :| Covers(hint, x, y) && TileOf(x, y) == t;
    }
  }
}
