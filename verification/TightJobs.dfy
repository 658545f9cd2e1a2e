/** The loops of the Tight encoder, its damage test and its length fields. */
module TightJobs {
  import opened Common
  import opened Tight
  import Vec

  // ---------------------------------------------------------------- worker and finishing loops

  /** A worker that runs to the end of its loops. */
  function WorkAll(s: State, w: nat): State
    requires w < 4 == |s.workers| == |s.streams|
    decreases |s.grids| - s.workers[w].cursor.fb,
      (if s.workers[w].cursor.fb < |s.grids| then s.grids[s.workers[w].cursor.fb].height else 0) - s.workers[w].cursor.y,
      (if s.workers[w].cursor.fb < |s.grids| then s.grids[s.workers[w].cursor.fb].width else 0) - s.workers[w].cursor.x
  {
    if s.workers[w].cursor.fb >= |s.grids| then s else WorkAll(WorkStep(s, w), w)
  }

  function AtCursor(s: State, w: nat, c: Pos): State
    requires w < |s.workers|
  {
    s.(workers := s.workers[w := s.workers[w].(cursor := c)])
  }

  /** `tight_encode_tile` for a damaged tile at the worker's place. */
  method EncodeTile(s0: State, w: nat) returns (s: State)
    requires w < 4 == |s0.workers| == |s0.streams|
    requires s0.workers[w].cursor.fb < |s0.grids| && InGrid(s0.grids, s0.workers[w].cursor)
    ensures s == WorkStep(s0, w)
  {
    var c := s0.workers[w].cursor;
    s := s0;
    if c in s.dirty {
      s := s.(dirty := s.dirty - {c}, done := s.done + {c});
      s := s.(workers := s.workers[w := s.workers[w].(log := s.workers[w].log + [c])]);
      if s.basic {
        s := s.(streams := s.streams[w := s.streams[w] + [TagOne(s, c)]]);
      }
    }
    s := AtCursor(s, w, Pos(c.fb, c.y, c.x + 4));
  }

  /** `do_tight_zs_work` without interruption: every fourth column of every row of every framebuffer. */
  method DoZsWork(s0: State, w: nat) returns (s: State)
    requires w < 4 == |s0.workers| == |s0.streams| && s0.workers[w].cursor == Pos(0, 0, w)
    ensures s == WorkAll(s0, w)
  {
    s := s0;
    for fbi := 0 to |s0.grids|
      invariant |s.workers| == 4 == |s.streams| && s.grids == s0.grids
      invariant s.workers[w].cursor == Pos(fbi, 0, w)
      invariant WorkAll(s, w) == WorkAll(s0, w)
    {
      for y := 0 to s0.grids[fbi].height
        invariant |s.workers| == 4 == |s.streams| && s.grids == s0.grids
        invariant s.workers[w].cursor == Pos(fbi, y, w)
        invariant WorkAll(s, w) == WorkAll(s0, w)
      {
        var x := w;
        while x < s0.grids[fbi].width
          invariant |s.workers| == 4 == |s.streams| && s.grids == s0.grids
          invariant s.workers[w].cursor == Pos(fbi, y, x)
          invariant WorkAll(s, w) == WorkAll(s0, w)
        {
          s := EncodeTile(s, w);
          x := x + 4;
        }
        s := AtCursor(s, w, Pos(fbi, y + 1, w));
      }
      s := AtCursor(s, w, Pos(fbi + 1, 0, w));
    }
  }

  /** The finishing job run to the end of its loops. */
  function EmitAll(s: State): State
    requires s.stage.Finishing?
    decreases |s.grids| - s.stage.cursor.fb,
      (if s.stage.cursor.fb < |s.grids| then s.grids[s.stage.cursor.fb].height else 0) - s.stage.cursor.y,
      (if s.stage.cursor.fb < |s.grids| then s.grids[s.stage.cursor.fb].width else 0) - s.stage.cursor.x
  {
    if s.stage.cursor.fb >= |s.grids| then s else EmitAll(EmitStep(s))
  }

  /** `tight_finish` */
  method Finish(s0: State) returns (s: State)
    requires s0.stage == Finishing(Pos(0, 0, 0))
    ensures s == EmitAll(s0)
  {
    s := s0;
    for fbi := 0 to |s0.grids|
      invariant s.stage == Finishing(Pos(fbi, 0, 0)) && s.grids == s0.grids
      invariant EmitAll(s) == EmitAll(s0)
    {
      for y := 0 to s0.grids[fbi].height
        invariant s.stage == Finishing(Pos(fbi, y, 0)) && s.grids == s0.grids
        invariant EmitAll(s) == EmitAll(s0)
      {
        for x := 0 to s0.grids[fbi].width
          invariant s.stage == Finishing(Pos(fbi, y, x)) && s.grids == s0.grids
          invariant EmitAll(s) == EmitAll(s0)
        {
          var c := Pos(fbi, y, x);
          if c in s.done {
            s := s.(done := s.done - {c}, emitted := s.emitted + [c], wire := s.wire + [TagOne(s, c)]);
          }
          s := s.(stage := Finishing(Pos(fbi, y, x + 1)));
        }
        s := s.(stage := Finishing(Pos(fbi, y + 1, 0)));
      }
      s := s.(stage := Finishing(Pos(fbi + 1, 0, 0)));
    }
  }

  // ---------------------------------------------------------------- damage

  datatype Framebuffer = Framebuffer(xOff: nat, yOff: nat, width: nat, height: nat)

  function UDivUp(a: nat): nat { (a + 63) / 64 }

  function GridOf(fb: Framebuffer): Grid { Grid(UDivUp(fb.width), UDivUp(fb.height)) }

  function Grids(fbs: seq<Framebuffer>): (gs: seq<Grid>)
    ensures |gs| == |fbs|
  {
    seq(|fbs|, i requires 0 <= i < |fbs| => GridOf(fbs[i]))
  }

  /** `tight_tile_width` and `tight_tile_height`: what is left of `size` at `at`, at most 64. */
  function Cut(size: nat, at: nat): int {
    if at + 64 > size then size - at else 64
  }

  predicate InTile(fb: Framebuffer, p: Pos, q: Point) {
    && fb.xOff + p.x * 64 <= q.x < fb.xOff + p.x * 64 + Cut(fb.width, p.x * 64)
    && fb.yOff + p.y * 64 <= q.y < fb.yOff + p.y * 64 + Cut(fb.height, p.y * 64)
  }

  /**
    The box that the damage test looks at. It starts where the tile starts, but its size is
    cut with the tile's number in place of its pixel offset.
   */
  predicate InTestBox(fb: Framebuffer, p: Pos, q: Point) {
    && fb.xOff + p.x * 64 <= q.x < fb.xOff + p.x * 64 + Cut(fb.width, p.x)
    && fb.yOff + p.y * 64 <= q.y < fb.yOff + p.y * 64 + Cut(fb.height, p.y)
  }

  ghost predicate Hit(fbs: seq<Framebuffer>, damage: set<Point>, p: Pos)
    requires p.fb < |fbs|
  {
    exists q :: q in damage && InTestBox(fbs[p.fb], p, q)
  }

  /** The sizes tested are never smaller than the tile: only the edge is not cut off. */
  lemma CutIsConservative(size: nat, n: nat)
    requires n < UDivUp(size)
    ensures Cut(size, n * 64) <= Cut(size, n) <= 64
    ensures Cut(size, n) == if size < 64 then size else 64
  {
  }

  lemma TestBoxCoversTile(fb: Framebuffer, p: Pos, q: Point)
    requires p.x < UDivUp(fb.width) && p.y < UDivUp(fb.height) && InTile(fb, p, q)
    ensures InTestBox(fb, p, q)
  {
    CutIsConservative(fb.width, p.x);
    CutIsConservative(fb.height, p.y);
  }

  /** Every point of a framebuffer lies in one of its tiles. */
  lemma TilesCover(fb: Framebuffer, q: Point)
    requires fb.xOff <= q.x < fb.xOff + fb.width && fb.yOff <= q.y < fb.yOff + fb.height
    ensures var p := Pos(0, (q.y - fb.yOff) / 64, (q.x - fb.xOff) / 64);
      p.x < UDivUp(fb.width) && p.y < UDivUp(fb.height) && InTile(fb, p, q)
  {
  }

  /** The dirty tiles when the loops of the damage test have reached `c`. */
  ghost predicate DirtyUpTo(fbs: seq<Framebuffer>, damage: set<Point>, dirty: set<Pos>, c: Pos) {
    forall p {:trigger p in dirty} :: p in dirty <==> InGrid(Grids(fbs), p) && Before(p, c) && Hit(fbs, damage, p)
  }

  lemma NextRow(fbs: seq<Framebuffer>, damage: set<Point>, dirty: set<Pos>, fb: nat, y: nat)
    requires fb < |fbs| && DirtyUpTo(fbs, damage, dirty, Pos(fb, y, Grids(fbs)[fb].width))
    ensures DirtyUpTo(fbs, damage, dirty, Pos(fb, y + 1, 0))
  {
  }

  lemma NextFramebuffer(fbs: seq<Framebuffer>, damage: set<Point>, dirty: set<Pos>, fb: nat)
    requires fb < |fbs| && DirtyUpTo(fbs, damage, dirty, Pos(fb, Grids(fbs)[fb].height, 0))
    ensures DirtyUpTo(fbs, damage, dirty, Pos(fb + 1, 0, 0))
  {
  }

  /** `tight_apply_damage`: exactly the tiles whose test box meets the damage become dirty. */
  method ApplyDamage(fbs: seq<Framebuffer>, damage: set<Point>) returns (dirty: set<Pos>, nDamaged: nat)
    ensures forall p :: p in dirty <==> InGrid(Grids(fbs), p) && Hit(fbs, damage, p)
    ensures nDamaged == |dirty|
    ensures nDamaged == 0 <==> forall p :: InGrid(Grids(fbs), p) ==> !Hit(fbs, damage, p)
  {
    dirty, nDamaged := {}, 0;
    var grids := Grids(fbs);
    for fbi := 0 to |fbs|
      invariant nDamaged == |dirty| && DirtyUpTo(fbs, damage, dirty, Pos(fbi, 0, 0))
    {
      for y := 0 to grids[fbi].height
        invariant nDamaged == |dirty| && DirtyUpTo(fbs, damage, dirty, Pos(fbi, y, 0))
      {
        for x := 0 to grids[fbi].width
          invariant nDamaged == |dirty| && DirtyUpTo(fbs, damage, dirty, Pos(fbi, y, x))
        {
          dirty, nDamaged := TestTile(fbs, damage, dirty, nDamaged, Pos(fbi, y, x));
        }
        NextRow(fbs, damage, dirty, fbi, y);
      }
      NextFramebuffer(fbs, damage, dirty, fbi);
    }
    NothingDirtyIff(fbs, damage, dirty);
  }

  /** The encoder is left with no rectangle at all exactly if no test box meets the damage. */
  lemma {:induction false} NothingDirtyIff(fbs: seq<Framebuffer>, damage: set<Point>, dirty: set<Pos>)
    requires forall p :: p in dirty <==> InGrid(Grids(fbs), p) && Hit(fbs, damage, p)
    ensures |dirty| == 0 <==> forall p :: InGrid(Grids(fbs), p) ==> !Hit(fbs, damage, p)
  {
    if |dirty| == 0 {
      assert dirty == {};
    } else {
      var p :| p in dirty;
    }
  }

  method TestTile(fbs: seq<Framebuffer>, damage: set<Point>, dirty0: set<Pos>, n0: nat, p: Pos)
    returns (dirty: set<Pos>, n: nat)
    requires InGrid(Grids(fbs), p) && n0 == |dirty0| && DirtyUpTo(fbs, damage, dirty0, p)
    ensures n == |dirty| && DirtyUpTo(fbs, damage, dirty, Pos(p.fb, p.y, p.x + 1))
  {
    dirty, n := dirty0, n0;
    var hit := ContainsAny(fbs, damage, p);
    if hit {
      n := n + 1;
      dirty := dirty + {p};
    }
  }

  /** `pixman_region_contains_rectangle` on the test box, as far as it tells "out" from the rest. */
  method ContainsAny(fbs: seq<Framebuffer>, damage: set<Point>, p: Pos) returns (r: bool)
    requires p.fb < |fbs|
    ensures r == Hit(fbs, damage, p)
  {
    var inside := set q | q in damage && InTestBox(fbs[p.fb], p, q);
    r := inside != {};
    assert forall q :: q in inside <==> q in damage && InTestBox(fbs[p.fb], p, q);
    if r {
      var q :| q in inside;
    } else {
      assert forall q :: q !in inside;
    }
  }

  /** Every damaged pixel of a framebuffer lies in a tile that becomes dirty, hence is emitted. */
  lemma DamageIsCovered(fbs: seq<Framebuffer>, damage: set<Point>, dirty: set<Pos>, i: nat, q: Point)
    requires forall p :: p in dirty <==> InGrid(Grids(fbs), p) && Hit(fbs, damage, p)
    requires i < |fbs| && q in damage
    requires fbs[i].xOff <= q.x < fbs[i].xOff + fbs[i].width && fbs[i].yOff <= q.y < fbs[i].yOff + fbs[i].height
    ensures exists p :: p in dirty && p.fb == i && InTile(fbs[i], p, q)
  {
    var fb := fbs[i];
    TilesCover(fb, q);
    var p := Pos(i, (q.y - fb.yOff) / 64, (q.x - fb.xOff) / 64);
    TestBoxCoversTile(fb, p, q);
    assert p in dirty && InTile(fb, p, q);
  }

  predicate InFramebuffer(fb: Framebuffer, q: Point) {
    fb.xOff <= q.x < fb.xOff + fb.width && fb.yOff <= q.y < fb.yOff + fb.height
  }

  /** `nvnc_composite_fb_dimensions`: how far the framebuffers reach, unscaled. */
  function Reach(fbs: seq<Framebuffer>): (int, int) {
    if fbs == [] then (0, 0)
    else
      var (w, h) := Reach(fbs[..|fbs| - 1]);
      var fb := fbs[|fbs| - 1];
      (if w < fb.xOff + fb.width then fb.xOff + fb.width else w,
       if h < fb.yOff + fb.height then fb.yOff + fb.height else h)
  }

  /** Damage as the encoder gets it: clamped to the composite. */
  predicate Clamped(fbs: seq<Framebuffer>, damage: set<Point>) {
    forall q :: q in damage ==> 0 <= q.x < Reach(fbs).0 && 0 <= q.y < Reach(fbs).1
  }

  /** What the damage test makes of clamped damage. */
  ghost predicate Applied(fbs: seq<Framebuffer>, damage: set<Point>, dirty: set<Pos>) {
    Clamped(fbs, damage) && forall p :: p in dirty <==> InGrid(Grids(fbs), p) && Hit(fbs, damage, p)
  }

  /** The tile will be encoded although no pixel of it is damaged. */
  ghost predicate Overreported(fbs: seq<Framebuffer>, damage: set<Point>, dirty: set<Pos>, p: Pos) {
    p in dirty && p.fb < |fbs| && !exists q :: q in damage && InTile(fbs[p.fb], p, q)
  }

  lemma TestBoxInFramebuffer(fb: Framebuffer, p: Pos, q: Point)
    requires p.x < UDivUp(fb.width) && p.y < UDivUp(fb.height) && InTestBox(fb, p, q)
    ensures InTile(fb, p, q) <==> InFramebuffer(fb, q)
  {
    CutIsConservative(fb.width, p.x);
    CutIsConservative(fb.height, p.y);
  }

  /**
    A tile is over-reported exactly if its test box holds damage, all of it outside the
    tile's framebuffer.
   */
  lemma OverreportedOnlyByOutsideDamage(fbs: seq<Framebuffer>, damage: set<Point>, dirty: set<Pos>, p: Pos)
    requires Applied(fbs, damage, dirty) && InGrid(Grids(fbs), p)
    ensures Overreported(fbs, damage, dirty, p) <==>
      && (exists q :: q in damage && InTestBox(fbs[p.fb], p, q))
      && (forall q :: q in damage && InTestBox(fbs[p.fb], p, q) ==> !InFramebuffer(fbs[p.fb], q))
  {
    var fb := fbs[p.fb];
    forall q | q in damage
      ensures InTestBox(fb, p, q) ==> (InTile(fb, p, q) <==> InFramebuffer(fb, q))
      ensures InTile(fb, p, q) ==> InTestBox(fb, p, q)
    {
      if InTestBox(fb, p, q) {
        TestBoxInFramebuffer(fb, p, q);
      }
      if InTile(fb, p, q) {
        TestBoxCoversTile(fb, p, q);
      }
    }
  }

  /** Only tiles cut by the edge of their framebuffer can be over-reported. */
  lemma OnlyCutTilesAreOverreported(fbs: seq<Framebuffer>, damage: set<Point>, dirty: set<Pos>, p: Pos)
    requires Applied(fbs, damage, dirty) && InGrid(Grids(fbs), p) && Overreported(fbs, damage, dirty, p)
    ensures p.x * 64 + 64 > fbs[p.fb].width || p.y * 64 + 64 > fbs[p.fb].height
  {
    OverreportedOnlyByOutsideDamage(fbs, damage, dirty, p);
    var q :| q in damage && InTestBox(fbs[p.fb], p, q);
    CutIsConservative(fbs[p.fb].width, p.x);
    CutIsConservative(fbs[p.fb].height, p.y);
  }

  /** With a single framebuffer the clamp leaves nothing to over-report. */
  lemma SingleFramebufferIsExact(fb: Framebuffer, damage: set<Point>, dirty: set<Pos>, p: Pos)
    requires Applied([fb], damage, dirty)
    ensures p in dirty <==> InGrid(Grids([fb]), p) && exists q :: q in damage && InTile(fb, p, q)
  {
    ReachOfOne(fb);
    if InGrid(Grids([fb]), p) {
      assert [fb][p.fb] == fb;
      forall q | q in damage ensures InTestBox(fb, p, q) <==> InTile(fb, p, q) {
        if InTestBox(fb, p, q) {
          TestBoxInFramebuffer(fb, p, q);
        }
        if InTile(fb, p, q) {
          TestBoxCoversTile(fb, p, q);
        }
      }
    }
  }

  /** With a single framebuffer nothing is dirty exactly if no damage lies in it. */
  lemma {:induction false} SingleFramebufferCleanIff(fb: Framebuffer, damage: set<Point>, dirty: set<Pos>)
    requires Applied([fb], damage, dirty)
    ensures dirty == {} <==> forall q :: q in damage ==> !InFramebuffer(fb, q)
    ensures fb.xOff == 0 && fb.yOff == 0 ==> (dirty == {} <==> damage == {})
  {
    forall q | q in damage && InFramebuffer(fb, q) ensures dirty != {} {
      DamageIsCovered([fb], damage, dirty, 0, q);
    }
    forall p | p in dirty ensures exists q :: q in damage && InFramebuffer(fb, q) {
      SingleFramebufferIsExact(fb, damage, dirty, p);
      var q :| q in damage && InTile(fb, p, q);
      TestBoxCoversTile(fb, p, q);
      TestBoxInFramebuffer(fb, p, q);
    }
    ReachOfOne(fb);
    assert fb.xOff == 0 && fb.yOff == 0 ==> forall q :: q in damage ==> InFramebuffer(fb, q);
  }

  lemma ReachOfOne(fb: Framebuffer)
    ensures Reach([fb]) == (fb.xOff + fb.width, fb.yOff + fb.height)
  {
    assert [fb][..0] == [] && Reach([fb][..0]) == (0, 0);
  }

  /** Damage of one of two framebuffers side by side makes an edge tile of the other dirty. */
  lemma EdgeTileIsOverreported(dirty: set<Pos>)
    requires var fbs := [Framebuffer(0, 0, 100, 64), Framebuffer(100, 0, 100, 64)];
      forall p :: p in dirty <==> InGrid(Grids(fbs), p) && Hit(fbs, {Point(110, 0)}, p)
    ensures var fbs := [Framebuffer(0, 0, 100, 64), Framebuffer(100, 0, 100, 64)];
      Clamped(fbs, {Point(110, 0)}) && Overreported(fbs, {Point(110, 0)}, dirty, Pos(0, 0, 1))
  {
    var a, b := Framebuffer(0, 0, 100, 64), Framebuffer(100, 0, 100, 64);
    var q, p := Point(110, 0), Pos(0, 0, 1);
    assert [a, b][..1] == [a] && [a][..0] == [];
    assert Reach([a]) == (100, 64) && Reach([a, b]) == (200, 64);
    assert q in {q} && InTestBox([a, b][p.fb], p, q);
  }

  // ---------------------------------------------------------------- length fields

  function SizeBytes(size: nat): seq<Byte> {
    [size % 128 + (if size >= 128 then 128 else 0)]
    + (if size >= 128 then [(size / 128) % 128 + (if size >= 16384 then 128 else 0)] else [])
    + (if size >= 16384 then [(size / 16384) % 256] else [])
  }

  /** `tight_encode_size`: room for three bytes is all it needs. */
  method EncodeSize(dst: Vec.ByteVec, size: nat)
    requires dst.Valid() && |dst.data| + 3 <= dst.cap
    modifies dst`data
    ensures dst.Valid() && dst.data == old(dst.data) + SizeBytes(size)
  {
    dst.FastAppend8(size % 128 + (if size >= 128 then 128 else 0));
    if size >= 128 {
      dst.FastAppend8((size / 128) % 128 + (if size >= 16384 then 128 else 0));
    }
    if size >= 16384 {
      dst.FastAppend8((size / 16384) % 256);
    }
  }

  /** The reader's side: seven bits a byte, low bits first, eight in the third byte. */
  function TakeSize(bytes: seq<Byte>): Option<(nat, seq<Byte>)> {
    if |bytes| < 1 then None
    else
      var b0: int := bytes[0];
      if b0 < 128 then Some((b0, bytes[1..]))
      else if |bytes| < 2 then None
      else
        var b1: int := bytes[1];
        if b1 < 128 then Some((b0 - 128 + 128 * b1, bytes[2..]))
        else if |bytes| < 3 then None
        else
          var b2: int := bytes[2];
          Some((b0 - 128 + 128 * (b1 - 128) + 16384 * b2, bytes[3..]))
  }

  /** Lengths survive exactly up to 22 bits. */
  lemma SizeRoundTrip(size: nat, rest: seq<Byte>)
    ensures TakeSize(SizeBytes(size) + rest) == Some((size, rest)) <==> size < 4194304
  {
    var bytes := SizeBytes(size) + rest;
    if size < 128 {
      assert bytes[1..] == rest;
    } else if size < 16384 {
      assert bytes[2..] == rest;
    } else {
      assert bytes[3..] == rest;
    }
  }
}
