/**
  Counts kept from the outside: how many references each buffer, pool and frame pool has,
  when a buffer is released, and in which order a pool lends its buffers again.
 */
module BufferLife {
  import opened Common
  import opened BufferPool

  // ---------------------------------------------------------------- references

  /** The pool that an event acquires from, if it does. */
  function Source(s: State, e: Event): Option<nat>
    requires Enabled(s, e)
  {
    match e
    case AcquireFrom(p) => Some(p)
    case AcquireFrame(f) => Some(s.frames[f].pool)
    case _ => None
  }

  /** The references to buffer `b` that an event hands out, less those it takes back. */
  function Handing(s: State, e: Event, b: nat): int
    requires Inv(s) && Enabled(s, e)
  {
    match e
    case NewBuffer => if b == |s.log.held| then 1 else 0
    case RefBuffer(c) => if b == c then 1 else 0
    case DropBuffer(c) => if b == c then -1 else 0
    case AcquireFrom(p) => Lending(s, p, b)
    case AcquireFrame(f) => assert FrameOk(s, f); Lending(s, s.frames[f].pool, b)
    case _ => 0
  }

  /** A pool lends the buffer that has been back the longest, or a new one if it has none. */
  function Lending(s: State, p: nat, b: nat): int
    requires p in s.pools
  {
    if s.pools[p].queue == [] then (if b == |s.log.held| then 1 else 0) else if b == s.pools[p].queue[0] then 1 else 0
  }

  function HeldOf(s: State, b: nat): nat { if b < |s.log.held| then s.log.held[b] else 0 }

  lemma {:induction false} DropHands(s: State, b: nat, c: nat)
    requires Inv(s) && Enabled(s, DropBuffer(c))
    ensures HeldOf(Next(s, DropBuffer(c)), b) == HeldOf(s, b) - (if b == c then 1 else 0)
  {
    HeldIsLive(s, c);
  }

  lemma {:induction false} AcquireLends(s: State, p: nat, made: Option<Params>, b: nat)
    requires Inv(s) && p in s.pools
    ensures HeldOf(Acquire(s, p, made), b) == HeldOf(s, b) + Lending(s, p, b)
  {
    if s.pools[p].queue != [] {
      QueuedIsLive(s, p);
    }
  }

  lemma {:induction false} HeldIsCounted(s: State, e: Event, b: nat)
    requires Inv(s) && Enabled(s, e)
    ensures HeldOf(Next(s, e), b) == HeldOf(s, b) + Handing(s, e, b)
  {
    match e
    case DropBuffer(c) => DropHands(s, b, c);
    case AcquireFrom(p) => AcquireLends(s, p, None, b);
    case AcquireFrame(f) =>
      assert FrameOk(s, f);
      AcquireLends(s, s.frames[f].pool, Some(s.frames[f].params), b);
    case ResizeFramePool(f, _) => assert FrameOk(s, f);
    case DropFramePool(f) => assert FrameOk(s, f);
    case _ =>
  }

  /** What a run handed out of buffer `b`, less what it took back. */
  ghost function HandedOut(es: seq<Event>, b: nat): int
    requires After(es).Some?
  {
    if es == [] then 0
    else
      var front := es[..|es| - 1];
      HandedOut(front, b) + Handing(After(front).value, es[|es| - 1], b)
  }

  /** The count of a buffer is what was handed out of it, unless it lies in a queue or is gone. */
  lemma {:induction false} CountIsHanded(es: seq<Event>, b: nat)
    requires After(es).Some?
    ensures var s := After(es).value;
      && HandedOut(es, b) == HeldOf(s, b)
      && (HandedOut(es, b) > 0 ==> b in s.buffers && s.buffers[b].ref == HandedOut(es, b))
      && (b in s.buffers && HandedOut(es, b) == 0 ==> IsQueued(s, b))
    decreases |es|
  {
    if es != [] {
      var front := es[..|es| - 1];
      CountIsHanded(front, b);
      HeldIsCounted(After(front).value, es[|es| - 1], b);
    }
    var s := After(es).value;
    if b < |s.log.held| {
      assert Tracked(s, b);
      if HandedOut(es, b) == 0 && b in s.buffers {
        assert PoolOk(s, s.buffers[b].queued.value);
      }
    }
  }

  // ---------------------------------------------------------------- pools

  /** References to pool `p` made, less those dropped. */
  function PoolChange(s: State, e: Event, p: nat): int {
    match e
    case NewPool => if p == s.log.pools then 1 else 0
    case RefPool(q) => if p == q then 1 else 0
    case DropPool(q) => if p == q then -1 else 0
    case _ => 0
  }

  /** The references to a pool that callers hold; the pool of a frame pool is not theirs. */
  function PoolRefs(s: State, p: nat): int {
    if p in s.pools && s.pools[p].owner == None then s.pools[p].ref else 0
  }

  lemma {:induction false} PoolIsCounted(s: State, e: Event, p: nat)
    requires Inv(s) && Enabled(s, e)
    ensures PoolRefs(Next(s, e), p) == PoolRefs(s, p) + PoolChange(s, e, p)
  {
    match e
    case DropBuffer(b) => HeldIsLive(s, b);
    case RefBuffer(b) => HeldIsLive(s, b);
    case AcquireFrom(q) => AcquireCountsNothing(s, q, None, p);
    case AcquireFrame(f) =>
      assert FrameOk(s, f);
      AcquireCountsNothing(s, s.frames[f].pool, Some(s.frames[f].params), p);
    case ResizeFramePool(f, params) => ResizeCountsNothing(s, f, params, p);
    case DropFramePool(f) => assert FrameOk(s, f);
    case _ =>
  }

  lemma {:induction false} AcquireCountsNothing(s: State, q: nat, made: Option<Params>, p: nat)
    requires Inv(s) && q in s.pools
    ensures PoolRefs(Acquire(s, q, made), p) == PoolRefs(s, p)
  {
  }

  lemma {:induction false} ResizeCountsNothing(s: State, f: nat, params: Params, p: nat)
    requires Inv(s) && f in s.frames
    ensures FrameOk(s, f) && PoolRefs(Resize(s, f, params), p) == PoolRefs(s, p)
  {
    assert FrameOk(s, f);
  }

  function FrameChange(s: State, e: Event, f: nat): int {
    match e
    case NewFramePool(_) => if f == s.log.frames then 1 else 0
    case RefFramePool(g) => if f == g then 1 else 0
    case DropFramePool(g) => if f == g then -1 else 0
    case _ => 0
  }

  function FrameRefs(s: State, f: nat): int { if f in s.frames then s.frames[f].ref else 0 }

  lemma {:induction false} FramePoolIsCounted(s: State, e: Event, f: nat)
    requires Inv(s) && Enabled(s, e)
    ensures FrameRefs(Next(s, e), f) == FrameRefs(s, f) + FrameChange(s, e, f)
  {
    match e
    case DropBuffer(b) => HeldIsLive(s, b);
    case RefBuffer(b) => HeldIsLive(s, b);
    case AcquireFrame(g) => assert FrameOk(s, g);
    case ResizeFramePool(g, _) => assert FrameOk(s, g);
    case DropFramePool(g) => assert FrameOk(s, g);
    case _ =>
  }

  ghost function PoolTotal(es: seq<Event>, p: nat): int
    requires After(es).Some?
  {
    if es == [] then 0
    else
      var front := es[..|es| - 1];
      PoolTotal(front, p) + PoolChange(After(front).value, es[|es| - 1], p)
  }

  ghost function FrameTotal(es: seq<Event>, f: nat): int
    requires After(es).Some?
  {
    if es == [] then 0
    else
      var front := es[..|es| - 1];
      FrameTotal(front, f) + FrameChange(After(front).value, es[|es| - 1], f)
  }

  /** A pool or a frame pool lives exactly as long as references to it are out. */
  lemma {:induction false} PoolsLiveWhileHeld(es: seq<Event>, p: nat, f: nat)
    requires After(es).Some?
    ensures var s := After(es).value;
      && PoolTotal(es, p) == PoolRefs(s, p) && (PoolTotal(es, p) > 0 <==> p in s.pools && s.pools[p].owner == None)
      && FrameTotal(es, f) == FrameRefs(s, f) && (FrameTotal(es, f) > 0 <==> f in s.frames)
    decreases |es|
  {
    if es != [] {
      var front := es[..|es| - 1];
      PoolsLiveWhileHeld(front, p, f);
      PoolIsCounted(After(front).value, es[|es| - 1], p);
      FramePoolIsCounted(After(front).value, es[|es| - 1], f);
    }
    var s := After(es).value;
    assert p in s.pools ==> PoolOk(s, p);
    assert f in s.frames ==> FrameOk(s, f);
  }

  // ---------------------------------------------------------------- the end of a buffer

  /** The pool whose last reference an event drops. */
  function Ending(s: State, e: Event): Option<nat>
    requires Enabled(s, e)
  {
    match e
    case DropPool(p) => if s.pools[p].ref == 1 then Some(p) else None
    case ResizeFramePool(f, params) => if s.frames[f].params != params then Some(s.frames[f].pool) else None
    case DropFramePool(f) => if s.frames[f].ref == 1 then Some(s.frames[f].pool) else None
    case _ => None
  }

  /**
    A buffer is released exactly by the drop of its last reference where no pool will have
    it back, and by the end of the pool in whose queue it lies.
   */
  lemma {:induction false} ReleasedIff(s: State, e: Event, b: nat)
    requires Inv(s) && Enabled(s, e) && b in s.buffers
    ensures b !in Next(s, e).buffers <==>
      (e == DropBuffer(b) && HeldOf(s, b) == 1 && s.buffers[b].subject == None)
      || (Ending(s, e).Some? && Ending(s, e).value in s.pools && b in s.pools[Ending(s, e).value].queue)
  {
    assert Tracked(s, b);
    match e
    case DropBuffer(c) => HeldIsLive(s, c);
    case RefBuffer(c) => HeldIsLive(s, c);
    case DropPool(p) => assert PoolOk(s, p);
    case AcquireFrom(p) => if s.pools[p].queue != [] { QueuedIsLive(s, p); }
    case AcquireFrame(f) =>
      assert FrameOk(s, f);
      if s.pools[s.frames[f].pool].queue != [] { QueuedIsLive(s, s.frames[f].pool); }
    case ResizeFramePool(f, _) => assert FrameOk(s, f) && PoolOk(s, s.frames[f].pool);
    case DropFramePool(f) => assert FrameOk(s, f) && PoolOk(s, s.frames[f].pool);
    case _ =>
  }

  // ---------------------------------------------------------------- first back, first lent

  /** A queue grows at its end by a buffer that comes back and shrinks at its front by one that is lent. */
  function QueueNext(s: State, e: Event, p: nat): seq<nat>
    requires Enabled(s, e) && p in s.pools
  {
    var q := s.pools[p].queue;
    if e.DropBuffer? && HeldOf(s, e.b) == 1 && e.b in s.buffers && s.buffers[e.b].subject == Some(p) then q + [e.b]
    else if Source(s, e) == Some(p) && q != [] then q[1..]
    else q
  }

  lemma {:induction false} QueueIsFifo(s: State, e: Event, p: nat)
    requires Inv(s) && Enabled(s, e) && p in s.pools
    ensures if Ending(s, e) == Some(p) then p !in Next(s, e).pools
      else p in Next(s, e).pools && Next(s, e).pools[p].queue == QueueNext(s, e, p)
  {
    match e
    case DropBuffer(c) => HeldIsLive(s, c);
    case RefBuffer(c) => HeldIsLive(s, c);
    case AcquireFrame(f) => assert FrameOk(s, f);
    case ResizeFramePool(f, _) => assert FrameOk(s, f);
    case DropFramePool(f) => assert FrameOk(s, f);
    case _ =>
  }

  /** A resize to the parameters a frame pool has is no resize; any other leaves it an empty pool for these. */
  lemma {:induction false} ResizeIsExact(s: State, f: nat, params: Params)
    requires Inv(s) && f in s.frames
    ensures var t := Next(s, ResizeFramePool(f, params));
      && f in t.frames && t.frames[f].params == params && t.frames[f].ref == s.frames[f].ref
      && (params == s.frames[f].params ==> t == s)
      && (params != s.frames[f].params ==>
            && t.frames[f].pool !in s.pools && t.frames[f].pool in t.pools && t.pools[t.frames[f].pool].queue == [])
      && forall g :: g in s.frames && g != f ==> g in t.frames && t.frames[g] == s.frames[g]
  {
    assert FrameOk(s, f);
  }
}
