/**
  Reference-counted buffers, the pools they return to through weak references, and the frame
  pools on top of them. Objects are identified by numbers that are never reused.
 */
module BufferPool {
  import opened Common

  /** The parameters of a frame pool; `pixelSize` is what its format determines. */
  datatype Params = Params(width: nat, height: nat, stride: nat, format: nat, pixelSize: nat)

  /**
    `subject` is the pool the buffer observes. `made` (what the frame pool looked like for
    which it was allocated) and `queued` (the pool in whose queue it lies) are history.
   */
  datatype Buffer = Buffer(ref: int, subject: Option<nat>, queued: Option<nat>, made: Option<Params>)

  /** `owner` is the frame pool that the pool belongs to, if any. */
  datatype Pool = Pool(ref: int, observers: seq<nat>, queue: seq<nat>, owner: Option<nat>)

  datatype FramePool = FramePool(ref: int, pool: nat, params: Params)

  /**
    `held[b]` is the number of references that callers hold to buffer `b`; `freed` lists the
    buffers released to the allocator. Both are history; `|held|` buffers were ever made.
   */
  datatype Log = Log(held: seq<nat>, freed: seq<nat>, pools: nat, frames: nat)

  datatype State = State(buffers: map<nat, Buffer>, pools: map<nat, Pool>, frames: map<nat, FramePool>, log: Log)

  function Init(): State { State(map[], map[], map[], Log([], [], 0, 0)) }

  // ---------------------------------------------------------------- operations

  function Remove(q: seq<nat>, b: nat): (r: seq<nat>) {
    if q == [] then [] else if q[0] == b then q[1..] else [q[0]] + Remove(q[1..], b)
  }

  function SetHeld(s: State, b: nat, n: nat): State
    requires b < |s.log.held|
  {
    s.(log := s.log.(held := s.log.held[b := n]))
  }

  function SetRef(s: State, b: nat, r: int): State
    requires b in s.buffers
  {
    s.(buffers := s.buffers[b := s.buffers[b].(ref := r)])
  }

  /** The last reference to a lent buffer is gone: back to the tail of its pool's queue. */
  function Return(s: State, b: nat): State
    requires b in s.buffers && s.buffers[b].subject.Some? && s.buffers[b].subject.value in s.pools
  {
    var p := s.buffers[b].subject.value;
    var pool := s.pools[p];
    s.(buffers := s.buffers[b := s.buffers[b].(ref := 1, subject := None, queued := Some(p))],
       pools := s.pools[p := pool.(observers := Remove(pool.observers, b), queue := pool.queue + [b])])
  }

  function Free(s: State, b: nat): State {
    s.(buffers := s.buffers - {b}, log := s.log.(freed := s.log.freed + [b]))
  }

  /** `nvnc_buffer_unref` */
  function Unref(s: State, b: nat): State
    requires b in s.buffers
    requires s.buffers[b].subject.Some? ==> s.buffers[b].subject.value in s.pools
  {
    if s.buffers[b].ref != 1 then SetRef(s, b, s.buffers[b].ref - 1)
    else if s.buffers[b].subject.Some? then Return(s, b)
    else Free(s, b)
  }

  function MakeBuffer(s: State, made: Option<Params>, subject: Option<nat>): State {
    s.(buffers := s.buffers[|s.log.held| := Buffer(1, subject, None, made)],
       log := s.log.(held := s.log.held + [1]))
  }

  function Observe(s: State, p: nat, b: nat): State
    requires p in s.pools
  {
    s.(pools := s.pools[p := s.pools[p].(observers := [b] + s.pools[p].observers)])
  }

  function AcquireNew(s: State, p: nat, made: Option<Params>): State
    requires p in s.pools
  {
    Observe(MakeBuffer(s, made, Some(p)), p, |s.log.held|)
  }

  function AcquireFromQueue(s: State, p: nat): State
    requires p in s.pools && s.pools[p].queue != []
    requires s.pools[p].queue[0] in s.buffers && s.pools[p].queue[0] < |s.log.held|
  {
    var b := s.pools[p].queue[0];
    State(s.buffers[b := s.buffers[b].(subject := Some(p), queued := None)],
          s.pools[p := s.pools[p].(queue := s.pools[p].queue[1..], observers := [b] + s.pools[p].observers)],
          s.frames,
          s.log.(held := s.log.held[b := s.log.held[b] + 1]))
  }

  /** What a caller of `nvnc_buffer_pool_acquire` is handed. */
  function Handed(s: State, p: nat): nat
    requires p in s.pools
  {
    if s.pools[p].queue == [] then |s.log.held| else s.pools[p].queue[0]
  }

  function Acquire(s: State, p: nat, made: Option<Params>): State
    requires Inv(s) && p in s.pools
  {
    if s.pools[p].queue == [] then AcquireNew(s, p, made)
    else
      assert s.pools[p].queue[0] in s.pools[p].queue && PoolOk(s, p);
      AcquireFromQueue(s, p)
  }

  function MakePool(s: State, owner: Option<nat>): State {
    s.(pools := s.pools[s.log.pools := Pool(1, [], [], owner)], log := s.log.(pools := s.log.pools + 1))
  }

  function Orphaned(b: Buffer, p: nat): Buffer {
    if b.subject == Some(p) then b.(subject := None) else b
  }

  /** The last reference to pool `p` is gone: its queue is freed, its lent buffers are on their own. */
  function Destroy(s: State, p: nat): State
    requires p in s.pools
  {
    s.(buffers := map b | b in s.buffers && s.buffers[b].queued != Some(p) :: Orphaned(s.buffers[b], p),
       pools := s.pools - {p},
       log := s.log.(freed := s.log.freed + s.pools[p].queue))
  }

  /** `nvnc_buffer_pool_unref` */
  function UnrefPool(s: State, p: nat): State
    requires p in s.pools
  {
    if s.pools[p].ref != 1 then s.(pools := s.pools[p := s.pools[p].(ref := s.pools[p].ref - 1)])
    else Destroy(s, p)
  }

  function MakeFramePool(s: State, params: Params): State {
    var t := MakePool(s, Some(s.log.frames));
    t.(frames := s.frames[s.log.frames := FramePool(1, s.log.pools, params)],
       log := t.log.(frames := s.log.frames + 1))
  }

  /** Parameters other than the stride are compared too; equal ones leave the pool alone. */
  function Resize(s: State, f: nat, params: Params): State
    requires f in s.frames && s.frames[f].pool in s.pools
  {
    if s.frames[f].params == params then s
    else
      var t := MakePool(UnrefPool(s, s.frames[f].pool), Some(f));
      t.(frames := s.frames[f := s.frames[f].(pool := s.log.pools, params := params)])
  }

  function UnrefFramePool(s: State, f: nat): State
    requires f in s.frames && s.frames[f].pool in s.pools
  {
    if s.frames[f].ref != 1 then s.(frames := s.frames[f := s.frames[f].(ref := s.frames[f].ref - 1)])
    else UnrefPool(s, s.frames[f].pool).(frames := s.frames - {f})
  }

  datatype Event =
    | NewBuffer
    | RefBuffer(b: nat)
    | DropBuffer(b: nat)
    | NewPool
    | RefPool(p: nat)
    | DropPool(p: nat)
    | AcquireFrom(p: nat)
    | NewFramePool(params: Params)
    | ResizeFramePool(f: nat, params: Params)
    | RefFramePool(f: nat)
    | DropFramePool(f: nat)
    | AcquireFrame(f: nat)

  /** Callers use references they hold; a frame pool keeps its buffer pool to itself. */
  predicate Enabled(s: State, e: Event) {
    match e
    case NewBuffer => true
    case RefBuffer(b) => b < |s.log.held| && s.log.held[b] > 0
    case DropBuffer(b) => b < |s.log.held| && s.log.held[b] > 0
    case NewPool => true
    case RefPool(p) => p in s.pools && s.pools[p].owner == None
    case DropPool(p) => p in s.pools && s.pools[p].owner == None
    case AcquireFrom(p) => p in s.pools && s.pools[p].owner == None
    case NewFramePool(_) => true
    case ResizeFramePool(f, _) => f in s.frames
    case RefFramePool(f) => f in s.frames
    case DropFramePool(f) => f in s.frames
    case AcquireFrame(f) => f in s.frames
  }

  function Next(s: State, e: Event): State
    requires Inv(s) && Enabled(s, e)
  {
    match e
    case NewBuffer => MakeBuffer(s, None, None)
    case RefBuffer(b) => HeldIsLive(s, b); SetHeld(SetRef(s, b, s.buffers[b].ref + 1), b, s.log.held[b] + 1)
    case DropBuffer(b) => HeldIsLive(s, b); SetHeld(Unref(s, b), b, s.log.held[b] - 1)
    case NewPool => MakePool(s, None)
    case RefPool(p) => s.(pools := s.pools[p := s.pools[p].(ref := s.pools[p].ref + 1)])
    case DropPool(p) => UnrefPool(s, p)
    case AcquireFrom(p) => Acquire(s, p, None)
    case NewFramePool(params) => MakeFramePool(s, params)
    case ResizeFramePool(f, params) => Resize(s, f, params)
    case RefFramePool(f) => s.(frames := s.frames[f := s.frames[f].(ref := s.frames[f].ref + 1)])
    case DropFramePool(f) => UnrefFramePool(s, f)
    case AcquireFrame(f) => Acquire(s, s.frames[f].pool, Some(s.frames[f].params))
  }

  // ---------------------------------------------------------------- the invariant

  predicate NoDup(q: seq<nat>) { forall i, j :: 0 <= i < j < |q| ==> q[i] != q[j] }

  /** The pool a buffer is queued in or lent from. */
  function Home(x: Buffer): Option<nat> { if x.queued.Some? then x.queued else x.subject }

  /** Queued (one reference, the pool's), lent or orphaned (the callers' references). */
  predicate Counted(x: Buffer, held: nat) {
    if x.queued.Some? then x.subject == None && x.ref == 1 && held == 0
    else x.ref == held > 0
  }

  /** The home of a buffer exists, and if a frame pool owns it, the buffer was made for it as it is now. */
  predicate Housed(s: State, x: Buffer) {
    Home(x).Some? ==>
      Home(x).value in s.pools
      && (s.pools[Home(x).value].owner.Some? ==>
            s.pools[Home(x).value].owner.value in s.frames
            && x.made == Some(s.frames[s.pools[Home(x).value].owner.value].params))
  }

  predicate Live(s: State, b: nat) {
    b in s.buffers && b < |s.log.held| && Counted(s.buffers[b], s.log.held[b]) && Housed(s, s.buffers[b])
  }

  predicate Gone(s: State, b: nat) {
    b !in s.buffers && b < |s.log.held| && s.log.held[b] == 0 && b in s.log.freed
  }

  predicate Tracked(s: State, b: nat) { Live(s, b) || Gone(s, b) }

  /** The queue and the observer list of a pool hold exactly the buffers that say so. */
  ghost predicate PoolOk(s: State, p: nat) {
    p in s.pools && s.pools[p].ref > 0
    && NoDup(s.pools[p].queue) && NoDup(s.pools[p].observers)
    && (forall b :: b in s.pools[p].queue <==> b in s.buffers && s.buffers[b].queued == Some(p))
    && (forall b :: b in s.pools[p].observers <==> b in s.buffers && s.buffers[b].subject == Some(p))
    && (s.pools[p].owner.Some? ==>
          s.pools[p].owner.value in s.frames && s.frames[s.pools[p].owner.value].pool == p)
  }

  predicate FrameOk(s: State, f: nat) {
    f in s.frames && s.frames[f].ref > 0
    && s.frames[f].pool in s.pools && s.pools[s.frames[f].pool].owner == Some(f) && s.pools[s.frames[f].pool].ref == 1
  }

  ghost predicate Inv(s: State) {
    && NoDup(s.log.freed)
    && (forall b :: b in s.log.freed ==> b < |s.log.held| && b !in s.buffers)
    && (forall b :: b in s.buffers ==> b < |s.log.held|)
    && (forall b: nat {:trigger Tracked(s, b)} :: b < |s.log.held| ==> Tracked(s, b))
    && (forall p :: p in s.pools ==> p < s.log.pools && PoolOk(s, p))
    && (forall f :: f in s.frames ==> f < s.log.frames && FrameOk(s, f))
  }

  // ---------------------------------------------------------------- list facts

  lemma {:induction false} RemoveProperties(q: seq<nat>, b: nat)
    requires NoDup(q)
    ensures NoDup(Remove(q, b))
    ensures forall x :: x in Remove(q, b) <==> x in q && x != b
  {
    if q != [] {
      assert q == [q[0]] + q[1..];
      if q[0] != b {
        RemoveProperties(q[1..], b);
        var r := Remove(q[1..], b);
        assert q[0] !in r;
        NoDupSnoc(r, q[0]);
      }
    }
  }

  lemma NoDupSnoc(q: seq<nat>, b: nat)
    requires NoDup(q) && b !in q
    ensures NoDup(q + [b]) && NoDup([b] + q)
  {
  }

  lemma NoDupAppend(q: seq<nat>, r: seq<nat>)
    requires NoDup(q) && NoDup(r) && forall x :: x in r ==> x !in q
    ensures NoDup(q + r)
  {
    forall i, j | 0 <= i < j < |q + r| ensures (q + r)[i] != (q + r)[j] {
      if i < |q| <= j {
        assert r[j - |q|] in r && q[i] in q;
      }
    }
  }

  // ---------------------------------------------------------------- every operation keeps it

  lemma MakeBufferKeeps(s: State)
    requires Inv(s)
    ensures Inv(MakeBuffer(s, None, None))
  {
    var t := MakeBuffer(s, None, None);
    forall b: nat | b < |t.log.held| ensures Tracked(t, b) {
      if b < |s.log.held| { assert Tracked(s, b); }
    }
    forall p | p in t.pools ensures PoolOk(t, p) {
      assert PoolOk(s, p);
    }
    forall f | f in t.frames ensures FrameOk(t, f) {
      assert FrameOk(s, f);
    }
  }

  lemma HeldIsLive(s: State, b: nat)
    requires Inv(s) && b < |s.log.held| && s.log.held[b] > 0
    ensures Live(s, b) && s.buffers[b].queued == None
  {
    assert Tracked(s, b);
  }

  /** Changing the counts of a buffer that is not queued. */
  lemma RecountKeeps(s: State, b: nat, n: nat)
    requires Inv(s) && Live(s, b) && s.buffers[b].queued == None && n > 0
    ensures Inv(SetHeld(SetRef(s, b, n), b, n))
  {
    var t := SetHeld(SetRef(s, b, n), b, n);
    forall c: nat | c < |t.log.held| ensures Tracked(t, c) {
      assert Tracked(s, c);
    }
    forall p | p in t.pools ensures PoolOk(t, p) {
      assert PoolOk(s, p);
    }
    forall f | f in t.frames ensures FrameOk(t, f) {
      assert FrameOk(s, f);
    }
  }

  lemma ReturnPools(s: State, b: nat, q: nat)
    requires Inv(s) && Live(s, b) && s.buffers[b].queued == None && s.buffers[b].subject.Some? && q in s.pools
    ensures PoolOk(Return(s, b), q)
  {
    var p := s.buffers[b].subject.value;
    assert PoolOk(s, q);
    if q == p {
      RemoveProperties(s.pools[p].observers, b);
      NoDupSnoc(s.pools[p].queue, b);
    }
  }

  lemma ReturnKeeps(s: State, b: nat)
    requires Inv(s) && Live(s, b) && s.buffers[b].queued == None && s.buffers[b].subject.Some?
    ensures Inv(SetHeld(Return(s, b), b, 0))
  {
    var t := SetHeld(Return(s, b), b, 0);
    forall c: nat | c < |t.log.held| ensures Tracked(t, c) {
      assert Tracked(s, c);
    }
    forall q | q in t.pools ensures PoolOk(t, q) {
      ReturnPools(s, b, q);
      assert PoolOk(Return(s, b), q);
    }
    forall f | f in t.frames ensures FrameOk(t, f) {
      assert FrameOk(s, f);
    }
  }

  lemma FreeKeeps(s: State, b: nat)
    requires Inv(s) && Live(s, b) && s.buffers[b].queued == None && s.buffers[b].subject == None
    ensures Inv(SetHeld(Free(s, b), b, 0))
  {
    var t := SetHeld(Free(s, b), b, 0);
    NoDupSnoc(s.log.freed, b);
    forall c: nat | c < |t.log.held| ensures Tracked(t, c) {
      assert Tracked(s, c);
    }
    forall q | q in t.pools ensures PoolOk(t, q) {
      assert PoolOk(s, q);
    }
    forall f | f in t.frames ensures FrameOk(t, f) {
      assert FrameOk(s, f);
    }
  }

  lemma DropKeeps(s: State, b: nat)
    requires Inv(s) && b < |s.log.held| && s.log.held[b] > 0
    ensures Live(s, b) && Inv(SetHeld(Unref(s, b), b, s.log.held[b] - 1))
  {
    HeldIsLive(s, b);
    if s.buffers[b].ref != 1 {
      RecountKeeps(s, b, s.log.held[b] - 1);
    } else if s.buffers[b].subject.Some? {
      ReturnKeeps(s, b);
    } else {
      FreeKeeps(s, b);
    }
  }

  /** What a pool may allocate: frame pools allocate for their current parameters. */
  predicate Fits(s: State, p: nat, made: Option<Params>) {
    p in s.pools
    && (s.pools[p].owner.Some? ==>
          s.pools[p].owner.value in s.frames && made == Some(s.frames[s.pools[p].owner.value].params))
  }

  lemma AcquireNewPools(s: State, p: nat, made: Option<Params>, q: nat)
    requires Inv(s) && p in s.pools && q in s.pools
    ensures PoolOk(AcquireNew(s, p, made), q)
  {
    assert PoolOk(s, q);
    if q == p {
      NoDupSnoc(s.pools[p].observers, |s.log.held|);
    }
  }

  lemma AcquireNewKeeps(s: State, p: nat, made: Option<Params>)
    requires Inv(s) && Fits(s, p, made)
    ensures Inv(AcquireNew(s, p, made))
  {
    var t := AcquireNew(s, p, made);
    forall b: nat | b < |t.log.held| ensures Tracked(t, b) {
      if b < |s.log.held| { assert Tracked(s, b); }
    }
    forall q | q in t.pools ensures PoolOk(t, q) {
      AcquireNewPools(s, p, made, q);
    }
    forall f | f in t.frames ensures FrameOk(t, f) {
      assert FrameOk(s, f);
    }
  }

  lemma QueuedIsLive(s: State, p: nat)
    requires Inv(s) && p in s.pools && s.pools[p].queue != []
    ensures var b := s.pools[p].queue[0];
      Live(s, b) && s.buffers[b].queued == Some(p) && s.log.held[b] == 0
  {
    var b := s.pools[p].queue[0];
    assert PoolOk(s, p) && b in s.pools[p].queue;
    assert Tracked(s, b);
  }

  lemma AcquireFromQueuePools(s: State, p: nat, q: nat)
    requires Inv(s) && p in s.pools && q in s.pools && s.pools[p].queue != []
    requires Live(s, s.pools[p].queue[0]) && s.buffers[s.pools[p].queue[0]].queued == Some(p)
    ensures PoolOk(AcquireFromQueue(s, p), q)
  {
    var b := s.pools[p].queue[0];
    assert PoolOk(s, q);
    if q == p {
      assert s.pools[p].queue == [b] + s.pools[p].queue[1..];
      NoDupSnoc(s.pools[p].observers, b);
    }
  }

  lemma AcquireFromQueueKeeps(s: State, p: nat)
    requires Inv(s) && p in s.pools && s.pools[p].queue != []
    ensures Live(s, s.pools[p].queue[0]) && Inv(AcquireFromQueue(s, p))
  {
    QueuedIsLive(s, p);
    var t := AcquireFromQueue(s, p);
    forall c: nat | c < |t.log.held| ensures Tracked(t, c) {
      assert Tracked(s, c);
    }
    forall q | q in t.pools ensures PoolOk(t, q) {
      AcquireFromQueuePools(s, p, q);
    }
    forall f | f in t.frames ensures FrameOk(t, f) {
      assert FrameOk(s, f);
    }
  }

  lemma AcquireKeeps(s: State, p: nat, made: Option<Params>)
    requires Inv(s) && Fits(s, p, made)
    ensures Inv(Acquire(s, p, made))
  {
    if s.pools[p].queue == [] {
      AcquireNewKeeps(s, p, made);
    } else {
      AcquireFromQueueKeeps(s, p);
    }
  }

  lemma MakePoolKeeps(s: State)
    requires Inv(s)
    ensures Inv(MakePool(s, None))
  {
    var t := MakePool(s, None);
    forall b: nat | b < |t.log.held| ensures Tracked(t, b) {
      assert Tracked(s, b);
    }
    forall q | q in t.pools ensures PoolOk(t, q) {
      if q != s.log.pools {
        assert PoolOk(s, q);
      } else {
        NoneAtHome(s, q);
      }
    }
    forall f | f in t.frames ensures FrameOk(t, f) {
      assert FrameOk(s, f);
    }
  }

  /** No buffer refers to a pool that does not exist. */
  lemma NoneAtHome(s: State, p: nat)
    requires Inv(s) && p !in s.pools
    ensures forall b :: b in s.buffers ==> s.buffers[b].queued != Some(p) && s.buffers[b].subject != Some(p)
  {
    forall b | b in s.buffers ensures s.buffers[b].queued != Some(p) && s.buffers[b].subject != Some(p) {
      assert Tracked(s, b);
    }
  }

  lemma QueuedObservesNothing(s: State)
    requires Inv(s)
    ensures forall b :: b in s.buffers && s.buffers[b].queued.Some? ==> s.buffers[b].subject == None
  {
    forall b | b in s.buffers && s.buffers[b].queued.Some? ensures s.buffers[b].subject == None {
      assert Tracked(s, b);
    }
  }

  lemma DestroyKeeps(s: State, p: nat)
    requires Inv(s) && p in s.pools && s.pools[p].owner == None
    ensures Inv(Destroy(s, p))
  {
    var t := Destroy(s, p);
    assert PoolOk(s, p);
    QueuedObservesNothing(s);
    NoDupAppend(s.log.freed, s.pools[p].queue);
    forall b: nat | b < |t.log.held| ensures Tracked(t, b) {
      assert Tracked(s, b);
    }
    forall q | q in t.pools ensures PoolOk(t, q) {
      assert PoolOk(s, q);
    }
    forall f | f in t.frames ensures FrameOk(t, f) {
      assert FrameOk(s, f);
    }
  }

  /** Frame pool `f` forgotten, its buffer pool left to itself. */
  function Disown(s: State, f: nat): State
    requires f in s.frames && s.frames[f].pool in s.pools
  {
    var p := s.frames[f].pool;
    s.(frames := s.frames - {f}, pools := s.pools[p := s.pools[p].(owner := None)])
  }

  lemma DisownKeeps(s: State, f: nat)
    requires Inv(s) && f in s.frames
    ensures FrameOk(s, f) && Inv(Disown(s, f))
  {
    assert FrameOk(s, f);
    var t := Disown(s, f);
    forall b: nat | b < |t.log.held| ensures Tracked(t, b) {
      assert Tracked(s, b);
    }
    forall q | q in t.pools ensures PoolOk(t, q) {
      assert PoolOk(s, q);
    }
    forall g | g in t.frames ensures FrameOk(t, g) {
      assert FrameOk(s, g);
    }
  }

  lemma {:induction false} DestroyOwned(s: State, f: nat)
    requires Inv(s) && f in s.frames
    ensures FrameOk(s, f)
    ensures var t := Destroy(s, s.frames[f].pool).(frames := s.frames - {f}); Inv(t)
  {
    DisownKeeps(s, f);
    var p := s.frames[f].pool;
    DestroyKeeps(Disown(s, f), p);
    DestroyDisowned(s, f);
  }

  lemma DestroyDisowned(s: State, f: nat)
    requires f in s.frames && s.frames[f].pool in s.pools
    ensures Destroy(s, s.frames[f].pool).(frames := s.frames - {f}) == Destroy(Disown(s, f), s.frames[f].pool)
  {
    var p := s.frames[f].pool;
    var t, u := Destroy(s, p).(frames := s.frames - {f}), Destroy(Disown(s, f), p);
    assert t.pools == u.pools;
  }

  /** Frame pool `f`, new or renewed, gets a new buffer pool. */
  function Furnish(s: State, f: nat, ref: int, params: Params): State {
    var t := MakePool(s, Some(f));
    t.(frames := t.frames[f := FramePool(ref, s.log.pools, params)])
  }

  lemma FurnishKeeps(s: State, f: nat, ref: int, params: Params)
    requires Inv(s) && f !in s.frames && f < s.log.frames && ref > 0
    ensures Inv(Furnish(s, f, ref, params))
  {
    var t := Furnish(s, f, ref, params);
    NoneAtHome(s, s.log.pools);
    forall b: nat | b < |t.log.held| ensures Tracked(t, b) {
      assert Tracked(s, b);
      if b in s.buffers && Home(s.buffers[b]).Some? {
        assert PoolOk(s, Home(s.buffers[b]).value);
      }
    }
    forall q | q in t.pools ensures PoolOk(t, q) {
      if q != s.log.pools {
        assert PoolOk(s, q);
      }
    }
    forall g | g in t.frames ensures FrameOk(t, g) {
      if g != f {
        assert FrameOk(s, g);
      }
    }
  }

  lemma MakeFramePoolKeeps(s: State, params: Params)
    requires Inv(s)
    ensures Inv(MakeFramePool(s, params))
  {
    var r := s.(log := s.log.(frames := s.log.frames + 1));
    CountFramesKeeps(s);
    FurnishKeeps(r, s.log.frames, 1, params);
    assert Furnish(r, s.log.frames, 1, params) == MakeFramePool(s, params);
  }

  lemma CountFramesKeeps(s: State)
    requires Inv(s)
    ensures Inv(s.(log := s.log.(frames := s.log.frames + 1)))
  {
    var r := s.(log := s.log.(frames := s.log.frames + 1));
    forall b: nat | b < |r.log.held| ensures Tracked(r, b) {
      assert Tracked(s, b);
    }
    forall q | q in r.pools ensures PoolOk(r, q) {
      assert PoolOk(s, q);
    }
    forall g | g in r.frames ensures FrameOk(r, g) {
      assert FrameOk(s, g);
    }
  }

  lemma ResizeRenews(s: State, f: nat, params: Params)
    requires FrameOk(s, f) && s.frames[f].params != params
    ensures Resize(s, f, params)
      == Furnish(Destroy(s, s.frames[f].pool).(frames := s.frames - {f}), f, s.frames[f].ref, params)
  {
    assert (s.frames - {f})[f := FramePool(s.frames[f].ref, s.log.pools, params)]
      == s.frames[f := s.frames[f].(pool := s.log.pools, params := params)];
  }

  lemma ResizeKeeps(s: State, f: nat, params: Params)
    requires Inv(s) && f in s.frames
    ensures FrameOk(s, f) && Inv(Resize(s, f, params))
  {
    DestroyOwned(s, f);
    if s.frames[f].params != params {
      ResizeRenews(s, f, params);
      var t := Destroy(s, s.frames[f].pool).(frames := s.frames - {f});
      assert f !in t.frames && f < t.log.frames;
      FurnishKeeps(t, f, s.frames[f].ref, params);
    }
  }

  lemma RecountPoolKeeps(s: State, p: nat, n: int)
    requires Inv(s) && p in s.pools && s.pools[p].owner == None && n > 0
    ensures Inv(s.(pools := s.pools[p := s.pools[p].(ref := n)]))
  {
    var t := s.(pools := s.pools[p := s.pools[p].(ref := n)]);
    forall b: nat | b < |t.log.held| ensures Tracked(t, b) {
      assert Tracked(s, b);
    }
    forall q | q in t.pools ensures PoolOk(t, q) {
      assert PoolOk(s, q);
    }
    forall g | g in t.frames ensures FrameOk(t, g) {
      assert FrameOk(s, g);
    }
  }

  lemma RecountFramePoolBuffers(s: State, f: nat, n: int, b: nat)
    requires f in s.frames && Tracked(s, b)
    ensures Tracked(s.(frames := s.frames[f := s.frames[f].(ref := n)]), b)
  {
  }

  lemma RecountFramePoolPools(s: State, f: nat, n: int, q: nat)
    requires f in s.frames && PoolOk(s, q)
    ensures PoolOk(s.(frames := s.frames[f := s.frames[f].(ref := n)]), q)
  {
  }

  lemma RecountFramePoolKeeps(s: State, f: nat, n: int)
    requires Inv(s) && f in s.frames && n > 0
    ensures Inv(s.(frames := s.frames[f := s.frames[f].(ref := n)]))
  {
    var t := s.(frames := s.frames[f := s.frames[f].(ref := n)]);
    forall b: nat | b < |t.log.held| ensures Tracked(t, b) {
      RecountFramePoolBuffers(s, f, n, b);
    }
    forall q | q in t.pools ensures PoolOk(t, q) {
      RecountFramePoolPools(s, f, n, q);
    }
    forall g | g in t.frames ensures FrameOk(t, g) {
      assert FrameOk(s, g);
    }
  }

  lemma NextKeeps(s: State, e: Event)
    requires Inv(s) && Enabled(s, e)
    ensures Inv(Next(s, e))
  {
    match e
    case NewBuffer => MakeBufferKeeps(s);
    case RefBuffer(b) => HeldIsLive(s, b); RecountKeeps(s, b, s.log.held[b] + 1);
    case DropBuffer(b) => DropKeeps(s, b);
    case NewPool => MakePoolKeeps(s);
    case RefPool(p) => assert PoolOk(s, p); RecountPoolKeeps(s, p, s.pools[p].ref + 1);
    case DropPool(p) =>
      assert PoolOk(s, p);
      if s.pools[p].ref == 1 { DestroyKeeps(s, p); } else { RecountPoolKeeps(s, p, s.pools[p].ref - 1); }
    case AcquireFrom(p) => AcquireKeeps(s, p, None);
    case NewFramePool(params) => MakeFramePoolKeeps(s, params);
    case ResizeFramePool(f, params) => ResizeKeeps(s, f, params);
    case RefFramePool(f) => assert FrameOk(s, f); RecountFramePoolKeeps(s, f, s.frames[f].ref + 1);
    case DropFramePool(f) =>
      assert FrameOk(s, f);
      if s.frames[f].ref == 1 { DestroyOwned(s, f); } else { RecountFramePoolKeeps(s, f, s.frames[f].ref - 1); }
    case AcquireFrame(f) => assert FrameOk(s, f); AcquireKeeps(s, s.frames[f].pool, Some(s.frames[f].params));
  }

  // ---------------------------------------------------------------- every run

  /** The state after a run, if every caller kept to the references it held. */
  ghost function After(es: seq<Event>): (s: Option<State>)
    ensures s.Some? ==> Inv(s.value)
  {
    if es == [] then Some(Init())
    else
      match After(es[..|es| - 1])
      case None => None
      case Some(s) =>
        var e := es[|es| - 1];
        if Enabled(s, e) then NextKeeps(s, e); Some(Next(s, e)) else None
  }

  predicate IsQueued(s: State, b: nat) { exists p :: p in s.pools && b in s.pools[p].queue }
  predicate IsObserver(s: State, b: nat) { exists p :: p in s.pools && b in s.pools[p].observers }

  /**
    In every reachable state a live buffer is exactly one of queued (one reference, held by
    no caller, observing nothing), lent (on the observer list of the one pool it points to)
    or orphaned; the count is the number of references callers hold.
   */
  lemma {:induction false} LiveBufferHasOneRole(es: seq<Event>, b: nat)
    requires After(es).Some? && b in After(es).value.buffers
    ensures var s := After(es).value; var x := s.buffers[b];
      && b < |s.log.held|
      && (IsQueued(s, b) ==> !IsObserver(s, b) && x.subject == None && x.ref == 1 && s.log.held[b] == 0)
      && (!IsQueued(s, b) ==> x.ref == s.log.held[b] >= 1 && (IsObserver(s, b) <==> x.subject.Some?))
      && (x.subject.Some? ==> x.subject.value in s.pools && b in s.pools[x.subject.value].observers)
  {
    var s := After(es).value;
    assert Tracked(s, b);
    forall p | p in s.pools
      ensures b in s.pools[p].queue <==> s.buffers[b].queued == Some(p)
      ensures b in s.pools[p].observers <==> s.buffers[b].subject == Some(p)
    {
      assert PoolOk(s, p);
    }
  }

  /**
    Every buffer ever made is either live or was freed exactly once; a freed one is held by
    no caller and linked from no pool.
   */
  lemma {:induction false} EachBufferIsFreedOnce(es: seq<Event>, b: nat)
    requires After(es).Some? && b < |After(es).value.log.held|
    ensures var s := After(es).value;
      && (b in s.buffers <==> b !in s.log.freed)
      && NoDup(s.log.freed)
      && (b in s.log.freed ==> s.log.held[b] == 0 && !IsQueued(s, b) && !IsObserver(s, b))
  {
    var s := After(es).value;
    assert Tracked(s, b);
    forall p | p in s.pools && b !in s.buffers
      ensures b !in s.pools[p].queue && b !in s.pools[p].observers
    {
      assert PoolOk(s, p);
    }
  }

  /** Once all pools and all callers' references are gone, every buffer has been freed. */
  lemma {:induction false} NothingLeaks(es: seq<Event>)
    requires After(es).Some?
    requires var s := After(es).value; s.pools == map[] && forall b :: 0 <= b < |s.log.held| ==> s.log.held[b] == 0
    ensures var s := After(es).value;
      s.buffers == map[] && s.frames == map[] && forall b :: 0 <= b < |s.log.held| ==> b in s.log.freed
  {
    var s := After(es).value;
    forall b | 0 <= b < |s.log.held| ensures b !in s.buffers && b in s.log.freed {
      assert Tracked(s, b);
    }
    assert forall f :: f in s.frames ==> FrameOk(s, f);
  }

  /** An acquire hands out a buffer that nobody else held, and that its pool may lend. */
  lemma AcquireHands(s: State, p: nat, made: Option<Params>)
    requires Inv(s) && Fits(s, p, made)
    ensures var b := Handed(s, p); var t := Acquire(s, p, made);
      && (b < |s.log.held| ==> s.log.held[b] == 0)
      && b in t.buffers && b < |t.log.held| && t.log.held[b] == 1 && t.buffers[b].ref == 1
      && t.buffers[b].subject == Some(p)
      && (s.pools[p].owner.Some? ==> t.buffers[b].made == made)
      && t.frames == s.frames
  {
    if s.pools[p].queue != [] {
      QueuedIsLive(s, p);
    }
  }

  /** What the next acquire from frame pool `f` hands out. */
  ghost predicate FrameFits(s: State, f: nat)
    requires Inv(s) && f in s.frames
  {
    FrameOk(s, f)
    && var b := Handed(s, s.frames[f].pool); var t := Next(s, AcquireFrame(f));
      && (b < |s.log.held| ==> s.log.held[b] == 0)
      && b in t.buffers && b < |t.log.held| && t.log.held[b] == 1 && t.buffers[b].ref == 1
      && t.buffers[b].made == Some(s.frames[f].params)
  }

  lemma FrameFitsNow(s: State, f: nat)
    requires Inv(s) && f in s.frames
    ensures FrameFits(s, f)
  {
    assert FrameOk(s, f);
    AcquireHands(s, s.frames[f].pool, Some(s.frames[f].params));
  }

  /**
    A frame pool hands out a buffer that nobody else holds and that was made for its present
    parameters, whatever resizes came before.
   */
  lemma {:induction false} FrameFitsItsPool(es: seq<Event>, f: nat)
    requires After(es).Some? && f in After(es).value.frames
    ensures FrameFits(After(es).value, f)
  {
    FrameFitsNow(After(es).value, f);
  }
}
