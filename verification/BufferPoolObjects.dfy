/** The buffers, pools and frame pools as objects that change in place. */
module BufferPoolObjects {
  import opened Common
  import opened BufferPool

  /** The buffers in `gone` have been taken off the observer list. */
  function Forgotten(buffers: map<nat, Buffer>, gone: seq<nat>): map<nat, Buffer> {
    map b | b in buffers :: if b in gone then buffers[b].(subject := None) else buffers[b]
  }

  function Without(buffers: map<nat, Buffer>, gone: seq<nat>): map<nat, Buffer> {
    map b | b in buffers && b !in gone :: buffers[b]
  }

  lemma ForgottenSnoc(buffers: map<nat, Buffer>, gone: seq<nat>, b: nat)
    requires b in buffers
    ensures Forgotten(buffers, gone + [b])
      == Forgotten(buffers, gone)[b := Forgotten(buffers, gone)[b].(subject := None)]
  {
  }

  lemma WithoutSnoc(buffers: map<nat, Buffer>, gone: seq<nat>, b: nat)
    ensures Without(buffers, gone + [b]) == Without(buffers, gone) - {b}
  {
  }

  /** Emptying both lists of a pool is what its destruction is meant to do. */
  lemma EmptiedIsDestroyed(s: State, p: nat)
    requires Inv(s) && p in s.pools
    ensures Without(Forgotten(s.buffers, s.pools[p].observers), s.pools[p].queue) == Destroy(s, p).buffers
  {
    assert PoolOk(s, p);
  }

  class Memory {
    var buffers: map<nat, Buffer>
    var pools: map<nat, Pool>
    var frames: map<nat, FramePool>
    var log: Log

    ghost function View(): State reads this { State(buffers, pools, frames, log) }

    constructor ()
      ensures View() == Init()
    {
      buffers, pools, frames, log := map[], map[], map[], Log([], [], 0, 0);
    }

    /** `weakref_observer_init` */
    method ObserverInit(b: nat, p: nat)
      requires b in buffers && p in pools
      modifies this
      ensures View() == Observe(old(View()).(buffers := old(buffers)[b := old(buffers)[b].(subject := Some(p))]), p, b)
    {
      buffers := buffers[b := buffers[b].(subject := Some(p))];
      pools := pools[p := pools[p].(observers := [b] + pools[p].observers)];
    }

    /** `weakref_observer_deinit` */
    method ObserverDeinit(b: nat)
      requires b in buffers && (buffers[b].subject.Some? ==> buffers[b].subject.value in pools)
      modifies this
      ensures frames == old(frames) && log == old(log)
      ensures buffers == old(buffers)[b := old(buffers)[b].(subject := None)]
      ensures pools == match old(buffers)[b].subject
        case None => old(pools)
        case Some(p) => old(pools)[p := old(pools)[p].(observers := Remove(old(pools)[p].observers, b))]
    {
      var subject := buffers[b].subject;
      if subject.Some? {
        var p := subject.value;
        pools := pools[p := pools[p].(observers := Remove(pools[p].observers, b))];
      }
      buffers := buffers[b := buffers[b].(subject := None)];
    }

    /** `weakref_subject_deinit` */
    method SubjectDeinit(p: nat)
      requires p in pools && forall b :: b in pools[p].observers ==> b in buffers
      modifies this
      ensures frames == old(frames) && log == old(log)
      ensures buffers == Forgotten(old(buffers), old(pools)[p].observers)
      ensures pools == old(pools)[p := old(pools)[p].(observers := [])]
    {
      ghost var all := pools[p].observers;
      ghost var i := 0;
      assert all[..0] == [];
      while pools[p].observers != []
        invariant i <= |all|
        invariant pools == old(pools)[p := old(pools)[p].(observers := all[i..])]
        invariant buffers == Forgotten(old(buffers), all[..i])
        invariant frames == old(frames) && log == old(log)
        decreases |all| - i
      {
        var b := pools[p].observers[0];
        assert b == all[i] && all[i] in all;
        ForgottenSnoc(old(buffers), all[..i], b);
        assert all[..i + 1] == all[..i] + [b];
        pools := pools[p := pools[p].(observers := pools[p].observers[1..])];
        buffers := buffers[b := buffers[b].(subject := None)];
        i := i + 1;
      }
      assert all[..i] == all && all[i..] == [];
    }

    /** `nvnc_buffer_unref` */
    method BufferUnref(b: nat)
      requires b in buffers && (buffers[b].subject.Some? ==> buffers[b].subject.value in pools)
      modifies this
      ensures View() == Unref(old(View()), b)
    {
      buffers := buffers[b := buffers[b].(ref := buffers[b].ref - 1)];
      if buffers[b].ref != 0 {
        return;
      }
      match buffers[b].subject
      case Some(p) =>
        ObserverDeinit(b);
        buffers := buffers[b := buffers[b].(ref := 1, queued := Some(p))];
        pools := pools[p := pools[p].(queue := pools[p].queue + [b])];
      case None =>
        buffers := buffers - {b};
        log := log.(freed := log.freed + [b]);
    }

    /** A caller gives back one of its references. */
    method Release(b: nat)
      requires Inv(View()) && Enabled(View(), DropBuffer(b))
      modifies this
      ensures View() == Next(old(View()), DropBuffer(b)) && Inv(View())
    {
      HeldIsLive(View(), b);
      NextKeeps(View(), DropBuffer(b));
      BufferUnref(b);
      log := log.(held := log.held[b := log.held[b] - 1]);
    }

    /** `nvnc_buffer_ref` by a caller that holds a reference already. */
    method Retain(b: nat)
      requires Inv(View()) && Enabled(View(), RefBuffer(b))
      modifies this
      ensures View() == Next(old(View()), RefBuffer(b)) && Inv(View())
    {
      HeldIsLive(View(), b);
      NextKeeps(View(), RefBuffer(b));
      buffers := buffers[b := buffers[b].(ref := buffers[b].ref + 1)];
      log := log.(held := log.held[b := log.held[b] + 1]);
    }

    /** The loop of `nvnc_buffer_pool__destroy` that gives up the queued buffers. */
    method FreeQueue(p: nat)
      requires p in pools && NoDup(pools[p].queue)
      requires forall b :: b in pools[p].queue ==> b in buffers && buffers[b].ref == 1 && buffers[b].subject == None
      modifies this
      ensures frames == old(frames)
      ensures buffers == Without(old(buffers), old(pools)[p].queue)
      ensures pools == old(pools)[p := old(pools)[p].(queue := [])]
      ensures log == old(log).(freed := old(log).freed + old(pools)[p].queue)
    {
      ghost var all := pools[p].queue;
      ghost var i := 0;
      assert all[..0] == [] && Without(buffers, []) == buffers;
      while pools[p].queue != []
        invariant i <= |all| && frames == old(frames)
        invariant pools == old(pools)[p := old(pools)[p].(queue := all[i..])]
        invariant buffers == Without(old(buffers), all[..i])
        invariant log == old(log).(freed := old(log).freed + all[..i])
        decreases |all| - i
      {
        var b := pools[p].queue[0];
        assert b == all[i] && all[i] in all && b !in all[..i];
        WithoutSnoc(old(buffers), all[..i], b);
        assert all[..i + 1] == all[..i] + [b];
        pools := pools[p := pools[p].(queue := pools[p].queue[1..])];
        BufferUnref(b);
        i := i + 1;
      }
      assert all[..i] == all && all[i..] == [];
    }

    /** `nvnc_buffer_pool__destroy` */
    method PoolDestroy(p: nat)
      requires Inv(View()) && p in pools
      modifies this
      ensures View() == Destroy(old(View()), p)
    {
      ghost var s := View();
      assert PoolOk(s, p);
      QueuedObservesNothing(s);
      QueuedHaveOneReference(s, p);
      EmptiedIsDestroyed(s, p);
      SubjectDeinit(p);
      FreeQueue(p);
      pools := pools - {p};
      assert pools == s.pools - {p};
    }

    /** `nvnc_buffer_pool_unref` */
    method PoolUnref(p: nat)
      requires Inv(View()) && p in pools
      modifies this
      ensures View() == UnrefPool(old(View()), p)
    {
      assert PoolOk(View(), p);
      if pools[p].ref != 1 {
        pools := pools[p := pools[p].(ref := pools[p].ref - 1)];
        return;
      }
      PoolDestroy(p);
    }

    /** `nvnc_buffer_pool_new` */
    method PoolNew(owner: Option<nat>) returns (p: nat)
      modifies this
      ensures p == old(log).pools && View() == MakePool(old(View()), owner)
    {
      p := log.pools;
      pools := pools[p := Pool(1, [], [], owner)];
      log := log.(pools := p + 1);
    }

    /** `nvnc_buffer_pool__acquire_new` */
    method PoolAcquireNew(p: nat, made: Option<Params>) returns (b: nat)
      requires p in pools
      modifies this
      ensures View() == AcquireNew(old(View()), p, made) && b == |old(log).held|
    {
      b := |log.held|;
      buffers := buffers[b := Buffer(1, None, None, made)];
      ObserverInit(b, p);
      log := log.(held := log.held + [1]);
    }

    /** `nvnc_buffer_pool__acquire_from_queue` */
    method PoolAcquireFromQueue(p: nat) returns (b: nat)
      requires p in pools && pools[p].queue != [] && pools[p].queue[0] in buffers && pools[p].queue[0] < |log.held|
      modifies this
      ensures View() == AcquireFromQueue(old(View()), p) && b == old(pools)[p].queue[0]
    {
      b := pools[p].queue[0];
      pools := pools[p := pools[p].(queue := pools[p].queue[1..])];
      buffers := buffers[b := buffers[b].(queued := None)];
      ObserverInit(b, p);
      log := log.(held := log.held[b := log.held[b] + 1]);
    }

    /** `nvnc_buffer_pool_acquire`; `made` says what the allocator makes buffers for. */
    method PoolAcquire(p: nat, made: Option<Params>) returns (b: nat)
      requires Inv(View()) && Fits(View(), p, made)
      modifies this
      ensures Inv(View()) && View() == Acquire(old(View()), p, made)
      ensures b == Handed(old(View()), p)
    {
      AcquireKeeps(View(), p, made);
      if pools[p].queue == [] {
        b := PoolAcquireNew(p, made);
      } else {
        QueuedIsLive(View(), p);
        b := PoolAcquireFromQueue(p);
      }
    }

    /** `nvnc_frame_pool_new` */
    method FramePoolNew(params: Params) returns (f: nat)
      requires Inv(View())
      modifies this
      ensures Inv(View()) && f in frames && View() == MakeFramePool(old(View()), params)
    {
      MakeFramePoolKeeps(View(), params);
      f := log.frames;
      var p := PoolNew(Some(f));
      frames := frames[f := FramePool(1, p, params)];
      log := log.(frames := f + 1);
    }

    /** `nvnc_frame_pool_resize` */
    method FramePoolResize(f: nat, params: Params) returns (changed: bool)
      requires Inv(View()) && f in frames
      modifies this
      ensures FrameOk(old(View()), f) && View() == Resize(old(View()), f, params) && Inv(View())
      ensures changed == (old(frames)[f].params != params)
    {
      ResizeKeeps(View(), f, params);
      var fp := frames[f];
      if params.width == fp.params.width && params.height == fp.params.height && params.format == fp.params.format
        && params.stride == fp.params.stride && params.pixelSize == fp.params.pixelSize
      {
        return false;
      }
      PoolUnref(fp.pool);
      var p := PoolNew(Some(f));
      frames := frames[f := fp.(pool := p, params := params)];
      return true;
    }

    /** `nvnc_frame_pool_unref` */
    method FramePoolUnref(f: nat)
      requires Inv(View()) && f in frames
      modifies this
      ensures View() == Next(old(View()), DropFramePool(f)) && Inv(View())
    {
      NextKeeps(View(), DropFramePool(f));
      assert FrameOk(View(), f);
      if frames[f].ref == 1 {
        PoolUnref(frames[f].pool);
        frames := frames - {f};
      } else {
        frames := frames[f := frames[f].(ref := frames[f].ref - 1)];
      }
    }

    /** `nvnc_frame_pool_acquire`: the buffer behind the frame. */
    method FramePoolAcquire(f: nat) returns (b: nat, params: Params)
      requires Inv(View()) && f in frames
      modifies this
      ensures Inv(View()) && View() == Next(old(View()), AcquireFrame(f))
      ensures b in buffers && params == frames[f].params && buffers[b].made == Some(params)
    {
      FrameFitsNow(View(), f);
      params := frames[f].params;
      b := PoolAcquire(frames[f].pool, Some(params));
    }
  }

  lemma QueuedHaveOneReference(s: State, p: nat)
    requires Inv(s) && p in s.pools
    ensures forall b :: b in s.pools[p].queue ==>
      b in s.buffers && s.buffers[b].ref == 1 && s.buffers[b].subject == None && b !in s.pools[p].observers
  {
    assert PoolOk(s, p);
    forall b | b in s.pools[p].queue
      ensures b in s.buffers && s.buffers[b].ref == 1 && s.buffers[b].subject == None
    {
      assert Tracked(s, b);
    }
  }
}
