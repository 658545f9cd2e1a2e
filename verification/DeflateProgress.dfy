/** Feeding and syncing always come to an end, and cut the input where they should. */
module DeflateProgress {
  import opened Common
  import opened ParallelDeflate

  /** Section 2.2 of RFC 1950: deflate, a window of at most 32 KiB, no dictionary, a valid check. */
  lemma HeaderOpensAZlibStream()
    ensures |HEADER| == 2 && HEADER[0] % 16 == 8 && HEADER[0] / 16 <= 7
    ensures (HEADER[0] as int * 256 + HEADER[1]) % 31 == 0 && (HEADER[1] / 32) % 2 == 0
  {
  }

  lemma {:induction false} Extend(z: Zlib, es: seq<Event>, s: State, e: Event) returns (t: State)
    requires After(z, es) == Some(s) && Enabled(s, e)
    ensures t == Next(z, s, e) && After(z, es + [e]) == Some(t)
    ensures FedBytes(es + [e]) == if e.Feed? then FedBytes(es) + e.data else FedBytes(es)
  {
    assert (es + [e])[..|es|] == es;
    t := Next(z, s, e);
  }

  // ---------------------------------------------------------------- where the input is cut

  /** Every block has 131072 bytes, but for a shorter, non-empty one that is the last before a flush. */
  ghost predicate CutAt(log: seq<Option<seq<Byte>>>, caller: Caller, i: nat)
    requires i < |log|
  {
    log[i].Some? ==>
      && 0 < |log[i].value| <= 131072
      && (|log[i].value| < 131072 ==> if i + 1 < |log| then log[i + 1].None? else caller.Syncing?)
  }

  lemma {:induction false} BlocksAreFull(z: Zlib, es: seq<Event>, i: nat)
    requires After(z, es).Some? && i < |After(z, es).value.log|
    ensures CutAt(After(z, es).value.log, After(z, es).value.caller, i)
    decreases |es|
  {
    var front, e := es[..|es| - 1], es[|es| - 1];
    var s := After(z, front).value;
    RunsKeepInv(z, front);
    LogGrows(z, s, e);
    if i < |s.log| {
      BlocksAreFull(z, front, i);
    }
  }

  lemma {:induction false} LogGrows(z: Zlib, s: State, e: Event)
    requires Inv(z, s) && Enabled(s, e)
    ensures var t := Next(z, s, e);
      match e
      case ScheduleBlock => t.log == s.log + [Some(s.input[..131072])] && t.caller == s.caller == Feeding
      case SyncTail => t.log == s.log + (if s.input == [] then [] else [Some(s.input)]) && |s.input| < 131072
        && s.caller == Idle && t.caller == Syncing
      case InsertEnd => t.log == s.log + [None] && s.caller == Syncing
      case JobDone(_) => t.log == s.log && t.caller == s.caller
      case _ => t.log == s.log && s.caller != Syncing
  {
    if e.Consolidate? {
      DrainProperties(z, s);
    }
  }

  // ---------------------------------------------------------------- feeding

  function Blocks131072(n: nat): seq<Event> { seq(n, i => ScheduleBlock) }

  /** A feed ends after one job for every 131072 bytes at hand, and leaves what is over. */
  lemma {:induction false} FeedReturns(z: Zlib, es: seq<Event>, data: seq<Byte>) returns (t: State)
    requires After(z, es).Some? && After(z, es).value.caller.Idle?
    ensures var s := After(z, es).value; var n := |s.input + data| / 131072;
      && After(z, es + [Feed(data)] + Blocks131072(n) + [EndFeed]) == Some(t)
      && t.caller.Idle? && t.seqno == s.seqno + n && t.input == (s.input + data)[n * 131072..]
      && |t.input| < 131072
      && FedBytes(es + [Feed(data)] + Blocks131072(n) + [EndFeed]) == FedBytes(es) + data
  {
    var s := After(z, es).value;
    var u := Extend(z, es, s, Feed(data));
    var n := |u.input| / 131072;
    var v := BlocksAreScheduled(z, es + [Feed(data)], u, n);
    t := Extend(z, es + [Feed(data)] + Blocks131072(n), v, EndFeed);
  }

  lemma {:induction false} BlocksAreScheduled(z: Zlib, es: seq<Event>, s: State, n: nat) returns (t: State)
    requires After(z, es) == Some(s) && s.caller.Feeding? && n * 131072 <= |s.input|
    ensures After(z, es + Blocks131072(n)) == Some(t) && FedBytes(es + Blocks131072(n)) == FedBytes(es)
    ensures t.caller.Feeding? && t.seqno == s.seqno + n && t.input == s.input[n * 131072..]
    decreases n, z
  {
    if n == 0 {
      t := s;
      assert es + Blocks131072(0) == es;
    } else {
      var u := BlocksAreScheduled(z, es, s, n - 1);
      assert s.input[(n - 1) * 131072..][131072..] == s.input[n * 131072..];
      t := Extend(z, es + Blocks131072(n - 1), u, ScheduleBlock);
      assert es + Blocks131072(n - 1) + [ScheduleBlock] == es + Blocks131072(n);
    }
  }

  // ---------------------------------------------------------------- syncing

  /** The jobs with these numbers end, in this order. */
  function Ends(order: seq<nat>): (es: seq<Event>)
    ensures |es| == |order|
  {
    if order == [] then [] else Ends(order[..|order| - 1]) + [JobDone(order[|order| - 1])]
  }

  /** The order names each of the jobs once. */
  ghost predicate IsOrderOf(order: seq<nat>, jobs: set<nat>) {
    && (forall i, j :: 0 <= i < j < |order| ==> order[i] != order[j])
    && (forall k :: k in jobs <==> k in order)
  }

  lemma {:induction false} JobsEnd(z: Zlib, es: seq<Event>, s: State, order: seq<nat>, jobs: set<nat>)
      returns (t: State)
    requires After(z, es) == Some(s) && IsOrderOf(order, jobs) && jobs <= s.jobs.Keys
    ensures After(z, es + Ends(order)) == Some(t) && FedBytes(es + Ends(order)) == FedBytes(es)
    ensures t.caller == s.caller && t.jobs.Keys == s.jobs.Keys - jobs
    decreases |order|
  {
    if order == [] {
      t := s;
      assert es + Ends(order) == es;
      assert jobs == {};
    } else {
      var front, last := order[..|order| - 1], order[|order| - 1];
      assert order == front + [last];
      var u := JobsEnd(z, es, s, front, jobs - {last});
      t := Extend(z, es + Ends(front), u, JobDone(last));
      assert es + Ends(front) + [JobDone(last)] == es + Ends(order);
    }
  }

  /** A flush that waits ends as soon as the outstanding jobs have, in whatever order. */
  lemma {:induction false} FlushReturns(z: Zlib, es: seq<Event>, order: seq<nat>) returns (t: State)
    requires After(z, es).Some? && After(z, es).value.caller.Flushing?
    requires IsOrderOf(order, After(z, es).value.jobs.Keys)
    ensures After(z, es + Ends(order) + [Consolidate]) == Some(t) && t.caller.Idle?
    ensures FedBytes(es + Ends(order)) == FedBytes(es)
  {
    var s := After(z, es).value;
    var u := JobsEnd(z, es, s, order, s.jobs.Keys);
    FlushEndsWhenJobsAreDone(z, es + Ends(order));
    t := Extend(z, es + Ends(order), u, Consolidate);
  }

  /**
    Between feeds a sync always comes through: the rest of the input is scheduled, the end
    chunk enters the list, and once the outstanding jobs have ended, in whatever order, the
    next wake-up leaves an output that inflates to all that was fed.
   */
  lemma {:induction false} SyncReturns(z: Zlib, es: seq<Event>) returns (s: State)
    requires InflatesBlockwise(z)
    requires After(z, es).Some? && After(z, es).value.caller.Idle?
    ensures After(z, es + [SyncTail] + [InsertEnd]) == Some(s) && s.caller.Flushing?
    ensures forall order :: IsOrderOf(order, s.jobs.Keys) ==>
      var run := After(z, es + [SyncTail] + [InsertEnd] + Ends(order) + [Consolidate]);
      run.Some? && run.value.caller.Idle? && z.inflate(run.value.out) == Some(FedBytes(es))
  {
    var u := Extend(z, es, After(z, es).value, SyncTail);
    s := Extend(z, es + [SyncTail], u, InsertEnd);
    var begun := es + [SyncTail] + [InsertEnd];
    forall order | IsOrderOf(order, s.jobs.Keys)
      ensures var run := After(z, begun + Ends(order) + [Consolidate]);
        run.Some? && run.value.caller.Idle? && z.inflate(run.value.out) == Some(FedBytes(es))
    {
      var t := FlushReturns(z, begun, order);
      SyncedOutputInflates(z, begun + Ends(order));
    }
  }
}
