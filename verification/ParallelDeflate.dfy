/**
  The multi-threaded compressor: blocks of input are deflated by jobs that finish in any
  order, and a list of finished chunks, sorted by sequence number, puts them back in line.
 */
module ParallelDeflate {
  import opened Common

  /** 128 KiB of input make one job. */
  const INPUT_BLOCK_SIZE: nat := 131072

  /** The two bytes that open a zlib stream. */
  const HEADER: seq<Byte> := [0x78, 0x01]

  /** zlib, seen from outside: raw deflate with a sync flush, and a zlib decompressor. */
  datatype Zlib = Zlib(deflate: seq<Byte> -> seq<Byte>, inflate: seq<Byte> -> Option<seq<Byte>>)

  function Compress(z: Zlib, blocks: seq<seq<Byte>>): (cs: seq<seq<Byte>>)
    ensures |cs| == |blocks|
  {
    seq(|blocks|, i requires 0 <= i < |blocks| => z.deflate(blocks[i]))
  }

  /** What zlib promises: independently flushed blocks inflate, one after the other. */
  ghost predicate InflatesBlockwise(z: Zlib) {
    forall blocks: seq<seq<Byte>> {:trigger Compress(z, blocks)} ::
      z.inflate(HEADER + Concat(Compress(z, blocks))) == Some(Concat(blocks))
  }

  // ---------------------------------------------------------------- state

  /** A finished chunk; the chunk that ends a flush carries no data. */
  datatype Chunk = Chunk(seqno: nat, data: Option<seq<Byte>>)

  /** Where the thread that calls feed and sync stands. */
  datatype Caller = Idle | Feeding | Syncing | Flushing

  /**
    `jobs` are the scheduled, unfinished jobs. `log` (what each sequence number stands
    for) and `fed` (all bytes ever fed) record history and influence nothing.
   */
  datatype State = State(
    input: seq<Byte>, seqno: nat, startSeq: nat, isAtStart: bool, chunks: seq<Chunk>,
    jobs: map<nat, seq<Byte>>, out: seq<Byte>, caller: Caller,
    log: seq<Option<seq<Byte>>>, fed: seq<Byte>)

  function Init(): State {
    State([], 0, 0, true, [], map[], [], Idle, [], [])
  }

  // ---------------------------------------------------------------- atomic sections

  function Schedule(s: State, block: seq<Byte>): State {
    s.(seqno := s.seqno + 1, jobs := s.jobs[s.seqno := block], log := s.log + [Some(block)])
  }

  /** Sorted insertion, searching from the tail. */
  function Insert(chunks: seq<Chunk>, c: Chunk): seq<Chunk> {
    if chunks == [] || chunks[|chunks| - 1].seqno <= c.seqno then chunks + [c]
    else Insert(chunks[..|chunks| - 1], c) + [chunks[|chunks| - 1]]
  }

  predicate HeadIsNext(s: State) {
    s.chunks != [] && s.chunks[0].seqno == s.startSeq
  }

  /** The first chunk leaves the list and its bytes enter the output. */
  function Pop(s: State): State
    requires HeadIsNext(s)
  {
    var head := if s.isAtStart then HEADER else [];
    var data := match s.chunks[0].data case None => [] case Some(d) => d;
    s.(startSeq := s.startSeq + 1, chunks := s.chunks[1..], isAtStart := false, out := s.out + head + data)
  }

  /** Everything that is next in line leaves; also says whether an end chunk was among it. */
  function Drain(s: State): (State, bool)
    decreases |s.chunks|
  {
    if HeadIsNext(s) then
      var (t, end) := Drain(Pop(s));
      (t, end || s.chunks[0].data.None?)
    else (s, false)
  }

  datatype Event =
    | Feed(data: seq<Byte>)   // append the data to the input
    | ScheduleBlock           // one full block becomes a job
    | EndFeed                 // less than a block is left
    | SyncTail                // the remainder, if any, becomes a job
    | InsertEnd               // the end chunk enters the list
    | Consolidate             // the waiting caller wakes up and drains the list
    | JobDone(k: nat)         // a worker finishes job k

  predicate Enabled(s: State, e: Event) {
    match e
    case Feed(_) => s.caller.Idle?
    case ScheduleBlock => s.caller.Feeding? && |s.input| >= INPUT_BLOCK_SIZE
    case EndFeed => s.caller.Feeding? && |s.input| < INPUT_BLOCK_SIZE
    case SyncTail => s.caller.Idle?
    case InsertEnd => s.caller.Syncing?
    case Consolidate => s.caller.Flushing?
    case JobDone(k) => k in s.jobs
  }

  function Next(z: Zlib, s: State, e: Event): State
    requires Enabled(s, e)
  {
    match e
    case Feed(data) => s.(input := s.input + data, fed := s.fed + data, caller := Feeding)
    case ScheduleBlock =>
      Schedule(s, s.input[..INPUT_BLOCK_SIZE]).(input := s.input[INPUT_BLOCK_SIZE..])
    case EndFeed => s.(caller := Idle)
    case SyncTail =>
      (if s.input == [] then s else Schedule(s, s.input).(input := [])).(caller := Syncing)
    case InsertEnd =>
      s.(seqno := s.seqno + 1, chunks := Insert(s.chunks, Chunk(s.seqno, None)),
         log := s.log + [None], caller := Flushing)
    case Consolidate =>
      var (t, end) := Drain(s);
      t.(caller := if end then Idle else Flushing)
    case JobDone(k) =>
      s.(chunks := Insert(s.chunks, Chunk(k, Some(z.deflate(s.jobs[k])))), jobs := s.jobs - {k})
  }

  /** A run is a list of events, one list for every interleaving of the caller with its jobs. */
  function After(z: Zlib, es: seq<Event>): Option<State> {
    if es == [] then Some(Init())
    else
      match After(z, es[..|es| - 1])
      case None => None
      case Some(r) =>
        if Enabled(r, es[|es| - 1]) then Some(Next(z, r, es[|es| - 1])) else None
  }

  function FedBytes(es: seq<Event>): seq<Byte> {
    if es == [] then []
    else FedBytes(es[..|es| - 1]) + match es[|es| - 1] case Feed(data) => data case _ => []
  }

  // ---------------------------------------------------------------- invariant

  /** The blocks recorded in a log, end markers left out. */
  function Blocks(log: seq<Option<seq<Byte>>>): seq<seq<Byte>> {
    if log == [] then []
    else Blocks(log[..|log| - 1]) + match log[|log| - 1] case None => [] case Some(b) => [b]
  }

  /** The one output that the log allows. */
  function Linear(z: Zlib, log: seq<Option<seq<Byte>>>): seq<Byte> {
    if log == [] then [] else HEADER + Concat(Compress(z, Blocks(log)))
  }

  function Finished(z: Zlib, entry: Option<seq<Byte>>): Option<seq<Byte>> {
    match entry case None => None case Some(b) => Some(z.deflate(b))
  }

  ghost predicate Sorted(chunks: seq<Chunk>) {
    forall i, j :: 0 <= i < j < |chunks| ==> chunks[i].seqno < chunks[j].seqno
  }

  predicate InList(chunks: seq<Chunk>, k: nat) {
    exists i :: 0 <= i < |chunks| && chunks[i].seqno == k
  }

  /** Every pending sequence number is with a job or in the list, and with the right content. */
  ghost predicate Tracked(z: Zlib, s: State) {
    && |s.log| == s.seqno && s.startSeq <= s.seqno
    && Sorted(s.chunks)
    && (forall c :: c in s.chunks ==>
          s.startSeq <= c.seqno < s.seqno && c.data == Finished(z, s.log[c.seqno]) && c.seqno !in s.jobs)
    && (forall k :: k in s.jobs ==> s.startSeq <= k < s.seqno && s.log[k] == Some(s.jobs[k]))
    && (forall k :: s.startSeq <= k < s.seqno ==> k in s.jobs || InList(s.chunks, k))
  }

  /** The end chunk of the flush under way is the only one pending, and the last. */
  ghost predicate EndIsLast(s: State)
    requires |s.log| == s.seqno
  {
    forall k :: s.startSeq <= k < s.seqno ==> (s.log[k].None? <==> s.caller.Flushing? && k == s.seqno - 1)
  }

  ghost predicate Inv(z: Zlib, s: State) {
    && Tracked(z, s)
    && EndIsLast(s)
    && (s.caller.Flushing? ==> s.startSeq < s.seqno)
    && (s.isAtStart <==> s.startSeq == 0)
    && s.out == Linear(z, s.log[..s.startSeq])
    && s.fed == Concat(Blocks(s.log)) + s.input
    && (s.caller.Idle? ==> |s.input| < INPUT_BLOCK_SIZE)
    && (s.caller.Syncing? || s.caller.Flushing? ==> s.input == [])
  }

  lemma {:induction false} InsertProperties(chunks: seq<Chunk>, c: Chunk)
    requires Sorted(chunks) && !InList(chunks, c.seqno)
    ensures Sorted(Insert(chunks, c))
    ensures forall x :: x in Insert(chunks, c) <==> x == c || x in chunks
    ensures forall k: nat :: InList(Insert(chunks, c), k) <==> k == c.seqno || InList(chunks, k)
    decreases |chunks|
  {
    var r := Insert(chunks, c);
    if chunks == [] || chunks[|chunks| - 1].seqno <= c.seqno {
      InsertAtEnd(chunks, c);
    } else {
      var last := chunks[|chunks| - 1];
      var front := chunks[..|chunks| - 1];
      assert chunks == front + [last];
      InsertProperties(front, c);
      var f := Insert(front, c);
      assert r == f + [last];
      forall x | x in f ensures x.seqno < last.seqno {
        if x in front {
          var i :| 0 <= i < |front| && front[i] == x;
          assert chunks[i] == x;
        }
      }
      InsertMembers(r);
      InsertMembers(chunks);
    }
  }

  lemma InsertMembers(chunks: seq<Chunk>)
    ensures forall k: nat :: InList(chunks, k) <==> exists c :: c in chunks && c.seqno == k
  {
    forall k: nat
      ensures InList(chunks, k) <==> exists c :: c in chunks && c.seqno == k
    {
      if InList(chunks, k) {
        var i :| 0 <= i < |chunks| && chunks[i].seqno == k;
        assert chunks[i] in chunks;
      }
    }
  }

  lemma InsertAtEnd(chunks: seq<Chunk>, c: Chunk)
    requires Sorted(chunks) && !InList(chunks, c.seqno)
    requires chunks != [] ==> chunks[|chunks| - 1].seqno <= c.seqno
    ensures Sorted(chunks + [c])
    ensures forall k: nat :: InList(chunks + [c], k) <==> k == c.seqno || InList(chunks, k)
  {
    InsertMembers(chunks + [c]);
    InsertMembers(chunks);
  }

  lemma BlocksSnoc(log: seq<Option<seq<Byte>>>, e: Option<seq<Byte>>)
    ensures Blocks(log + [e]) == Blocks(log) + match e case None => [] case Some(b) => [b]
  {
    assert (log + [e])[..|log|] == log;
  }

  // ---------------------------------------------------------------- every step keeps the invariant

  lemma ScheduleKeepsTracked(z: Zlib, s: State, block: seq<Byte>)
    requires Tracked(z, s)
    ensures Tracked(z, Schedule(s, block))
    ensures Blocks(Schedule(s, block).log) == Blocks(s.log) + [block]
    ensures forall k :: 0 <= k < s.seqno ==> Schedule(s, block).log[k] == s.log[k]
  {
    BlocksSnoc(s.log, Some(block));
  }

  lemma FinishedKeepsTracked(z: Zlib, s: State, k: nat)
    requires Tracked(z, s) && k in s.jobs
    ensures Tracked(z, Next(z, s, JobDone(k)))
  {
    var c := Chunk(k, Some(z.deflate(s.jobs[k])));
    InsertMembers(s.chunks);
    InsertProperties(s.chunks, c);
  }

  lemma EndKeepsTracked(z: Zlib, s: State)
    requires Tracked(z, s) && s.caller.Syncing?
    ensures Tracked(z, Next(z, s, InsertEnd))
  {
    var c := Chunk(s.seqno, None);
    InsertMembers(s.chunks);
    InsertProperties(s.chunks, c);
  }

  /** What is pending behind the head stays pending. */
  lemma PopKeepsPending(z: Zlib, s: State, k: nat)
    requires Tracked(z, s) && HeadIsNext(s) && s.startSeq < k < s.seqno
    ensures k in s.jobs || InList(s.chunks[1..], k)
  {
    if k !in s.jobs {
      var i :| 0 <= i < |s.chunks| && s.chunks[i].seqno == k;
      assert s.chunks[1..][i - 1].seqno == k;
    }
  }

  lemma {:induction false} PopKeepsTracked(z: Zlib, s: State)
    requires Tracked(z, s) && HeadIsNext(s)
    ensures Tracked(z, Pop(s))
  {
    var t := Pop(s);
    forall k | t.startSeq <= k < t.seqno ensures k in t.jobs || InList(t.chunks, k) {
      PopKeepsPending(z, s, k);
    }
  }

  /** One more entry appends its compressed form, after the header if it is the first. */
  lemma {:induction false} LinearSnoc(z: Zlib, before: seq<Option<seq<Byte>>>, entry: Option<seq<Byte>>)
    ensures Linear(z, before + [entry])
      == (if before == [] then HEADER else Linear(z, before)) + (if entry.Some? then z.deflate(entry.value) else [])
  {
    BlocksSnoc(before, entry);
    assert Compress(z, Blocks([])) == [];
    if entry.Some? {
      var b := entry.value;
      assert Compress(z, Blocks(before) + [b]) == Compress(z, Blocks(before)) + [z.deflate(b)];
      ConcatSnoc(Compress(z, Blocks(before)), z.deflate(b));
      Assoc(HEADER, Concat(Compress(z, Blocks(before))), z.deflate(b));
    } else {
      assert Blocks(before + [entry]) == Blocks(before);
    }
  }

  lemma PopKeepsOutput(z: Zlib, s: State)
    requires Tracked(z, s) && HeadIsNext(s)
    requires s.isAtStart <==> s.startSeq == 0
    requires s.out == Linear(z, s.log[..s.startSeq])
    ensures Pop(s).out == Linear(z, s.log[..s.startSeq + 1])
  {
    var k := s.startSeq;
    assert s.chunks[0] in s.chunks;
    assert s.log[..k + 1] == s.log[..k] + [s.log[k]];
    LinearSnoc(z, s.log[..k], s.log[k]);
  }

  /** Draining loses no chunk, and stops short of the end only while a job is outstanding. */
  lemma {:induction false} DrainProperties(z: Zlib, s: State)
    requires Tracked(z, s) && EndIsLast(s)
    requires s.isAtStart <==> s.startSeq == 0
    requires s.out == Linear(z, s.log[..s.startSeq])
    ensures var (t, end) := Drain(s);
      && Tracked(z, t) && EndIsLast(t)
      && (t.isAtStart <==> t.startSeq == 0)
      && t.out == Linear(z, t.log[..t.startSeq])
      && t == s.(startSeq := t.startSeq, isAtStart := t.isAtStart, chunks := t.chunks, out := t.out)
      && !HeadIsNext(t)
      && (end <==> s.caller.Flushing? && s.startSeq < s.seqno && t.startSeq == s.seqno)
    decreases |s.chunks|
  {
    if HeadIsNext(s) {
      PopKeepsTracked(z, s);
      PopKeepsOutput(z, s);
      assert s.chunks[0] in s.chunks;
      DrainProperties(z, Pop(s));
    }
  }

  lemma FeedKeepsInv(z: Zlib, s: State, data: seq<Byte>)
    requires Inv(z, s) && s.caller.Idle?
    ensures Inv(z, Next(z, s, Feed(data)))
  {
    var t := Next(z, s, Feed(data));
    assert t.fed == Concat(Blocks(s.log)) + (s.input + data);
  }

  lemma ScheduleKeepsInv(z: Zlib, s: State, block: seq<Byte>, rest: seq<Byte>)
    requires Inv(z, s) && (s.caller.Feeding? || s.caller.Idle?)
    requires s.input == block + rest
    requires s.caller.Idle? ==> |rest| < INPUT_BLOCK_SIZE
    ensures Inv(z, Schedule(s, block).(input := rest))
  {
    var t := Schedule(s, block).(input := rest);
    assert Tracked(z, t) by {
      ScheduleKeepsTracked(z, s, block);
    }
    assert t.fed == Concat(Blocks(t.log)) + t.input by {
      BlocksSnoc(s.log, Some(block));
      ConcatSnoc(Blocks(s.log), block);
      assert Concat(Blocks(s.log)) + (block + rest) == (Concat(Blocks(s.log)) + block) + rest;
    }
    assert t.log[..t.startSeq] == s.log[..s.startSeq];
  }

  lemma {:induction false} InsertEndKeepsInv(z: Zlib, s: State)
    requires Inv(z, s) && s.caller.Syncing?
    ensures Inv(z, Next(z, s, InsertEnd))
  {
    var t := Next(z, s, InsertEnd);
    EndKeepsTracked(z, s);
    assert Blocks(t.log) == Blocks(s.log) by {
      BlocksSnoc(s.log, None);
      assert Blocks(s.log) + [] == Blocks(s.log);
    }
    assert t.log[..t.startSeq] == s.log[..s.startSeq];
  }

  lemma ConsolidateKeepsInv(z: Zlib, s: State)
    requires Inv(z, s) && s.caller.Flushing?
    ensures Inv(z, Next(z, s, Consolidate))
  {
    DrainProperties(z, s);
  }

  lemma JobDoneKeepsInv(z: Zlib, s: State, k: nat)
    requires Inv(z, s) && k in s.jobs
    ensures Inv(z, Next(z, s, JobDone(k)))
  {
    FinishedKeepsTracked(z, s, k);
  }

  lemma StepKeepsInv(z: Zlib, s: State, e: Event)
    requires Inv(z, s) && Enabled(s, e)
    ensures Inv(z, Next(z, s, e))
  {
    match e
    case Feed(data) => FeedKeepsInv(z, s, data);
    case ScheduleBlock =>
      ScheduleKeepsInv(z, s, s.input[..INPUT_BLOCK_SIZE], s.input[INPUT_BLOCK_SIZE..]);
    case EndFeed =>
    case SyncTail =>
      if s.input != [] {
        ScheduleKeepsInv(z, s, s.input, []);
      }
    case InsertEnd => InsertEndKeepsInv(z, s);
    case Consolidate => ConsolidateKeepsInv(z, s);
    case JobDone(k) => JobDoneKeepsInv(z, s, k);
  }

  // ---------------------------------------------------------------- results over all runs

  /** In every run the output is, at every moment, what one thread would have produced in feed order. */
  lemma {:induction false} RunsKeepInv(z: Zlib, es: seq<Event>)
    requires After(z, es).Some?
    ensures Inv(z, After(z, es).value)
    ensures After(z, es).value.fed == FedBytes(es)
    decreases |es|
  {
    if es == [] {
    } else {
      var front, e := es[..|es| - 1], es[|es| - 1];
      RunsKeepInv(z, front);
      StepKeepsInv(z, After(z, front).value, e);
      if e.Consolidate? {
        DrainProperties(z, After(z, front).value);
      }
    }
  }

  lemma HeadInRange(z: Zlib, s: State)
    requires Tracked(z, s) && s.chunks != []
    ensures s.startSeq < s.seqno
  {
    assert s.chunks[0] in s.chunks;
  }

  lemma NothingPending(z: Zlib, s: State)
    requires Inv(z, s) && s.startSeq == s.seqno > 0 && s.input == []
    ensures s.chunks == [] && s.jobs == map[]
    ensures s.out == HEADER + Concat(Compress(z, Blocks(s.log))) && s.fed == Concat(Blocks(s.log))
  {
    assert s.log[..s.startSeq] == s.log;
    if s.chunks != [] {
      HeadInRange(z, s);
      assert false;
    }
  }

  lemma FinishedFlush(z: Zlib, s: State)
    requires Inv(z, s) && s.caller.Flushing? && Next(z, s, Consolidate).caller.Idle?
    ensures var t := Next(z, s, Consolidate);
      t.startSeq == t.seqno > 0 && t.input == [] && t.fed == s.fed
  {
    DrainProperties(z, s);
  }

  /**
    When a sync returns, nothing is left behind and the whole output inflates to exactly
    the bytes fed so far, whatever the order in which the jobs finished.
   */
  lemma SyncedOutputInflates(z: Zlib, es: seq<Event>)
    requires InflatesBlockwise(z)
    requires After(z, es + [Consolidate]).Some? && After(z, es + [Consolidate]).value.caller.Idle?
    ensures var s := After(z, es + [Consolidate]).value;
      && s.input == [] && s.chunks == [] && s.jobs == map[] && s.startSeq == s.seqno
      && HEADER <= s.out
      && z.inflate(s.out) == Some(FedBytes(es))
  {
    var run := es + [Consolidate];
    assert run[..|run| - 1] == es;
    RunsKeepInv(z, es);
    FinishedFlush(z, After(z, es).value);
    RunsKeepInv(z, run);
    NothingPending(z, After(z, run).value);
  }

  /** A flush never waits for nothing: with no job outstanding the next wake-up ends it. */
  lemma FlushEndsWhenJobsAreDone(z: Zlib, es: seq<Event>)
    requires After(z, es).Some?
    requires After(z, es).value.caller.Flushing? && After(z, es).value.jobs == map[]
    ensures Next(z, After(z, es).value, Consolidate).caller.Idle?
  {
    RunsKeepInv(z, es);
    var s := After(z, es).value;
    DrainProperties(z, s);
    if Drain(s).0.startSeq < s.seqno {
      PendingHeadIsNext(z, Drain(s).0);
    }
  }

  lemma PendingHeadIsNext(z: Zlib, s: State)
    requires Tracked(z, s) && s.startSeq < s.seqno && s.startSeq !in s.jobs
    ensures HeadIsNext(s)
  {
    assert InList(s.chunks, s.startSeq);
    assert s.chunks[0] in s.chunks;
  }

  // ---------------------------------------------------------------- the object

  /** An uninterrupted feed: all full blocks are scheduled, then the caller goes on. */
  function ScheduleAll(s: State): State
    requires s.caller.Feeding?
    decreases |s.input|
  {
    if |s.input| >= INPUT_BLOCK_SIZE
    then ScheduleAll(Schedule(s, s.input[..INPUT_BLOCK_SIZE]).(input := s.input[INPUT_BLOCK_SIZE..]))
    else s.(caller := Idle)
  }

  lemma {:induction false} FeedIsARun(z: Zlib, s: State, es: seq<Event>) returns (more: seq<Event>)
    requires After(z, es) == Some(s) && s.caller.Feeding?
    ensures After(z, es + more) == Some(ScheduleAll(s)) && FedBytes(es + more) == FedBytes(es)
    decreases |s.input|
  {
    var e := if |s.input| >= INPUT_BLOCK_SIZE then ScheduleBlock else EndFeed;
    var run := es + [e];
    assert run[..|run| - 1] == es;
    if e.EndFeed? {
      more := [e];
    } else {
      var rest := FeedIsARun(z, Next(z, s, e), run);
      more := [e] + rest;
      assert es + more == run + rest;
    }
  }

  class Compressor {
    const z: Zlib
    var input: seq<Byte>
    var seqno: nat
    var startSeq: nat
    var isAtStart: bool
    var chunks: seq<Chunk>
    var jobs: map<nat, seq<Byte>>
    var out: seq<Byte>
    ghost var caller: Caller
    ghost var log: seq<Option<seq<Byte>>>
    ghost var fed: seq<Byte>

    ghost function View(): State
      reads this
    {
      State(input, seqno, startSeq, isAtStart, chunks, jobs, out, caller, log, fed)
    }

    constructor (z: Zlib)
      ensures View() == Init() && this.z == z
    {
      this.z := z;
      input, seqno, startSeq, isAtStart, chunks := [], 0, 0, true, [];
      jobs, out, caller, log, fed := map[], [], Idle, [], [];
    }

    method InsertOutputChunk(chunk: Chunk)
      modifies this`chunks
      ensures chunks == Insert(old(chunks), chunk)
    {
      var end := |chunks|;
      assert chunks[..end] == chunks;
      while end > 0 && chunks[end - 1].seqno > chunk.seqno
        invariant 0 <= end <= |chunks|
        invariant Insert(chunks, chunk) == Insert(chunks[..end], chunk) + chunks[end..]
      {
        assert chunks[..end][..end - 1] == chunks[..end - 1];
        assert [chunks[end - 1]] + chunks[end..] == chunks[end - 1..];
        end := end - 1;
      }
      chunks := chunks[..end] + [chunk] + chunks[end..];
    }

    method ConsolidateCompleteChunkSegments() returns (haveEndChunk: bool)
      modifies this
      ensures (View(), haveEndChunk) == Drain(old(View()))
    {
      haveEndChunk := false;
      while chunks != [] && chunks[0].seqno == startSeq
        invariant var (t, end) := Drain(View()); (t, haveEndChunk || end) == Drain(old(View()))
        decreases |chunks|
      {
        ghost var before := View();
        var chunk := chunks[0];
        startSeq := startSeq + 1;
        chunks := chunks[1..];
        if isAtStart {
          out := out + HEADER;
          isAtStart := false;
        }
        match chunk.data {
          case Some(d) => out := out + d;
          case None => haveEndChunk := true;
        }
        assert before.out + [] == before.out && out + [] == out;
        assert View() == Pop(before);
      }
    }

    method ScheduleDeflateJob(block: seq<Byte>)
      modifies this`seqno, this`jobs, this`log
      ensures View() == Schedule(old(View()), block)
    {
      jobs := jobs[seqno := block];
      seqno := seqno + 1;
      log := log + [Some(block)];
    }

    /** `parallel_deflate_feed` */
    method Feed(data: seq<Byte>)
      requires caller.Idle?
      modifies this
      ensures View() == ScheduleAll(Next(z, old(View()), Event.Feed(data)))
    {
      input := input + data;
      fed, caller := fed + data, Feeding;
      ghost var start := View();
      var at := 0;
      while at + INPUT_BLOCK_SIZE <= |input|
        invariant 0 <= at <= |input| && caller.Feeding?
        invariant ScheduleAll(View().(input := input[at..])) == ScheduleAll(start)
      {
        var block := input[at..at + INPUT_BLOCK_SIZE];
        assert input[at..][..INPUT_BLOCK_SIZE] == block;
        assert input[at..][INPUT_BLOCK_SIZE..] == input[at + INPUT_BLOCK_SIZE..];
        ScheduleDeflateJob(block);
        at := at + INPUT_BLOCK_SIZE;
      }
      input := input[at..];
      caller := Idle;
    }

    /** The part of `parallel_deflate_sync` outside the lock. */
    method SyncTail()
      requires caller.Idle?
      modifies this
      ensures View() == Next(z, old(View()), Event.SyncTail)
    {
      if |input| != 0 {
        ScheduleDeflateJob(input);
        input := [];
      }
      caller := Syncing;
    }

    /** The part of `parallel_deflate_flush` before the first wait. */
    method InsertEnd()
      requires caller.Syncing?
      modifies this
      ensures View() == Next(z, old(View()), Event.InsertEnd)
    {
      var endChunk := Chunk(seqno, None);
      seqno := seqno + 1;
      InsertOutputChunk(endChunk);
      log, caller := log + [None], Flushing;
    }

    /** One turn of the waiting loop of `parallel_deflate_flush`. */
    method WakeUp() returns (done: bool)
      requires caller.Flushing?
      modifies this
      ensures View() == Next(z, old(View()), Event.Consolidate) && done == caller.Idle?
    {
      done := ConsolidateCompleteChunkSegments();
      caller := if done then Idle else Flushing;
    }

    /** `do_work`: a worker thread hands in its chunk. */
    method FinishJob(k: nat)
      requires k in jobs
      modifies this
      ensures View() == Next(z, old(View()), Event.JobDone(k))
    {
      var chunk := Chunk(k, Some(z.deflate(jobs[k])));
      InsertOutputChunk(chunk);
      jobs := jobs - {k};
    }
  }
}
