/** Every frame comes to an end, whatever the interleaving of the workers. */
module TightProgress {
  import opened Common
  import opened Tight

  function RowsLeft(grids: seq<Grid>, c: Pos): nat {
    if c.fb < |grids| && c.y < grids[c.fb].height then grids[c.fb].height - c.y else 0
  }

  function ColumnsLeft(grids: seq<Grid>, c: Pos): nat {
    if c.fb < |grids| && c.x < grids[c.fb].width then grids[c.fb].width - c.x else 0
  }

  /** How many turns nested loops at place `c` still take. */
  function TurnsLeft(grids: seq<Grid>, c: Pos, first: nat, stride: nat): nat
    requires stride > 0
    decreases |grids| - c.fb, RowsLeft(grids, c), ColumnsLeft(grids, c)
  {
    if c.fb >= |grids| then 0 else 1 + TurnsLeft(grids, Advance(grids, c, first, stride), first, stride)
  }

  /** How many steps a worker still takes. */
  function WorkLeft(s: State, w: nat): nat
    requires w < 4 == |s.workers|
  {
    var turns := TurnsLeft(s.grids, s.workers[w].cursor, w, 4);
    match s.workers[w].status
    case Waiting => 3 + turns
    case Running => 2 + turns
    case Returned => 1
    case Joined => 0
  }

  function FinishLeft(s: State): nat {
    match s.stage
    case Idle => 0
    case Finishing(c) => 1 + TurnsLeft(s.grids, c, 0, 1)
    case _ => 2 + TurnsLeft(s.grids, Pos(0, 0, 0), 0, 1)
  }

  /** How many steps the frame under way still takes, whoever takes them. */
  function StepsLeft(s: State): nat
    requires |s.workers| == 4
  {
    FinishLeft(s) + WorkLeft(s, 0) + WorkLeft(s, 1) + WorkLeft(s, 2) + WorkLeft(s, 3)
  }

  lemma WorkerStepCounts(s: State, t: State, w: nat)
    requires w < 4 == |s.workers| == |t.workers| && s.grids == t.grids && FinishLeft(t) <= FinishLeft(s)
    requires forall v :: 0 <= v < 4 && v != w ==> t.workers[v] == s.workers[v]
    requires WorkLeft(t, w) < WorkLeft(s, w)
    ensures StepsLeft(t) < StepsLeft(s)
  {
    forall v | 0 <= v < 4 && v != w ensures WorkLeft(t, v) == WorkLeft(s, v) {
      SameWorker(s, t, v);
    }
  }

  lemma SameWorker(s: State, t: State, v: nat)
    requires v < 4 == |s.workers| == |t.workers| && s.grids == t.grids && t.workers[v] == s.workers[v]
    ensures WorkLeft(t, v) == WorkLeft(s, v)
  {
  }

  lemma ScheduleCounts(s: State)
    requires Enabled(s, Schedule) && s.workers[s.scheduled].status.Waiting?
    ensures StepsLeft(ScheduleWorker(s)) < StepsLeft(s)
  {
    WorkerStepCounts(s, ScheduleWorker(s), s.scheduled);
  }

  lemma WorkCounts(s: State, w: nat)
    requires Enabled(s, Work(w))
    ensures StepsLeft(WorkStep(s, w)) < StepsLeft(s)
  {
    WorkerStepCounts(s, WorkStep(s, w), w);
  }

  lemma JoinStepCounts(s: State, w: nat)
    requires Enabled(s, Join(w))
    ensures StepsLeft(JoinWorker(s, w)) < StepsLeft(s)
  {
    WorkerStepCounts(s, JoinWorker(s, w), w);
  }

  lemma EveryStepCounts(s: State, e: Event)
    requires Enabled(s, e) && !e.Start? && (e.Schedule? ==> s.workers[s.scheduled].status.Waiting?)
    ensures |Next(s, e).workers| == 4 && StepsLeft(Next(s, e)) < StepsLeft(s)
  {
    match e
    case Schedule => ScheduleCounts(s);
    case Work(w) => WorkCounts(s, w);
    case Return(w) => WorkerStepCounts(s, Next(s, e), w);
    case Join(w) => JoinStepCounts(s, w);
    case FinishStep => SameWork(s, Next(s, e));
    case FinishEnd => SameWork(s, Next(s, e));
  }

  lemma SameWork(s: State, t: State)
    requires |s.workers| == 4 && s.grids == t.grids && s.workers == t.workers && FinishLeft(t) < FinishLeft(s)
    ensures StepsLeft(t) < StepsLeft(s)
  {
    forall v | 0 <= v < 4 ensures WorkLeft(t, v) == WorkLeft(s, v) {
      SameWorker(s, t, v);
    }
  }

  /** No interleaving gets stuck: while a frame is under way some step is possible. */
  lemma {:induction false} SomeStepIsPossible(es: seq<Event>) returns (e: Event)
    requires After(es).Some? && !After(es).value.stage.Idle?
    ensures !e.Start? && Enabled(After(es).value, e)
  {
    RunsKeep(es);
    var s := After(es).value;
    match s.stage
    case Scheduling => e := Schedule;
    case Finishing(c) => e := if c.fb < |s.grids| then FinishStep else FinishEnd;
    case Encoding =>
      var w :| 0 <= w < 4 && Busy(s.workers[w]) == 1;
      e := if s.workers[w].status.Returned? then Join(w)
           else if s.workers[w].cursor.fb < |s.grids| then Work(w) else Return(w);
  }

  ghost predicate WithinFrame(es: seq<Event>, n: nat) {
    forall i :: n <= i < |es| ==> !es[i].Start? && After(es[..i]).Some? && !After(es[..i]).value.stage.Idle?
  }

  /** ... and none goes on for ever: a frame ends after at most as many steps as are left. */
  lemma {:induction false} FrameEndsInTime(es: seq<Event>, n: nat)
    requires n <= |es| && After(es).Some? && After(es[..n]).Some? && WithinFrame(es, n)
    ensures |After(es[..n]).value.workers| == 4 && |After(es).value.workers| == 4
    ensures |es| - n + StepsLeft(After(es).value) <= StepsLeft(After(es[..n]).value)
  {
    RunsKeep(es[..n]);
    RunsKeep(es);
    if n == |es| {
      assert es[..n] == es;
    } else {
      var before := es[..|es| - 1];
      assert before[..n] == es[..n];
      forall i | n <= i < |before|
        ensures !before[i].Start? && After(before[..i]).Some? && !After(before[..i]).value.stage.Idle?
      {
        assert before[..i] == es[..i];
      }
      FrameEndsInTime(before, n);
      RunsKeep(before);
      if es[|es| - 1].Schedule? {
        ScheduledIsWaiting(After(before).value);
      }
      EveryStepCounts(After(before).value, es[|es| - 1]);
    }
  }

  lemma ScheduledIsWaiting(s: State)
    requires Inv(s) && !s.stage.Idle? && s.scheduled < 4
    ensures s.workers[s.scheduled].status.Waiting?
  {
    assert WorkerOk(s, s.scheduled);
  }
}
