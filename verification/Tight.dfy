/**
  The Tight encoder: four workers, one per zlib stream, share a grid of 64 by 64 tiles;
  when all are through, a finishing job emits the tiles. A viewer inflates each stream in
  the order of emission, so that order must be the order of compression.
 */
module Tight {
  import opened Common

  /** A tile: framebuffer, row, column. */
  datatype Pos = Pos(fb: nat, y: nat, x: nat)

  datatype Grid = Grid(width: nat, height: nat)

  predicate InGrid(grids: seq<Grid>, p: Pos) {
    p.fb < |grids| && p.y < grids[p.fb].height && p.x < grids[p.fb].width
  }

  /** The order of the nested loops. */
  predicate Before(p: Pos, q: Pos) {
    p.fb < q.fb || (p.fb == q.fb && (p.y < q.y || (p.y == q.y && p.x < q.x)))
  }

  // ---------------------------------------------------------------- lists in loop order

  ghost predicate Ascending(ps: seq<Pos>) {
    forall i, j :: 0 <= i < j < |ps| ==> Before(ps[i], ps[j])
  }

  /** The list holds exactly the elements of the set, in loop order. */
  ghost predicate Lists(ps: seq<Pos>, s: set<Pos>) {
    Ascending(ps) && (forall p :: p in s <==> p in ps)
  }

  lemma ListsSnoc(ps: seq<Pos>, s: set<Pos>, p: Pos)
    requires Lists(ps, s) && forall q :: q in s ==> Before(q, p)
    ensures Lists(ps + [p], s + {p})
  {
    var r := ps + [p];
    forall i, j | 0 <= i < j < |r| ensures Before(r[i], r[j]) {
      assert r[i] == ps[i] && ps[i] in ps;
      if j < |ps| {
        assert r[j] == ps[j];
      }
    }
  }

  lemma {:induction false} ListedCount(ps: seq<Pos>, s: set<Pos>)
    requires Lists(ps, s)
    ensures |ps| == |s|
  {
    if ps == [] {
      assert s == {};
    } else {
      var last := ps[|ps| - 1];
      DropLast(ps, s);
      ListedCount(ps[..|ps| - 1], s - {last});
    }
  }

  lemma DropLast(ps: seq<Pos>, s: set<Pos>)
    requires Lists(ps, s) && ps != []
    ensures var last := ps[|ps| - 1];
      && last in s
      && Lists(ps[..|ps| - 1], s - {last})
      && forall p :: p in s - {last} ==> Before(p, last)
  {
    var front, last := ps[..|ps| - 1], ps[|ps| - 1];
    assert ps == front + [last];
    forall p | p in front ensures p != last && Before(p, last) {
      var i :| 0 <= i < |front| && front[i] == p;
      assert ps[i] == p;
    }
  }

  /** The loop order of a set is unique. */
  lemma {:induction false} ListedOnce(ps: seq<Pos>, qs: seq<Pos>, s: set<Pos>)
    requires Lists(ps, s) && Lists(qs, s)
    ensures ps == qs
  {
    ListedCount(ps, s);
    ListedCount(qs, s);
    if ps != [] {
      DropLast(ps, s);
      DropLast(qs, s);
      var p, q := ps[|ps| - 1], qs[|qs| - 1];
      assert p == q;
      ListedOnce(ps[..|ps| - 1], qs[..|qs| - 1], s - {p});
      assert ps == ps[..|ps| - 1] + [p] && qs == qs[..|qs| - 1] + [q];
    }
  }

  /** The tiles that go to one zlib stream. */
  function OfStream(ps: seq<Pos>, w: nat): seq<Pos> {
    if ps == [] then []
    else OfStream(ps[..|ps| - 1], w) + if ps[|ps| - 1].x % 4 == w then [ps[|ps| - 1]] else []
  }

  lemma {:induction false} OfStreamLists(ps: seq<Pos>, s: set<Pos>, w: nat)
    requires Lists(ps, s)
    ensures Lists(OfStream(ps, w), set p | p in s && p.x % 4 == w)
  {
    var t := set p | p in s && p.x % 4 == w;
    if ps == [] {
    } else {
      var last := ps[|ps| - 1];
      DropLast(ps, s);
      OfStreamLists(ps[..|ps| - 1], s - {last}, w);
      var rest := set p | p in s - {last} && p.x % 4 == w;
      if last.x % 4 == w {
        ListsSnoc(OfStream(ps[..|ps| - 1], w), rest, last);
        assert rest + {last} == t;
      } else {
        assert rest == t;
        assert OfStream(ps, w) == OfStream(ps[..|ps| - 1], w);
      }
    }
  }

  // ---------------------------------------------------------------- state

  datatype Status = Waiting | Running | Returned | Joined

  /** A worker, the place its loops have reached, and the tiles it has encoded. */
  datatype Worker = Worker(status: Status, cursor: Pos, log: seq<Pos>)

  datatype Stage = Idle | Scheduling | Encoding | Finishing(cursor: Pos)

  /** A tile of some frame as compressed or emitted; JPEG tiles use no stream. */
  datatype Entry = Entry(frame: nat, pos: Pos, stream: Option<nat>)

  /**
    `dirty` and `done` are the tiles in states DAMAGED and ENCODED. `damaged` (all tiles
    damaged in this frame), `before` (what was emitted in earlier frames), the logs and
    `finishes` record history; `streams` and `wire` span all frames.
   */
  datatype State = State(
    grids: seq<Grid>, basic: bool, dirty: set<Pos>, done: set<Pos>, workers: seq<Worker>,
    nJobs: nat, nRects: nat, stage: Stage, scheduled: nat,
    damaged: set<Pos>, emitted: seq<Pos>, finishes: nat, frame: nat,
    before: seq<Entry>, streams: seq<seq<Entry>>, wire: seq<Entry>)

  function FreshWorkers(): seq<Worker> {
    [Worker(Waiting, Pos(0, 0, 0), []), Worker(Waiting, Pos(0, 0, 1), []),
     Worker(Waiting, Pos(0, 0, 2), []), Worker(Waiting, Pos(0, 0, 3), [])]
  }

  function Init(): State {
    State([], true, {}, {}, FreshWorkers(), 0, 0, Idle, 0, {}, [], 0, 0, [], [[], [], [], []], [])
  }

  function TagOne(s: State, p: Pos): Entry {
    Entry(s.frame, p, if s.basic then Some(p.x % 4) else None)
  }

  // ---------------------------------------------------------------- steps

  /** One step of nested loops over framebuffers, rows and columns. */
  function Advance(grids: seq<Grid>, c: Pos, first: nat, stride: nat): Pos
    requires c.fb < |grids|
  {
    if c.y >= grids[c.fb].height then Pos(c.fb + 1, 0, first)
    else if c.x >= grids[c.fb].width then Pos(c.fb, c.y + 1, first)
    else Pos(c.fb, c.y, c.x + stride)
  }

  datatype Event =
    | Start(grids: seq<Grid>, damaged: set<Pos>, basic: bool)
    | Schedule
    | Work(w: nat)
    | Return(w: nat)
    | Join(w: nat)
    | FinishStep
    | FinishEnd

  ghost predicate Enabled(s: State, e: Event) {
    |s.workers| == 4 && |s.streams| == 4 &&
    match e
    case Start(grids, damaged, _) => s.stage.Idle? && forall p :: p in damaged ==> InGrid(grids, p)
    case Schedule => s.stage.Scheduling? && s.scheduled < 4
    case Work(w) => w < 4 && s.workers[w].status.Running? && s.workers[w].cursor.fb < |s.grids|
    case Return(w) => w < 4 && s.workers[w].status.Running? && s.workers[w].cursor.fb >= |s.grids|
    case Join(w) => w < 4 && s.stage.Encoding? && s.workers[w].status.Returned?
    case FinishStep => s.stage.Finishing? && s.stage.cursor.fb < |s.grids|
    case FinishEnd => s.stage.Finishing? && s.stage.cursor.fb >= |s.grids|
  }

  /** `tight_apply_damage` gives every tile a fresh state. */
  function StartFrame(s: State, grids: seq<Grid>, damaged: set<Pos>, basic: bool): State {
    s.(grids := grids, basic := basic, dirty := damaged, done := {}, workers := FreshWorkers(),
       nJobs := 0, nRects := |damaged|, stage := Scheduling, scheduled := 0,
       damaged := damaged, emitted := [], finishes := 0, frame := s.frame + 1, before := s.wire)
  }

  function ScheduleWorker(s: State): State
    requires s.scheduled < 4 == |s.workers|
  {
    var k := s.scheduled;
    s.(workers := s.workers[k := s.workers[k].(status := Running)], nJobs := s.nJobs + 1, scheduled := k + 1,
       stage := if k + 1 == 4 then Encoding else Scheduling)
  }

  /** One turn of the loops of `do_tight_zs_work`: a damaged tile is encoded on the worker's stream. */
  function WorkStep(s: State, w: nat): State
    requires w < 4 == |s.workers| == |s.streams| && s.workers[w].cursor.fb < |s.grids|
  {
    var k := s.workers[w];
    var c := k.cursor;
    var next := Advance(s.grids, c, w, 4);
    if InGrid(s.grids, c) && c in s.dirty then
      s.(dirty := s.dirty - {c}, done := s.done + {c},
         workers := s.workers[w := k.(cursor := next, log := k.log + [c])],
         streams := if s.basic then s.streams[w := s.streams[w] + [TagOne(s, c)]] else s.streams)
    else s.(workers := s.workers[w := k.(cursor := next)])
  }

  /** `on_tight_zs_work_done`: the last one schedules the finishing job. */
  function JoinWorker(s: State, w: nat): State
    requires w < 4 == |s.workers|
  {
    var t := s.(workers := s.workers[w := s.workers[w].(status := Joined)], nJobs := if s.nJobs == 0 then 0 else s.nJobs - 1);
    if t.nJobs == 0 then t.(stage := Finishing(Pos(0, 0, 0)), finishes := t.finishes + 1) else t
  }

  /** One turn of the loops of `tight_finish`: an encoded tile is emitted. */
  function EmitStep(s: State): State
    requires s.stage.Finishing? && s.stage.cursor.fb < |s.grids|
  {
    var c := s.stage.cursor;
    var t := s.(stage := Finishing(Advance(s.grids, c, 0, 1)));
    if InGrid(s.grids, c) && c in s.done
    then t.(done := s.done - {c}, emitted := s.emitted + [c], wire := s.wire + [TagOne(s, c)])
    else t
  }

  ghost function Next(s: State, e: Event): State
    requires Enabled(s, e)
  {
    match e
    case Start(grids, damaged, basic) => StartFrame(s, grids, damaged, basic)
    case Schedule => ScheduleWorker(s)
    case Work(w) => WorkStep(s, w)
    case Return(w) => s.(workers := s.workers[w := s.workers[w].(status := Returned)])
    case Join(w) => JoinWorker(s, w)
    case FinishStep => EmitStep(s)
    case FinishEnd => s.(stage := Idle)
  }

  // ---------------------------------------------------------------- invariant

  /** The damaged tiles of one stream that lie before a place in loop order. */
  ghost function Passed(damaged: set<Pos>, w: nat, c: Pos): set<Pos> {
    set p | p in damaged && p.x % 4 == w && Before(p, c)
  }

  function EmitCursor(s: State): Pos {
    if s.stage.Finishing? then s.stage.cursor else Pos(0, 0, 0)
  }

  /** A tile is waiting, encoded or emitted according to where the loops have got to. */
  predicate TileAt(s: State, p: Pos)
    requires |s.workers| == 4
  {
    var encoded := Before(p, s.workers[p.x % 4].cursor);
    && (p in s.dirty <==> p in s.damaged && !encoded)
    && (p in s.done <==> p in s.damaged && encoded && !Before(p, EmitCursor(s)))
  }

  ghost predicate Tiles(s: State)
    requires |s.workers| == 4
  {
    forall p {:trigger TileAt(s, p)} :: TileAt(s, p)
  }

  ghost predicate WorkerOk(s: State, w: nat)
    requires w < 4 == |s.workers|
  {
    var k := s.workers[w];
    && k.cursor.x % 4 == w
    && Lists(k.log, Passed(s.damaged, w, k.cursor))
    && (k.status.Waiting? <==> s.scheduled <= w)
    && (k.status.Returned? || k.status.Joined? ==> k.cursor.fb >= |s.grids|)
  }

  function Busy(k: Worker): nat { if k.status.Running? || k.status.Returned? then 1 else 0 }

  /** Jobs are counted and the finishing job is scheduled once, when all workers have joined. */
  ghost predicate Counted(s: State)
    requires |s.workers| == 4
  {
    && s.nJobs == Busy(s.workers[0]) + Busy(s.workers[1]) + Busy(s.workers[2]) + Busy(s.workers[3])
    && s.scheduled <= 4 && (s.stage.Scheduling? <==> s.scheduled < 4)
    && (s.stage.Encoding? ==> s.nJobs > 0)
    && (s.stage.Finishing? ==> forall w :: 0 <= w < 4 ==> s.workers[w].status.Joined?)
    && s.finishes == if s.stage.Finishing? then 1 else 0
  }

  function Tag(frame: nat, basic: bool, ps: seq<Pos>): (es: seq<Entry>)
    ensures |es| == |ps|
  {
    seq(|ps|, i requires 0 <= i < |ps| => Entry(frame, ps[i], if basic then Some(ps[i].x % 4) else None))
  }

  /** What a viewer inflates on stream `w`, in the order of emission. */
  function OnWire(es: seq<Entry>, w: nat): seq<Entry> {
    if es == [] then []
    else OnWire(es[..|es| - 1], w) + if es[|es| - 1].stream == Some(w) then [es[|es| - 1]] else []
  }

  /** What was compressed on each stream, and what was emitted, in this frame and before. */
  ghost predicate Recorded(s: State)
    requires |s.workers| == 4 == |s.streams|
  {
    && Lists(s.emitted, set p | p in s.damaged && Before(p, EmitCursor(s)))
    && s.wire == s.before + Tag(s.frame, s.basic, s.emitted)
    && forall w :: 0 <= w < 4 ==>
         s.streams[w] == OnWire(s.before, w) + if s.basic then Tag(s.frame, true, s.workers[w].log) else []
  }

  ghost predicate Inv(s: State) {
    && |s.workers| == 4 && |s.streams| == 4
    && if s.stage.Idle? then
         forall w :: 0 <= w < 4 ==> OnWire(s.wire, w) == s.streams[w] && Busy(s.workers[w]) == 0
       else
         && (forall p :: p in s.damaged ==> InGrid(s.grids, p))
         && s.nRects == |s.damaged|
         && Tiles(s) && Counted(s) && Recorded(s)
         && forall w :: 0 <= w < 4 ==> WorkerOk(s, w)
  }

  // ---------------------------------------------------------------- every step keeps the invariant

  /** A worker's loops skip none of its tiles. */
  lemma WorkerAdvances(grids: seq<Grid>, c: Pos, w: nat, p: Pos)
    requires w < 4 && c.fb < |grids| && c.x % 4 == w
    requires InGrid(grids, p) && p.x % 4 == w
    ensures Before(p, Advance(grids, c, w, 4)) <==> Before(p, c) || p == c
  {
  }

  lemma EmitAdvances(grids: seq<Grid>, c: Pos, p: Pos)
    requires c.fb < |grids| && InGrid(grids, p)
    ensures Before(p, Advance(grids, c, 0, 1)) <==> Before(p, c) || p == c
  {
  }

  lemma TagSnoc(frame: nat, basic: bool, ps: seq<Pos>, p: Pos)
    ensures Tag(frame, basic, ps + [p]) == Tag(frame, basic, ps) + [Entry(frame, p, if basic then Some(p.x % 4) else None)]
  {
  }

  lemma StartKeeps(s: State, grids: seq<Grid>, damaged: set<Pos>, basic: bool)
    requires Inv(s) && Enabled(s, Start(grids, damaged, basic))
    ensures Inv(StartFrame(s, grids, damaged, basic))
  {
    var t := StartFrame(s, grids, damaged, basic);
    forall p ensures TileAt(t, p) {
    }
    forall w | 0 <= w < 4 ensures WorkerOk(t, w) {
      assert Passed(damaged, w, t.workers[w].cursor) == {};
    }
    assert Tag(t.frame, t.basic, []) == [];
  }

  /** A step that moves no cursor and logs nothing keeps all that is said about tiles. */
  lemma TilesAlike(s: State, t: State)
    requires |s.workers| == 4 == |t.workers| && Tiles(s)
    requires forall w :: 0 <= w < 4 ==> t.workers[w].cursor == s.workers[w].cursor
    requires t.dirty == s.dirty && t.done == s.done && t.damaged == s.damaged && EmitCursor(t) == EmitCursor(s)
    ensures Tiles(t)
  {
    forall p ensures TileAt(t, p) {
      assert TileAt(s, p);
    }
  }

  lemma ScheduleKeeps(s: State)
    requires Inv(s) && Enabled(s, Schedule)
    ensures Inv(ScheduleWorker(s))
  {
    var t := ScheduleWorker(s);
    var k := s.scheduled;
    assert WorkerOk(s, k);
    TilesAlike(s, t);
    assert Counted(t) by {
      assert k == 0 || k == 1 || k == 2 || k == 3;
    }
    forall w | 0 <= w < 4 ensures WorkerOk(t, w) {
      assert WorkerOk(s, w);
    }
  }

  lemma ReturnKeeps(s: State, w: nat)
    requires Inv(s) && Enabled(s, Return(w))
    ensures Inv(Next(s, Return(w)))
  {
    var t := Next(s, Return(w));
    assert Busy(s.workers[w]) == 1;
    assert WorkerOk(s, w);
    TilesAlike(s, t);
    forall v | 0 <= v < 4 ensures WorkerOk(t, v) {
      assert WorkerOk(s, v);
    }
  }

  lemma JoinCounts(s: State, w: nat)
    requires |s.workers| == 4 && Counted(s) && s.stage.Encoding? && w < 4 && s.workers[w].status.Returned?
    requires forall v :: 0 <= v < 4 ==> !s.workers[v].status.Waiting?
    ensures Counted(JoinWorker(s, w))
  {
    assert w == 0 || w == 1 || w == 2 || w == 3;
  }

  lemma JoinKeeps(s: State, w: nat)
    requires Inv(s) && Enabled(s, Join(w))
    ensures Inv(JoinWorker(s, w))
  {
    var t := JoinWorker(s, w);
    TilesAlike(s, t);
    forall v | 0 <= v < 4 ensures WorkerOk(t, v) && !s.workers[v].status.Waiting? {
      assert WorkerOk(s, v);
    }
    JoinCounts(s, w);
  }

  /** The place a worker leaves joins what it has passed if it was damaged. */
  lemma PassedAdvances(s: State, w: nat)
    requires w < 4 == |s.workers| && s.workers[w].cursor.fb < |s.grids| && s.workers[w].cursor.x % 4 == w
    requires forall p :: p in s.damaged ==> InGrid(s.grids, p)
    ensures var c := s.workers[w].cursor;
      Passed(s.damaged, w, Advance(s.grids, c, w, 4))
      == Passed(s.damaged, w, c) + if c in s.damaged then {c} else {}
  {
    var c := s.workers[w].cursor;
    forall p | p in s.damaged && p.x % 4 == w
      ensures Before(p, Advance(s.grids, c, w, 4)) <==> Before(p, c) || p == c
    {
      WorkerAdvances(s.grids, c, w, p);
    }
  }

  lemma WorkTiles(s: State, w: nat)
    requires Inv(s) && Enabled(s, Work(w)) && !s.stage.Idle?
    ensures Tiles(WorkStep(s, w))
    ensures s.workers[w].cursor in s.dirty <==> s.workers[w].cursor in s.damaged
  {
    var t, c := WorkStep(s, w), s.workers[w].cursor;
    assert WorkerOk(s, w);
    assert TileAt(s, c);
    forall p ensures TileAt(t, p) {
      assert TileAt(s, p);
      if p in s.damaged && p.x % 4 == w {
        WorkerAdvances(s.grids, c, w, p);
      }
    }
  }

  lemma WorkLogGrows(s: State, w: nat)
    requires Inv(s) && Enabled(s, Work(w)) && !s.stage.Idle?
    requires s.workers[w].cursor in s.dirty <==> s.workers[w].cursor in s.damaged
    ensures WorkerOk(WorkStep(s, w), w)
  {
    var k := s.workers[w];
    assert WorkerOk(s, w);
    PassedAdvances(s, w);
    if k.cursor in s.damaged {
      ListsSnoc(k.log, Passed(s.damaged, w, k.cursor), k.cursor);
    }
  }

  lemma WorkLog(s: State, w: nat)
    requires Inv(s) && Enabled(s, Work(w)) && !s.stage.Idle?
    ensures forall v :: 0 <= v < 4 ==> WorkerOk(WorkStep(s, w), v)
  {
    WorkTiles(s, w);
    WorkLogGrows(s, w);
    forall v | 0 <= v < 4 ensures WorkerOk(WorkStep(s, w), v) {
      assert WorkerOk(s, v);
    }
  }

  lemma WorkRecorded(s: State, w: nat)
    requires |s.workers| == 4 == |s.streams| && w < 4 && Recorded(s) && s.workers[w].cursor.fb < |s.grids|
    requires s.workers[w].cursor.x % 4 == w
    ensures Recorded(WorkStep(s, w))
  {
    var t, k := WorkStep(s, w), s.workers[w];
    TagSnoc(s.frame, true, k.log, k.cursor);
    forall v | 0 <= v < 4
      ensures t.streams[v] == OnWire(t.before, v) + if t.basic then Tag(t.frame, true, t.workers[v].log) else []
    {
      assert s.streams[v] == OnWire(s.before, v) + if s.basic then Tag(s.frame, true, s.workers[v].log) else [];
    }
  }

  lemma WorkKeeps(s: State, w: nat)
    requires Inv(s) && Enabled(s, Work(w))
    ensures Inv(WorkStep(s, w))
  {
    assert Busy(s.workers[w]) == 1;
    assert WorkerOk(s, w);
    WorkTiles(s, w);
    WorkLog(s, w);
    WorkRecorded(s, w);
  }

  lemma EmitTiles(s: State)
    requires Inv(s) && Enabled(s, FinishStep)
    ensures Tiles(EmitStep(s))
    ensures s.stage.cursor in s.done <==> s.stage.cursor in s.damaged
  {
    var t, c := EmitStep(s), s.stage.cursor;
    AllEncoded(s, c);
    assert TileAt(s, c);
    forall p ensures TileAt(t, p) {
      assert TileAt(s, p);
      if p in s.damaged {
        EmitAdvances(s.grids, c, p);
      }
    }
  }

  /** When the finishing job runs, the workers have passed every tile. */
  lemma {:induction false} AllEncoded(s: State, p: Pos)
    requires Inv(s) && s.stage.Finishing?
    ensures p in s.damaged ==> Before(p, s.workers[p.x % 4].cursor)
  {
    assert WorkerOk(s, p.x % 4);
  }

  lemma {:induction false} EmitRecorded(s: State)
    requires Inv(s) && Enabled(s, FinishStep)
    ensures Recorded(EmitStep(s))
  {
    var t, c := EmitStep(s), s.stage.cursor;
    EmitTiles(s);
    var passed := set p | p in s.damaged && Before(p, c);
    var reached := set p | p in s.damaged && Before(p, t.stage.cursor);
    forall p | p in s.damaged ensures p in reached <==> p in passed || p == c {
      EmitAdvances(s.grids, c, p);
    }
    if c in s.damaged {
      ListsSnoc(s.emitted, passed, c);
      assert passed + {c} == reached;
      TagSnoc(s.frame, s.basic, s.emitted, c);
    } else {
      assert passed == reached;
    }
  }

  lemma {:induction false} EmitKeeps(s: State)
    requires Inv(s) && Enabled(s, FinishStep)
    ensures Inv(EmitStep(s))
  {
    var t := EmitStep(s);
    EmitTiles(s);
    EmitRecorded(s);
    forall v | 0 <= v < 4 ensures WorkerOk(t, v) {
      assert WorkerOk(s, v);
    }
  }

  // ---------------------------------------------------------------- a finished frame

  lemma {:induction false} OnWireAppend(xs: seq<Entry>, ys: seq<Entry>, w: nat)
    ensures OnWire(xs + ys, w) == OnWire(xs, w) + OnWire(ys, w)
  {
    if ys == [] {
      assert xs + ys == xs;
    } else {
      var front := ys[..|ys| - 1];
      assert (xs + ys)[..|xs + ys| - 1] == xs + front;
      OnWireAppend(xs, front, w);
    }
  }

  lemma {:induction false} OnWireOfTagged(frame: nat, basic: bool, ps: seq<Pos>, w: nat)
    ensures OnWire(Tag(frame, basic, ps), w) == if basic then Tag(frame, true, OfStream(ps, w)) else []
  {
    if ps != [] {
      var front, last := ps[..|ps| - 1], ps[|ps| - 1];
      assert ps == front + [last];
      TagSnoc(frame, basic, front, last);
      TagSnoc(frame, true, OfStream(front, w), last);
      var tagged := Tag(frame, basic, ps);
      assert tagged[..|tagged| - 1] == Tag(frame, basic, front);
      OnWireOfTagged(frame, basic, front, w);
    } else {
      assert Tag(frame, true, OfStream(ps, w)) == [];
    }
  }

  /** Emission goes through each stream's tiles in the order in which its worker compressed them. */
  lemma {:induction false} EmittedInStreamOrder(s: State, w: nat)
    requires Inv(s) && Enabled(s, FinishEnd) && w < 4
    ensures Lists(s.emitted, s.damaged)
    ensures OfStream(s.emitted, w) == s.workers[w].log
  {
    assert (set p | p in s.damaged && Before(p, EmitCursor(s))) == s.damaged;
    OfStreamLists(s.emitted, s.damaged, w);
    assert WorkerOk(s, w);
    assert (set p | p in s.damaged && p.x % 4 == w) == Passed(s.damaged, w, s.workers[w].cursor);
    ListedOnce(OfStream(s.emitted, w), s.workers[w].log, Passed(s.damaged, w, s.workers[w].cursor));
  }

  lemma {:induction false} EndKeeps(s: State)
    requires Inv(s) && Enabled(s, FinishEnd)
    ensures Inv(Next(s, FinishEnd))
  {
    forall w | 0 <= w < 4 ensures OnWire(s.wire, w) == s.streams[w] {
      EmittedInStreamOrder(s, w);
      OnWireAppend(s.before, Tag(s.frame, s.basic, s.emitted), w);
      OnWireOfTagged(s.frame, s.basic, s.emitted, w);
    }
  }

  lemma {:induction false} StepKeeps(s: State, e: Event)
    requires Inv(s) && Enabled(s, e)
    ensures Inv(Next(s, e))
  {
    match e
    case Start(grids, damaged, basic) => StartKeeps(s, grids, damaged, basic);
    case Schedule => ScheduleKeeps(s);
    case Work(w) => WorkKeeps(s, w);
    case Return(w) => ReturnKeeps(s, w);
    case Join(w) => JoinKeeps(s, w);
    case FinishStep => EmitKeeps(s);
    case FinishEnd => EndKeeps(s);
  }

  // ---------------------------------------------------------------- results over all runs

  /** The state after a list of events: every interleaving of the workers is one list. */
  ghost function After(es: seq<Event>): Option<State> {
    if es == [] then Some(Init())
    else
      match After(es[..|es| - 1])
      case None => None
      case Some(s) => if Enabled(s, es[|es| - 1]) then Some(Next(s, es[|es| - 1])) else None
  }

  lemma {:induction false} RunsKeep(es: seq<Event>)
    requires After(es).Some?
    ensures Inv(After(es).value)
  {
    if es != [] {
      RunsKeep(es[..|es| - 1]);
      StepKeeps(After(es[..|es| - 1]).value, es[|es| - 1]);
    }
  }

  /**
    Between frames, in every run: each stream's data was emitted in exactly the order in
    which it was compressed, over all frames so far.
   */
  lemma {:induction false} StreamsAreEmittedInOrder(es: seq<Event>, w: nat)
    requires After(es).Some? && After(es).value.stage.Idle? && w < 4
    ensures |After(es).value.streams| == 4 && OnWire(After(es).value.wire, w) == After(es).value.streams[w]
  {
    RunsKeep(es);
  }

  /**
    When the finishing job is through, every damaged tile was emitted once, in loop order,
    no tile is left waiting, the rectangle count announced is the count emitted, and the
    finishing job was scheduled once.
   */
  lemma {:induction false} FrameIsComplete(es: seq<Event>)
    requires After(es).Some? && Enabled(After(es).value, FinishEnd)
    ensures var s := After(es).value;
      && Lists(s.emitted, s.damaged)
      && |s.emitted| == s.nRects
      && s.dirty == {} && s.done == {}
      && s.finishes == 1
      && forall w :: 0 <= w < 4 ==> OfStream(s.emitted, w) == s.workers[w].log
  {
    RunsKeep(es);
    var s := After(es).value;
    forall w | 0 <= w < 4 ensures OfStream(s.emitted, w) == s.workers[w].log {
      EmittedInStreamOrder(s, w);
    }
    EmittedInStreamOrder(s, 0);
    ListedCount(s.emitted, s.damaged);
    forall p ensures p !in s.dirty && p !in s.done {
      assert TileAt(s, p);
      AllEncoded(s, p);
    }
  }

  /** While a frame is encoded some worker is still to join, and none can join twice. */
  lemma {:induction false} FinishWaitsForAll(es: seq<Event>)
    requires After(es).Some? && !After(es).value.stage.Idle?
    ensures var s := After(es).value;
      |s.workers| == 4 && s.finishes <= 1 &&
      (s.finishes == 1 <==> forall w :: 0 <= w < 4 ==> s.workers[w].status.Joined?)
  {
    RunsKeep(es);
    var s := After(es).value;
    assert WorkerOk(s, 0) && WorkerOk(s, 1) && WorkerOk(s, 2) && WorkerOk(s, 3);
  }
}
