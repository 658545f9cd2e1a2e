/**
  The send queue of a TCP stream: requests leave in order, possibly cut by partial writes;
  a request may generate its payload as late as the moment it leaves.
 */
module TcpStream {
  import opened Common

  /** `IOV_MAX`: how many requests one write may gather. */
  const IOV_MAX: nat := 1024

  /**
    A queued request. `exec` says that the payload is generated at every flush. `gone` (the
    bytes already written) and `made` (all payloads generated so far) are history.
   */
  datatype Req = Req(id: nat, payload: seq<Byte>, exec: bool, gone: seq<Byte>, made: seq<seq<Byte>>)

  datatype Status = Done | Failed
  datatype Call = Call(id: nat, status: Status)

  /** What is handed to `stream_tcp_send` or `stream_tcp_exec_and_send`. */
  datatype Item = Plain(payload: seq<Byte>) | Exec

  /**
    What the outside saw: all bytes written, the requests completed and the requests dropped
    by a close, the completions in call order, and all accepted sends.
   */
  datatype Log = Log(wire: seq<Byte>, finished: seq<Req>, dropped: seq<Req>, calls: seq<Call>, sent: seq<Item>)

  datatype State = State(queue: seq<Req>, closed: bool, log: Log)

  function Init(): State { State([], false, Log([], [], [], [], [])) }

  // ---------------------------------------------------------------- operations

  function NewReq(id: nat, item: Item): Req {
    match item
    case Plain(p) => Req(id, p, false, [], [])
    case Exec => Req(id, [], true, [], [])
  }

  function Enqueue(s: State, item: Item): State {
    s.(queue := s.queue + [NewReq(|s.log.sent|, item)], log := s.log.(sent := s.log.sent + [item]))
  }

  /** The sends a callback makes, the first `n` of them done. */
  function EnqueueAll(s: State, items: seq<Item>, n: nat): State
    requires n <= |items|
  {
    if n == 0 then s else Enqueue(EnqueueAll(s, items, n - 1), items[n - 1])
  }

  function Regenerated(r: Req, gen: nat -> seq<Byte>): Req {
    if r.exec then r.(payload := gen(r.id), made := r.made + [gen(r.id)]) else r
  }

  /** Late payloads of the first `n` requests are generated afresh. */
  function Generate(queue: seq<Req>, gen: nat -> seq<Byte>, n: nat): (q: seq<Req>)
    requires n <= |queue|
    ensures |q| == |queue|
    ensures forall i :: 0 <= i < |q| ==> q[i] == if i < n then Regenerated(queue[i], gen) else queue[i]
  {
    seq(|queue|, i requires 0 <= i < |queue| => if i < n then Regenerated(queue[i], gen) else queue[i])
  }

  /** How many bytes the first `n` requests hold. */
  function Offered(queue: seq<Req>, n: nat): nat
    requires n <= |queue|
  {
    if n == 0 then 0 else Offered(queue, n - 1) + |queue[n - 1].payload|
  }

  /** The head left completely. */
  function Completed(s: State): State
    requires s.queue != []
  {
    var r := s.queue[0];
    var whole := r.gone + r.payload;
    s.(queue := s.queue[1..],
       log := s.log.(wire := s.log.wire + r.payload,
                     finished := s.log.finished + [r.(gone := whole, payload := [], exec := false)],
                     calls := s.log.calls + [Call(r.id, Done)]))
  }

  /** ... and its callback, which may send more, has returned. */
  function FinishHead(s: State, react: nat -> seq<Item>): State
    requires s.queue != []
  {
    var items := react(s.queue[0].id);
    EnqueueAll(Completed(s), items, |items|)
  }

  /** The head left in part: what remains is kept, and never generated again. */
  function CutHead(s: State, k: nat): State
    requires s.queue != [] && k < |s.queue[0].payload|
  {
    var r := s.queue[0];
    s.(queue := [r.(payload := r.payload[k..], exec := false, gone := r.gone + r.payload[..k])] + s.queue[1..],
       log := s.log.(wire := s.log.wire + r.payload[..k]))
  }

  /** `k` written bytes are booked, where `n` requests had been offered. */
  function Book(s: State, k: nat, n: nat, react: nat -> seq<Item>): State
    requires n <= |s.queue| && k <= Offered(s.queue, n)
    decreases n
  {
    if n == 0 then s
    else if k < |s.queue[0].payload| then (OfferedFront(s.queue, n); CutHead(s, k))
    else
      var t := FinishHead(s, react);
      var left := k - |s.queue[0].payload|;
      OfferedTail(s, react, n);
      if left == 0 then t else Book(t, left, n - 1, react)
  }

  /** What the write reported. */
  datatype Outcome = Sent(k: nat) | Again | Pipe | Broken

  function FailedCalls(queue: seq<Req>): (cs: seq<Call>)
    ensures |cs| == |queue|
    ensures forall i :: 0 <= i < |cs| ==> cs[i] == Call(queue[i].id, Failed)
  {
    seq(|queue|, i requires 0 <= i < |queue| => Call(queue[i].id, Failed))
  }

  /** Every queued request fails, in order. */
  function Close(s: State): State {
    if s.closed then s
    else State([], true, s.log.(dropped := s.queue, calls := s.log.calls + FailedCalls(s.queue)))
  }

  function Prepared(s: State, gen: nat -> seq<Byte>): State {
    s.(queue := Generate(s.queue, gen, Min(|s.queue|, IOV_MAX)))
  }

  /** A write never reports more bytes than it was offered. */
  predicate Possible(s: State, gen: nat -> seq<Byte>, o: Outcome) {
    o.Sent? ==> o.k <= Offered(Prepared(s, gen).queue, Min(|s.queue|, IOV_MAX))
  }

  function Flush(s: State, gen: nat -> seq<Byte>, o: Outcome, react: nat -> seq<Item>): State
    requires Possible(s, gen, o)
  {
    if s.closed || s.queue == [] then s
    else
      var t := Prepared(s, gen);
      match o
      case Sent(k) => Book(t, k, Min(|t.queue|, IOV_MAX), react)
      case Pipe => Close(t)
      case _ => t
  }

  /** What flushing returns: the bytes written, 0 if there was nothing to do or no room, -1 on errors. */
  function FlushResult(s: State, o: Outcome): int {
    if s.closed || s.queue == [] then 0
    else match o
      case Sent(k) => k
      case Again => 0
      case Pipe => -1
      case Broken => -1
  }

  datatype Event =
    | Send(item: Item)
    | Write(gen: nat -> seq<Byte>, o: Outcome, react: nat -> seq<Item>)
    | Shut

  predicate Enabled(s: State, e: Event) {
    e.Write? ==> Possible(s, e.gen, e.o)
  }

  function Next(s: State, e: Event): State
    requires Enabled(s, e)
  {
    match e
    case Send(item) => if s.closed then s else Enqueue(s, item)
    case Write(gen, o, react) => Flush(s, gen, o, react)
    case Shut => Close(s)
  }

  function After(es: seq<Event>): Option<State> {
    if es == [] then Some(Init())
    else
      match After(es[..|es| - 1])
      case None => None
      case Some(s) => if Enabled(s, es[|es| - 1]) then Some(Next(s, es[|es| - 1])) else None
  }

  // ---------------------------------------------------------------- the queue while it is booked

  lemma {:induction false} EnqueueAllAppends(s: State, items: seq<Item>, n: nat)
    requires n <= |items|
    ensures var t := EnqueueAll(s, items, n);
      s.queue <= t.queue && |t.queue| == |s.queue| + n
  {
    if n != 0 {
      EnqueueAllAppends(s, items, n - 1);
    }
  }

  lemma {:induction false} OfferedPrefix(q: seq<Req>, r: seq<Req>, n: nat)
    requires n <= |q| && q <= r
    ensures Offered(q, n) == Offered(r, n)
  {
    if n != 0 {
      OfferedPrefix(q, r, n - 1);
    }
  }

  lemma {:induction false} OfferedFront(q: seq<Req>, n: nat)
    requires 0 < n <= |q|
    ensures Offered(q, n) == |q[0].payload| + Offered(q[1..], n - 1)
  {
    if n > 1 {
      OfferedFront(q, n - 1);
    }
  }

  lemma OfferedTail(s: State, react: nat -> seq<Item>, n: nat)
    requires 0 < n <= |s.queue|
    ensures var t := FinishHead(s, react);
      n - 1 <= |t.queue| && Offered(t.queue, n - 1) == Offered(s.queue, n) - |s.queue[0].payload|
  {
    var items := react(s.queue[0].id);
    EnqueueAllAppends(Completed(s), items, |items|);
    OfferedFront(s.queue, n);
    OfferedPrefix(s.queue[1..], FinishHead(s, react).queue, n - 1);
  }

  // ---------------------------------------------------------------- the invariant

  /** All requests ever accepted, in the order of their sends. */
  function All(s: State): seq<Req> { s.log.finished + s.queue + s.log.dropped }

  function Whole(r: Req): seq<Byte> { r.gone + r.payload }

  /**
    Request `r` stands for `item`: a plain payload is neither lost nor altered; a late one is,
    once generated, exactly what its generator returned last; and it is generated again only
    while none of its bytes have left.
   */
  predicate Stands(r: Req, item: Item) {
    && (r.exec ==> item.Exec? && r.gone == [])
    && (item.Plain? ==> Whole(r) == item.payload && r.made == [])
    && (item.Exec? && r.made == [] ==> r.exec && Whole(r) == [])
    && (item.Exec? && r.made != [] ==> Whole(r) == r.made[|r.made| - 1])
  }

  /** The bytes written of the first `n` requests, in order. */
  function GoneOf(rs: seq<Req>, n: nat): seq<Byte>
    requires n <= |rs|
  {
    if n == 0 then [] else GoneOf(rs, n - 1) + rs[n - 1].gone
  }

  function PayloadOf(rs: seq<Req>, n: nat): seq<Byte>
    requires n <= |rs|
  {
    if n == 0 then [] else PayloadOf(rs, n - 1) + rs[n - 1].payload
  }

  function WholeOf(rs: seq<Req>, n: nat): seq<Byte>
    requires n <= |rs|
  {
    if n == 0 then [] else WholeOf(rs, n - 1) + Whole(rs[n - 1])
  }

  function Waiting(s: State): seq<Req> { s.queue + s.log.dropped }

  predicate Ids(s: State) {
    && |All(s)| == |s.log.sent|
    && forall i :: 0 <= i < |All(s)| ==> All(s)[i].id == i && Stands(All(s)[i], s.log.sent[i])
  }

  predicate WireIs(s: State) {
    && (forall i :: 0 <= i < |s.log.finished| ==> s.log.finished[i].payload == [] && !s.log.finished[i].exec)
    && (forall i :: 0 < i < |Waiting(s)| ==> Waiting(s)[i].gone == [])
    && s.log.wire == GoneOf(s.log.finished, |s.log.finished|) + (if Waiting(s) == [] then [] else Waiting(s)[0].gone)
  }

  /** Each request completes once: `Done` in order for the finished, `Failed` only by the close. */
  predicate CallsAre(s: State) {
    var f := |s.log.finished|;
    && |s.log.calls| == f + |s.log.dropped|
    && forall i :: 0 <= i < |s.log.calls| ==> s.log.calls[i] == Call(i, if i < f then Done else Failed)
  }

  predicate Inv(s: State) {
    && Ids(s) && WireIs(s) && CallsAre(s)
    && (s.closed ==> s.queue == [])
    && (!s.closed ==> s.log.dropped == [])
  }

  lemma EnqueueKeeps(s: State, item: Item)
    requires Inv(s) && !s.closed
    ensures var t := Enqueue(s, item); Inv(t) && !t.closed && t.log.wire == s.log.wire
  {
    var t := Enqueue(s, item);
    assert All(t) == All(s) + [NewReq(|s.log.sent|, item)];
    assert Waiting(t) == Waiting(s) + [NewReq(|s.log.sent|, item)];
  }

  lemma {:induction false} EnqueueAllKeeps(s: State, items: seq<Item>, n: nat)
    requires Inv(s) && !s.closed && n <= |items|
    ensures var t := EnqueueAll(s, items, n); Inv(t) && !t.closed
  {
    if n != 0 {
      EnqueueAllKeeps(s, items, n - 1);
      EnqueueKeeps(EnqueueAll(s, items, n - 1), items[n - 1]);
    }
  }

  lemma {:induction false} GoneOfPrefix(rs: seq<Req>, qs: seq<Req>, n: nat)
    requires n <= |rs| && rs <= qs
    ensures GoneOf(rs, n) == GoneOf(qs, n)
  {
    if n != 0 {
      GoneOfPrefix(rs, qs, n - 1);
    }
  }

  lemma CompletedKeepsIds(s: State)
    requires Inv(s) && !s.closed && s.queue != []
    requires s.queue[0].exec ==> s.queue[0].made != []
    ensures Ids(Completed(s))
  {
    var t, f := Completed(s), |s.log.finished|;
    assert All(s)[f] == s.queue[0];
    assert Whole(t.log.finished[f]) == Whole(s.queue[0]);
    forall i | 0 <= i < |All(t)|
      ensures All(t)[i].id == i && Stands(All(t)[i], t.log.sent[i])
    {
      if i != f {
        assert All(t)[i] == All(s)[i];
      }
    }
  }

  lemma CompletedKeepsWire(s: State)
    requires Inv(s) && !s.closed && s.queue != []
    ensures WireIs(Completed(s)) && CallsAre(Completed(s))
  {
    var t, f := Completed(s), |s.log.finished|;
    assert All(s)[f] == s.queue[0];
    GoneOfPrefix(s.log.finished, t.log.finished, f);
    assert forall i :: 0 <= i < |Waiting(t)| ==> Waiting(t)[i] == Waiting(s)[i + 1];
  }

  lemma FinishHeadKeeps(s: State, react: nat -> seq<Item>)
    requires Inv(s) && !s.closed && s.queue != []
    requires s.queue[0].exec ==> s.queue[0].made != []
    ensures Inv(FinishHead(s, react)) && !FinishHead(s, react).closed
  {
    CompletedKeepsIds(s);
    CompletedKeepsWire(s);
    var items := react(s.queue[0].id);
    EnqueueAllKeeps(Completed(s), items, |items|);
  }

  lemma CutHeadKeeps(s: State, k: nat)
    requires Inv(s) && !s.closed && s.queue != [] && k < |s.queue[0].payload|
    requires s.queue[0].exec ==> s.queue[0].made != []
    ensures Inv(CutHead(s, k))
  {
    var t, f := CutHead(s, k), |s.log.finished|;
    var r := s.queue[0];
    assert All(s)[f] == r;
    assert r.payload[..k] + r.payload[k..] == r.payload;
    assert Whole(t.queue[0]) == Whole(r);
    forall i | 0 <= i < |All(t)|
      ensures All(t)[i].id == i && Stands(All(t)[i], t.log.sent[i])
    {
      if i != f {
        assert All(t)[i] == All(s)[i];
      }
    }
    assert forall i :: 0 < i < |Waiting(t)| ==> Waiting(t)[i] == Waiting(s)[i];
  }

  /** The first `n` requests were offered, hence generated. */
  predicate Ready(s: State, n: nat) {
    n <= |s.queue| && forall i :: 0 <= i < n && s.queue[i].exec ==> s.queue[i].made != []
  }

  lemma {:induction false} BookKeeps(s: State, k: nat, n: nat, react: nat -> seq<Item>)
    requires Inv(s) && !s.closed && Ready(s, n) && k <= Offered(s.queue, n)
    ensures Inv(Book(s, k, n, react))
    decreases n
  {
    if n == 0 {
    } else if k < |s.queue[0].payload| {
      CutHeadKeeps(s, k);
    } else {
      FinishHeadKeeps(s, react);
      OfferedTail(s, react, n);
      var items := react(s.queue[0].id);
      EnqueueAllAppends(Completed(s), items, |items|);
      var t := FinishHead(s, react);
      assert forall i :: 0 <= i < n - 1 ==> t.queue[i] == s.queue[i + 1];
      if k != |s.queue[0].payload| {
        BookKeeps(t, k - |s.queue[0].payload|, n - 1, react);
      }
    }
  }

  lemma PreparedKeeps(s: State, gen: nat -> seq<Byte>)
    requires Inv(s) && !s.closed
    ensures Inv(Prepared(s, gen)) && Ready(Prepared(s, gen), Min(|s.queue|, IOV_MAX))
  {
    var t, f := Prepared(s, gen), |s.log.finished|;
    forall i | 0 <= i < |All(t)|
      ensures All(t)[i].id == i && Stands(All(t)[i], t.log.sent[i])
    {
      assert Stands(All(s)[i], s.log.sent[i]);
      if f <= i < f + |s.queue| {
        assert All(s)[i] == s.queue[i - f] && All(t)[i] == t.queue[i - f];
      } else {
        assert All(t)[i] == All(s)[i];
      }
    }
    assert forall i :: 0 <= i < |s.queue| ==> t.queue[i].gone == s.queue[i].gone;
    assert Waiting(s) == s.queue && Waiting(t) == t.queue;
  }

  lemma CloseKeeps(s: State)
    requires Inv(s)
    ensures Inv(Close(s))
  {
    if !s.closed {
      var t := Close(s);
      assert All(t) == All(s) && Waiting(t) == Waiting(s);
      forall i | 0 <= i < |s.queue| ensures s.queue[i].id == |s.log.finished| + i {
        assert All(s)[|s.log.finished| + i] == s.queue[i];
      }
    }
  }

  lemma NextKeeps(s: State, e: Event)
    requires Inv(s) && Enabled(s, e)
    ensures Inv(Next(s, e))
  {
    match e
    case Send(item) => if !s.closed { EnqueueKeeps(s, item); }
    case Shut => CloseKeeps(s);
    case Write(gen, o, react) =>
      if !s.closed && s.queue != [] {
        PreparedKeeps(s, gen);
        match o
        case Sent(k) => BookKeeps(Prepared(s, gen), k, Min(|s.queue|, IOV_MAX), react);
        case Pipe => CloseKeeps(Prepared(s, gen));
        case _ =>
      }
  }

  lemma {:induction false} RunsKeep(es: seq<Event>)
    requires After(es).Some?
    ensures Inv(After(es).value)
  {
    if es != [] {
      RunsKeep(es[..|es| - 1]);
      NextKeeps(After(es[..|es| - 1]).value, es[|es| - 1]);
    }
  }

  // ---------------------------------------------------------------- what every run keeps

  lemma {:induction false} FinishedWhole(rs: seq<Req>, qs: seq<Req>, n: nat)
    requires n <= |rs| && rs <= qs
    requires forall i :: 0 <= i < n ==> rs[i].payload == []
    ensures WholeOf(qs, n) == GoneOf(rs, n)
  {
    if n != 0 {
      FinishedWhole(rs, qs, n - 1);
      assert Whole(rs[n - 1]) == rs[n - 1].gone;
    }
  }

  lemma {:induction false} WaitingWhole(all: seq<Req>, f: nat, ws: seq<Req>, n: nat)
    requires 0 < n <= |ws| && |all| == f + |ws|
    requires forall i :: 0 <= i < |ws| ==> all[f + i] == ws[i]
    requires forall i :: 0 < i < |ws| ==> ws[i].gone == []
    ensures WholeOf(all, f + n) == WholeOf(all, f) + ws[0].gone + PayloadOf(ws, n)
  {
    assert all[f + (n - 1)] == ws[n - 1];
    if n == 1 {
      assert PayloadOf(ws, 0) == [];
      Assoc(WholeOf(all, f), ws[0].gone, ws[0].payload);
    } else {
      WaitingWhole(all, f, ws, n - 1);
      assert Whole(ws[n - 1]) == ws[n - 1].payload;
      Assoc(WholeOf(all, f) + ws[0].gone, PayloadOf(ws, n - 1), ws[n - 1].payload);
    }
  }

  lemma {:induction false} ConservedParts(all: seq<Req>, fs: seq<Req>, ws: seq<Req>)
    requires fs <= all && |all| == |fs| + |ws|
    requires forall i :: 0 <= i < |ws| ==> all[|fs| + i] == ws[i]
    requires forall i :: 0 <= i < |fs| ==> fs[i].payload == []
    requires forall i :: 0 < i < |ws| ==> ws[i].gone == []
    ensures ws == [] ==> WholeOf(all, |all|) == GoneOf(fs, |fs|)
    ensures ws != [] ==> WholeOf(all, |all|) == GoneOf(fs, |fs|) + ws[0].gone + PayloadOf(ws, |ws|)
  {
    FinishedWhole(fs, all, |fs|);
    if ws != [] {
      WaitingWhole(all, |fs|, ws, |ws|);
    }
  }

  lemma Conserved(s: State)
    requires Inv(s)
    ensures s.log.wire + PayloadOf(Waiting(s), |Waiting(s)|) == WholeOf(All(s), |All(s)|)
  {
    AllSplits(s);
    ConservedParts(All(s), s.log.finished, Waiting(s));
  }

  lemma AllSplits(s: State)
    ensures All(s) == s.log.finished + Waiting(s)
    ensures s.log.finished <= All(s) && |All(s)| == |s.log.finished| + |Waiting(s)|
    ensures forall i :: 0 <= i < |Waiting(s)| ==> All(s)[|s.log.finished| + i] == Waiting(s)[i]
  {
  }

  /**
    Conservation: in every run, the bytes written followed by what remains (queued, or dropped
    by the close) are the payloads of all accepted sends, in send order, where plain payloads
    are those that were sent and a late one is what its generator returned last.
   */
  lemma BytesAreConserved(es: seq<Event>)
    requires After(es).Some?
    ensures var s := After(es).value;
      && |All(s)| == |s.log.sent|
      && s.log.wire + PayloadOf(Waiting(s), |Waiting(s)|) == WholeOf(All(s), |All(s)|)
      && forall i :: 0 <= i < |s.log.sent| ==> Stands(All(s)[i], s.log.sent[i])
  {
    RunsKeep(es);
    Conserved(After(es).value);
  }

  /**
    Completions, for every run: request `i` is the `i`-th to complete; the finished ones are
    `Done`, all their bytes are on the wire before those of any other request; `Failed` is
    reported only once the stream is closed, and then for every remaining request.
   */
  lemma CompletionsAreInOrder(es: seq<Event>)
    requires After(es).Some?
    ensures var s := After(es).value; var f := |s.log.finished|;
      && (forall i :: 0 <= i < |s.log.calls| ==> s.log.calls[i] == Call(i, if i < f then Done else Failed))
      && (!s.closed ==> |s.log.calls| == f)
      && (s.closed ==> |s.log.calls| == |s.log.sent|)
      && WholeOf(All(s), f) <= s.log.wire
  {
    RunsKeep(es);
    var s := After(es).value;
    FinishedWhole(s.log.finished, All(s), |s.log.finished|);
  }

  /** A late payload is never generated again once one of its bytes has left. */
  lemma StartedPayloadIsFixed(es: seq<Event>, gen: nat -> seq<Byte>, i: nat)
    requires After(es).Some? && i < |After(es).value.queue| && After(es).value.queue[i].gone != []
    ensures Prepared(After(es).value, gen).queue[i] == After(es).value.queue[i]
    ensures i == 0
  {
    RunsKeep(es);
    var s := After(es).value;
    assert Waiting(s)[i] == s.queue[i];
    assert All(s)[|s.log.finished| + i] == s.queue[i];
  }

  // ---------------------------------------------------------------- what a complete write completes

  lemma {:induction false} EnqueueAllFinishesNothing(s: State, items: seq<Item>, n: nat)
    requires n <= |items|
    ensures EnqueueAll(s, items, n).log.finished == s.log.finished
  {
    if n != 0 {
      EnqueueAllFinishesNothing(s, items, n - 1);
    }
  }

  lemma {:induction false} FinishHeadFinishesOne(s: State, react: nat -> seq<Item>, n: nat)
    requires 0 < n <= |s.queue|
    ensures var t := FinishHead(s, react);
      && |t.log.finished| == |s.log.finished| + 1
      && n - 1 <= |t.queue| && t.queue[..n - 1] == s.queue[1..n]
      && Offered(t.queue, n - 1) == Offered(s.queue, n) - |s.queue[0].payload|
  {
    var items := react(s.queue[0].id);
    EnqueueAllFinishesNothing(Completed(s), items, |items|);
    EnqueueAllAppends(Completed(s), items, |items|);
    OfferedTail(s, react, n);
  }

  lemma {:induction false} NothingOfferedIsEmpty(q: seq<Req>, n: nat, i: nat)
    requires i < n <= |q| && Offered(q, n) == 0
    ensures q[i].payload == []
  {
    if i < n - 1 {
      NothingOfferedIsEmpty(q, n - 1, i);
    }
  }

  /**
    A write that took everything offered completes all requests offered exactly if the last
    one was not empty, or was the only one: booking stops when no bytes are left, and an empty
    payload behind them waits for another flush.
   */
  lemma {:induction false} CompleteWriteCompletesIff(s: State, n: nat, react: nat -> seq<Item>)
    requires 0 < n <= |s.queue|
    ensures |Book(s, Offered(s.queue, n), n, react).log.finished| == |s.log.finished| + n
      <==> n == 1 || s.queue[n - 1].payload != []
    ensures |Book(s, Offered(s.queue, n), n, react).log.finished| <= |s.log.finished| + n
    decreases n
  {
    var k := Offered(s.queue, n);
    var t := FinishHead(s, react);
    OfferedFront(s.queue, n);
    FinishHeadFinishesOne(s, react, n);
    var left := k - |s.queue[0].payload|;
    if left == 0 {
      if n > 1 {
        NothingOfferedIsEmpty(t.queue, n - 1, n - 2);
        assert t.queue[..n - 1][n - 2] == s.queue[1..n][n - 2];
      }
    } else {
      CompleteWriteCompletesIff(t, n - 1, react);
      assert t.queue[..n - 1][n - 2] == s.queue[1..n][n - 2];
    }
  }

  /** The same of a flush whose write took everything offered. */
  lemma {:induction false} CompleteFlushCompletesIff(s: State, gen: nat -> seq<Byte>, react: nat -> seq<Item>)
    requires !s.closed && s.queue != []
    ensures var q, n := Prepared(s, gen).queue, Min(|s.queue|, IOV_MAX);
      && 0 < n <= |q|
      && var t := Flush(s, gen, Sent(Offered(q, n)), react);
        |t.log.finished| == |s.log.finished| + n <==> n == 1 || q[n - 1].payload != []
  {
    CompleteWriteCompletesIff(Prepared(s, gen), Min(|s.queue|, IOV_MAX), react);
  }

  /** Two plain sends, the second of them empty, and a write that takes the one byte there is. */
  ghost predicate SendsNothingLast(es: seq<Event>) {
    && |es| == 3 && es[0] == Send(Plain([7])) && es[1] == Send(Plain([]))
    && es[2].Write? && es[2].o == Sent(1) && forall id :: es[2].react(id) == []
  }

  /** The empty request stays queued although everything was written, until another write. */
  lemma {:induction false} EmptyPayloadStaysBehind(es: seq<Event>)
    requires SendsNothingLast(es)
    ensures After(es).Some?
    ensures var s := After(es).value;
      && s.log.wire == [7] && |s.queue| == 1 && s.queue[0].payload == [] && |s.log.finished| == 1
      && var gen, react := es[2].gen, es[2].react;
        Possible(s, gen, Sent(0)) && |Flush(s, gen, Sent(0), react).log.finished| == 2
  {
    var a, b := NewReq(0, Plain([7])), NewReq(1, Plain([]));
    var gen, react := es[2].gen, es[2].react;
    assert es[..2][..1] == es[..1] && es[..1][..0] == [];
    assert After(es[..0]) == Some(Init());
    assert After(es[..1]) == Some(Enqueue(Init(), Plain([7])));
    var s := Enqueue(Enqueue(Init(), Plain([7])), Plain([]));
    assert After(es[..2]) == Some(s);
    assert s.queue == [a, b];
    PlainIsPrepared(s, gen);
    assert Offered(s.queue, 1) == 1 && Offered(s.queue, 2) == 1;
    OneOfTwoIsBooked(s, react, a, b);
  }

  lemma PlainIsPrepared(s: State, gen: nat -> seq<Byte>)
    requires forall i :: 0 <= i < |s.queue| ==> !s.queue[i].exec
    ensures Prepared(s, gen) == s
  {
    assert Generate(s.queue, gen, Min(|s.queue|, IOV_MAX)) == s.queue;
  }

  lemma {:induction false} OneOfTwoIsBooked(s: State, react: nat -> seq<Item>, a: Req, b: Req)
    requires s.queue == [a, b] && a.payload != [] && b.payload == [] && !b.exec && forall id :: react(id) == []
    ensures Offered(s.queue, 2) == |a.payload| && Book(s, |a.payload|, 2, react) == Completed(s)
    ensures Completed(s).queue == [b]
  {
    assert Offered(s.queue, 1) == |a.payload|;
    OfferedTail(s, react, 2);
    assert FinishHead(s, react) == Completed(s);
  }

  // ---------------------------------------------------------------- the stream object

  /** `struct stream`, as far as sending goes. */
  class Stream {
    var queue: seq<Req>
    var cork: bool
    var closed: bool
    var log: Log

    ghost predicate Valid() reads this { cork == closed && (closed ==> queue == []) }

    ghost function View(): State reads this { State(queue, closed, log) }

    constructor ()
      ensures Valid() && View() == Init()
    {
      queue, cork, closed, log := [], false, false, Log([], [], [], [], []);
    }

    /** The part of `stream_tcp_send` and `stream_tcp_exec_and_send` that does not flush. */
    method Insert(item: Item)
      modifies this
      ensures View() == Enqueue(old(View()), item)
      ensures cork == old(cork)
    {
      queue := queue + [NewReq(|log.sent|, item)];
      log := log.(sent := log.sent + [item]);
    }

    /** Removes the head and completes it; its callback finds the stream corked. */
    method FinishRequest(react: nat -> seq<Item>)
      requires cork && queue != []
      modifies this
      ensures cork && View() == FinishHead(old(View()), react)
    {
      ghost var s := View();
      var r := queue[0];
      queue := queue[1..];
      log := log.(wire := log.wire + r.payload,
                  finished := log.finished + [r.(gone := r.gone + r.payload, payload := [], exec := false)],
                  calls := log.calls + [Call(r.id, Done)]);
      assert View() == Completed(s);
      var items := react(r.id);
      for i := 0 to |items|
        invariant cork && View() == EnqueueAll(Completed(s), items, i)
      {
        Insert(items[i]);
      }
    }

    /** The loop that gathers at most `IOV_MAX` payloads for one write. */
    method Gather(gen: nat -> seq<Byte>) returns (n: nat, size: nat)
      modifies this
      ensures n == Min(|old(queue)|, IOV_MAX)
      ensures View() == Prepared(old(View()), gen)
      ensures size == Offered(queue, n)
      ensures cork == old(cork)
    {
      n, size := 0, 0;
      while n < |queue| && n < IOV_MAX
        invariant n <= Min(|old(queue)|, IOV_MAX)
        invariant queue == Generate(old(queue), gen, n)
        invariant size == Offered(queue, n)
        invariant closed == old(closed) && log == old(log) && cork == old(cork)
      {
        ghost var before := queue;
        var r := queue[n];
        if r.exec {
          r := r.(payload := gen(r.id), made := r.made + [gen(r.id)]);
        }
        queue := queue[n := r];
        OfferedSame(before, queue, n);
        size := size + |r.payload|;
        n := n + 1;
      }
    }

    /** The loop that books what a write reported. */
    method BookWritten(k: nat, n: nat, react: nat -> seq<Item>)
      requires cork && n <= |queue| && k <= Offered(queue, n)
      modifies this
      ensures cork && View() == Book(old(View()), k, n, react)
    {
      var left: int, m: nat := k, n;
      ghost var end := Book(View(), k, n, react);
      while m > 0
        invariant cork && m <= |queue| && 0 <= left <= Offered(queue, m)
        invariant Book(View(), left, m, react) == end
        decreases m
      {
        var size := |queue[0].payload|;
        ghost var s := View();
        OfferedFront(queue, m);
        left := left - size;
        if left >= 0 {
          OfferedTail(s, react, m);
          FinishRequest(react);
          m := m - 1;
        } else {
          var r := queue[0];
          var cut := size + left;
          queue := [r.(payload := r.payload[cut..], exec := false, gone := r.gone + r.payload[..cut])] + queue[1..];
          log := log.(wire := log.wire + r.payload[..cut]);
          assert View() == CutHead(s, cut);
        }
        if left <= 0 {
          return;
        }
      }
    }

    /** `stream_tcp__flush`, where the write reports `o`, cut down to what it was offered. */
    method DoFlush(gen: nat -> seq<Byte>, o: Outcome, react: nat -> seq<Item>) returns (rc: int)
      requires Valid() && Possible(View(), gen, o)
      modifies this
      ensures Valid() && View() == Flush(old(View()), gen, o, react)
      ensures rc == FlushResult(old(View()), o)
    {
      if cork {
        return 0;
      }
      ghost var s := View();
      var n, size := Gather(gen);
      if n == 0 {
        assert Prepared(s, gen).queue == s.queue;
        return 0;
      }
      match o
      case Sent(k) =>
        cork := true;
        BookWritten(k, n, react);
        BookStaysOpen(Prepared(s, gen), k, n, react);
        cork := false;
        return k;
      case Again => return 0;
      case Pipe =>
        var _ := DoClose();
        return -1;
      case Broken => return -1;
    }

    /** `stream_tcp_close` */
    method DoClose() returns (rc: int)
      requires Valid()
      modifies this
      ensures Valid() && closed && View() == Close(old(View()))
      ensures rc == if old(closed) then -1 else 0
    {
      if closed {
        return -1;
      }
      closed, cork := true, true;
      log := log.(dropped := queue);
      ghost var i := 0;
      while queue != []
        invariant i <= |old(queue)| && queue == old(queue)[i..] && closed && cork
        invariant log == old(log).(dropped := old(queue), calls := old(log).calls + FailedCalls(old(queue))[..i])
        decreases |queue|
      {
        log := log.(calls := log.calls + [Call(queue[0].id, Failed)]);
        queue := queue[1..];
        i := i + 1;
      }
      assert FailedCalls(old(queue))[..i] == FailedCalls(old(queue));
      return 0;
    }

    /** `stream_tcp_send` and `stream_tcp_exec_and_send` */
    method DoSend(item: Item, gen: nat -> seq<Byte>, o: Outcome, react: nat -> seq<Item>) returns (rc: int)
      requires Valid() && Possible(Next(View(), Event.Send(item)), gen, o)
      modifies this
      ensures Valid() && View() == Flush(Next(old(View()), Event.Send(item)), gen, o, react)
      ensures rc == if old(closed) then -1 else FlushResult(Next(old(View()), Event.Send(item)), o)
    {
      if closed {
        return -1;
      }
      Insert(item);
      rc := DoFlush(gen, o, react);
    }
  }

  lemma {:induction false} OfferedSame(q: seq<Req>, r: seq<Req>, n: nat)
    requires n <= |q| && n <= |r| && q[..n] == r[..n]
    ensures Offered(q, n) == Offered(r, n)
  {
    if n != 0 {
      assert q[n - 1] == q[..n][n - 1] && r[n - 1] == r[..n][n - 1];
      assert q[..n - 1] == q[..n][..n - 1] && r[..n - 1] == r[..n][..n - 1];
      OfferedSame(q, r, n - 1);
    }
  }

  lemma {:induction false} EnqueueAllStaysOpen(s: State, items: seq<Item>, n: nat)
    requires n <= |items|
    ensures EnqueueAll(s, items, n).closed == s.closed
  {
    if n != 0 {
      EnqueueAllStaysOpen(s, items, n - 1);
    }
  }

  lemma {:induction false} BookStaysOpen(s: State, k: nat, n: nat, react: nat -> seq<Item>)
    requires n <= |s.queue| && k <= Offered(s.queue, n)
    ensures Book(s, k, n, react).closed == s.closed
    decreases n
  {
    if n != 0 && k >= |s.queue[0].payload| {
      OfferedTail(s, react, n);
      var items := react(s.queue[0].id);
      EnqueueAllStaysOpen(Completed(s), items, |items|);
      if k != |s.queue[0].payload| {
        BookStaysOpen(FinishHead(s, react), k - |s.queue[0].payload|, n - 1, react);
      }
    }
  }
}
