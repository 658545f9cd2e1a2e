/**
  What each step of the send queue comes to on the outside: the bytes a write moves, the
  requests it completes, the sends it lets in, and an end of the queue.
 */
module TcpWrites {
  import opened Common
  import opened TcpStream

  // ---------------------------------------------------------------- what a write is offered

  /** A late payload is generated anew for every write. */
  function Fresh(r: Req, gen: nat -> seq<Byte>): seq<Byte> { if r.exec then gen(r.id) else r.payload }

  /** The bytes that the first `n` requests have to send. */
  function Due(q: seq<Req>, gen: nat -> seq<Byte>, n: nat): seq<Byte>
    requires n <= |q|
  {
    if n == 0 then [] else Due(q, gen, n - 1) + Fresh(q[n - 1], gen)
  }

  lemma {:induction false} PayloadLength(q: seq<Req>, n: nat)
    requires n <= |q|
    ensures |PayloadOf(q, n)| == Offered(q, n)
  {
    if n != 0 {
      PayloadLength(q, n - 1);
    }
  }

  lemma {:induction false} DueIsOffered(s: State, gen: nat -> seq<Byte>, n: nat)
    requires n <= |s.queue| && n <= 1024
    ensures PayloadOf(Prepared(s, gen).queue, n) == Due(s.queue, gen, n)
    ensures |Due(s.queue, gen, n)| == Offered(Prepared(s, gen).queue, n)
  {
    PayloadLength(Prepared(s, gen).queue, n);
    if n != 0 {
      DueIsOffered(s, gen, n - 1);
    }
  }

  // ---------------------------------------------------------------- what booking moves

  lemma {:induction false} SendsMoveNothing(s: State, items: seq<Item>, n: nat)
    requires n <= |items|
    ensures var t := EnqueueAll(s, items, n);
      && t.log == s.log.(sent := s.log.sent + items[..n]) && t.closed == s.closed
  {
    if n == 0 {
      assert s.log.sent + items[..0] == s.log.sent;
    } else {
      SendsMoveNothing(s, items, n - 1);
      assert items[..n] == items[..n - 1] + [items[n - 1]];
    }
  }

  /** The head is through: its bytes are out, its callback has had its say. */
  lemma {:induction false} HeadIsThrough(s: State, react: nat -> seq<Item>, n: nat)
    requires 0 < n <= |s.queue|
    ensures var t, r := FinishHead(s, react), s.queue[0];
      && t.log.wire == s.log.wire + r.payload
      && |t.log.finished| == |s.log.finished| + 1
      && t.log.sent == s.log.sent + react(r.id)
      && n - 1 <= |t.queue| && t.queue[..n - 1] == s.queue[1..n]
      && Offered(t.queue, n - 1) == Offered(s.queue, n) - |r.payload|
  {
    var items := react(s.queue[0].id);
    SendsMoveNothing(Completed(s), items, |items|);
    assert items[..|items|] == items;
    FinishHeadFinishesOne(s, react, n);
  }

  lemma {:induction false} PayloadFront(q: seq<Req>, n: nat)
    requires 0 < n <= |q|
    ensures PayloadOf(q, n) == q[0].payload + PayloadOf(q[1..], n - 1)
  {
    if n == 1 {
      assert PayloadOf(q, 0) == [] && PayloadOf(q, 1) == [] + q[0].payload;
    } else {
      PayloadFront(q, n - 1);
      Assoc(q[0].payload, PayloadOf(q[1..], n - 2), q[n - 1].payload);
    }
  }

  lemma {:induction false} PayloadSame(q: seq<Req>, r: seq<Req>, n: nat)
    requires n <= |q| && n <= |r| && q[..n] == r[..n]
    ensures PayloadOf(q, n) == PayloadOf(r, n)
  {
    if n != 0 {
      assert q[n - 1] == q[..n][n - 1] && r[n - 1] == r[..n][n - 1];
      assert q[..n - 1] == q[..n][..n - 1] && r[..n - 1] == r[..n][..n - 1];
      PayloadSame(q, r, n - 1);
    }
  }

  /** What is left to offer once the head is through. */
  lemma {:induction false} PayloadTail(q: seq<Req>, r: seq<Req>, i: nat, n: nat)
    requires 0 < i <= n <= |q| && n - 1 <= |r| && r[..n - 1] == q[1..n]
    ensures PayloadOf(q, i) == q[0].payload + PayloadOf(r, i - 1)
  {
    PayloadFront(q, i);
    assert q[1..][..i - 1] == q[1..n][..i - 1] && r[..i - 1] == r[..n - 1][..i - 1];
    PayloadSame(q[1..], r, i - 1);
  }

  lemma PrefixOfSum(wire: seq<Byte>, a: seq<Byte>, b: seq<Byte>, k: nat)
    requires k <= |a| + |b|
    ensures k <= |a| ==> (a + b)[..k] == a[..k]
    ensures k >= |a| ==> wire + (a + b)[..k] == (wire + a) + b[..k - |a|]
  {
  }

  lemma {:induction false} BookedBytes(s: State, k: nat, n: nat, react: nat -> seq<Item>)
    requires n <= |s.queue| && k <= Offered(s.queue, n)
    ensures k <= |PayloadOf(s.queue, n)|
    ensures Book(s, k, n, react).log.wire == s.log.wire + PayloadOf(s.queue, n)[..k]
    decreases n
  {
    PayloadLength(s.queue, n);
    if n != 0 {
      var a := s.queue[0].payload;
      PayloadFront(s.queue, n);
      PrefixOfSum(s.log.wire, a, PayloadOf(s.queue[1..], n - 1), k);
      if k >= |a| {
        HeadIsThrough(s, react, n);
        var t := FinishHead(s, react);
        PayloadTail(s.queue, t.queue, n, n);
        PayloadLength(t.queue, n - 1);
        PrefixOfSum(s.log.wire, a, PayloadOf(t.queue, n - 1), k);
        if k != |a| {
          BookedBytes(t, k - |a|, n - 1, react);
        }
      }
    }
  }

  /** How many requests a step completed. */
  function NewlyDone(s: State, t: State): int { |t.log.finished| - |s.log.finished| }

  lemma {:induction false} BookedRequests(s: State, k: nat, n: nat, react: nat -> seq<Item>)
    requires n <= |s.queue| && k <= Offered(s.queue, n)
    ensures 0 <= NewlyDone(s, Book(s, k, n, react)) <= n
    decreases n
  {
    if n != 0 && k >= |s.queue[0].payload| {
      HeadIsThrough(s, react, n);
      OfferedFront(s.queue, n);
      if k != |s.queue[0].payload| {
        BookedRequests(FinishHead(s, react), k - |s.queue[0].payload|, n - 1, react);
      }
    }
  }

  lemma {:induction false} HeadIsBookedIff(s: State, k: nat, n: nat, react: nat -> seq<Item>)
    requires 0 < n <= |s.queue| && k <= Offered(s.queue, n)
    ensures 0 < NewlyDone(s, Book(s, k, n, react)) <==> |s.queue[0].payload| <= k
    ensures |s.queue[0].payload| == k ==> NewlyDone(s, Book(s, k, n, react)) == 1
  {
    var a := s.queue[0].payload;
    OfferedFront(s.queue, n);
    if k >= |a| {
      HeadIsThrough(s, react, n);
      if k != |a| {
        BookedRequests(FinishHead(s, react), k - |a|, n - 1, react);
      }
    }
  }

  /** What is booked beyond the head is booked on the queue that the head leaves. */
  lemma {:induction false} RestIsBooked(s: State, k: nat, n: nat, react: nat -> seq<Item>)
      returns (t: State, left: nat)
    requires 0 < n <= |s.queue| && |s.queue[0].payload| < k <= Offered(s.queue, n)
    ensures left == k - |s.queue[0].payload|
    ensures n - 1 <= |t.queue| && t.queue[..n - 1] == s.queue[1..n] && left <= Offered(t.queue, n - 1)
    ensures NewlyDone(s, Book(s, k, n, react)) == 1 + NewlyDone(t, Book(t, left, n - 1, react))
  {
    t, left := FinishHead(s, react), k - |s.queue[0].payload|;
    OfferedFront(s.queue, n);
    HeadIsThrough(s, react, n);
  }

  /** Booking goes on while there are bytes left, and completes what they reach the end of. */
  lemma {:induction false} BookedIff(s: State, k: nat, n: nat, react: nat -> seq<Item>, i: nat)
    requires i < n <= |s.queue| && k <= Offered(s.queue, n)
    ensures i < NewlyDone(s, Book(s, k, n, react))
      <==> |PayloadOf(s.queue, i + 1)| <= k && (i == 0 || |PayloadOf(s.queue, i)| < k)
    decreases n
  {
    var a := s.queue[0].payload;
    PayloadFront(s.queue, i + 1);
    HeadIsBookedIff(s, k, n, react);
    if i != 0 {
      PayloadFront(s.queue, i);
      if k > |a| {
        var t, left := RestIsBooked(s, k, n, react);
        BookedIff(t, left, n - 1, react, i - 1);
        PayloadTail(s.queue, t.queue, i + 1, n);
        PayloadTail(s.queue, t.queue, i, n);
      }
    } else {
      assert PayloadOf(s.queue[1..], 0) == [];
    }
  }

  // ---------------------------------------------------------------- what a write moves

  /**
    A write that reports `k` bytes puts exactly the first `k` bytes on the wire of what was
    due, late payloads being those generated for this very write.
   */
  lemma {:induction false} WriteMovesBytes(s: State, gen: nat -> seq<Byte>, k: nat, react: nat -> seq<Item>)
    requires !s.closed && Possible(s, gen, Sent(k))
    ensures var due := Due(s.queue, gen, Min(|s.queue|, 1024));
      k <= |due| && Flush(s, gen, Sent(k), react).log.wire == s.log.wire + due[..k]
  {
    var n := Min(|s.queue|, 1024);
    DueIsOffered(s, gen, n);
    if s.queue != [] {
      BookedBytes(Prepared(s, gen), k, n, react);
    }
  }

  /** It completes the requests whose ends it reached, the first one even without a byte. */
  lemma {:induction false} WriteCompletesIff(
      s: State, gen: nat -> seq<Byte>, k: nat, react: nat -> seq<Item>, i: nat)
    requires !s.closed && Possible(s, gen, Sent(k)) && i < |s.queue|
    ensures i < NewlyDone(s, Flush(s, gen, Sent(k), react)) <==>
      && i < 1024
      && |Due(s.queue, gen, i + 1)| <= k && (i == 0 || |Due(s.queue, gen, i)| < k)
  {
    var n := Min(|s.queue|, 1024);
    var t := Prepared(s, gen);
    BookedRequests(t, k, n, react);
    if i < n {
      DueIsOffered(s, gen, i + 1);
      DueIsOffered(s, gen, i);
      BookedIff(t, k, n, react, i);
    }
  }

  /** Every queued request fails, in order, and nothing else happens. */
  predicate AllFail(s: State, t: State) {
    && t.closed && t.queue == []
    && t.log == s.log.(calls := t.log.calls, dropped := t.log.dropped)
    && |t.log.calls| == |s.log.calls| + |s.queue| && s.log.calls <= t.log.calls
    && forall i :: 0 <= i < |s.queue| ==> t.log.calls[|s.log.calls| + i] == Call(s.queue[i].id, Failed)
  }

  /** All requests stay where they are; only late payloads may be generated again. */
  predicate AllWait(s: State, t: State) {
    && !t.closed && t.log == s.log && |t.queue| == |s.queue|
    && forall i :: 0 <= i < |s.queue| ==> Waits(s.queue[i], t.queue[i])
  }

  predicate Waits(r: Req, t: Req) {
    if r.exec then t.id == r.id && t.exec && t.gone == r.gone else t == r
  }

  /** Where nothing is written nothing moves; only a broken pipe fails the requests. */
  lemma {:induction false} UnwrittenStays(s: State, gen: nat -> seq<Byte>, o: Outcome, react: nat -> seq<Item>)
    requires !s.closed && !o.Sent?
    ensures var t := Flush(s, gen, o, react);
      if o == Pipe && s.queue != [] then AllFail(s, t) else AllWait(s, t)
  {
  }

  lemma {:induction false} ShutFailsAll(s: State)
    requires !s.closed
    ensures AllFail(s, Next(s, Shut))
  {
  }

  /** The result says how far the bytes on the wire got, and is negative exactly on errors. */
  lemma {:induction false} ResultIsProgress(s: State, gen: nat -> seq<Byte>, o: Outcome, react: nat -> seq<Item>)
    requires Inv(s) && Possible(s, gen, o)
    ensures var rc, t := FlushResult(s, o), Flush(s, gen, o, react);
      && (rc >= 0 ==> |t.log.wire| == |s.log.wire| + rc)
      && (rc < 0 <==> !s.closed && s.queue != [] && (o == Pipe || o == Broken))
      && (rc < 0 ==> t.log.wire == s.log.wire)
  {
    if !s.closed {
      if o.Sent? {
        WriteMovesBytes(s, gen, o.k, react);
      } else {
        UnwrittenStays(s, gen, o, react);
      }
    }
  }

  // ---------------------------------------------------------------- what is let in

  /** The sends that the callbacks of requests `first` to `end - 1` make. */
  function Reactions(react: nat -> seq<Item>, first: nat, end: nat): seq<Item>
    decreases end
  {
    if end <= first then [] else Reactions(react, first, end - 1) + react(end - 1)
  }

  lemma {:induction false} ReactionsFront(react: nat -> seq<Item>, first: nat, end: nat)
    requires first < end
    ensures Reactions(react, first, end) == react(first) + Reactions(react, first + 1, end)
    decreases end
  {
    if first + 1 < end {
      ReactionsFront(react, first, end - 1);
      AssocItems(react(first), Reactions(react, first + 1, end - 1), react(end - 1));
    } else {
      assert Reactions(react, first, first) == [] && Reactions(react, end, end) == [];
    }
  }

  lemma AssocItems(a: seq<Item>, b: seq<Item>, c: seq<Item>)
    ensures (a + b) + c == a + (b + c)
  {
  }

  lemma {:induction false} BookedSends(s: State, k: nat, n: nat, react: nat -> seq<Item>)
    requires Inv(s) && !s.closed && Ready(s, n) && k <= Offered(s.queue, n)
    ensures var t := Book(s, k, n, react);
      t.log.sent == s.log.sent + Reactions(react, |s.log.finished|, |t.log.finished|)
    decreases n
  {
    var f := |s.log.finished|;
    assert Reactions(react, f, f) == [];
    if n != 0 && k >= |s.queue[0].payload| {
      assert All(s)[f] == s.queue[0];
      HeadIsThrough(s, react, n);
      FinishHeadKeeps(s, react);
      OfferedTail(s, react, n);
      var t := FinishHead(s, react);
      assert forall i :: 0 <= i < n - 1 ==> t.queue[i] == t.queue[..n - 1][i] == s.queue[1..n][i];
      if k != |s.queue[0].payload| {
        BookedRequests(t, k - |s.queue[0].payload|, n - 1, react);
        BookedSends(t, k - |s.queue[0].payload|, n - 1, react);
        var u := Book(s, k, n, react);
        ReactionsFront(react, f, |u.log.finished|);
        AssocItems(s.log.sent, react(f), Reactions(react, f + 1, |u.log.finished|));
      } else {
        ReactionsFront(react, f, f + 1);
        assert Reactions(react, f + 1, f + 1) == [];
      }
    }
  }

  /** What each step lets in: a send while the stream is open, and the sends of the callbacks it runs. */
  function LetIn(s: State, e: Event, t: State): seq<Item> {
    match e
    case Send(item) => if s.closed then [] else [item]
    case Write(_, _, react) => Reactions(react, |s.log.finished|, |t.log.finished|)
    case Shut => []
  }

  lemma {:induction false} StepLetsIn(s: State, e: Event)
    requires Inv(s) && Enabled(s, e)
    ensures Next(s, e).log.sent == s.log.sent + LetIn(s, e, Next(s, e))
  {
    if e.Write? {
      var n := Min(|s.queue|, 1024);
      assert Reactions(e.react, |s.log.finished|, |s.log.finished|) == [];
      if !s.closed && s.queue != [] {
        if e.o.Sent? {
          PreparedKeeps(s, e.gen);
          BookedSends(Prepared(s, e.gen), e.o.k, n, e.react);
        } else {
          UnwrittenStays(s, e.gen, e.o, e.react);
        }
      }
    }
  }

  /** All that a run let in, in order. */
  function AllLetIn(es: seq<Event>): seq<Item>
    requires After(es).Some?
  {
    if es == [] then []
    else
      var front := es[..|es| - 1];
      AllLetIn(front) + LetIn(After(front).value, es[|es| - 1], After(es).value)
  }

  /** Nothing is dropped on the way in: the requests stand for exactly what the run let in. */
  lemma {:induction false} EverySendStands(es: seq<Event>)
    requires After(es).Some?
    ensures var s := After(es).value;
      && |All(s)| == |AllLetIn(es)|
      && forall i :: 0 <= i < |All(s)| ==> All(s)[i].id == i && Stands(All(s)[i], AllLetIn(es)[i])
  {
    RunsKeep(es);
    AllIsSent(es);
  }

  lemma {:induction false} AllIsSent(es: seq<Event>)
    requires After(es).Some?
    ensures After(es).value.log.sent == AllLetIn(es)
  {
    if es != [] {
      var front := es[..|es| - 1];
      RunsKeep(front);
      AllIsSent(front);
      StepLetsIn(After(front).value, es[|es| - 1]);
    }
  }

  // ---------------------------------------------------------------- an end of the queue

  lemma EmptyMeansDone(s: State)
    requires Inv(s) && !s.closed && s.queue == []
    ensures |s.log.calls| == |s.log.sent| && forall i :: 0 <= i < |s.log.calls| ==> s.log.calls[i] == Call(i, Done)
  {
  }

  ghost predicate IsWrite(e: Event, gen: nat -> seq<Byte>, react: nat -> seq<Item>) {
    e.Write? && e.gen == gen && e.react == react && e.o.Sent?
  }

  lemma AssocEvents(a: seq<Event>, e: Event, b: seq<Event>)
    ensures a + ([e] + b) == (a + [e]) + b
  {
  }

  /** Where callbacks send nothing more, at most one complete write per request empties the queue. */
  lemma {:induction false} QueueEmpties(es: seq<Event>, s: State, gen: nat -> seq<Byte>, react: nat -> seq<Item>)
      returns (more: seq<Event>, t: State)
    requires After(es) == Some(s) && !s.closed && forall id :: react(id) == []
    ensures |more| <= |s.queue| && forall i :: 0 <= i < |more| ==> IsWrite(more[i], gen, react)
    ensures After(es + more) == Some(t) && !t.closed && t.queue == [] && t.log.sent == s.log.sent
    ensures |t.log.calls| == |s.log.sent| && forall i :: 0 <= i < |t.log.calls| ==> t.log.calls[i] == Call(i, Done)
    decreases |s.queue|
  {
    if s.queue == [] {
      RunsKeep(es);
      EmptyMeansDone(s);
      more, t := [], s;
      assert es + more == es;
    } else {
      var e, u := CompleteWrite(es, s, gen, react);
      var rest: seq<Event>;
      rest, t := QueueEmpties(es + [e], u, gen, react);
      more := [e] + rest;
      AssocEvents(es, e, rest);
    }
  }

  lemma {:induction false} CompleteWrite(es: seq<Event>, s: State, gen: nat -> seq<Byte>, react: nat -> seq<Item>)
      returns (e: Event, t: State)
    requires After(es) == Some(s) && !s.closed && s.queue != [] && forall id :: react(id) == []
    ensures IsWrite(e, gen, react)
    ensures After(es + [e]) == Some(t) && !t.closed && |t.queue| < |s.queue| && t.log.sent == s.log.sent
  {
    var n := Min(|s.queue|, 1024);
    var k := Offered(Prepared(s, gen).queue, n);
    e := Write(gen, Sent(k), react);
    assert (es + [e])[..|es|] == es;
    t := Next(s, e);
    RunsKeep(es);
    NextKeeps(s, e);
    BookStaysOpen(Prepared(s, gen), k, n, react);
    StepLetsIn(s, e);
    NoReactions(react, |s.log.finished|, |t.log.finished|);
    OfferedFront(Prepared(s, gen).queue, n);
    WriteCompletesIff(s, gen, k, react, 0);
    DueIsOffered(s, gen, 1);
    DueIsOffered(s, gen, n);
  }

  lemma {:induction false} NoReactions(react: nat -> seq<Item>, first: nat, end: nat)
    requires forall id :: react(id) == []
    ensures Reactions(react, first, end) == []
    decreases end
  {
    if first < end {
      NoReactions(react, first, end - 1);
    }
  }
}
