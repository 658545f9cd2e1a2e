/** What a frame adds to the output: each tile damaged at its start, once, in loop order. */
module TightFrames {
  import opened Common
  import opened Tight

  /** The frame under way is the one that event `n` started. */
  predicate StartedAt(es: seq<Event>, n: nat) {
    n < |es| && es[n].Start? && forall i :: n < i < |es| ==> !es[i].Start?
  }

  /** Only a start changes what the frame is about. */
  lemma {:induction false} FrameStaysTheSame(s: State, e: Event)
    requires Enabled(s, e) && !e.Start?
    ensures var t := Next(s, e);
      && t.damaged == s.damaged && t.before == s.before && t.grids == s.grids && t.basic == s.basic && t.frame == s.frame
  {
  }

  lemma {:induction false} FrameIsTheStarted(es: seq<Event>, n: nat)
    requires After(es).Some? && StartedAt(es, n)
    ensures After(es[..n]).Some?
    ensures var s, b, e := After(es).value, After(es[..n]).value, es[n];
      && s.damaged == e.damaged && s.grids == e.grids && s.basic == e.basic
      && s.before == b.wire && s.frame == b.frame + 1
    decreases |es|
  {
    var front, e := es[..|es| - 1], es[|es| - 1];
    if n == |es| - 1 {
      assert es[..n] == front;
    } else {
      assert front[..n] == es[..n];
      FrameIsTheStarted(front, n);
      FrameStaysTheSame(After(front).value, e);
    }
  }

  function Output(frame: nat, p: Pos, basic: bool): Entry { Entry(frame, p, if basic then Some(p.x % 4) else None) }

  lemma {:induction false} OutputGrows(s: State)
    requires Inv(s) && !s.stage.Idle?
    ensures s.before <= s.wire && |s.wire| == |s.before| + |s.emitted|
    ensures forall i :: 0 <= i < |s.emitted| ==> s.wire[|s.before| + i] == Output(s.frame, s.emitted[i], s.basic)
  {
  }

  /**
    When the frame that event `n` started is through, the output has grown by exactly the
    tiles that were damaged then: each once, in loop order, marked with its frame and with
    the stream of its column, or with none where no tile is compressed.
   */
  lemma {:induction false} FrameIsEmitted(es: seq<Event>, n: nat)
    requires After(es).Some? && StartedAt(es, n) && Enabled(After(es).value, FinishEnd)
    ensures After(es[..n]).Some?
    ensures var s, b, e := After(es).value, After(es[..n]).value, es[n];
      && Lists(s.emitted, e.damaged) && s.nRects == |e.damaged|
      && |s.wire| == |b.wire| + |e.damaged| && b.wire <= s.wire
      && |s.emitted| == |e.damaged|
      && forall i :: 0 <= i < |s.emitted| ==> s.wire[|b.wire| + i] == Output(b.frame + 1, s.emitted[i], e.basic)
  {
    FrameIsTheStarted(es, n);
    FrameIsComplete(es);
    RunsKeep(es);
    OutputGrows(After(es).value);
    ListedCount(After(es).value.emitted, es[n].damaged);
  }
}
