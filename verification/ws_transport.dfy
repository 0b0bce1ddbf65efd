/**
 The bounded envelope queue of the WebSocket transport.

 A reader task appends received envelopes, bounded both by count and by bytes; a consumer takes
 them through a getter task that may already hold one envelope while the reader runs again. Sizes
 travel in a separate deque. Overflow drops the new envelope and latches one resync per episode;
 the consumer ends the episode when the backlog has drained. The resume cursor is kept beside it.
 */
module WsTransportModel {
  import opened Common

  const QUEUE_MAXSIZE: nat := 4096
  const QUEUE_MAX_BYTES: nat := 64 * 1024 * 1024
  const LOW_WATER: nat := QUEUE_MAXSIZE / 2

  datatype Envelope<E> = Envelope(seqNo: Option<int>, event: E)

  /** A validated envelope and the length of the text frame it came in. */
  datatype Frame<E> = Frame(envelope: Envelope<E>, size: nat)

  datatype Cause = CountBound | ByteBound

  // ---- the transport's fields ----

  datatype Fields<E> = Fields(
    queue: seq<Envelope<E>>, sizes: seq<nat>, queuedBytes: int,
    droppedCount: nat, overflowing: bool, overflowStart: nat, lastSeq: Option<int>)

  function Empty<E>(): Fields<E> {
    Fields([], [], 0, 0, false, 0, None)
  }

  function Cursor(current: Option<int>, seqNo: Option<int>): Option<int> {
    if seqNo.Some? && (current.None? || seqNo.value > current.value) then seqNo else current
  }

  /** The bound that rejects a frame, bytes first; None when it fits. */
  function BoundHit<E>(w: Fields<E>, size: nat): Option<Cause> {
    if w.queuedBytes + size > QUEUE_MAX_BYTES then Some(ByteBound)
    else if |w.queue| >= QUEUE_MAXSIZE then Some(CountBound)
    else None
  }

  function Overflowed<E>(w: Fields<E>): Fields<E> {
    var dropped := w.droppedCount + 1;
    if w.overflowing then w.(droppedCount := dropped)
    else w.(droppedCount := dropped, overflowing := true, overflowStart := dropped)
  }

  function Received<E>(w: Fields<E>, f: Frame<E>): Fields<E> {
    var seen := w.(lastSeq := Cursor(w.lastSeq, f.envelope.seqNo));
    if BoundHit(w, f.size).Some? then Overflowed(seen)
    else seen.(queue := w.queue + [f.envelope], sizes := w.sizes + [f.size], queuedBytes := w.queuedBytes + f.size)
  }

  /** The anchor a replay_lost frame names; a malformed or negative one drops the cursor. */
  function Anchor(oldest: Option<int>): Option<int> {
    if oldest.Some? && oldest.value >= 0 then oldest else None
  }

  predicate EndsEpisode<E>(w: Fields<E>) {
    w.overflowing && |w.queue| <= LOW_WATER
  }

  /** The consumer resumes with one envelope that has left the queue. */
  function Resumed<E>(w: Fields<E>): Fields<E> {
    var popped := if w.sizes == [] then w else w.(queuedBytes := w.queuedBytes - w.sizes[0], sizes := w.sizes[1..]);
    if EndsEpisode(w) then popped.(overflowing := false) else popped
  }

  function Tally<E>(w: Fields<E>): int {
    w.droppedCount - w.overflowStart + 1
  }

  // ---- interleaved steps of reader, getter and consumer ----

  /** The getter task of the one running `events()` iterator. */
  datatype Getter<E> = NoGetter | Waiting | Holding(envelope: Envelope<E>)

  datatype System<E> = System(w: Fields<E>, getter: Getter<E>)

  datatype Step<E> =
    | Receive(frame: Frame<E>)
    | ReplayLost(oldest: Option<int>)
    | AskNext
    | GetterTakes
    | ConsumerResumes

  predicate Enabled<E>(s: System<E>, step: Step<E>) {
    match step
    case Receive(_) => true
    case ReplayLost(_) => true
    case AskNext => s.getter.NoGetter?
    case GetterTakes => s.getter.Waiting? && s.w.queue != []
    case ConsumerResumes => s.getter.Holding?
  }

  function Next<E>(s: System<E>, step: Step<E>): System<E>
    requires Enabled(s, step)
  {
    match step
    case Receive(f) => s.(w := Received(s.w, f))
    case ReplayLost(oldest) => s.(w := s.w.(lastSeq := Anchor(oldest)))
    case AskNext => s.(getter := Waiting)
    case GetterTakes => System(s.w.(queue := s.w.queue[1..]), Holding(s.w.queue[0]))
    case ConsumerResumes => System(Resumed(s.w), NoGetter)
  }

  // ---- what an observer records ----

  datatype Fate<E> = Accepted(frame: Frame<E>) | Dropped(frame: Frame<E>, episode: nat)

  /** A resync fired by an overflow, and how many envelopes had entered and left the queue by then. */
  datatype Resync = Resync(cause: Cause, enqueued: int, dequeued: int)

  /** The end of an episode: the tally reported, and the counts at that moment. */
  datatype Drain = Drain(tally: int, enqueued: int, dequeued: int)

  datatype History<E> = History(
    fates: seq<Fate<E>>, delivered: seq<Envelope<E>>, resyncs: seq<Resync>, drains: seq<Drain>,
    anchor: Option<int>, anchoredAt: nat)

  function AcceptedFrames<E>(fates: seq<Fate<E>>): seq<Frame<E>> {
    if fates == [] then []
    else
      var rest, last := AcceptedFrames(fates[..|fates| - 1]), fates[|fates| - 1];
      if last.Accepted? then rest + [last.frame] else rest
  }

  function Drops<E>(fates: seq<Fate<E>>, episode: nat): nat {
    if fates == [] then 0
    else
      var last := fates[|fates| - 1];
      Drops(fates[..|fates| - 1], episode) + (if last.Dropped? && last.episode == episode then 1 else 0)
  }

  function Envelopes<E>(frames: seq<Frame<E>>): seq<Envelope<E>> {
    seq(|frames|, i requires 0 <= i < |frames| => frames[i].envelope)
  }

  function Sizes<E>(frames: seq<Frame<E>>): seq<nat> {
    seq(|frames|, i requires 0 <= i < |frames| => frames[i].size)
  }

  function Sum(s: seq<nat>): nat {
    if s == [] then 0 else s[0] + Sum(s[1..])
  }

  function Tallies(drains: seq<Drain>): int {
    if drains == [] then 0 else Tallies(drains[..|drains| - 1]) + drains[|drains| - 1].tally
  }

  function InFlight<E>(getter: Getter<E>): seq<Envelope<E>> {
    if getter.Holding? then [getter.envelope] else []
  }

  function Enqueued<E>(h: History<E>): int {
    |AcceptedFrames(h.fates)|
  }

  function Dequeued<E>(s: System<E>, h: History<E>): int {
    |h.delivered| + |InFlight(s.getter)|
  }

  function Recorded<E>(s: System<E>, h: History<E>, step: Step<E>): History<E>
    requires Enabled(s, step)
  {
    match step
    case Receive(f) =>
      var bound := BoundHit(s.w, f.size);
      if bound.None? then h.(fates := h.fates + [Accepted(f)])
      else if s.w.overflowing && |h.resyncs| > 0 then h.(fates := h.fates + [Dropped(f, |h.resyncs| - 1)])
      else h.(fates := h.fates + [Dropped(f, |h.resyncs|)],
              resyncs := h.resyncs + [Resync(bound.value, Enqueued(h), Dequeued(s, h))])
    case ReplayLost(oldest) => h.(anchor := Anchor(oldest), anchoredAt := |h.fates|)
    case ConsumerResumes =>
      var out := h.(delivered := h.delivered + [s.getter.envelope]);
      if EndsEpisode(s.w) then out.(drains := h.drains + [Drain(Tally(s.w), Enqueued(h), Dequeued(s, h))]) else out
    case _ => h
  }

  /** The state and the record after a whole run; None when some step was not enabled. */
  function Run<E>(steps: seq<Step<E>>): Option<(System<E>, History<E>)> {
    if steps == [] then Some((System(Empty(), NoGetter), History([], [], [], [], None, 0)))
    else
      var before := Run(steps[..|steps| - 1]);
      var step := steps[|steps| - 1];
      if before.None? || !Enabled(before.value.0, step) then None
      else Some((Next(before.value.0, step), Recorded(before.value.0, before.value.1, step)))
  }

  // ---- queue refinement ----

  /**
   Delivered, in flight and queued are the accepted envelopes in order; the size deque is aligned and
   within bounds.
   */
  ghost predicate QueueRefines<E>(s: System<E>, h: History<E>) {
    var accepted := AcceptedFrames(h.fates);
    && h.delivered + InFlight(s.getter) + s.w.queue == Envelopes(accepted)
    && |h.delivered| <= |accepted|
    && s.w.sizes == Sizes(accepted[|h.delivered|..])
    && s.w.queuedBytes == Sum(s.w.sizes) <= QUEUE_MAX_BYTES
    && |s.w.queue| <= QUEUE_MAXSIZE
    && |accepted| + s.w.droppedCount == |h.fates|
  }

  lemma {:induction false} SumSnoc(s: seq<nat>, x: nat)
    ensures Sum(s + [x]) == Sum(s) + x
  {
    if s == [] {
      assert (s + [x])[1..] == [];
    } else {
      SumSnoc(s[1..], x);
      assert (s + [x])[1..] == s[1..] + [x];
    }
  }

  lemma {:induction false} AcceptedSnoc<E>(fates: seq<Fate<E>>, fate: Fate<E>)
    ensures AcceptedFrames(fates + [fate]) == AcceptedFrames(fates) + (if fate.Accepted? then [fate.frame] else [])
    ensures forall e: nat ::
              Drops(fates + [fate], e) == Drops(fates, e) + (if fate.Dropped? && fate.episode == e then 1 else 0)
  {
    assert (fates + [fate])[..|fates|] == fates;
  }

  lemma {:induction false} QueueRefinesReceive<E>(s: System<E>, h: History<E>, f: Frame<E>)
    requires QueueRefines(s, h)
    ensures QueueRefines(Next(s, Receive(f)), Recorded(s, h, Receive(f)))
  {
    hide AcceptedFrames, Drops, Sum;
    var accepted := AcceptedFrames(h.fates);
    var fate := Recorded(s, h, Receive(f)).fates[|h.fates|];
    AcceptedSnoc(h.fates, fate);
    if BoundHit(s.w, f.size).None? {
      SumSnoc(s.w.sizes, f.size);
      var more := accepted + [f];
      assert Envelopes(more) == Envelopes(accepted) + [f.envelope];
      assert more[|h.delivered|..] == accepted[|h.delivered|..] + [f];
      assert Sizes(more[|h.delivered|..]) == Sizes(accepted[|h.delivered|..]) + [f.size];
    }
  }

  lemma {:induction false} QueueRefinesResume<E>(s: System<E>, h: History<E>)
    requires QueueRefines(s, h) && s.getter.Holding?
    ensures QueueRefines(Next(s, ConsumerResumes), Recorded(s, h, ConsumerResumes))
  {
    var accepted, d := AcceptedFrames(h.fates), |h.delivered|;
    assert |Envelopes(accepted)| == |accepted|;
    assert Sizes(accepted[d..])[1..] == Sizes(accepted[d + 1..]);
    assert h.delivered + [s.getter.envelope] + [] + s.w.queue == Envelopes(accepted);
  }

  lemma {:induction false} QueueRefinesStep<E>(s: System<E>, h: History<E>, step: Step<E>)
    requires QueueRefines(s, h) && Enabled(s, step)
    ensures QueueRefines(Next(s, step), Recorded(s, h, step))
  {
    match step {
      case Receive(f) => QueueRefinesReceive(s, h, f);
      case GetterTakes =>
        assert s.w.queue == [s.w.queue[0]] + s.w.queue[1..];
        assert h.delivered + [] + s.w.queue == h.delivered + [s.w.queue[0]] + s.w.queue[1..];
      case ConsumerResumes => QueueRefinesResume(s, h);
      case _ =>
    }
  }

  // ---- overflow episodes ----

  /**
   One resync per episode; each reported tally is the number of drops of its episode, and all drops are
   accounted for.
   */
  ghost predicate EpisodesAccounted<E>(s: System<E>, h: History<E>) {
    var current := if s.w.overflowing then Tally(s.w) else 0;
    && |h.resyncs| == |h.drains| + (if s.w.overflowing then 1 else 0)
    && (forall i :: 0 <= i < |h.drains| ==> h.drains[i].tally == Drops(h.fates, i))
    && (s.w.overflowing ==> Tally(s.w) == Drops(h.fates, |h.drains|))
    && (forall i :: 0 <= i < |h.fates| && h.fates[i].Dropped? ==> h.fates[i].episode < |h.resyncs|)
    && (forall e: nat :: e >= |h.resyncs| ==> Drops(h.fates, e) == 0)
    && Tallies(h.drains) + current == s.w.droppedCount
  }

  lemma {:induction false} EpisodesReceive<E>(s: System<E>, h: History<E>, f: Frame<E>)
    requires EpisodesAccounted(s, h)
    ensures EpisodesAccounted(Next(s, Receive(f)), Recorded(s, h, Receive(f)))
  {
    hide AcceptedFrames, Drops;
    AcceptedSnoc(h.fates, Recorded(s, h, Receive(f)).fates[|h.fates|]);
  }

  lemma {:induction false} EpisodesStep<E>(s: System<E>, h: History<E>, step: Step<E>)
    requires EpisodesAccounted(s, h) && Enabled(s, step)
    ensures EpisodesAccounted(Next(s, step), Recorded(s, h, step))
  {
    match step {
      case Receive(f) => EpisodesReceive(s, h, f);
      case ConsumerResumes =>
        if EndsEpisode(s.w) {
          var more := h.drains + [Drain(Tally(s.w), Enqueued(h), Dequeued(s, h))];
          assert more[..|h.drains|] == h.drains;
        }
      case _ =>
    }
  }

  // ---- hysteresis ----

  /** Resyncs and drains alternate, the counts only grow, and each is taken at a known queue length. */
  ghost predicate Alternate(resyncs: seq<Resync>, drains: seq<Drain>, enqueued: int, dequeued: int) {
    && |drains| <= |resyncs| <= |drains| + 1
    && (forall r <- resyncs :: r.enqueued <= enqueued && r.dequeued <= dequeued)
    && (forall d <- drains :: d.enqueued <= enqueued && d.dequeued <= dequeued)
    && (forall r <- resyncs :: r.cause.CountBound? ==> r.enqueued - r.dequeued == QUEUE_MAXSIZE)
    && (forall d <- drains :: d.enqueued - d.dequeued <= LOW_WATER)
    && (forall i, j :: 0 <= i <= j < |drains| ==>
                         resyncs[i].enqueued <= drains[j].enqueued && resyncs[i].dequeued <= drains[j].dequeued)
    && (forall i, j :: 0 <= i < |drains| && i < j < |resyncs| ==>
                         drains[i].enqueued <= resyncs[j].enqueued && drains[i].dequeued <= resyncs[j].dequeued)
  }

  ghost predicate Alternating<E>(s: System<E>, h: History<E>) {
    && Alternate(h.resyncs, h.drains, Enqueued(h), Dequeued(s, h))
    && |h.resyncs| == |h.drains| + (if s.w.overflowing then 1 else 0)
  }

  lemma {:induction false} AlternateResync(
    resyncs: seq<Resync>, drains: seq<Drain>, enqueued: int, dequeued: int, cause: Cause)
    requires Alternate(resyncs, drains, enqueued, dequeued) && |resyncs| == |drains|
    requires cause.CountBound? ==> enqueued - dequeued == QUEUE_MAXSIZE
    ensures Alternate(resyncs + [Resync(cause, enqueued, dequeued)], drains, enqueued, dequeued)
  {
  }

  lemma {:induction false} AlternateDrain(
    resyncs: seq<Resync>, drains: seq<Drain>, enqueued: int, dequeued: int, tally: int)
    requires Alternate(resyncs, drains, enqueued, dequeued) && |resyncs| == |drains| + 1
    requires enqueued - dequeued <= LOW_WATER
    ensures Alternate(resyncs, drains + [Drain(tally, enqueued, dequeued)], enqueued, dequeued)
  {
  }

  lemma {:induction false} QueueLength<E>(s: System<E>, h: History<E>)
    requires QueueRefines(s, h)
    ensures |s.w.queue| == Enqueued(h) - Dequeued(s, h) && |s.w.queue| <= QUEUE_MAXSIZE
  {
    assert |Envelopes(AcceptedFrames(h.fates))| == |AcceptedFrames(h.fates)|;
  }

  lemma {:induction false} AlternateGrows(
    resyncs: seq<Resync>, drains: seq<Drain>, enqueued: int, dequeued: int, more: int, gone: int)
    requires Alternate(resyncs, drains, enqueued, dequeued) && enqueued <= more && dequeued <= gone
    ensures Alternate(resyncs, drains, more, gone)
  {
  }

  lemma {:induction false} CountsGrow<E>(s: System<E>, h: History<E>, step: Step<E>)
    requires Enabled(s, step)
    ensures Enqueued(h) <= Enqueued(Recorded(s, h, step))
    ensures Dequeued(s, h) <= Dequeued(Next(s, step), Recorded(s, h, step))
  {
    if step.Receive? {
      AcceptedSnoc(h.fates, Recorded(s, h, step).fates[|h.fates|]);
    }
  }

  lemma {:induction false} AlternatingStep<E>(s: System<E>, h: History<E>, step: Step<E>)
    requires |s.w.queue| == Enqueued(h) - Dequeued(s, h) && |s.w.queue| <= QUEUE_MAXSIZE
    requires Alternating(s, h) && Enabled(s, step)
    ensures Alternating(Next(s, step), Recorded(s, h, step))
  {
    var (t, out) := (Next(s, step), Recorded(s, h, step));
    CountsGrow(s, h, step);
    if step.Receive? && |out.resyncs| > |h.resyncs| {
      AlternateResync(h.resyncs, h.drains, Enqueued(h), Dequeued(s, h), BoundHit(s.w, step.frame.size).value);
    } else if step.ConsumerResumes? && |out.drains| > |h.drains| {
      AlternateDrain(h.resyncs, h.drains, Enqueued(h), Dequeued(s, h), Tally(s.w));
    }
    AlternateGrows(out.resyncs, out.drains, Enqueued(h), Dequeued(s, h), Enqueued(out), Dequeued(t, out));
  }

  // ---- the resume cursor ----

  /** Whether `n` is the anchor or the seq of an envelope received since. */
  ghost predicate Candidate<E>(h: History<E>, n: int)
    requires h.anchoredAt <= |h.fates|
  {
    h.anchor == Some(n) || exists i :: h.anchoredAt <= i < |h.fates| && h.fates[i].frame.envelope.seqNo == Some(n)
  }

  /** The cursor is the greatest candidate, and absent exactly when there is none. */
  ghost predicate CursorIsMaximum<E>(s: System<E>, h: History<E>) {
    && h.anchoredAt <= |h.fates|
    && (h.anchor.Some? ==> h.anchor.value >= 0)
    && (s.w.lastSeq.None? ==> forall n :: !Candidate(h, n))
    && (s.w.lastSeq.Some? ==> Candidate(h, s.w.lastSeq.value) && forall n :: Candidate(h, n) ==> n <= s.w.lastSeq.value)
  }

  lemma {:induction false} CursorStep<E>(s: System<E>, h: History<E>, step: Step<E>)
    requires CursorIsMaximum(s, h) && Enabled(s, step)
    ensures CursorIsMaximum(Next(s, step), Recorded(s, h, step))
  {
    var out := Recorded(s, h, step);
    match step {
      case Receive(f) =>
        assert out.fates[..|h.fates|] == h.fates && out.fates[|h.fates|].frame == f;
        forall n ensures Candidate(out, n) <==> Candidate(h, n) || f.envelope.seqNo == Some(n) {
          if Candidate(h, n) && h.anchor != Some(n) {
            var i :| h.anchoredAt <= i < |h.fates| && h.fates[i].frame.envelope.seqNo == Some(n);
            assert out.fates[i] == h.fates[i];
          }
        }
      case ReplayLost(oldest) =>
      case _ =>
        forall n ensures Candidate(out, n) <==> Candidate(h, n) {
        }
    }
  }

  /** The cursor moves down, or is lost, only when the daemon reports a lost replay. */
  lemma {:induction false} CursorFallsOnlyOnReplayLost<E>(s: System<E>, step: Step<E>)
    requires Enabled(s, step) && s.w.lastSeq.Some?
    requires Next(s, step).w.lastSeq.None? || Next(s, step).w.lastSeq.value < s.w.lastSeq.value
    ensures step.ReplayLost? && Next(s, step).w.lastSeq == Anchor(step.oldest)
  {
  }

  // ---- every run ----

  lemma {:induction false} EveryRun<E>(steps: seq<Step<E>>)
    requires Run(steps).Some?
    ensures var (s, h) := Run(steps).value;
            QueueRefines(s, h) && EpisodesAccounted(s, h) && Alternating(s, h) && CursorIsMaximum(s, h)
  {
    if steps == [] {
      var (s, h) := Run(steps).value;
      assert Envelopes(AcceptedFrames(h.fates)) == [];
      assert Sizes(AcceptedFrames(h.fates)[|h.delivered|..]) == [];
      forall n ensures !Candidate(h, n) {
      }
    } else {
      var front, step := steps[..|steps| - 1], steps[|steps| - 1];
      EveryRun(front);
      var (s, h) := Run(front).value;
      QueueRefinesStep(s, h, step);
      EpisodesStep(s, h, step);
      QueueLength(s, h);
      AlternatingStep(s, h, step);
      CursorStep(s, h, step);
    }
  }

  lemma {:induction false} RunSnoc<E>(steps: seq<Step<E>>, step: Step<E>)
    requires Run(steps).Some? && Enabled(Run(steps).value.0, step)
    ensures var (s, h) := Run(steps).value; Run(steps + [step]) == Some((Next(s, step), Recorded(s, h, step)))
  {
    assert (steps + [step])[..|steps|] == steps;
  }

  /** What a received frame meets and does, in numbers. */
  ghost predicate TakenByRoom<E>(s: System<E>, h: History<E>, frame: Frame<E>, t: System<E>, out: History<E>)
    requires |h.delivered| <= |AcceptedFrames(h.fates)|
  {
    var undelivered := Sum(Sizes(AcceptedFrames(h.fates)[|h.delivered|..]));
    var room := undelivered + frame.size <= 64 * 1024 * 1024 && |s.w.queue| < 4096;
    && |out.fates| == |h.fates| + 1 && out.fates[..|h.fates|] == h.fates
    && out.fates[|h.fates|].frame == frame && (out.fates[|h.fates|].Accepted? <==> room)
    && t.w.queue == s.w.queue + (if room then [frame.envelope] else [])
    && t.w.droppedCount == s.w.droppedCount + (if room then 0 else 1)
    && |out.resyncs| == |h.resyncs| + (if !room && |h.resyncs| == |h.drains| then 1 else 0)
  }

  lemma {:induction false} ReceivedByRoom<E>(s: System<E>, h: History<E>, frame: Frame<E>)
    requires QueueRefines(s, h) && EpisodesAccounted(s, h)
    ensures TakenByRoom(s, h, frame, Next(s, Receive(frame)), Recorded(s, h, Receive(frame)))
  {
    hide AcceptedFrames, Sum, Drops, Tallies;
    assert Recorded(s, h, Receive(frame)).fates[..|h.fates|] == h.fates;
  }

  /**
   After every run, the next envelope is accepted if and only if there is room for it: the frames not yet
   delivered and its own make at most 64 MiB, and fewer than 4096 envelopes are queued. Accepted it is
   queued last; else it is counted, and fires a resync exactly when no episode is open.
   */
  lemma {:induction false} AcceptedExactlyWhenThereIsRoom<E>(steps: seq<Step<E>>, frame: Frame<E>)
    requires Run(steps).Some?
    ensures Run(steps + [Receive(frame)]).Some?
    ensures var h := Run(steps).value.1; |h.delivered| <= |AcceptedFrames(h.fates)|
    ensures var ((s, h), (t, out)) := (Run(steps).value, Run(steps + [Receive(frame)]).value);
            TakenByRoom(s, h, frame, t, out)
  {
    hide TakenByRoom, AcceptedFrames, Sum, Next, Recorded, EpisodesAccounted, Alternating, CursorIsMaximum;
    EveryRun(steps);
    var (s, h) := Run(steps).value;
    RunSnoc(steps, Receive(frame));
    ReceivedByRoom(s, h, frame);
  }

  /** An episode ends exactly when the consumer resumes with at most 2048 envelopes left; nothing else ends it. */
  lemma {:induction false} EpisodeEndsExactlyWhenLow<E>(steps: seq<Step<E>>, step: Step<E>)
    requires Run(steps).Some? && Enabled(Run(steps).value.0, step)
    requires Run(steps).value.0.w.overflowing
    ensures Run(steps + [step]).Some?
    ensures var ((s, h), (t, out)) := (Run(steps).value, Run(steps + [step]).value);
            var ends := step.ConsumerResumes? && |s.w.queue| <= 2048;
            && t.w.overflowing == !ends
            && |out.drains| == |h.drains| + (if ends then 1 else 0)
            && (ends ==> out.drains[|h.drains|].tally == Drops(h.fates, |h.drains|))
  {
    RunSnoc(steps, step);
    EveryRun(steps);
    hide Run, AcceptedFrames, Sum, Drops, Alternating, CursorIsMaximum, QueueRefines;
  }

  /**
   In every run, two consecutive count overflows have at least MAXSIZE - LOW_WATER dequeues and as many
   enqueues between them.
   */
  lemma {:induction false} CountOverflowsAreSeparated<E>(steps: seq<Step<E>>, i: nat)
    requires Run(steps).Some? && i + 1 < |Run(steps).value.1.resyncs|
    requires Run(steps).value.1.resyncs[i].cause.CountBound? && Run(steps).value.1.resyncs[i + 1].cause.CountBound?
    ensures var (a, b) := (Run(steps).value.1.resyncs[i], Run(steps).value.1.resyncs[i + 1]);
            && b.dequeued - a.dequeued >= QUEUE_MAXSIZE - LOW_WATER
            && b.enqueued - a.enqueued >= QUEUE_MAXSIZE - LOW_WATER
  {
    EveryRun(steps);
    var h := Run(steps).value.1;
    assert h.drains[i] in h.drains && h.resyncs[i] in h.resyncs && h.resyncs[i + 1] in h.resyncs;
  }

  /**
   Every envelope received since the anchor was enqueued, or dropped in an episode that fired a resync;
   nothing is lost silently.
   */
  lemma {:induction false} NoSilentGap<E>(steps: seq<Step<E>>, i: nat)
    requires Run(steps).Some? && Run(steps).value.1.anchoredAt <= i < |Run(steps).value.1.fates|
    ensures var (s, h) := Run(steps).value;
            var fate := h.fates[i];
            && (fate.frame.envelope.seqNo.Some? ==>
                  s.w.lastSeq.Some? && fate.frame.envelope.seqNo.value <= s.w.lastSeq.value)
            && (fate.Accepted? ==> fate.frame.envelope in h.delivered + InFlight(s.getter) + s.w.queue)
            && (fate.Dropped? ==> fate.episode < |h.resyncs|)
  {
    EveryRun(steps);
    var (s, h) := Run(steps).value;
    var fate := h.fates[i];
    if fate.frame.envelope.seqNo.Some? {
      assert Candidate(h, fate.frame.envelope.seqNo.value);
    }
    if fate.Accepted? {
      AcceptedHas(h.fates, i);
      var accepted := AcceptedFrames(h.fates);
      var j :| 0 <= j < |accepted| && accepted[j] == fate.frame;
      assert Envelopes(accepted)[j] == fate.frame.envelope;
    }
  }

  lemma {:induction false} AcceptedHas<E>(fates: seq<Fate<E>>, i: nat)
    requires i < |fates| && fates[i].Accepted?
    ensures fates[i].frame in AcceptedFrames(fates)
  {
    if i < |fates| - 1 {
      AcceptedHas(fates[..|fates| - 1], i);
    }
  }

  // ---- stopping the consumer ----

  /** `stop()` cancels the getter; an envelope it already held is lost with it, its size is not. */
  function Stopped<E>(s: System<E>): System<E> {
    s.(getter := NoGetter)
  }

  /** After a stop the size deque still matches the queue exactly when the getter held nothing. */
  lemma {:induction false} StopKeepsAlignmentExactlyWhenNothingIsHeld<E>(s: System<E>, h: History<E>)
    requires QueueRefines(s, h)
    ensures |Stopped(s).w.sizes| == |Stopped(s).w.queue| <==> !s.getter.Holding?
  {
    var accepted := AcceptedFrames(h.fates);
    assert |Envelopes(accepted)| == |accepted|;
    assert |s.w.sizes| == |InFlight(s.getter)| + |s.w.queue|;
  }

  // ---- the object ----

  /**
   The subscribe frame sent on every (re)connect. The flags stand in it only when they are set, `since`
   only when there is a cursor.
   */
  datatype SubscribeFrame = SubscribeFrame(topics: set<string>, classify: bool, releasedOnly: bool, since: Option<int>)

  class WsTransport<E> {
    const classify: bool
    const releasedOnly: bool
    var envelopeQueue: seq<Envelope<E>>
    var envelopeSizes: seq<nat>
    var queuedBytes: int
    var droppedCount: nat
    var overflowing: bool
    var overflowStartDropped: nat
    var lastSeq: Option<int>
    var subscriptions: set<string>

    ghost function View(): Fields<E> reads this {
      Fields(envelopeQueue, envelopeSizes, queuedBytes, droppedCount, overflowing, overflowStartDropped, lastSeq)
    }

    constructor (initialSubscriptions: set<string>, classify: bool, releasedOnly: bool)
      ensures View() == Empty() && subscriptions == initialSubscriptions
      ensures this.classify == classify && this.releasedOnly == releasedOnly
    {
      this.classify, this.releasedOnly := classify, releasedOnly;
      envelopeQueue, envelopeSizes, queuedBytes := [], [], 0;
      droppedCount, overflowing, overflowStartDropped := 0, false, 0;
      lastSeq := None;
      subscriptions := initialSubscriptions;
    }

    /**
     The tail of `_handle_text` for a validated envelope; `resync` is what the resync callback is given,
     if it fires.
     */
    method HandleEnvelope(frame: Frame<E>) returns (resync: Option<int>)
      modifies this
      ensures View() == Received(old(View()), frame) && subscriptions == old(subscriptions)
      ensures resync == if old(BoundHit(View(), frame.size).Some? && !overflowing) then Some(-1) else None
      // spelt out: queued when both bounds leave room for it, else counted, and a resync opens the episode
      ensures var room := old(queuedBytes) + frame.size <= 64 * 1024 * 1024 && |old(envelopeQueue)| < 4096;
              && envelopeQueue == old(envelopeQueue) + (if room then [frame.envelope] else [])
              && envelopeSizes == old(envelopeSizes) + (if room then [frame.size] else [])
              && droppedCount == old(droppedCount) + (if room then 0 else 1)
              && (resync.Some? <==> !room && !old(overflowing))
    {
      resync := None;
      var seqNo := frame.envelope.seqNo;
      if seqNo.Some? && (lastSeq.None? || seqNo.value > lastSeq.value) {
        lastSeq := seqNo;
      }
      if queuedBytes + frame.size > QUEUE_MAX_BYTES {
        resync := RegisterOverflow();
        return;
      }
      if |envelopeQueue| >= QUEUE_MAXSIZE {
        resync := RegisterOverflow();
        return;
      }
      envelopeQueue := envelopeQueue + [frame.envelope];
      envelopeSizes := envelopeSizes + [frame.size];
      queuedBytes := queuedBytes + frame.size;
    }

    method RegisterOverflow() returns (resync: Option<int>)
      modifies this`droppedCount, this`overflowing, this`overflowStartDropped
      ensures View() == Overflowed(old(View()))
      ensures resync == if old(overflowing) then None else Some(-1)
    {
      resync := None;
      droppedCount := droppedCount + 1;
      if !overflowing {
        overflowing := true;
        overflowStartDropped := droppedCount;
        resync := Some(-1);
      }
    }

    /** The `replay_lost` branch of `_handle_control`: it re-anchors the cursor and always fires the callback. */
    method HandleReplayLost(oldest: Option<int>) returns (resync: int)
      modifies this`lastSeq
      ensures View() == old(View()).(lastSeq := Anchor(oldest))
      ensures oldest.Some? && oldest.value >= 0 ==> lastSeq == oldest
      ensures oldest.None? || oldest.value < 0 ==> lastSeq == None
      ensures resync == if oldest.Some? then oldest.value else -1
    {
      if oldest.Some? && oldest.value >= 0 {
        lastSeq := oldest;
      } else {
        lastSeq := None;
      }
      resync := if oldest.Some? then oldest.value else -1;
    }

    /** The getter task completes: one envelope leaves the queue. */
    method GetNowait() returns (envelope: Envelope<E>)
      requires envelopeQueue != []
      modifies this`envelopeQueue
      ensures View() == old(View()).(queue := old(envelopeQueue)[1..]) && envelope == old(envelopeQueue)[0]
    {
      envelope := envelopeQueue[0];
      envelopeQueue := envelopeQueue[1..];
    }

    /** `events()` resumes with the getter done; `tally` is what it reports when it ends an episode. */
    method ConsumerResumed() returns (tally: Option<int>)
      modifies this
      ensures View() == Resumed(old(View())) && subscriptions == old(subscriptions)
      ensures tally == if old(EndsEpisode(View())) then Some(old(Tally(View()))) else None
      // spelt out: an open episode ends with at most 2048 envelopes left, and reports what it dropped
      ensures overflowing == (old(overflowing) && |envelopeQueue| > 2048)
      ensures tally == if old(overflowing) && |envelopeQueue| <= 2048
                       then Some(droppedCount - overflowStartDropped + 1) else None
    {
      tally := None;
      if envelopeSizes != [] {
        queuedBytes := queuedBytes - envelopeSizes[0];
        envelopeSizes := envelopeSizes[1..];
      }
      if overflowing && |envelopeQueue| <= LOW_WATER {
        overflowing := false;
        tally := Some(droppedCount - overflowStartDropped + 1);
      }
    }

    method InitialSubscribe() returns (frame: Option<SubscribeFrame>)
      ensures frame.None? <==> subscriptions == {}
      ensures frame.Some? ==> frame.value == SubscribeFrame(subscriptions, classify, releasedOnly, lastSeq)
    {
      if subscriptions == {} {
        return None;
      }
      var fields := SubscribeFrame(subscriptions, false, false, None);
      if classify {
        fields := fields.(classify := true);
      }
      if releasedOnly {
        fields := fields.(releasedOnly := true);
      }
      if lastSeq.Some? {
        fields := fields.(since := lastSeq);
      }
      frame := Some(fields);
    }
  }
}
