/** Re-bootstrap throttling: lost-replay triggers start at most one snapshot walk at a time, spaced by a cooldown. */
module Rebootstrap {
  import opened Common

  const COOLDOWN_SECONDS: real := 30.0

  datatype Guard = Guard(closing: bool, running: bool, lastFinished: Option<real>)

  predicate Starts(g: Guard, now: real) {
    && !g.closing
    && !g.running
    && (g.lastFinished.Some? ==> now - g.lastFinished.value >= COOLDOWN_SECONDS)
  }

  /**
   A trigger comes from a `replay_lost` frame or a queue overflow; a walk ends by success, failure or
   cancellation.
   */
  datatype Step = Trigger | WalkEnds | BeginClose

  datatype Timed = Timed(at: real, step: Step)

  datatype Walk = Walk(start: real, end: Option<real>)

  datatype Run = Run(guard: Guard, walks: seq<Walk>, now: real)

  predicate Enabled(r: Run, t: Timed) {
    t.at >= r.now && (t.step.WalkEnds? ==> r.guard.running)
  }

  function Next(r: Run, t: Timed): Run {
    match t.step
    case Trigger =>
      if Starts(r.guard, t.at) then Run(r.guard.(running := true), r.walks + [Walk(t.at, None)], t.at)
      else r.(now := t.at)
    case WalkEnds =>
      var n := |r.walks|;
      Run(r.guard.(running := false, lastFinished := Some(t.at)),
          if n == 0 then [] else r.walks[n - 1 := r.walks[n - 1].(end := Some(t.at))], t.at)
    case BeginClose => r.(guard := r.guard.(closing := true), now := t.at)
  }

  /** The state after a whole timed run; None when a step was not enabled or time ran backwards. */
  function After(steps: seq<Timed>): Option<Run> {
    if steps == [] then Some(Run(Guard(false, false, None), [], 0.0))
    else
      var before := After(steps[..|steps| - 1]);
      var t := steps[|steps| - 1];
      if before.None? || !Enabled(before.value, t) then None else Some(Next(before.value, t))
  }

  /** Every walk but a running last one has ended, and each starts at least the cooldown after the one before ended. */
  ghost predicate Throttled(r: Run) {
    var n := |r.walks|;
    && (forall i :: 0 <= i < n ==> r.walks[i].start <= r.now)
    && (forall i :: 0 <= i < n && r.walks[i].end.Some? ==> r.walks[i].start <= r.walks[i].end.value <= r.now)
    && (forall i :: 0 <= i < n ==> (r.walks[i].end.None? <==> r.guard.running && i == n - 1))
    && (forall i, j :: 0 <= i < j < n ==>
                         r.walks[i].end.Some? && r.walks[j].start >= r.walks[i].end.value + COOLDOWN_SECONDS)
    && (r.guard.running ==> n > 0)
    && r.guard.lastFinished == (if r.guard.running then (if n > 1 then r.walks[n - 2].end else None)
                                else if n > 0 then r.walks[n - 1].end else None)
  }

  lemma {:induction false} ThrottledStep(r: Run, t: Timed)
    requires Throttled(r) && Enabled(r, t)
    ensures Throttled(Next(r, t))
  {
    if t.step.Trigger? && Starts(r.guard, t.at) {
      WalkStarts(r, t.at);
    } else if t.step.WalkEnds? {
      WalkIsClosed(r, t.at);
    }
  }

  lemma {:induction false} WalkStarts(r: Run, at: real)
    requires Throttled(r) && at >= r.now && Starts(r.guard, at)
    ensures Throttled(Next(r, Timed(at, Trigger)))
  {
    var n, out := |r.walks|, Next(r, Timed(at, Trigger));
    forall i, j | 0 <= i < j < n + 1
      ensures out.walks[i].end.Some? && out.walks[j].start >= out.walks[i].end.value + COOLDOWN_SECONDS
    {
      if j == n && i < n - 1 {
        assert r.walks[n - 1].start >= r.walks[i].end.value + COOLDOWN_SECONDS;
      }
    }
  }

  lemma {:induction false} WalkIsClosed(r: Run, at: real)
    requires Throttled(r) && at >= r.now && r.guard.running
    ensures Throttled(Next(r, Timed(at, WalkEnds)))
  {
    var n, out := |r.walks|, Next(r, Timed(at, WalkEnds));
    assert forall i :: 0 <= i < n - 1 ==> out.walks[i] == r.walks[i];
  }

  /** In every run, at most one walk is open at a time, and successive walks keep the cooldown between them. */
  lemma {:induction false} EveryRunIsThrottled(steps: seq<Timed>)
    requires After(steps).Some?
    ensures Throttled(After(steps).value)
  {
    if steps != [] {
      EveryRunIsThrottled(steps[..|steps| - 1]);
      ThrottledStep(After(steps[..|steps| - 1]).value, steps[|steps| - 1]);
    }
  }

  /** The walks of any run from the i-th to the j-th span at least 30 seconds each. */
  lemma {:induction false} WalksSpanTheCooldown(steps: seq<Timed>, i: nat, j: nat)
    requires After(steps).Some? && i <= j < |After(steps).value.walks|
    ensures var walks := After(steps).value.walks;
            walks[j].start - walks[i].start >= 30.0 * ((j - i) as real)
  {
    EveryRunIsThrottled(steps);
    if i < j {
      WalksSpanTheCooldown(steps, i, j - 1);
      assert (j - i) as real == ((j - 1 - i) as real) + 1.0;
    }
  }

  /** Once the client is closing, no walk starts. */
  lemma {:induction false} NoWalkStartsOnceClosing(steps: seq<Timed>, k: nat)
    requires After(steps).Some? && k <= |steps| && After(steps[..k]).Some? && After(steps[..k]).value.guard.closing
    ensures After(steps).value.guard.closing
    ensures |After(steps).value.walks| == |After(steps[..k]).value.walks|
    decreases |steps|
  {
    if k < |steps| {
      var front := steps[..|steps| - 1];
      assert front[..k] == steps[..k];
      NoWalkStartsOnceClosing(front, k);
      EveryRunIsThrottled(front);
    } else {
      assert steps[..k] == steps;
    }
  }

  /**
   A trigger is dropped only for a reason: the client closes, a walk is open, or one ended less than the
   cooldown ago.
   */
  lemma {:induction false} TriggerIsDroppedOnlyForAReason(steps: seq<Timed>, at: real)
    requires After(steps).Some? && at >= After(steps).value.now
    ensures var r := After(steps).value;
            |Next(r, Timed(at, Trigger)).walks| == |r.walks| <==>
              || r.guard.closing
              || exists w <- r.walks :: w.end.None? || at < w.end.value + 30.0
  {
    EveryRunIsThrottled(steps);
    var r := After(steps).value;
    var n := |r.walks|;
    if n > 0 {
      assert r.walks[n - 1] in r.walks;
    }
    forall w | w in r.walks && w.end.Some? && n > 0 && r.walks[n - 1].end.Some?
      ensures w.end.value <= r.walks[n - 1].end.value
    {
      var i :| 0 <= i < n && r.walks[i] == w;
      if i < n - 1 {
        assert r.walks[n - 1].start >= w.end.value + COOLDOWN_SECONDS;
      }
    }
  }

  // ---- the client's fields ----

  class RebootstrapGuard {
    var closing: bool
    var taskRunning: bool
    var lastRebootstrapFinished: Option<real>

    ghost function View(): Guard reads this {
      Guard(closing, taskRunning, lastRebootstrapFinished)
    }

    constructor ()
      ensures View() == Guard(false, false, None)
    {
      closing, taskRunning, lastRebootstrapFinished := false, false, None;
    }

    /** `_on_replay_lost`: the single funnel of both triggers. */
    method OnReplayLost(now: real) returns (started: bool)
      modifies this`taskRunning
      ensures started == Starts(old(View()), now)
      ensures started <==>
                && !closing && !old(taskRunning)
                && (lastRebootstrapFinished.None? || now - lastRebootstrapFinished.value >= 30.0)
      ensures View() == old(View()).(running := old(taskRunning) || started)
    {
      started := false;
      if closing {
        return;
      }
      if taskRunning {
        return;
      }
      if lastRebootstrapFinished.Some? {
        var since := now - lastRebootstrapFinished.value;
        if since < COOLDOWN_SECONDS {
          return;
        }
      }
      taskRunning := true;
      started := true;
    }

    /** The end of `_run_rebootstrap`; its `finally` stamps success, failure and cancellation alike. */
    method RebootstrapEnded(now: real)
      modifies this`taskRunning, this`lastRebootstrapFinished
      ensures View() == old(View()).(running := false, lastFinished := Some(now))
    {
      lastRebootstrapFinished := Some(now);
      taskRunning := false;
    }

    method BeginClosing()
      modifies this`closing
      ensures View() == old(View()).(closing := true)
    {
      closing := true;
    }
  }
}
