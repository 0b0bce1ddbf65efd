/** The reconnect loop of the WebSocket transport: its backoff ladder, jitter and reset rule. */
module Reconnect {

  const JITTER_SHARE: real := 0.2
  const HEALTHY_CONNECTION_SECONDS: real := 10.0

  /** The backoff ladder; past its last entry it clamps. */
  function Ladder(attempt: nat): real {
    if attempt == 0 then 0.5
    else if attempt == 1 then 2.0
    else if attempt == 2 then 5.0
    else if attempt == 3 then 15.0
    else 30.0
  }

  /** How one connection attempt ended. `Refused` is a rejected credential or box token. */
  datatype Outcome = Clean | Failed | Refused

  /**
   One turn of the loop: how the attempt ended, how long it took, the random draw, and whether the
   transport is closing by then.
   */
  datatype Turn = Turn(outcome: Outcome, seconds: real, draw: real, closing: bool)

  /** Time passes forwards and the draw lies in [-1, 1]. */
  predicate Plausible(t: Turn) {
    t.seconds >= 0.0 && -1.0 <= t.draw <= 1.0
  }

  predicate Resets(t: Turn) {
    t.outcome.Clean? && t.seconds >= HEALTHY_CONNECTION_SECONDS
  }

  predicate Ends(t: Turn) {
    t.outcome.Refused? || t.closing
  }

  function BackoffDelay(attempt: nat, draw: real): real {
    Ladder(attempt) + draw * (Ladder(attempt) * JITTER_SHARE)
  }

  /** The loop's variables, the waits it slept and the time it used. */
  datatype Loop = Loop(running: bool, attempt: nat, waits: seq<real>, elapsed: real)

  function TakeTurn(l: Loop, t: Turn): Loop {
    if !l.running then l
    else
      var attempt := if Resets(t) then 0 else l.attempt;
      if Ends(t) then l.(running := false, attempt := attempt, elapsed := l.elapsed + t.seconds)
      else
        var delay := BackoffDelay(attempt, t.draw);
        Loop(true, attempt + 1, l.waits + [delay], l.elapsed + t.seconds + delay)
  }

  function After(turns: seq<Turn>): Loop {
    if turns == [] then Loop(true, 0, [], 0.0) else TakeTurn(After(turns[..|turns| - 1]), turns[|turns| - 1])
  }

  /** The rung of the `i`-th wait: the turns since the last healthy clean connection, or since the start. */
  function Rung(turns: seq<Turn>, i: nat): nat
    requires i < |turns|
  {
    if Resets(turns[i]) || i == 0 then 0 else Rung(turns, i - 1) + 1
  }

  lemma {:induction false} DelayIsWithinShare(attempt: nat, draw: real)
    requires -1.0 <= draw <= 1.0
    ensures 0.8 * Ladder(attempt) <= BackoffDelay(attempt, draw) <= 1.2 * Ladder(attempt)
  {
    var spread := Ladder(attempt) * JITTER_SHARE;
    assert -spread <= draw * spread <= spread;
  }

  lemma {:induction false} LadderNeverFalls(a: nat, b: nat)
    requires a <= b
    ensures Ladder(a) <= Ladder(b) <= Ladder(4)
  {
  }

  lemma {:induction false} RungOfPrefix(turns: seq<Turn>, i: nat)
    requires i + 1 < |turns|
    ensures Rung(turns[..|turns| - 1], i) == Rung(turns, i)
  {
    if i > 0 {
      RungOfPrefix(turns, i - 1);
    }
  }

  lemma {:induction false} AttemptIsNextRung(turns: seq<Turn>)
    requires After(turns).running
    ensures |After(turns).waits| == |turns|
    ensures After(turns).attempt == if turns == [] then 0 else Rung(turns, |turns| - 1) + 1
  {
    if turns != [] {
      var front := turns[..|turns| - 1];
      AttemptIsNextRung(front);
      if |turns| > 1 {
        RungOfPrefix(turns, |turns| - 2);
      }
    }
  }

  /**
   Every wait of every run lies within 20% of the ladder at its rung; only a clean connection of at least
   10 s restarts the rungs.
   */
  lemma {:induction false} EveryWaitFollowsTheLadder(turns: seq<Turn>, i: nat)
    requires forall t <- turns :: Plausible(t)
    requires i < |After(turns).waits|
    ensures i < |turns|
    ensures 0.8 * Ladder(Rung(turns, i)) <= After(turns).waits[i] <= 1.2 * Ladder(Rung(turns, i))
    ensures var step := [0.5, 2.0, 5.0, 15.0, 30.0][if Rung(turns, i) < 4 then Rung(turns, i) else 4];
            0.8 * step <= After(turns).waits[i] <= 1.2 * step
  {
    var front, last := turns[..|turns| - 1], turns[|turns| - 1];
    var before := After(front);
    if i < |before.waits| {
      EveryWaitFollowsTheLadder(front, i);
      RungOfPrefix(turns, i);
    } else {
      AttemptIsNextRung(front);
      if i > 0 {
        RungOfPrefix(turns, i - 1);
      }
      assert last in turns;
      DelayIsWithinShare(Rung(turns, i), last.draw);
    }
  }

  /**
   The rungs start again after a clean connection of at least 10 s and after nothing else, and nothing but
   a rejected credential or a closing transport ends the loop.
   */
  lemma {:induction false} RungsRestartExactlyWhenHealthy(turns: seq<Turn>, t: Turn)
    requires After(turns).running
    ensures var (l, m) := (After(turns), After(turns + [t]));
            && m.running == (t.outcome != Refused && !t.closing)
            && (m.running ==>
                  && m.attempt == (if t.outcome == Clean && t.seconds >= 10.0 then 1 else l.attempt + 1)
                  && |m.waits| == |l.waits| + 1)
            && (!m.running ==> m.waits == l.waits)
  {
    AfterSnoc(turns, t);
  }

  /** A rejected credential or a closing transport ends the loop: nothing is waited for afterwards. */
  lemma {:induction false} NoWaitAfterTheEnd(turns: seq<Turn>, i: nat)
    requires i < |turns| && (turns[i].outcome == Refused || turns[i].closing)
    ensures |After(turns).waits| <= i && !After(turns).running
  {
    if i + 1 < |turns| {
      NoWaitAfterTheEnd(turns[..|turns| - 1], i);
    } else {
      WaitsAtMostTurns(turns[..i]);
    }
  }

  lemma {:induction false} WaitsAtMostTurns(turns: seq<Turn>)
    ensures |After(turns).waits| <= |turns|
  {
    if turns != [] {
      WaitsAtMostTurns(turns[..|turns| - 1]);
    }
  }

  // ---- pacing ----

  function Total(waits: seq<real>): real {
    if waits == [] then 0.0 else Total(waits[..|waits| - 1]) + waits[|waits| - 1]
  }

  /** The least time the first `n` rungs take. */
  function RungTime(n: nat): real {
    if n <= 4 then [0.0, 0.4, 2.0, 6.0, 18.0][n] else 18.0 + 24.0 * ((n - 4) as real)
  }

  lemma {:induction false} RungTimeStep(n: nat)
    ensures RungTime(n + 1) == RungTime(n) + 0.8 * Ladder(n)
  {
  }

  lemma {:induction false} RungClimbs(turns: seq<Turn>, i: nat, k: nat)
    requires i + k < |turns| && forall j :: i < j <= i + k ==> !Resets(turns[j])
    ensures Rung(turns, i + k) >= k
  {
    if k > 0 {
      RungClimbs(turns, i, k - 1);
    }
  }

  /**
   In any run, n waits in a row with no reset after the first of them take at least the first n rungs:
   from four waits on, 0.8 * (22.5 + 30 * (n - 4)) seconds. The first may follow a healthy connection.
   */
  lemma {:induction false} WaitsWithoutReset(turns: seq<Turn>, i: nat, n: nat)
    requires forall t <- turns :: Plausible(t)
    requires i + n <= |After(turns).waits|
    requires forall j :: i < j < i + n && j < |turns| ==> !Resets(turns[j])
    ensures var total := Total(After(turns).waits[i..i + n]);
            && total >= RungTime(n)
            && (n >= 4 ==> total >= 0.8 * (22.5 + 30.0 * ((n - 4) as real)))
  {
    if n > 0 {
      var k, waits := n - 1, After(turns).waits;
      WaitsWithoutReset(turns, i, k);
      EveryWaitFollowsTheLadder(turns, i + k);
      RungClimbs(turns, i, k);
      LadderNeverFalls(k, Rung(turns, i + k));
      RungTimeStep(k);
      assert waits[i..i + n][..k] == waits[i..i + k] by { WindowFront(waits, i, k); }
    }
  }

  lemma {:induction false} WindowFront(waits: seq<real>, i: nat, k: nat)
    requires i + k < |waits|
    ensures waits[i..i + k + 1][..k] == waits[i..i + k]
  {
  }

  /** Time the loop has saved up at a rung: what a reset from there may cost less than the average turn. */
  function Credit(attempt: nat): real {
    if attempt == 0 then 0.0 else if attempt == 1 then 74.0 / 15.0 else if attempt == 2 then 26.0 / 3.0 else 10.0
  }

  function Potential(l: Loop): real {
    l.elapsed + Credit(l.attempt) - 16.0 / 3.0 * (|l.waits| as real)
  }

  lemma {:induction false} TurnRaisesPotential(l: Loop, t: Turn)
    requires Plausible(t)
    ensures Potential(TakeTurn(l, t)) >= Potential(l)
  {
    if l.running && !Ends(t) {
      var attempt := if Resets(t) then 0 else l.attempt;
      DelayIsWithinShare(attempt, t.draw);
      assert (|l.waits| + 1) as real == (|l.waits| as real) + 1.0;
    }
  }

  /**
   In any window of any run, with resets at will, n waits take at least 16/3 * n - 10 seconds,
   connections included.
   */
  lemma {:induction false} AmortisedPacing(turns: seq<Turn>, start: nat)
    requires start <= |turns| && forall t <- turns :: Plausible(t)
    ensures var (a, b) := (After(turns[..start]), After(turns));
            b.elapsed - a.elapsed >= 16.0 / 3.0 * ((|b.waits| - |a.waits|) as real) - 10.0
    ensures Potential(After(turns)) >= Potential(After(turns[..start]))
    decreases |turns|
  {
    if start < |turns| {
      var front, last := turns[..|turns| - 1], turns[|turns| - 1];
      assert front[..start] == turns[..start] && last in turns;
      AmortisedPacing(front, start);
      TurnRaisesPotential(After(front), last);
    } else {
      assert turns[..start] == turns;
    }
    var (m, n) := (|After(turns[..start]).waits|, |After(turns).waits|);
    assert (n - m) as real == (n as real) - (m as real);
  }

  /** The bound is reached: one healthy connection and two failures, over and over, each drawing the shortest wait. */
  function Fastest(rounds: nat): seq<Turn> {
    if rounds == 0 then []
    else
      Fastest(rounds - 1)
      + [Turn(Clean, 10.0, -1.0, false), Turn(Failed, 0.0, -1.0, false), Turn(Failed, 0.0, -1.0, false)]
  }

  lemma {:induction false} AfterSnoc(turns: seq<Turn>, t: Turn)
    ensures After(turns + [t]) == TakeTurn(After(turns), t)
  {
    assert (turns + [t])[..|turns|] == turns;
  }

  /** The rate of the bound is exact: 3 waits every 16 seconds are possible for ever. */
  lemma {:induction false} AmortisedRateIsReached(rounds: nat)
    ensures var l := After(Fastest(rounds));
            l.running && |l.waits| == 3 * rounds && l.elapsed == 16.0 * (rounds as real)
  {
    if rounds > 0 {
      var f, a, b := Fastest(rounds - 1), Turn(Clean, 10.0, -1.0, false), Turn(Failed, 0.0, -1.0, false);
      AmortisedRateIsReached(rounds - 1);
      assert Fastest(rounds) == f + [a] + [b] + [b];
      AfterSnoc(f, a);
      AfterSnoc(f + [a], b);
      AfterSnoc(f + [a] + [b], b);
    }
  }

  // ---- the loop ----

  /** `_run_forever` against the given turns; it stops early on a refusal or when closing. */
  method RunForever(turns: seq<Turn>) returns (waits: seq<real>, elapsed: real)
    ensures waits == After(turns).waits && elapsed == After(turns).elapsed
  {
    var attempt := 0;
    waits, elapsed := [], 0.0;
    for i := 0 to |turns|
      invariant After(turns[..i]) == Loop(true, attempt, waits, elapsed)
    {
      assert turns[..i + 1] == turns[..i] + [turns[i]];
      AfterSnoc(turns[..i], turns[i]);
      var started := elapsed;
      elapsed := elapsed + turns[i].seconds;
      if turns[i].outcome.Refused? {
        StaysStopped(turns, i + 1);
        return;
      }
      if turns[i].outcome.Clean? && elapsed - started >= HEALTHY_CONNECTION_SECONDS {
        attempt := 0;
      }
      if turns[i].closing {
        StaysStopped(turns, i + 1);
        return;
      }
      var delay := BackoffDelay(attempt, turns[i].draw);
      attempt := attempt + 1;
      waits := waits + [delay];
      elapsed := elapsed + delay;
    }
    assert turns[..|turns|] == turns;
  }

  lemma {:induction false} StaysStopped(turns: seq<Turn>, i: nat)
    requires i <= |turns| && !After(turns[..i]).running
    ensures After(turns) == After(turns[..i])
    decreases |turns|
  {
    if i < |turns| {
      var front := turns[..|turns| - 1];
      assert front[..i] == turns[..i];
      StaysStopped(front, i);
    } else {
      assert turns[..i] == turns;
    }
  }
}
