/** One REST request: a retry loop whose attempts and backoffs share a single deadline. */
module HttpRequest {
  import opened Common

  /** What the daemon, the gate or the network answers to one attempt. */
  datatype Answer = Decoded(body: string) | GateRefusal | Retryable(error: string) | Fatal(error: string)

  /** How an attempt would go if it were given all the time it needs. */
  datatype Trial = Trial(seconds: real, answer: Answer)

  /** One attempt that ran: when it began, the timeout it was given, how long it took, and how it ended. */
  datatype Attempt = Attempt(began: real, timeout: real, seconds: real, answer: Answer)

  datatype Outcome =
    | Returned(body: string)
    | RaisedGateRefusal
    | Raised(error: string)
    | NoTimeBudget
    | NotConnected

  const TIMED_OUT: string := "timed out"

  /** An attempt respects its timeout: past it, it ends there with a retryable transport error. */
  function Limited(trial: Trial, began: real, timeout: real): Attempt {
    if trial.seconds <= timeout then Attempt(began, timeout, trial.seconds, trial.answer)
    else Attempt(began, timeout, timeout, Retryable(TIMED_OUT))
  }

  function UpperChar(c: char): char {
    if 'a' <= c <= 'z' then c - 'a' + 'A' else c
  }

  function Upper(verb: string): string {
    seq(|verb|, i requires 0 <= i < |verb| => UpperChar(verb[i]))
  }

  /** The verbs retried when the caller does not say, however they are spelt. */
  predicate RetrySafe(verb: string) {
    Upper(verb) in {"GET", "HEAD", "PUT", "DELETE"}
  }

  predicate RetryAllowed(verb: string, allowRetry: Option<bool>) {
    if allowRetry.Some? then allowRetry.value else RetrySafe(verb)
  }

  /** Without a word from the caller GET, HEAD, PUT and DELETE are retried in any spelling, POST and PATCH are not. */
  lemma {:induction false} RetriedByDefault()
    ensures forall b: bool, verb: string :: RetryAllowed(verb, Some(b)) == b
    ensures RetryAllowed("GET", None) && RetryAllowed("HEAD", None)
    ensures RetryAllowed("PUT", None) && RetryAllowed("DELETE", None)
    ensures RetryAllowed("get", None) && RetryAllowed("Delete", None)
    ensures !RetryAllowed("POST", None) && !RetryAllowed("PATCH", None) && !RetryAllowed("post", None)
  {
    assert Upper("get") == "GET" && Upper("Delete") == "DELETE" && Upper("post") == "POST";
    assert Upper("GET") == "GET" && Upper("HEAD") == "HEAD" && Upper("PUT") == "PUT" && Upper("DELETE") == "DELETE";
    assert Upper("POST") == "POST" && Upper("PATCH") == "PATCH";
  }

  /** asyncio.sleep of a non-positive delay returns at once. */
  function Slept(delay: real): real {
    if delay > 0.0 then delay else 0.0
  }

  function End(a: Attempt): real {
    a.began + a.seconds
  }

  /**
   Each attempt met its own trial, was given exactly the budget left, and began one backoff after the
   attempt before it failed retryably; the first began at once.
   */
  ghost predicate OneBudget(attempts: seq<Attempt>, backoffs: seq<real>, trials: seq<Trial>, budget: real) {
    attempts != [] ==>
      var n := |attempts| - 1;
      var last, front := attempts[n], attempts[..n];
      && n <= |backoffs| && n < |trials|
      && (if trials[n].seconds <= last.timeout then last.seconds == trials[n].seconds && last.answer == trials[n].answer
          else last.seconds == last.timeout && last.answer == Retryable("timed out"))
      && 0.0 < last.timeout == budget - last.began
      && (if n == 0 then last.began == 0.0
          else
            && attempts[n - 1].answer.Retryable?
            && last.began == End(attempts[n - 1]) + (if backoffs[n - 1] > 0.0 then backoffs[n - 1] else 0.0))
      && OneBudget(front, backoffs, trials, budget)
  }

  /** One more attempt, begun after its backoff with the budget that is left then. */
  lemma {:induction false} NextAttempt(
    attempts: seq<Attempt>, backoffs: seq<real>, trials: seq<Trial>, budget: real, began: real)
    requires OneBudget(attempts, backoffs, trials, budget) && |attempts| <= |backoffs| && |attempts| < |trials|
    requires began < budget && trials[|attempts|].seconds >= 0.0
    requires if attempts == [] then began == 0.0
             else var n := |attempts| - 1;
                  attempts[n].answer.Retryable? && began == End(attempts[n]) + Slept(backoffs[n])
    ensures var attempt := Limited(trials[|attempts|], began, budget - began);
            && OneBudget(attempts + [attempt], backoffs, trials, budget)
            && 0.0 <= attempt.seconds && End(attempt) <= budget
  {
    assert (attempts + [Limited(trials[|attempts|], began, budget - began)])[..|attempts|] == attempts;
  }

  lemma {:induction false} NoAttempt(backoffs: seq<real>, trials: seq<Trial>, budget: real)
    ensures OneBudget([], backoffs, trials, budget)
  {
  }

  /** No further attempt was possible: none was left, or the next backoff would overrun the deadline. */
  predicate Exhausted(attempts: seq<Attempt>, backoffs: seq<real>, budget: real)
    requires 0 < |attempts|
  {
    var left := budget - End(attempts[|attempts| - 1]);
    |attempts| > |backoffs| || left <= 0.0 || (backoffs[|attempts| - 1] != 0.0 && backoffs[|attempts| - 1] >= left)
  }

  function Final(answer: Answer): Outcome {
    match answer
    case Decoded(body) => Returned(body)
    case GateRefusal => RaisedGateRefusal
    case Fatal(error) => Raised(error)
    case Retryable(error) => Raised(error)
  }

  /** The outcome is the last attempt's answer, and a retryable one is raised only when no attempt was left. */
  predicate Ends(attempts: seq<Attempt>, backoffs: seq<real>, budget: real, outcome: Outcome)
    requires 0 < |attempts|
  {
    var answer := attempts[|attempts| - 1].answer;
    outcome == Final(answer) && (answer.Retryable? ==> Exhausted(attempts, backoffs, budget))
  }

  lemma {:induction false} FinalEnds(attempts: seq<Attempt>, backoffs: seq<real>, budget: real)
    requires attempts != [] && !attempts[|attempts| - 1].answer.Retryable?
    ensures Ends(attempts, backoffs, budget, Final(attempts[|attempts| - 1].answer))
  {
  }

  lemma {:induction false} NothingLeft(attempts: seq<Attempt>, backoffs: seq<real>, budget: real)
    requires attempts != [] && attempts[|attempts| - 1].answer.Retryable? && Exhausted(attempts, backoffs, budget)
    ensures Ends(attempts, backoffs, budget, Raised(attempts[|attempts| - 1].answer.error))
  {
  }

  /**
   `request`: `trials[i]` is what the i-th attempt would meet. Time passes only in sleeps and attempts.
   */
  method Request(
    connected: bool, verb: string, allowRetry: Option<bool>, backoffSequence: seq<real>, budget: real,
    trials: seq<Trial>)
    returns (outcome: Outcome, attempts: seq<Attempt>, elapsed: real)
    requires |trials| == 1 + |backoffSequence| && forall t <- trials :: t.seconds >= 0.0
    ensures !connected <==> outcome.NotConnected?
    ensures outcome.NotConnected? || outcome.NoTimeBudget? ==> attempts == [] && elapsed == 0.0
    // within the budget, in order, never more than one attempt per backoff and one more
    ensures OneBudget(attempts, if RetryAllowed(verb, allowRetry) then backoffSequence else [], trials, budget)
    ensures attempts != [] ==> elapsed == End(attempts[|attempts| - 1]) <= budget
    // "no time budget" exactly when the budget is not positive
    ensures connected ==> (outcome.NoTimeBudget? <==> budget <= 0.0)
    ensures connected && budget > 0.0 && !RetryAllowed(verb, allowRetry) ==> |attempts| == 1
    ensures connected && budget > 0.0 ==>
              && attempts != []
              && Ends(attempts, if RetryAllowed(verb, allowRetry) then backoffSequence else [], budget, outcome)
    // spelt out: a decoded answer is returned, a refusal raised as one, any other error raised as it is
    ensures connected && budget > 0.0 ==>
              match attempts[|attempts| - 1].answer
              case Decoded(body) => outcome == Returned(body)
              case GateRefusal => outcome == RaisedGateRefusal
              case Fatal(error) => outcome == Raised(error)
              case Retryable(error) => outcome == Raised(error)
    // and a retryable answer is the last only when no backoff is left or the next one would reach the deadline
    ensures connected && budget > 0.0 && attempts[|attempts| - 1].answer.Retryable? ==>
              var n, retries := |attempts|, if RetryAllowed(verb, allowRetry) then backoffSequence else [];
              n > |retries| || elapsed >= budget || (retries[n - 1] != 0.0 && elapsed + retries[n - 1] >= budget)
  {
    hide OneBudget, Exhausted, RetrySafe, Limited;
    if !connected {
      NoAttempt(if RetryAllowed(verb, allowRetry) then backoffSequence else [], trials, budget);
      return NotConnected, [], 0.0;
    }
    var retry := if allowRetry.Some? then allowRetry.value else RetrySafe(verb);
    outcome, attempts, elapsed := RunAttempts(if retry then backoffSequence else [], budget, trials);
  }

  /** The loop: the first attempt at once, each further one after its backoff. */
  method RunAttempts(backoffs: seq<real>, budget: real, trials: seq<Trial>)
    returns (outcome: Outcome, attempts: seq<Attempt>, elapsed: real)
    requires |trials| >= 1 + |backoffs| && forall t <- trials :: t.seconds >= 0.0
    ensures !outcome.NotConnected? && OneBudget(attempts, backoffs, trials, budget)
    ensures if outcome.NoTimeBudget? then budget <= 0.0 && attempts == [] && elapsed == 0.0
            else budget > 0.0 && attempts != [] && elapsed == End(attempts[|attempts| - 1]) <= budget
    ensures |attempts| <= 1 + |backoffs|
    ensures attempts != [] ==> Ends(attempts, backoffs, budget, outcome)
    ensures var n := |attempts|;
            n > 0 && attempts[n - 1].answer.Retryable? ==>
              n > |backoffs| || elapsed >= budget || (backoffs[n - 1] != 0.0 && elapsed + backoffs[n - 1] >= budget)
  {
    attempts, elapsed := [], 0.0;
    var attemptDelays := [0.0] + backoffs;
    NoAttempt(backoffs, trials, budget);
    hide OneBudget, Limited, Ends;
    var deadline := budget;
    var lastError: Option<string> := None;
    for i := 0 to |attemptDelays|
      invariant |attempts| == i && OneBudget(attempts, backoffs, trials, budget)
      invariant i == 0 ==> elapsed == 0.0 && lastError.None?
      invariant i > 0 ==> budget > 0.0 && elapsed == End(attempts[i - 1]) <= budget
      invariant i > 0 ==> attempts[i - 1].answer.Retryable? && lastError == Some(attempts[i - 1].answer.error)
    {
      var delay := attemptDelays[i];
      var remaining := deadline - elapsed;
      if remaining <= 0.0 || (delay != 0.0 && delay >= remaining) {
        break;
      }
      if delay != 0.0 {
        elapsed := elapsed + Slept(delay);
        remaining := deadline - elapsed;
      }
      assert trials[i] in trials;
      var attempt := Limited(trials[i], elapsed, remaining);
      NextAttempt(attempts, backoffs, trials, budget, elapsed);
      attempts := attempts + [attempt];
      elapsed := elapsed + attempt.seconds;
      if !attempt.answer.Retryable? {
        outcome := Final(attempt.answer);
        FinalEnds(attempts, backoffs, budget);
        return;
      }
      lastError := Some(attempt.answer.error);
    }
    if lastError.Some? {
      NothingLeft(attempts, backoffs, budget);
      return Raised(lastError.value), attempts, elapsed;
    }
    outcome := NoTimeBudget;
  }

  /** The waits and attempts of a request tile its time: nothing else passes, and the whole stays within the budget. */
  function Spent(attempts: seq<Attempt>, backoffs: seq<real>): real
    requires |attempts| <= 1 + |backoffs|
  {
    if attempts == [] then 0.0
    else
      var n := |attempts| - 1;
      Spent(attempts[..n], backoffs) + attempts[n].seconds + (if n > 0 then Slept(backoffs[n - 1]) else 0.0)
  }

  lemma {:induction false} BudgetCoversEverything(
    attempts: seq<Attempt>, backoffs: seq<real>, trials: seq<Trial>, budget: real)
    requires OneBudget(attempts, backoffs, trials, budget) && attempts != []
    ensures |attempts| <= 1 + |backoffs|
    ensures Spent(attempts, backoffs) == End(attempts[|attempts| - 1]) <= budget
  {
    var n := |attempts| - 1;
    if n > 0 {
      BudgetCoversEverything(attempts[..n], backoffs, trials, budget);
    } else {
      assert attempts[..n] == [];
    }
  }

  /** A gate refusal or a fatal answer is never retried: it can only be the last attempt's. */
  lemma {:induction false} OnlyRetryableAnswersAreRetried(
    attempts: seq<Attempt>, backoffs: seq<real>, trials: seq<Trial>, budget: real, i: nat)
    requires OneBudget(attempts, backoffs, trials, budget) && i < |attempts| && !attempts[i].answer.Retryable?
    ensures i == |attempts| - 1
  {
    if i + 1 < |attempts| - 1 {
      OnlyRetryableAnswersAreRetried(attempts[..|attempts| - 1], backoffs, trials, budget, i);
    }
  }
}
