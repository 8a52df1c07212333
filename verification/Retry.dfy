/**
 The two retry loops of the agent: configuring a database VM within a deadline, and keeping a
 NATS connection with exponential backoff and a circuit breaker. Time is a non-decreasing
 clock; how long requests and sleeps really take is up to the environment.
 */
module Retry {
  import opened Bits

  function Min(a: nat, b: nat): nat {
    if a <= b then a else b
  }

  // ---------------------------------------------------------------------------
  // Configuring a database VM. Times are in milliseconds.

  const FIRST_DELAY := 250

  datatype Response = Status(code: nat) | SendFailed | TimedOut

  /** What the environment does with one attempt: its response, how long that takes, and how
      much later than asked for the sleep after it ends. */
  datatype Attempt = Attempt(response: Response, took: nat, lag: nat)

  datatype Outcome = Configured | Rejected(code: nat) | GaveUp

  /** One sleep: when it was asked for, and until when. */
  datatype Sleep = Sleep(from: nat, until: nat)

  predicate IsSuccess(r: Response) {
    r.Status? && 200 <= r.code < 300
  }

  /** Client errors are fatal, except request timeout, too many requests, precondition failed. */
  predicate IsFatal(r: Response) {
    r.Status? && 400 <= r.code < 500 && r.code != 408 && r.code != 429 && r.code != 412
  }

  predicate IsRetriable(r: Response) {
    !IsSuccess(r) && !IsFatal(r)
  }

  /** A call's parameters and what its environment will do. */
  datatype Scenario = Scenario(start: nat, window: nat, max: nat, env: nat -> Attempt) {
    function At(k: nat): Attempt {
      env(k)
    }

    function Deadline(): nat {
      start + window
    }

    /** The delay after attempt k: 250 ms doubled k times, capped from the second on. */
    function Delay(k: nat): nat {
      if k == 0 then FIRST_DELAY else Min(2 * Delay(k - 1), max)
    }

    /** When attempt k is made, if all before it were worth retrying. */
    function StartOf(k: nat): nat {
      if k == 0 then start
      else
        var done := StartOf(k - 1) + At(k - 1).took;
        if done >= Deadline() then done else Min(done + Delay(k - 1), Deadline()) + At(k - 1).lag
    }

    /** The n first attempts were all made in time and worth retrying. */
    ghost predicate Retried(n: nat) {
      forall i: nat :: i < n ==> RetriedAt(i)
    }

    ghost predicate RetriedAt(i: nat) {
      StartOf(i) < Deadline() && IsRetriable(At(i).response)
    }

    /** The sleep after attempt k lasts as long as the delay due, but not beyond the deadline. */
    ghost predicate WellAsked(s: Sleep, k: nat) {
      s.from == StartOf(k) + At(k).took && s.from < s.until == Min(s.from + Delay(k), Deadline())
    }

    ghost predicate AllWellAsked(sleeps: seq<Sleep>) {
      forall i :: 0 <= i < |sleeps| ==> WellAsked(sleeps[i], i)
    }
  }

  lemma NextAttempt(c: Scenario, k: nat)
    ensures c.Delay(k + 1) == Min(2 * c.Delay(k), c.max)
    ensures var done := c.StartOf(k) + c.At(k).took;
      c.StartOf(k + 1) ==
        if done >= c.Deadline() then done else Min(done + c.Delay(k), c.Deadline()) + c.At(k).lag
  {
  }

  lemma OneMoreRetried(c: Scenario, n: nat)
    ensures c.Retried(0)
    ensures c.Retried(n) && c.RetriedAt(n) ==> c.Retried(n + 1)
  {
  }

  lemma OneMoreSleep(c: Scenario, sleeps: seq<Sleep>, s: Sleep)
    ensures c.AllWellAsked([])
    ensures c.AllWellAsked(sleeps) && c.WellAsked(s, |sleeps|) ==> c.AllWellAsked(sleeps + [s])
  {
  }

  /** What the response to the last attempt made means for the caller. */
  function Judged(r: Response): Outcome {
    if IsSuccess(r) then Configured else if r.Status? && IsFatal(r) then Rejected(r.code) else GaveUp
  }

  /** Answers that are worth another attempt: none at all, or a status that is neither a success nor
      a client error, but for the errors 408, 412 and 429. */
  predicate Worthwhile(r: Response) {
    r.Status? ==> r.code < 200 || 300 <= r.code < 400 || r.code >= 500 || r.code == 408 || r.code == 412 || r.code == 429
  }

  /** The sleep after attempt i is of 250 ms doubled i times, if that is not more than the maximum and
      does not go beyond the deadline. */
  ghost predicate SleepsDoubling(c: Scenario, i: nat, s: Sleep) {
    s.from < s.until == Min(s.from + (if i == 0 then 250 else Min(250 * Pow2(i), c.max)), c.start + c.window)
  }

  lemma RetriableMeans(r: Response)
    ensures IsRetriable(r) <==> Worthwhile(r)
    ensures IsSuccess(r) <==> r.Status? && 200 <= r.code <= 299
    ensures IsFatal(r) <==> r.Status? && 400 <= r.code <= 499 && r.code != 408 && r.code != 412 && r.code != 429
  {
  }

  lemma {:induction false} DelayClosedForm(c: Scenario, k: nat)
    ensures c.Delay(k) == if k == 0 then 250 else Min(250 * Pow2(k), c.max)
  {
    if k > 0 {
      DelayClosedForm(c, k - 1);
      assert Pow2(k) == 2 * Pow2(k - 1);
      assert Pow2(0) == 1;
    }
  }

  /** What the sleeps and answers of a call are, in numbers. */
  lemma CallMeans(c: Scenario, n: nat, sleeps: seq<Sleep>)
    requires c.Retried(n) && |sleeps| <= n && c.AllWellAsked(sleeps)
    ensures forall i: nat :: i < n ==> Worthwhile(c.env(i).response)
    ensures forall i :: 0 <= i < |sleeps| ==> SleepsDoubling(c, i, sleeps[i])
  {
    forall i: nat | i < n
      ensures Worthwhile(c.env(i).response)
    {
      assert c.RetriedAt(i);
      RetriableMeans(c.At(i).response);
    }
    hide Scenario.Delay, Scenario.StartOf;
    forall i | 0 <= i < |sleeps|
      ensures SleepsDoubling(c, i, sleeps[i])
    {
      assert c.WellAsked(sleeps[i], i);
      DelayClosedForm(c, i);
    }
  }

  /** The same for the call as a whole, with its last answer. */
  lemma CallEnds(c: Scenario, r: Outcome, attempts: nat, sleeps: seq<Sleep>)
    requires c.AllWellAsked(sleeps) && |sleeps| <= attempts
    requires r == GaveUp ==> c.Retried(attempts)
    requires r != GaveUp ==>
      && attempts > 0 && |sleeps| < attempts && c.Retried(attempts - 1) && r == Judged(c.At(attempts - 1).response)
    ensures match r
      case Configured => attempts > 0 && c.env(attempts - 1).response.Status? && 200 <= c.env(attempts - 1).response.code <= 299
      case Rejected(code) =>
        attempts > 0 && c.env(attempts - 1).response == Status(code)
        && 400 <= code <= 499 && code != 408 && code != 412 && code != 429
      case GaveUp => forall i: nat :: i < attempts ==> Worthwhile(c.env(i).response)
    ensures forall i :: 0 <= i < |sleeps| ==> Worthwhile(c.env(i).response) && SleepsDoubling(c, i, sleeps[i])
  {
    if r == GaveUp {
      CallMeans(c, attempts, sleeps);
    } else {
      CallMeans(c, attempts - 1, sleeps);
      RetriableMeans(c.At(attempts - 1).response);
    }
  }

  /** `configure_database_vm`: attempts counts the requests made, sleeps lists the sleeps. */
  method ConfigureDatabase(c: Scenario) returns (r: Outcome, attempts: nat, sleeps: seq<Sleep>)
    requires c.max >= 1
    ensures r == GaveUp ==> c.Retried(attempts) && c.StartOf(attempts) >= c.Deadline()
    ensures r != GaveUp ==>
      && attempts > 0 && c.Retried(attempts - 1) && c.StartOf(attempts - 1) < c.Deadline()
      && r == Judged(c.At(attempts - 1).response)
    ensures attempts - 1 <= |sleeps| <= attempts && c.AllWellAsked(sleeps)
    ensures match r
      case Configured => attempts > 0 && c.env(attempts - 1).response.Status? && 200 <= c.env(attempts - 1).response.code <= 299
      case Rejected(code) =>
        attempts > 0 && c.env(attempts - 1).response == Status(code)
        && 400 <= code <= 499 && code != 408 && code != 412 && code != 429
      case GaveUp => forall i: nat :: i < attempts ==> Worthwhile(c.env(i).response)
    ensures forall i :: 0 <= i < |sleeps| ==> Worthwhile(c.env(i).response) && SleepsDoubling(c, i, sleeps[i])
  {
    assert c.StartOf(0) == c.start && c.Delay(0) == FIRST_DELAY;
    hide Scenario.StartOf, Scenario.Delay, Scenario.At, Scenario.Retried, Scenario.AllWellAsked;
    OneMoreRetried(c, 0);
    OneMoreSleep(c, [], Sleep(0, 0));
    var now, delay := c.start, FIRST_DELAY;
    var deadline := c.start + c.window;
    r, attempts, sleeps := GaveUp, 0, [];
    while now < deadline
      invariant now == c.StartOf(attempts) && delay == c.Delay(attempts) && delay > 0
      invariant r == GaveUp && c.Retried(attempts)
      invariant |sleeps| == attempts && c.AllWellAsked(sleeps)
      decreases deadline - now
    {
      NextAttempt(c, attempts);
      OneMoreRetried(c, attempts);
      var attempt := c.At(attempts);
      now := now + attempt.took;
      attempts := attempts + 1;
      if IsSuccess(attempt.response) || IsFatal(attempt.response) {
        r := Judged(attempt.response);
        break;
      }
      if now >= deadline {
        break;
      }
      var until := if now + delay > deadline then deadline else now + delay;
      OneMoreSleep(c, sleeps, Sleep(now, until));
      sleeps := sleeps + [Sleep(now, until)];
      now := until + attempt.lag;
      delay := Min(2 * delay, c.max);
    }
    CallEnds(c, r, attempts, sleeps);
  }

  lemma {:induction false} DelayAtLeast(c: Scenario, k: nat)
    requires c.max >= FIRST_DELAY
    ensures c.Delay(k) >= FIRST_DELAY
  {
    if k > 0 {
      DelayAtLeast(c, k - 1);
    }
  }

  /** Time spent sleeping, at least, before attempt k. */
  function Waited(c: Scenario, k: nat): nat {
    if k == 0 then 0 else Waited(c, k - 1) + c.Delay(k - 1)
  }

  /** Attempts come the doubling delays apart, for as long as they are made in time. */
  lemma {:induction false} AttemptsApart(c: Scenario, k: nat)
    requires c.StartOf(k) < c.Deadline()
    ensures c.start + Waited(c, k) <= c.StartOf(k)
  {
    if k > 0 {
      AttemptsApart(c, k - 1);
    }
  }

  lemma {:induction false} WaitedAtLeast(c: Scenario, k: nat)
    requires c.max >= FIRST_DELAY
    ensures Waited(c, k) >= FIRST_DELAY * k
  {
    if k > 0 {
      WaitedAtLeast(c, k - 1);
      DelayAtLeast(c, k - 1);
    }
  }

  /** The loop makes at most one attempt per started 250 ms of its window. */
  lemma AttemptsBounded(c: Scenario, attempts: nat)
    requires c.max >= FIRST_DELAY
    requires attempts > 0 ==> c.StartOf(attempts - 1) < c.Deadline()
    ensures attempts <= (c.window + 249) / 250
  {
    if attempts > 0 {
      AttemptsApart(c, attempts - 1);
      WaitedAtLeast(c, attempts - 1);
    }
  }

  // ---------------------------------------------------------------------------
  // The NATS connection loop. Times are in seconds.

  const BREAKER_THRESHOLD := 10

  /** How one attempt to connect goes; a session that came up lasts for some time. */
  datatype Connect = Refused | ConnectTimeout | Session(uptime: nat)

  datatype Pause = CoolDown(secs: nat) | Backoff(secs: nat) | AfterSession(secs: nat)

  predicate IsFlapping(c: Connect, threshold: nat) {
    c.Session? && c.uptime < threshold
  }

  function BackoffSecs(failures: nat, max: nat): nat {
    Min(Pow2(Min(failures, 10)), max)
  }

  /** `consecutive_failures` after these attempts. */
  function Failures(tries: seq<Connect>, threshold: nat): nat {
    if tries == [] then 0
    else
      var n := |tries| - 1;
      var before := Failures(tries[..n], threshold);
      var entering := if before >= BREAKER_THRESHOLD then 0 else before;
      match tries[n]
      case Refused => entering + 1
      case ConnectTimeout => entering + 1
      case Session(uptime) => if uptime < threshold then 1 else 0
  }

  /** The pauses the loop makes around its last attempt: a cool-down before it if the breaker
      was open, and a backoff or a second's rest after it. */
  function PausesAround(tries: seq<Connect>, threshold: nat, max: nat, coolDown: nat): seq<Pause>
    requires tries != []
  {
    (if Failures(tries[..|tries| - 1], threshold) >= BREAKER_THRESHOLD then [CoolDown(coolDown)] else [])
    + [if tries[|tries| - 1].Session? then AfterSession(1) else Backoff(BackoffSecs(Failures(tries, threshold), max))]
  }

  function Pauses(tries: seq<Connect>, threshold: nat, max: nat, coolDown: nat): seq<Pause> {
    if tries == [] then []
    else Pauses(tries[..|tries| - 1], threshold, max, coolDown) + PausesAround(tries, threshold, max, coolDown)
  }

  /** The loop of `serve`, run until the given attempts are used up. */
  method Serve(tries: seq<Connect>, threshold: nat, max: nat, coolDown: nat)
    returns (failures: nat, pauses: seq<Pause>)
    ensures failures == Failures(tries, threshold)
    ensures pauses == Pauses(tries, threshold, max, coolDown)
  {
    hide Pow2;
    failures, pauses := 0, [];
    var i := 0;
    ghost var cooled := false;
    while i < |tries|
      invariant i <= |tries|
      invariant cooled ==> i < |tries| && Failures(tries[..i], threshold) >= BREAKER_THRESHOLD && failures == 0
      invariant !cooled ==> failures == Failures(tries[..i], threshold)
      invariant pauses == Pauses(tries[..i], threshold, max, coolDown) + (if cooled then [CoolDown(coolDown)] else [])
      decreases |tries| - i, failures
    {
      if failures >= BREAKER_THRESHOLD {
        pauses := pauses + [CoolDown(coolDown)];
        failures := 0;
        cooled := true;
        continue;
      }
      assert tries[..i + 1][..i] == tries[..i];
      match tries[i] {
        case Session(uptime) =>
          failures := 0;
          if IsFlapping(tries[i], threshold) {
            failures := failures + 1;
          } else {
            failures := 0;
          }
          pauses := pauses + [AfterSession(1)];
        case _ =>
          failures := failures + 1;
          var exponent := Min(failures, 10);
          pauses := pauses + [Backoff(Min(Pow2(exponent), max))];
      }
      cooled := false;
      i := i + 1;
    }
    assert tries[..|tries|] == tries;
  }

  predicate IsFailure(c: Connect) {
    c.Refused? || c.ConnectTimeout?
  }

  /** The failures counted are the last attempts made: all of them failures to connect, except
      that the first may have been a session that flapped; and there are never more than ten. */
  ghost predicate Streak(tries: seq<Connect>, threshold: nat, f: nat) {
    && f <= |tries| && f <= BREAKER_THRESHOLD
    && (forall j :: |tries| - f < j < |tries| ==> IsFailure(tries[j]))
    && (f > 0 ==> IsFailure(tries[|tries| - f]) || IsFlapping(tries[|tries| - f], threshold))
  }

  lemma {:induction false} FailuresAreAStreak(tries: seq<Connect>, threshold: nat)
    ensures Streak(tries, threshold, Failures(tries, threshold))
  {
    if tries != [] {
      FailuresAreAStreak(tries[..|tries| - 1], threshold);
    }
  }

  /** How many attempts in a row have now failed, whatever the breaker did in between: failures
      to connect since the last session, and that session too if it flapped. */
  function StreakLength(tries: seq<Connect>, threshold: nat): (t: nat)
    ensures t <= |tries|
  {
    if tries == [] then 0
    else
      match tries[|tries| - 1]
      case Session(uptime) => if uptime < threshold then 1 else 0
      case _ => StreakLength(tries[..|tries| - 1], threshold) + 1
  }

  /** It is the longest such row that the attempts end with. */
  lemma {:induction false} StreakIsLongest(tries: seq<Connect>, threshold: nat)
    ensures var t := StreakLength(tries, threshold);
      && (forall j :: |tries| - t < j < |tries| ==> IsFailure(tries[j]))
      && (t > 0 ==> IsFailure(tries[|tries| - t]) || IsFlapping(tries[|tries| - t], threshold))
      && (t < |tries| ==>
           || (t > 0 && tries[|tries| - t].Session?)
           || (tries[|tries| - t - 1].Session? && !IsFlapping(tries[|tries| - t - 1], threshold)))
  {
    if tries != [] && IsFailure(tries[|tries| - 1]) {
      StreakIsLongest(tries[..|tries| - 1], threshold);
    }
  }

  /** The count runs from one to ten and over again along such a row. */
  lemma {:induction false} FailuresFromStreak(tries: seq<Connect>, threshold: nat)
    ensures var t := StreakLength(tries, threshold);
      Failures(tries, threshold) == if t == 0 then 0 else (t - 1) % 10 + 1
  {
    if tries != [] && IsFailure(tries[|tries| - 1]) {
      FailuresFromStreak(tries[..|tries| - 1], threshold);
    }
  }

  /** The breaker is open, and a cool-down comes next, if and only if the row of failures has just
      reached a multiple of ten. */
  lemma CoolDownIff(tries: seq<Connect>, threshold: nat)
    ensures var t := StreakLength(tries, threshold);
      Failures(tries, threshold) >= BREAKER_THRESHOLD <==> t > 0 && t % 10 == 0
  {
    FailuresFromStreak(tries, threshold);
  }

  /** What one more attempt adds to the loop's pauses: a cool-down before it if the row of failures
      stands at a multiple of ten; and after it, if it fails, two seconds doubled with each failure of
      ten in the row, up to the maximum. */
  lemma PausesAppend(tries: seq<Connect>, c: Connect, threshold: nat, max: nat, coolDown: nat)
    ensures var t := StreakLength(tries, threshold);
      Pauses(tries + [c], threshold, max, coolDown) ==
        Pauses(tries, threshold, max, coolDown)
        + (if t > 0 && t % 10 == 0 then [CoolDown(coolDown)] else [])
        + [if c.Session? then AfterSession(1) else Backoff(Min(Pow2(t % 10 + 1), max))]
  {
    hide Pow2, Failures;
    var all := tries + [c];
    assert all[..|all| - 1] == tries && all[|all| - 1] == c;
    FailuresFromStreak(tries, threshold);
    FailuresFromStreak(all, threshold);
    StreakAppend(tries, c, threshold);
    NextInRow(StreakLength(tries, threshold));
  }

  lemma StreakAppend(tries: seq<Connect>, c: Connect, threshold: nat)
    ensures StreakLength(tries + [c], threshold) ==
      match c
      case Session(uptime) => if uptime < threshold then 1 else 0
      case _ => StreakLength(tries, threshold) + 1
  {
    assert (tries + [c])[..|tries|] == tries;
  }

  /** Counting from one to ten and over again. */
  lemma NextInRow(t: nat)
    ensures t % 10 + 1 <= 10
    ensures (t > 0 && t % 10 == 0) <==> (t > 0 && (t - 1) % 10 + 1 >= 10)
  {
  }

  /** A cool-down is preceded by ten attempts in a row that failed, of which only the first
      can have been a session. */
  lemma CoolDownAfterTenFailures(tries: seq<Connect>, threshold: nat)
    requires Failures(tries, threshold) >= BREAKER_THRESHOLD
    ensures |tries| >= 10
    ensures forall j :: |tries| - 9 <= j < |tries| ==> IsFailure(tries[j])
    ensures IsFailure(tries[|tries| - 10]) || IsFlapping(tries[|tries| - 10], threshold)
  {
    FailuresAreAStreak(tries, threshold);
  }

  /** However often sessions flap, the breaker never opens while connecting succeeds. */
  lemma FlappingNeverTrips(tries: seq<Connect>, threshold: nat)
    requires forall c :: c in tries ==> c.Session?
    ensures Failures(tries, threshold) <= 1
  {
    if tries != [] {
      assert tries[|tries| - 1] in tries;
    }
  }

  /** While attempts keep failing, each backoff is at least as long as the one before, until
      the breaker opens; and none exceeds the maximum. */
  lemma BackoffGrows(tries: seq<Connect>, c: Connect, threshold: nat, max: nat)
    requires tries != [] && IsFailure(c) && Failures(tries, threshold) < BREAKER_THRESHOLD
    ensures Failures(tries + [c], threshold) == Failures(tries, threshold) + 1
    ensures BackoffSecs(Failures(tries, threshold), max) <= BackoffSecs(Failures(tries + [c], threshold), max) <= max
  {
    assert (tries + [c])[..|tries|] == tries;
    var f := Failures(tries, threshold);
    Pow2Monotone(Min(f, 10), Min(f + 1, 10));
  }
}
