/**
 The circuit breaker of the Python client around its retry loop. Times are real numbers read from a
 clock that never goes back; a call is its start, its end and how the function it protects ended.
 */
module CircuitBreaker {
  /** How a function ended. The breaker counts connection errors only; the retry policy repeats after
      connection errors and timeouts. */
  datatype Outcome = Returned | ConnectionError | TimeoutError | OtherError

  predicate Counted(o: Outcome) { o.ConnectionError? }

  predicate Retried(o: Outcome) { o.ConnectionError? || o.TimeoutError? }

  datatype State = CLOSED | OPEN | HALF_OPEN

  datatype Breaker = Breaker(threshold: int, timeout: real, count: int, last: real, state: State)

  function NewBreaker(threshold: int, timeout: real): Breaker { Breaker(threshold, timeout, 0, 0.0, CLOSED) }

  datatype Event =
    | Call(start: real, finish: real, outcome: Outcome)
    | Reset(at: real)

  function StartOf(e: Event): real { if e.Call? then e.start else e.at }

  function FinishOf(e: Event): real { if e.Call? then e.finish else e.at }

  /** Whether a call that starts now gets through to the function. */
  predicate Admits(b: Breaker, now: real) { !b.state.OPEN? || now - b.last > b.timeout }

  function Next(b: Breaker, e: Event): Breaker {
    match e
    case Reset(_) => b.(count := 0, state := CLOSED)
    case Call(start, finish, outcome) =>
      if !Admits(b, start) then b
      else
        var b := if b.state.OPEN? then b.(state := HALF_OPEN) else b;
        if outcome.Returned? then b.(count := 0, state := CLOSED)
        else if Counted(outcome) then
          b.(count := b.count + 1, last := finish, state := if b.count + 1 >= b.threshold then OPEN else b.state)
        else b
  }

  function After(b: Breaker, events: seq<Event>): Breaker {
    if events == [] then b else Next(After(b, events[..|events| - 1]), events[|events| - 1])
  }

  /** When the last of these events ended. */
  function Clock(from: real, events: seq<Event>): real {
    if events == [] then from else FinishOf(events[|events| - 1])
  }

  /** The clock never goes back. */
  predicate Clocked(from: real, events: seq<Event>) {
    events == [] ||
    (var front, last := events[..|events| - 1], events[|events| - 1];
     Clocked(from, front) && Clock(from, front) <= StartOf(last) <= FinishOf(last))
  }

  /** A call that got through. */
  datatype Trial = Trial(start: real, outcome: Outcome)

  function TrialIn(b: Breaker, e: Event): seq<Trial> {
    if e.Call? && Admits(b, e.start) then [Trial(e.start, e.outcome)] else []
  }

  function Admitted(b: Breaker, events: seq<Event>): seq<Trial> {
    if events == [] then []
    else
      var front, last := events[..|events| - 1], events[|events| - 1];
      Admitted(b, front) + TrialIn(After(b, front), last)
  }

  // ---------- what the count means ----------

  /** The failures since the last success or reset, of calls that got through. */
  function Failures(b: Breaker, events: seq<Event>): nat {
    if events == [] then 0
    else
      var front, last := events[..|events| - 1], events[|events| - 1];
      if last.Reset? then 0
      else if !Admits(After(b, front), last.start) then Failures(b, front)
      else if last.outcome.Returned? then 0
      else Failures(b, front) + if Counted(last.outcome) then 1 else 0
  }

  /** Over a whole run of a new breaker the count is the number of failures since the last success or
      reset, and with a threshold of at least 1 the circuit is closed between calls exactly if that
      number is below the threshold; with only counted failures it is open otherwise. */
  lemma {:induction false} CountIsFailures(threshold: int, timeout: real, events: seq<Event>)
    requires threshold >= 1
    ensures var b := After(NewBreaker(threshold, timeout), events);
            && b.threshold == threshold && b.timeout == timeout
            && b.count == Failures(NewBreaker(threshold, timeout), events)
            && (b.state.CLOSED? <==> b.count < threshold)
            && (OnlyCounted(events) ==> !b.state.HALF_OPEN?)
  {
    if events != [] {
      CountIsFailures(threshold, timeout, events[..|events| - 1]);
      assert OnlyCounted(events) ==> OnlyCounted(events[..|events| - 1]);
    }
  }

  predicate OnlyCounted(events: seq<Event>) {
    forall i :: 0 <= i < |events| && events[i].Call? ==> events[i].outcome.Returned? || Counted(events[i].outcome)
  }

  // ---------- how often calls get through ----------

  /** n timeouts after t0 */
  function Later(t0: real, timeout: real, n: nat): real {
    if n == 0 then t0 else Later(t0, timeout, n - 1) + timeout
  }

  lemma {:induction false} LaterIsLinear(t0: real, timeout: real, n: nat)
    ensures Later(t0, timeout, n) == t0 + n as real * timeout
  {
    if n > 0 {
      LaterIsLinear(t0, timeout, n - 1);
    }
  }

  function CountedIn(trials: seq<Trial>): nat {
    if trials == [] then 0
    else CountedIn(trials[..|trials| - 1]) + if Counted(trials[|trials| - 1].outcome) then 1 else 0
  }

  /** No call that got through succeeded, and nobody reset the breaker. */
  predicate NoRecovery(b: Breaker, events: seq<Event>) {
    events == [] ||
    (var front, last := events[..|events| - 1], events[|events| - 1];
     && NoRecovery(b, front) && last.Call?
     && (Admits(After(b, front), last.start) ==> !last.outcome.Returned?))
  }

  /** A breaker that has just opened at t0, or may as well have. */
  predicate OpenedAt(b: Breaker, t0: real) { b.state.OPEN? && b.last == t0 && b.count + 1 >= b.threshold }

  /** After m counted failures since the opening: open since at least m timeouts later, or half open at a
      time when one more has passed. */
  predicate Pace(b: Breaker, t0: real, m: nat, clock: real) {
    && b.count + 1 >= b.threshold && !b.state.CLOSED?
    && (b.state.OPEN? ==> b.last >= Later(t0, b.timeout, m))
    && (b.state.HALF_OPEN? ==> clock > Later(t0, b.timeout, m + 1))
  }

  lemma PaceStep(b: Breaker, t0: real, m: nat, clock: real, e: Event)
    requires Pace(b, t0, m, clock) && e.Call? && clock <= e.start <= e.finish
    requires Admits(b, e.start) ==> !e.outcome.Returned?
    ensures Admits(b, e.start) ==> e.start > Later(t0, b.timeout, m + 1)
    ensures Next(b, e).timeout == b.timeout
    ensures Pace(Next(b, e), t0, m + CountedIn(TrialIn(b, e)), e.finish)
  {
    if Admits(b, e.start) {
      assert TrialIn(b, e)[..0] == [];
    }
  }

  lemma CountedSnoc(trials: seq<Trial>, b: Breaker, e: Event)
    ensures CountedIn(trials + TrialIn(b, e)) == CountedIn(trials) + CountedIn(TrialIn(b, e))
  {
    var more := TrialIn(b, e);
    if more == [] {
      assert trials + more == trials;
    } else {
      assert (trials + more)[..|trials|] == trials && more[..0] == [];
    }
  }

  lemma {:induction false} KeepsPace(b: Breaker, t0: real, events: seq<Event>)
    requires OpenedAt(b, t0) && Clocked(t0, events) && NoRecovery(b, events)
    ensures After(b, events).timeout == b.timeout
    ensures Pace(After(b, events), t0, CountedIn(Admitted(b, events)), Clock(t0, events))
  {
    if events != [] {
      var front, last := events[..|events| - 1], events[|events| - 1];
      KeepsPace(b, t0, front);
      PaceStep(After(b, front), t0, CountedIn(Admitted(b, front)), Clock(t0, front), last);
      CountedSnoc(Admitted(b, front), After(b, front), last);
    }
  }

  lemma LastStartsLater(b: Breaker, t0: real, front: seq<Event>, last: Event)
    requires OpenedAt(b, t0) && Clocked(t0, front) && NoRecovery(b, front) && last.Call?
    requires Clock(t0, front) <= last.start <= last.finish && Admits(After(b, front), last.start)
    requires !last.outcome.Returned?
    ensures last.start > Later(t0, b.timeout, CountedIn(Admitted(b, front)) + 1)
  {
    KeepsPace(b, t0, front);
    PaceStep(After(b, front), t0, CountedIn(Admitted(b, front)), Clock(t0, front), last);
  }

  /** The rate at which calls get through an open breaker, over any run without success or reset: a call
      that gets through after m counted failures starts more than m + 1 timeouts after the opening. */
  lemma {:induction false} RateBound(b: Breaker, t0: real, events: seq<Event>, k: nat)
    requires OpenedAt(b, t0) && Clocked(t0, events) && NoRecovery(b, events)
    requires k < |Admitted(b, events)|
    ensures Admitted(b, events)[k].start > Later(t0, b.timeout, CountedIn(Admitted(b, events)[..k]) + 1)
    decreases |events|
  {
    var front, last := events[..|events| - 1], events[|events| - 1];
    var trials := Admitted(b, front);
    assert Admitted(b, events)[..|trials|] == trials;
    if k < |trials| {
      RateBound(b, t0, front, k);
      assert Admitted(b, events)[..k] == trials[..k];
    } else {
      LastStartsLater(b, t0, front, last);
      assert Admitted(b, events) == trials + [Trial(last.start, last.outcome)];
    }
  }

  lemma {:induction false} AllCounted(trials: seq<Trial>)
    requires forall i :: 0 <= i < |trials| ==> Counted(trials[i].outcome)
    ensures CountedIn(trials) == |trials|
  {
    if trials != [] {
      AllCounted(trials[..|trials| - 1]);
    }
  }

  lemma CountedStartsLater(b: Breaker, t0: real, events: seq<Event>, k: nat)
    requires OpenedAt(b, t0) && Clocked(t0, events) && NoRecovery(b, events)
    requires 1 <= k <= |Admitted(b, events)|
    requires forall i :: 0 <= i < k - 1 ==> Counted(Admitted(b, events)[i].outcome)
    ensures Admitted(b, events)[k - 1].start > Later(t0, b.timeout, k)
  {
    RateBound(b, t0, events, k - 1);
    var before := Admitted(b, events)[..k - 1];
    AllCounted(before);
    assert CountedIn(before) + 1 == k;
  }

  lemma LaterThan(start: real, t0: real, timeout: real, k: nat)
    requires start > Later(t0, timeout, k)
    ensures start > t0 + k as real * timeout
  {
    LaterIsLinear(t0, timeout, k);
  }

  /** The run is one in which an open breaker lets k calls through and the first k - 1 fail and count. */
  predicate KeepsFailing(b: Breaker, t0: real, events: seq<Event>, k: nat) {
    && OpenedAt(b, t0) && Clocked(t0, events) && NoRecovery(b, events)
    && 1 <= k <= |Admitted(b, events)|
    && forall i :: 0 <= i < k - 1 ==> Counted(Admitted(b, events)[i].outcome)
  }

  function StartOfTrial(b: Breaker, t0: real, events: seq<Event>, k: nat): real
    requires KeepsFailing(b, t0, events, k)
  {
    Admitted(b, events)[k - 1].start
  }

  /** With counted failures only, the k-th call let through after the opening at t0 starts later than
      t0 + k * timeout, k counting from 1. */
  lemma RateBoundCounted(b: Breaker, t0: real, events: seq<Event>, k: nat)
    requires KeepsFailing(b, t0, events, k)
    ensures StartOfTrial(b, t0, events, k) > t0 + k as real * b.timeout
  {
    CountedStartsLater(b, t0, events, k);
    LaterThan(StartOfTrial(b, t0, events, k), t0, b.timeout, k);
  }

  /** Why only counted failures: a timeout during the trial call leaves the circuit half open, and from
      then on every call gets through at once. The call after a trial gets through immediately if and
      only if the trial did not fail with a counted failure. */
  lemma NextAdmittedIff(b: Breaker, trial: Event)
    requires b.state.OPEN? && b.count + 1 >= b.threshold && b.timeout >= 0.0
    requires trial.Call? && Admits(b, trial.start)
    ensures Admits(Next(b, trial), trial.finish) <==> !Counted(trial.outcome)
  {
  }

  /** For instance a breaker with the default threshold of 5 and timeout of 60 that opened at time 0: from
      a first call after time 60 on every call gets through, however fast, as long as all of them time out. */
  lemma {:induction false} TimeoutsGetThrough(events: seq<Event>)
    requires forall i :: 0 <= i < |events| ==> events[i].Call? && events[i].outcome.TimeoutError?
    requires events != [] ==> events[0].start > 60.0
    ensures var b := Breaker(5, 60.0, 5, 0.0, OPEN);
            && |Admitted(b, events)| == |events|
            && After(b, events) == if events == [] then b else b.(state := HALF_OPEN)
  {
    if events != [] {
      TimeoutsGetThrough(events[..|events| - 1]);
    }
  }

  // ---------- the breaker as an object ----------

  class CircuitBreaker {
    const failureThreshold: int
    const recoveryTimeout: real
    var failureCount: int
    var lastFailureTime: real
    var state: State

    constructor (failureThreshold: int, recoveryTimeout: real)
      ensures View() == NewBreaker(failureThreshold, recoveryTimeout)
    {
      this.failureThreshold, this.recoveryTimeout := failureThreshold, recoveryTimeout;
      failureCount, lastFailureTime, state := 0, 0.0, CLOSED;
    }

    function View(): Breaker
      reads this
    {
      Breaker(failureThreshold, recoveryTimeout, failureCount, lastFailureTime, state)
    }

    method OnSuccess()
      modifies this
      ensures View() == old(View()).(count := 0, state := CLOSED)
    {
      failureCount := 0;
      state := CLOSED;
    }

    method OnFailure(now: real)
      modifies this
      ensures View() == old(View()).(count := old(failureCount) + 1, last := now,
                                     state := if old(failureCount) + 1 >= failureThreshold then OPEN else old(state))
    {
      failureCount := failureCount + 1;
      lastFailureTime := now;
      if failureCount >= failureThreshold {
        state := OPEN;
      }
    }

    method Reset(now: real)
      modifies this
      ensures View() == Next(old(View()), Event.Reset(now))
    {
      failureCount := 0;
      state := CLOSED;
    }

    /** request_with_retry: call around execute_with_retry. `attempt` tells how each attempt at the
        request would end. A call that is let through makes at least one and at most maxRetries + 1
        attempts, one that is not makes none; the breaker moves as the event of the last attempt's
        outcome says. With a negative number of retries the call fails in a way that does not count. */
    method Request(policy: RetryPolicy, attempt: nat -> Outcome, start: real, finish: real)
      returns (admitted: bool, attempts: nat, outcome: Outcome)
      modifies this
      ensures admitted <==> Admits(old(View()), start)
      ensures !admitted ==> attempts == 0 && outcome == ConnectionError && View() == old(View())
      ensures admitted && policy.maxRetries >= 0 ==>
              1 <= attempts <= policy.maxRetries + 1 && outcome == attempt(attempts - 1)
      ensures admitted && policy.maxRetries < 0 ==> attempts == 0 && outcome == OtherError
      ensures admitted ==> View() == Next(old(View()), Call(start, finish, outcome))
    {
      if state == OPEN {
        if start - lastFailureTime > recoveryTimeout {
          state := HALF_OPEN;
        } else {
          return false, 0, ConnectionError;
        }
      }
      admitted := true;
      var ended, sleeps;
      ended, attempts, sleeps := policy.Execute(attempt);
      outcome := if ended.Ended? then ended.outcome else OtherError;
      if outcome.Returned? {
        OnSuccess();
      } else if outcome.ConnectionError? {
        OnFailure(finish);
      }
    }
  }

  // ---------- the retry loop ----------

  /** Raising `None` is an error of its own. */
  datatype Ended = Ended(outcome: Outcome) | RaisedNothing

  function Power(base: real, n: nat): real { if n == 0 then 1.0 else base * Power(base, n - 1) }

  class RetryPolicy {
    const maxRetries: int
    const backoffFactor: real
    const maxBackoff: real

    constructor (maxRetries: int, backoffFactor: real, maxBackoff: real)
      ensures this.maxRetries == maxRetries && this.backoffFactor == backoffFactor && this.maxBackoff == maxBackoff
    {
      this.maxRetries, this.backoffFactor, this.maxBackoff := maxRetries, backoffFactor, maxBackoff;
    }

    function Backoff(attempt: nat): real {
      var wait := Power(backoffFactor, attempt);
      if wait <= maxBackoff then wait else maxBackoff
    }

    /** execute_with_retry. Every attempt before the last ended in a way that is retried and was followed
        by one sleep; the last one either ended otherwise or was the last that is allowed. With a negative
        number of retries there is no attempt, and nothing to raise. */
    method Execute(attempt: nat -> Outcome) returns (ended: Ended, attempts: nat, sleeps: seq<real>)
      ensures maxRetries < 0 <==> ended.RaisedNothing?
      ensures maxRetries < 0 ==> attempts == 0 && sleeps == []
      ensures maxRetries >= 0 ==>
                && 1 <= attempts <= maxRetries + 1
                && (forall i :: 0 <= i < attempts - 1 ==> Retried(attempt(i)))
                && ended == Ended(attempt(attempts - 1))
                && (Retried(attempt(attempts - 1)) ==> attempts == maxRetries + 1)
                && sleeps == seq(attempts - 1, i requires i >= 0 => Backoff(i))
    {
      ended, attempts, sleeps := RaisedNothing, 0, [];
      while attempts < maxRetries + 1
        invariant attempts <= maxRetries + 1 || (maxRetries < 0 && attempts == 0)
        invariant attempts == 0 || attempts < maxRetries + 1
        invariant forall i :: 0 <= i < attempts ==> Retried(attempt(i))
        invariant ended.RaisedNothing?
        invariant sleeps == seq(attempts, i requires i >= 0 => Backoff(i))
      {
        var outcome := attempt(attempts);
        attempts := attempts + 1;
        if !Retried(outcome) || attempts - 1 == maxRetries {
          ended := Ended(outcome);
          return;
        }
        sleeps := sleeps + [Backoff(attempts - 1)];
      }
    }
  }
}
