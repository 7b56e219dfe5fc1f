/** The `max_delay` retry loop of `LimiterMixin.send`
    (requests_ratelimiter.py). The non-blocking acquire and the clock are
    given as oracles: `acquire(k)` is the answer of the attempt numbered `k`
    (from 0), `clock(0)` is the start time and `clock(k)`, for `k >= 1`, the
    time read after the `k`-th failed attempt. Times and `max_delay` share
    one integer unit. */
module MaxDelay {

  datatype AcquireOutcome =
    | Acquired(attempts: nat)   // the last of `attempts` attempts succeeded
    | TimedOut(attempts: nat)   // `attempts` attempts failed, then the deadline check raised

  /** Time moves forward, and strictly across each `sleep` between readings. */
  ghost predicate ClockAdvances(clock: nat -> int)
  {
    && clock(0) <= clock(1)
    && forall j: nat, k: nat :: 1 <= j < k ==> clock(j) < clock(k)
  }

  /** The first `n` attempts failed and none of their deadline checks fired. */
  predicate StillWaiting(maxDelay: int, acquire: nat -> bool, clock: nat -> int, n: nat)
  {
    && (forall j: nat :: j < n ==> !acquire(j))
    && (forall j: nat :: 1 <= j <= n ==> clock(j) - clock(0) < maxDelay)
  }

  /** The loop breaks on attempt number `n - 1`. */
  predicate AcquiredAt(maxDelay: int, acquire: nat -> bool, clock: nat -> int, n: nat)
  {
    n >= 1 && StillWaiting(maxDelay, acquire, clock, n - 1) && acquire(n - 1)
  }

  /** Attempt number `n - 1` fails and the elapsed time since the start has
      reached `max_delay`, so the loop raises `RuntimeError`. */
  predicate TimedOutAt(maxDelay: int, acquire: nat -> bool, clock: nat -> int, n: nat)
  {
    && n >= 1 && StillWaiting(maxDelay, acquire, clock, n - 1)
    && !acquire(n - 1) && clock(n) - clock(0) >= maxDelay
  }

  /** The `while True` loop: try, break on success, else raise once the
      elapsed time has reached `max_delay`, else sleep and retry. */
  method AcquireWithin(maxDelay: int, acquire: nat -> bool, clock: nat -> int) returns (r: AcquireOutcome)
    requires ClockAdvances(clock)
    ensures r.Acquired? ==> AcquiredAt(maxDelay, acquire, clock, r.attempts)
    ensures r.TimedOut? ==> TimedOutAt(maxDelay, acquire, clock, r.attempts)
  {
    var start := clock(0);
    var i: nat := 0;
    while true
      invariant StillWaiting(maxDelay, acquire, clock, i)
      decreases if i == 0 then 1 else 0, maxDelay - (clock(i) - start)
    {
      var acquired := acquire(i);
      if acquired {
        return Acquired(i + 1);
      }
      var elapsed := clock(i + 1) - start;
      if elapsed >= maxDelay {
        return TimedOut(i + 1);
      }
      i := i + 1;
    }
  }

  /** A run of the loop has exactly one outcome: it cannot both acquire and
      time out, and it does either at one attempt count only. */
  lemma OutcomeUnique(maxDelay: int, acquire: nat -> bool, clock: nat -> int, n: nat, m: nat)
    ensures AcquiredAt(maxDelay, acquire, clock, n) && AcquiredAt(maxDelay, acquire, clock, m) ==> n == m
    ensures TimedOutAt(maxDelay, acquire, clock, n) && TimedOutAt(maxDelay, acquire, clock, m) ==> n == m
    ensures !(AcquiredAt(maxDelay, acquire, clock, n) && TimedOutAt(maxDelay, acquire, clock, m))
  {
  }

  /** With `max_delay` at most 0 a failed first attempt raises at once. */
  lemma NoDelayAllowed(maxDelay: int, acquire: nat -> bool, clock: nat -> int)
    requires ClockAdvances(clock) && maxDelay <= 0 && !acquire(0)
    ensures TimedOutAt(maxDelay, acquire, clock, 1)
  {
  }

  /** The loop never raises while attempts keep succeeding: a successful
      first attempt proceeds whatever `max_delay` is. */
  lemma FirstAttemptProceeds(maxDelay: int, acquire: nat -> bool, clock: nat -> int)
    requires acquire(0)
    ensures AcquiredAt(maxDelay, acquire, clock, 1)
    ensures forall m: nat :: !TimedOutAt(maxDelay, acquire, clock, m)
  {
    forall m: nat ensures !TimedOutAt(maxDelay, acquire, clock, m) {
      OutcomeUnique(maxDelay, acquire, clock, 1, m);
    }
  }
}
