/** Counters exported by the keeper, labelled by contract. */
module KeeperMetrics {
  datatype Outcome = SubmittedOutcome | NoOpOutcome | ErrorOutcome

  datatype Counters = Counters(
    retries: map<string, nat>, pollErrors: map<string, nat>, extensions: map<(string, Outcome), nat>)

  class Metrics {
    var retries: map<string, nat>
    var pollErrors: map<string, nat>
    var extensions: map<(string, Outcome), nat>

    constructor ()
      ensures retries == map[] && pollErrors == map[] && extensions == map[]
    {
      retries, pollErrors, extensions := map[], map[], map[];
    }

    function Counts(): Counters
      reads this
    {
      Counters(retries, pollErrors, extensions)
    }

    method IncRetry(contract: string)
      modifies this`retries
      ensures retries == Bump(old(retries), contract, 1)
    {
      retries := Bump(retries, contract, 1);
    }

    method IncPollError(contract: string)
      modifies this`pollErrors
      ensures pollErrors == Bump(old(pollErrors), contract, 1)
    {
      pollErrors := Bump(pollErrors, contract, 1);
    }

    method IncExtensions(contract: string, outcome: Outcome)
      modifies this`extensions
      ensures extensions == Bump(old(extensions), (contract, outcome), 1)
    {
      extensions := Bump(extensions, (contract, outcome), 1);
    }
  }

  function Count<K>(counter: map<K, nat>, name: K): nat {
    if name in counter then counter[name] else 0
  }

  function Bump<K>(counter: map<K, nat>, name: K, times: nat): map<K, nat> {
    if times == 0 then counter else counter[name := Count(counter, name) + times]
  }
}

/** Bounded retry with exponential backoff. */
module Retry {
  import opened Machine
  import opened Wrappers
  import opened KeeperMetrics

  /** Durations are nanoseconds; the largest is `u64::MAX` seconds and 999 999 999 nanoseconds. */
  const DURATION_MAX: nat := 0xFFFF_FFFF_FFFF_FFFF * 1_000_000_000 + 999_999_999
  type Duration = n: nat | n <= DURATION_MAX

  datatype RetryPolicy = RetryPolicy(maxAttempts: u32, baseDelay: Duration, maxDelay: Duration) {
    function Retries(): u32 {
      SatSub(maxAttempts, 1)
    }

    /** Delay before retry number `attempt`, counted from 1. */
    function DelayFor(attempt: u32): Duration {
      Min(SatMul(baseDelay, Pow2(Min(SatSub(attempt, 1), 10))), maxDelay)
    }

    /** An operation is tried at least once, even when no attempt is allowed. */
    function Allowed(): nat {
      Max(1, maxAttempts)
    }
  }

  function SatMul(d: Duration, factor: nat): Duration {
    Min(d * factor, DURATION_MAX)
  }

  function Pow2(n: nat): (p: nat)
    ensures p >= 1
  {
    if n == 0 then 1 else 2 * Pow2(n - 1)
  }

  /**
   * From call number `start` on, `calls` calls of `op` are what bounded retry makes: transient failures up to a
   * decisive last call.
   */
  ghost predicate RetryTrace<T, E>(policy: RetryPolicy, op: nat -> Result<T, E>, start: nat, transient: E -> bool,
                                   calls: nat)
  {
    && 1 <= calls <= policy.Allowed()
    && (forall i :: start <= i < start + calls - 1 ==> op(i).Err? && transient(op(i).error))
    && var last := op(start + calls - 1);
       (last.Ok? || !transient(last.error) || calls == policy.Allowed())
  }

  /** The number of calls when `made` have failed transiently. */
  ghost function CallsAfter<T, E>(policy: RetryPolicy, op: nat -> Result<T, E>, start: nat, transient: E -> bool,
                                  made: nat): nat
    requires made < policy.Allowed()
    decreases policy.Allowed() - made
  {
    var next := op(start + made);
    if next.Ok? || !transient(next.error) || made + 1 == policy.Allowed() then made + 1
    else CallsAfter(policy, op, start, transient, made + 1)
  }

  /** Every operation has exactly one such trace, so the number of calls and the result are determined. */
  lemma TraceExactly<T, E>(policy: RetryPolicy, op: nat -> Result<T, E>, start: nat, transient: E -> bool, calls: nat)
    ensures RetryTrace(policy, op, start, transient, calls) <==> calls == CallsAfter(policy, op, start, transient, 0)
  {
    TraceAfter(policy, op, start, transient, 0, calls);
  }

  lemma {:induction false} TraceAfter<T, E>(policy: RetryPolicy, op: nat -> Result<T, E>, start: nat,
                                            transient: E -> bool, made: nat, calls: nat)
    requires made < policy.Allowed()
    requires forall i :: start <= i < start + made ==> op(i).Err? && transient(op(i).error)
    ensures RetryTrace(policy, op, start, transient, calls) <==> calls == CallsAfter(policy, op, start, transient, made)
    ensures made < CallsAfter(policy, op, start, transient, made)
    decreases policy.Allowed() - made
  {
    var next := op(start + made);
    if next.Err? && transient(next.error) && made + 1 < policy.Allowed() {
      TraceAfter(policy, op, start, transient, made + 1, calls);
    }
  }

  /** The first `d` answers are transient failures. */
  ghost predicate FailsFor<T, E>(op: nat -> Result<T, E>, start: nat, transient: E -> bool, d: nat) {
    forall i :: start <= i < start + d ==> op(i).Err? && transient(op(i).error)
  }

  ghost predicate DecidesAt<T, E>(op: nat -> Result<T, E>, start: nat, transient: E -> bool, d: nat) {
    FailsFor(op, start, transient, d) && (op(start + d).Ok? || !transient(op(start + d).error))
  }

  /**
   * Which answer is returned: the first that is a success or fails for good, if it is among the first `max_attempts`
   * (or is the very first); else the last of these.
   */
  lemma ReturnsFirstDecisive<T, E>(policy: RetryPolicy, op: nat -> Result<T, E>, start: nat, transient: E -> bool,
                                   calls: nat, d: nat)
    requires RetryTrace(policy, op, start, transient, calls)
    ensures DecidesAt(op, start, transient, d) ==> calls == Min(d + 1, Max(1, policy.maxAttempts))
    ensures FailsFor(op, start, transient, Max(1, policy.maxAttempts)) ==> calls == Max(1, policy.maxAttempts)
  {
    var last := op(start + calls - 1);
  }

  function TotalSleep(sleeps: seq<Duration>): nat {
    if sleeps == [] then 0 else TotalSleep(sleeps[..|sleeps| - 1]) + sleeps[|sleeps| - 1]
  }

  ghost predicate BackoffSleeps(policy: RetryPolicy, sleeps: seq<Duration>) {
    forall i :: 0 <= i < |sleeps| && i + 1 <= U32_MAX ==> sleeps[i] == policy.DelayFor(i + 1)
  }

  /**
   * Calls `op`, whose `n`-th call gives `op(n)`, from call `start` on until it succeeds, fails for good or uses up
   * its attempts. The sleeps between the calls are returned in order.
   */
  method WithRetry<T, E>(policy: RetryPolicy, metrics: Metrics, contract: string, op: nat -> Result<T, E>, start: nat,
                         transient: E -> bool)
      returns (result: Result<T, E>, calls: nat, sleeps: seq<Duration>)
    modifies metrics`retries
    ensures RetryTrace(policy, op, start, transient, calls)
    ensures result == op(start + calls - 1)
    ensures metrics.retries == Bump(old(metrics.retries), contract, calls - 1)
    ensures |sleeps| == calls - 1 && BackoffSleeps(policy, sleeps)
  {
    var attempt: u32 := 0;
    sleeps := [];
    while true
      invariant attempt <= policy.Retries()
      invariant forall i :: start <= i < start + attempt ==> op(i).Err? && transient(op(i).error)
      invariant metrics.retries == Bump(old(metrics.retries), contract, attempt)
      invariant |sleeps| == attempt && BackoffSleeps(policy, sleeps)
      decreases policy.Retries() - attempt
    {
      var outcome := op(start + attempt);
      match outcome {
        case Ok(value) =>
          return outcome, attempt + 1, sleeps;
        case Err(error) =>
          if attempt >= policy.Retries() || !transient(error) {
            return outcome, attempt + 1, sleeps;
          }
          attempt := attempt + 1;
          metrics.IncRetry(contract);
          sleeps := sleeps + [policy.DelayFor(attempt)];
      }
    }
  }

  // ---------------------------------------------------------------------------
  // Backoff
  // ---------------------------------------------------------------------------

  /** Up to the eleventh retry each delay is the double of the one before, capped; from there it stays. */
  lemma DelayDoublesUntilCapped(policy: RetryPolicy, attempt: u32)
    requires 1 <= attempt < U32_MAX
    ensures policy.DelayFor(attempt + 1) ==
      if attempt <= 10 then Min(2 * policy.DelayFor(attempt), policy.maxDelay) else policy.DelayFor(attempt)
  {
    if attempt <= 10 {
      var p := Pow2(attempt - 1);
      assert Pow2(attempt) == 2 * p;
      assert policy.baseDelay * (2 * p) == 2 * (policy.baseDelay * p);
    }
  }

  /** The first delay is the base, within the cap; ten doublings later delays stand still. */
  lemma FirstAndLastDelay(policy: RetryPolicy, attempt: u32)
    ensures attempt <= 1 ==> policy.DelayFor(attempt) == Min(policy.baseDelay, policy.maxDelay)
    ensures attempt >= 11 ==> policy.DelayFor(attempt) == Min(1024 * policy.baseDelay, policy.maxDelay)
  {
    assert Pow2(0) == 1;
    assert Pow2(5) == 32;
    assert Pow2(10) == 1024;
  }

  /** The shipped policy: three attempts, 200 ms, at most 5 s. */
  const DEFAULT_POLICY := RetryPolicy(3, 200_000_000, 5_000_000_000)

  /** With the shipped policy an operation that keeps failing transiently sleeps 200 ms, then 400 ms, and gives up. */
  lemma DefaultSleeps<T, E>(op: nat -> Result<T, E>, start: nat, transient: E -> bool, calls: nat, sleeps: seq<Duration>)
    requires RetryTrace(DEFAULT_POLICY, op, start, transient, calls)
    requires |sleeps| == calls - 1 && BackoffSleeps(DEFAULT_POLICY, sleeps)
    requires forall i :: op(i).Err? && transient(op(i).error)
    ensures calls == 3 && sleeps == [200_000_000, 400_000_000]
  {
    FirstAndLastDelay(DEFAULT_POLICY, 1);
    DelayDoublesUntilCapped(DEFAULT_POLICY, 1);
    assert sleeps[0] == DEFAULT_POLICY.DelayFor(1) && sleeps[1] == DEFAULT_POLICY.DelayFor(2);
  }

  lemma {:induction false} DelaysAreMonotone(policy: RetryPolicy, i: u32, j: u32)
    requires 1 <= i <= j
    ensures policy.DelayFor(i) <= policy.DelayFor(j) <= policy.maxDelay
    decreases j
  {
    if i < j {
      DelaysAreMonotone(policy, i, j - 1);
      DelayDoublesUntilCapped(policy, j - 1);
    }
  }

  lemma {:induction false} SumBounds(sleeps: seq<Duration>, low: nat, high: nat)
    requires forall i :: 0 <= i < |sleeps| ==> low <= sleeps[i] <= high
    ensures |sleeps| * low <= TotalSleep(sleeps) <= |sleeps| * high
  {
    if sleeps == [] {
      assert 0 * low == 0 * high == 0;
    } else {
      var n := |sleeps| - 1;
      SumBounds(sleeps[..n], low, high);
      assert |sleeps| * low == n * low + low;
      assert |sleeps| * high == n * high + high;
    }
  }

  /** Sleeping never exceeds the cap once per retry, so one operation is delayed by a known bound. */
  lemma SleepIsBounded(policy: RetryPolicy, sleeps: seq<Duration>)
    requires BackoffSleeps(policy, sleeps) && |sleeps| <= policy.Retries()
    ensures |sleeps| * Min(policy.baseDelay, policy.maxDelay) <= TotalSleep(sleeps) <= |sleeps| * policy.maxDelay
  {
    FirstAndLastDelay(policy, 1);
    forall i | 0 <= i < |sleeps|
      ensures Min(policy.baseDelay, policy.maxDelay) <= sleeps[i] <= policy.maxDelay
    {
      DelaysAreMonotone(policy, 1, i + 1);
    }
    SumBounds(sleeps, Min(policy.baseDelay, policy.maxDelay), policy.maxDelay);
  }
}
