/** The retry loop around a push transaction. */
module Retry {
  import opened Prelude

  /** The error of the last attempt, wrapped when the budget ran out on a retryable one. */
  datatype RetryError<E> = Bare(error: E) | Exhausted(error: E, maxAttempts: nat)

  /** What the loop does after attempt number `attempt` failed. */
  datatype Decision<E> = SleepThenRetry | GiveUp(e: RetryError<E>)

  function Decide<E>(error: E, retryable: bool, attempt: nat, maxAttempts: nat): Decision<E> {
    if retryable && attempt < maxAttempts then SleepThenRetry
    else if retryable then GiveUp(Exhausted(error, maxAttempts))
    else GiveUp(Bare(error))
  }

  /** `with_retry_inner`: `f(n)` is what the closure returns when called for the `n`th time. The
      loop stops at the first attempt that succeeds, fails for good, or uses up the budget; it
      sleeps once between attempts, passing the attempt's number. */
  method WithRetryInner<T, E>(f: nat -> Result<T, E>, maxAttempts: nat, shouldRetry: E -> bool)
    returns (r: Result<T, RetryError<E>>, calls: nat, sleeps: seq<nat>)
    ensures 1 <= calls && (calls <= maxAttempts || calls == 1)
    ensures |sleeps| == calls - 1 && forall i :: 0 <= i < |sleeps| ==> sleeps[i] == i + 1
    ensures forall n :: 1 <= n < calls ==>
              f(n).Err? && shouldRetry(f(n).error) && Decide(f(n).error, true, n, maxAttempts) == SleepThenRetry
    ensures match f(calls)
            case Ok(v) => r == Ok(v)
            case Err(e) => r.Err? && Decide(e, shouldRetry(e), calls, maxAttempts) == GiveUp(r.error)
    ensures r.Err? ==> (r.error.Exhausted? <==> shouldRetry(r.error.error))
                       && (r.error.Exhausted? ==> calls >= maxAttempts && r.error.maxAttempts == maxAttempts)
  {
    var attempt := 1;
    sleeps := [];
    while true
      invariant 1 <= attempt && (attempt <= maxAttempts || attempt == 1)
      invariant |sleeps| == attempt - 1 && forall i :: 0 <= i < |sleeps| ==> sleeps[i] == i + 1
      invariant forall n :: 1 <= n < attempt ==>
                  f(n).Err? && shouldRetry(f(n).error) && Decide(f(n).error, true, n, maxAttempts) == SleepThenRetry
      decreases maxAttempts - attempt
    {
      match f(attempt) {
        case Ok(v) =>
          return Ok(v), attempt, sleeps;
        case Err(e) =>
          var retryable := shouldRetry(e);
          if retryable && attempt < maxAttempts {
            sleeps := sleeps + [attempt];
            attempt := attempt + 1;
            continue;
          }
          if retryable {
            return Err(Exhausted(e, maxAttempts)), attempt, sleeps;
          }
          return Err(Bare(e)), attempt, sleeps;
      }
    }
  }
}
