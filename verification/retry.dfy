/** `withRetry`: bounded retries with exponential backoff around one
    fallible call, as a pure fold over the outcomes the call produces on its
    successive attempts. The waits are recorded instead of slept. */
module Retry {
  import opened Text
  import opened Results

  /** How one `withRetry` call ends: what it returns or throws, how many
      times it invoked the wrapped function, and the backoff waits (in
      milliseconds) it slept, in order. */
  datatype RetryRun<T> = RetryRun(outcome: Result<T>, attempts: nat, delays: seq<int>)

  /** Failures the wrapper never retries: their message mentions "Invalid"
      or "required" (case-sensitive). */
  predicate IsValidationError(msg: string) {
    Contains(msg, "Invalid") || Contains(msg, "required")
  }

  /** A message without a capital 'I' and without a 'q' can mention
      neither marker, so its failure is retried. */
  lemma MessageWithoutMarkers(msg: string)
    requires 'I' !in msg && 'q' !in msg
    ensures !IsValidationError(msg)
  {
    MissingChar(msg, "Invalid", 0);
    MissingChar(msg, "required", 2);
  }

  /** A failure worth another attempt. */
  predicate Transient<T>(a: Result<T>) {
    a.Err? && !IsValidationError(a.msg)
  }

  /** `Math.pow(2, k)`. */
  function Pow2(k: nat): (r: nat)
    ensures r >= 1
  {
    if k == 0 then 1 else 2 * Pow2(k - 1)
  }

  /** The first `n` waits of the schedule `baseDelay * 2^k`. */
  function Backoff(baseDelay: int, n: nat): (r: seq<int>)
    ensures |r| == n
    ensures forall k :: 0 <= k < n ==> r[k] == baseDelay * Pow2(k)
  {
    seq(n, k requires 0 <= k < n => baseDelay * Pow2(k))
  }

  /** The loop of `withRetry` from attempt number `attempt` on, having
      recorded `lastError` and `delays` so far. `calls(k)` is what the
      wrapped function produces when invoked for the k-th time. */
  function RetryLoop<T>(calls: nat -> Result<T>, maxRetries: int, baseDelay: int,
                        attempt: nat, lastError: Option<string>, delays: seq<int>): (r: RetryRun<T>)
    ensures attempt <= r.attempts
    ensures r.attempts <= (if attempt < maxRetries then maxRetries else attempt)
    ensures r.outcome.Ok? ==> attempt < r.attempts && calls(r.attempts - 1) == r.outcome
    ensures forall j :: attempt <= j < r.attempts - 1 ==> Transient(calls(j))
    ensures delays <= r.delays
    decreases if attempt < maxRetries then maxRetries - attempt else 0
  {
    if attempt >= maxRetries then
      RetryRun(Err(match lastError case Some(m) => m case None => "Max retries exceeded"), attempt, delays)
    else
      match calls(attempt)
      case Ok(v) => RetryRun(Ok(v), attempt + 1, delays)
      case Err(m) =>
        if IsValidationError(m) then RetryRun(Err(m), attempt + 1, delays)
        else
          var delays' := if attempt < maxRetries - 1 then delays + [baseDelay * Pow2(attempt)] else delays;
          RetryLoop(calls, maxRetries, baseDelay, attempt + 1, Some(m), delays')
  }

  /** `withRetry(fn, maxRetries, baseDelay)`. */
  function WithRetry<T>(calls: nat -> Result<T>, maxRetries: int, baseDelay: int): (r: RetryRun<T>)
    ensures r.attempts <= (if maxRetries > 0 then maxRetries else 0)
    ensures maxRetries <= 0 ==> r == RetryRun(Err("Max retries exceeded"), 0, [])
    ensures r.outcome.Ok? ==> r.attempts > 0 && calls(r.attempts - 1) == r.outcome
    ensures forall j :: 0 <= j < r.attempts - 1 ==> Transient(calls(j))
  {
    RetryLoop(calls, maxRetries, baseDelay, 0, None, [])
  }

  lemma BackoffExtend(baseDelay: int, n: nat)
    ensures Backoff(baseDelay, n) + [baseDelay * Pow2(n)] == Backoff(baseDelay, n + 1)
  {
  }

  lemma {:induction false} LoopStops<T>(calls: nat -> Result<T>, maxRetries: int, baseDelay: int,
                                        a: nat, last: Option<string>, k: nat)
    requires a <= k < maxRetries
    requires forall j :: a <= j < k ==> Transient(calls(j))
    requires !Transient(calls(k))
    ensures RetryLoop(calls, maxRetries, baseDelay, a, last, Backoff(baseDelay, a))
         == RetryRun(calls(k), k + 1, Backoff(baseDelay, k))
    decreases k - a
  {
    if a < k {
      BackoffExtend(baseDelay, a);
      LoopStops(calls, maxRetries, baseDelay, a + 1, Some(calls(a).msg), k);
    }
  }

  lemma {:induction false} LoopExhausts<T>(calls: nat -> Result<T>, maxRetries: int, baseDelay: int,
                                           a: nat, last: Option<string>)
    requires a < maxRetries
    requires forall j :: a <= j < maxRetries ==> Transient(calls(j))
    ensures RetryLoop(calls, maxRetries, baseDelay, a, last, Backoff(baseDelay, a))
         == RetryRun(calls(maxRetries - 1), maxRetries, Backoff(baseDelay, maxRetries - 1))
    decreases maxRetries - a
  {
    if a < maxRetries - 1 {
      BackoffExtend(baseDelay, a);
      LoopExhausts(calls, maxRetries, baseDelay, a + 1, Some(calls(a).msg));
    }
  }

  /** The first attempt that succeeds or fails with a validation error ends
      the run with exactly that outcome: one call per attempt up to it, and
      one wait `baseDelay * 2^j` after each transient failure j before it. */
  lemma RetryStopsAtFirstDecisive<T>(calls: nat -> Result<T>, maxRetries: int, baseDelay: int, k: nat)
    requires k < maxRetries
    requires forall j :: 0 <= j < k ==> Transient(calls(j))
    requires !Transient(calls(k))
    ensures WithRetry(calls, maxRetries, baseDelay) == RetryRun(calls(k), k + 1, Backoff(baseDelay, k))
  {
    LoopStops(calls, maxRetries, baseDelay, 0, None, k);
  }

  /** When every attempt fails transiently, all `maxRetries` attempts are
      made, the last error is thrown, and there is no wait after the final
      attempt. */
  lemma RetryExhausted<T>(calls: nat -> Result<T>, maxRetries: int, baseDelay: int)
    requires maxRetries >= 1
    requires forall j :: 0 <= j < maxRetries ==> Transient(calls(j))
    ensures WithRetry(calls, maxRetries, baseDelay)
         == RetryRun(calls(maxRetries - 1), maxRetries, Backoff(baseDelay, maxRetries - 1))
  {
    LoopExhausts(calls, maxRetries, baseDelay, 0, None);
  }

  /** With the image generator's settings (two attempts, 2000 ms base) two
      transient failures cost exactly one wait of 2000 ms. */
  lemma ImageRetrySchedule<T>(calls: nat -> Result<T>)
    requires Transient(calls(0)) && Transient(calls(1))
    ensures WithRetry(calls, 2, 2000) == RetryRun(calls(1), 2, [2000])
  {
    RetryExhausted(calls, 2, 2000);
    assert Backoff(2000, 1) == [2000];
  }
}
