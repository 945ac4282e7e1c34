/**
 * The `with_retry` decorator (pipeline/retry.py): call a function up to
 * `max_retries + 1` times, sleeping `base_delay * 2^attempt` after each
 * failure but the last, and re-raise the last failure.
 *
 * The wrapped function is an oracle: `outcomes[i]` is what its `i`-th call
 * returns (`Ok`) or raises (`Err`). Sleeps are recorded rather than taken,
 * and delays are natural numbers of milliseconds.
 */
module Retry {
  import opened Wrappers
  import opened PyText

  /** The decorator's defaults: three retries, two seconds to start with. */
  const DefaultRetries: nat := 3
  const DefaultBaseDelay: nat := 2000

  /** What the wrapper logs: a warning per failure it will retry, an error on the final one. */
  datatype LogEntry =
    | Warning(attempt: nat, attempts: nat, error: string, delay: nat)
    | Failure(attempts: nat, error: string)

  function Pow2(n: nat): (p: nat)
    ensures p >= 1
  {
    if n == 0 then 1 else 2 * Pow2(n - 1)
  }

  /** The delay before retry number `attempt + 1`. */
  function Delay(baseDelay: nat, attempt: nat): nat {
    baseDelay * Pow2(attempt)
  }

  /** The sleeps after the first `k` failures. */
  function Delays(baseDelay: nat, k: nat): (d: seq<nat>)
    ensures |d| == k
  {
    seq(k, i requires 0 <= i < k => Delay(baseDelay, i))
  }

  /** The warnings logged for the first `k` failures. */
  function Warnings<T>(outcomes: seq<Result<T>>, maxRetries: nat, baseDelay: nat, k: nat): (w: seq<LogEntry>)
    requires k <= |outcomes|
    ensures |w| == k
  {
    seq(k, i requires 0 <= i < k =>
      Warning(i + 1, maxRetries + 1, if outcomes[i].Err? then outcomes[i].error else "", Delay(baseDelay, i)))
  }

  /** The index of the first success among the first `n` outcomes, or `n` when all fail. */
  function FirstSuccess<T>(outcomes: seq<Result<T>>, n: nat): (k: nat)
    requires n <= |outcomes|
    ensures k <= n
    ensures forall j :: 0 <= j < k ==> outcomes[j].Err?
    ensures k < n ==> outcomes[k].Ok?
    decreases n
  {
    if n == 0 then 0
    else if outcomes[0].Ok? then 0
    else 1 + FirstSuccess(outcomes[1..], n - 1)
  }

  /**
   * The wrapper. The first success is returned at once; a failure before the
   * last attempt is logged and followed by a sleep; the last failure is
   * logged as an error and re-raised.
   */
  method WithRetry<T>(maxRetries: nat, baseDelay: nat, outcomes: seq<Result<T>>)
    returns (r: Result<T>, calls: nat, sleeps: seq<nat>, log: seq<LogEntry>)
    requires |outcomes| >= maxRetries + 1
    ensures 1 <= calls <= maxRetries + 1
    ensures |sleeps| == calls - 1
    ensures FirstSuccess(outcomes, maxRetries + 1) <= maxRetries ==>
      var k := FirstSuccess(outcomes, maxRetries + 1);
      && r == outcomes[k] && r.Ok?
      && calls == k + 1
      && sleeps == Delays(baseDelay, k)
      && log == Warnings(outcomes, maxRetries, baseDelay, k)
    ensures FirstSuccess(outcomes, maxRetries + 1) > maxRetries ==>
      && outcomes[maxRetries].Err?
      && r == Err(outcomes[maxRetries].error)
      && calls == maxRetries + 1
      && sleeps == Delays(baseDelay, maxRetries)
      && log == Warnings(outcomes, maxRetries, baseDelay, maxRetries) + [Failure(maxRetries + 1, outcomes[maxRetries].error)]
  {
    sleeps := [];
    log := [];
    var lastError := "";
    calls := 0;
    var attempt := 0;
    while attempt < maxRetries + 1
      invariant attempt <= maxRetries + 1 && calls == attempt
      invariant forall j :: 0 <= j < attempt ==> outcomes[j].Err?
      invariant sleeps == Delays(baseDelay, Min(attempt, maxRetries))
      invariant attempt <= maxRetries ==> log == Warnings(outcomes, maxRetries, baseDelay, attempt)
      invariant attempt > maxRetries ==>
        log == Warnings(outcomes, maxRetries, baseDelay, maxRetries) + [Failure(maxRetries + 1, lastError)]
      invariant attempt > 0 ==> lastError == outcomes[attempt - 1].error
    {
      calls := calls + 1;
      var outcome := outcomes[attempt];
      if outcome.Ok? {
        FirstSuccessAt(outcomes, maxRetries + 1, attempt);
        r := outcome;
        return;
      }
      lastError := outcome.error;
      if attempt < maxRetries {
        var delay := baseDelay * Pow2(attempt);
        log := log + [Warning(attempt + 1, maxRetries + 1, outcome.error, delay)];
        assert Warnings(outcomes, maxRetries, baseDelay, attempt + 1)
            == Warnings(outcomes, maxRetries, baseDelay, attempt) + [Warning(attempt + 1, maxRetries + 1, outcome.error, delay)];
        sleeps := sleeps + [delay];
        assert Delays(baseDelay, attempt + 1) == Delays(baseDelay, attempt) + [delay];
      } else {
        log := log + [Failure(maxRetries + 1, outcome.error)];
      }
      attempt := attempt + 1;
    }
    FirstSuccessNone(outcomes, maxRetries + 1);
    r := Err(lastError);
  }

  /** A success preceded only by failures is the first success. */
  lemma {:induction false} FirstSuccessAt<T>(outcomes: seq<Result<T>>, n: nat, k: nat)
    requires k < n <= |outcomes|
    requires forall j :: 0 <= j < k ==> outcomes[j].Err?
    requires outcomes[k].Ok?
    ensures FirstSuccess(outcomes, n) == k
    decreases k
  {
    if k > 0 {
      FirstSuccessAt(outcomes[1..], n - 1, k - 1);
    }
  }

  /** When every outcome fails there is no first success. */
  lemma {:induction false} FirstSuccessNone<T>(outcomes: seq<Result<T>>, n: nat)
    requires n <= |outcomes|
    requires forall j :: 0 <= j < n ==> outcomes[j].Err?
    ensures FirstSuccess(outcomes, n) == n
    decreases n
  {
    if n > 0 {
      FirstSuccessNone(outcomes[1..], n - 1);
    }
  }

  /** Each delay is twice the one before, so with a positive base they grow strictly. */
  lemma DelaysDouble(baseDelay: nat, k: nat, i: nat)
    requires i + 1 < k
    ensures Delays(baseDelay, k)[i + 1] == 2 * Delays(baseDelay, k)[i]
    ensures baseDelay > 0 ==> Delays(baseDelay, k)[i + 1] > Delays(baseDelay, k)[i]
  {
    assert Pow2(i + 1) == 2 * Pow2(i);
    assert Delay(baseDelay, i + 1) == 2 * (baseDelay * Pow2(i));
  }

  function Sum(d: seq<nat>): nat {
    if |d| == 0 then 0 else Sum(d[..|d| - 1]) + d[|d| - 1]
  }

  /** The sleeps before giving up add up to `base_delay * (2^max_retries - 1)`. */
  lemma {:induction false} TotalWait(baseDelay: nat, k: nat)
    ensures Sum(Delays(baseDelay, k)) == baseDelay * (Pow2(k) - 1)
  {
    if k > 0 {
      TotalWait(baseDelay, k - 1);
      assert Delays(baseDelay, k)[..k - 1] == Delays(baseDelay, k - 1);
      assert Pow2(k) == 2 * Pow2(k - 1);
      assert baseDelay * (Pow2(k - 1) - 1) + baseDelay * Pow2(k - 1) == baseDelay * (2 * Pow2(k - 1) - 1);
    }
  }
}
