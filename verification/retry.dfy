/** The client's retry policy and its bounded retry loop (`doWithRetry`).
    Durations are integers of nanoseconds, like Go's `time.Duration`. The
    backoff multiplier is a natural-number factor. */
module Retry {

  import opened Results
  import opened Http

  const Second: int := 1_000_000_000

  /** `RetryConfig`. `shouldRetry` is the predicate as the loop consults it:
      only ever with a nil error and a non-nil response. */
  datatype RetryConfig = RetryConfig(
    maxRetries: int,
    retryDelay: int,
    maxDelay: int,
    multiplier: nat,
    shouldRetry: Response -> bool)

  /** Statuses the default predicate treats as transient: 403 Forbidden,
      429 Too Many Requests and the whole 5xx class. */
  predicate TransientStatus(status: int) {
    status == 403 || status == 429 || status / 100 == 5
  }

  /** The default `ShouldRetry`. With a nil error and a nil response the Go
      function dereferences nil, so that input is excluded. */
  function DefaultShouldRetry(resp: Option<Response>, err: Option<string>): (retry: bool)
    requires err.Some? || resp.Some?
    ensures err.Some? ==> retry
    ensures err.None? ==> (retry <==> TransientStatus(resp.value.status))
  {
    if err.Some? then true
    else if resp.value.status == 403 || resp.value.status == 429 then true
    else if resp.value.status >= 500 && resp.value.status < 600 then true
    else false
  }

  /** Every 2xx answer and every 4xx answer other than 403 and 429 is final. */
  lemma DefaultPredicateFinalStatuses(resp: Response)
    requires 200 <= resp.status < 300 || (400 <= resp.status < 500 && resp.status != 403 && resp.status != 429)
    ensures !DefaultShouldRetry(Some(resp), None)
  {
  }

  /** `defaultRetryConfig`: no retries, 1 s first delay, 30 s cap, factor 2. */
  const DefaultRetryConfig: RetryConfig := RetryConfig(
    0, 1 * Second, 30 * Second, 2,
    (resp: Response) => DefaultShouldRetry(Some(resp), None))

  function Min(a: int, b: int): int {
    if a < b then a else b
  }

  /** The loop's `delay` variable after k updates: the first sleep is the
      configured delay as it stands, every later one is the previous delay
      times the multiplier, capped at `maxDelay`. */
  function Delay(cfg: RetryConfig, k: nat): (d: int)
    ensures k == 0 ==> d == cfg.retryDelay
    ensures k >= 1 ==> d <= cfg.maxDelay
  {
    if k == 0 then cfg.retryDelay
    else Min(Delay(cfg, k - 1) * cfg.multiplier, cfg.maxDelay)
  }

  function Pow(m: nat, k: nat): nat {
    if k == 0 then 1 else m * Pow(m, k - 1)
  }

  /** Beyond the first, the iterated delays agree with the closed form
      min(retryDelay * multiplier^k, maxDelay). */
  lemma {:induction false} DelayClosedForm(cfg: RetryConfig, k: nat)
    requires k >= 1
    requires cfg.retryDelay >= 0 && cfg.maxDelay >= 0
    ensures Delay(cfg, k) == Min(cfg.retryDelay * Pow(cfg.multiplier, k), cfg.maxDelay)
    decreases k
  {
    var m := cfg.multiplier;
    var r := cfg.retryDelay;
    if k == 1 {
      assert Pow(m, 1) == m * Pow(m, 0);
    } else {
      DelayClosedForm(cfg, k - 1);
      var p := Pow(m, k - 1);
      PowStep(r, m, k);
      MinScale(r * p, cfg.maxDelay, m);
    }
  }

  lemma PowStep(r: int, m: nat, k: nat)
    requires k >= 1 && r >= 0
    ensures r * Pow(m, k) == (r * Pow(m, k - 1)) * m
    ensures r * Pow(m, k - 1) >= 0
  {
    var p := Pow(m, k - 1);
    assert Pow(m, k) == m * p;
    assert r * (m * p) == (r * p) * m;
  }

  /** Capping before scaling by a natural factor caps the scaled value. */
  lemma MinScale(x: int, cap: int, m: nat)
    requires x >= 0 && cap >= 0
    ensures Min(Min(x, cap) * m, cap) == Min(x * m, cap)
  {
    if x > cap {
      if m == 0 {
      } else {
        assert cap * m >= cap;
        assert x * m >= x;
      }
    }
  }

  lemma {:induction false} DelayBounds(cfg: RetryConfig, k: nat)
    requires 0 <= cfg.retryDelay <= cfg.maxDelay
    ensures 0 <= Delay(cfg, k) <= cfg.maxDelay
    decreases k
  {
    if k > 0 {
      DelayBounds(cfg, k - 1);
    }
  }

  /** With a multiplier of at least one and a first delay within the cap,
      the sleeps never shrink. */
  lemma {:induction false} DelayMonotone(cfg: RetryConfig, i: nat, j: nat)
    requires cfg.multiplier >= 1
    requires 0 <= cfg.retryDelay <= cfg.maxDelay
    requires i <= j
    ensures Delay(cfg, i) <= Delay(cfg, j)
    decreases j - i
  {
    if i < j {
      DelayBounds(cfg, i);
      var d := Delay(cfg, i);
      assert d * cfg.multiplier >= d;
      assert Delay(cfg, i) <= Delay(cfg, i + 1);
      DelayMonotone(cfg, i + 1, j);
    }
  }

  /** An attempt that ends the loop: no error, a response, and the
      predicate declines to retry. */
  predicate Accepts(cfg: RetryConfig, a: CallOutcome) {
    a.err.None? && a.resp.Some? && !cfg.shouldRetry(a.resp.value)
  }

  /** `doWithRetry`. `send(k)` is the outcome of the k-th call of
      `httpClient.Do`. Besides the returned pair, the method reports how
      many calls were made, the durations slept (one before each retry) and
      the attempts whose response body was closed before retrying. */
  method DoWithRetry(cfg: RetryConfig, send: nat -> CallOutcome)
    returns (out: CallOutcome, calls: nat, sleeps: seq<int>, closed: seq<nat>)
    // a negative retry count makes no call at all and returns nil, nil
    ensures cfg.maxRetries < 0 ==> calls == 0 && out == CallOutcome(None, None) && sleeps == [] && closed == []
    // at least one call and at most maxRetries + 1 of them
    ensures cfg.maxRetries >= 0 ==> 1 <= calls <= cfg.maxRetries + 1
    // the returned pair is the last attempt's
    ensures calls > 0 ==> out == send(calls - 1)
    // every attempt that was followed by another one was not accepted ...
    ensures forall k :: 0 <= k < calls - 1 ==> !Accepts(cfg, send(k))
    // ... and the loop stops at an accepted attempt or when the count is spent
    ensures calls > 0 ==> Accepts(cfg, send(calls - 1)) || calls == cfg.maxRetries + 1
    // a transport error is retried whenever attempts remain
    ensures forall k :: 0 <= k < calls && send(k).err.Some? && k < cfg.maxRetries ==> k < calls - 1
    // one sleep before each retry, following the delay sequence
    ensures |sleeps| == if calls == 0 then 0 else calls - 1
    ensures forall k :: 0 <= k < |sleeps| ==> sleeps[k] == Delay(cfg, k)
    // every response that is followed by a retry is closed first, in order
    ensures forall k: nat :: k in closed <==> k < calls - 1 && send(k).resp.Some?
    ensures forall i, j :: 0 <= i < j < |closed| ==> closed[i] < closed[j]
  {
    out := CallOutcome(None, None);
    calls := 0;
    sleeps := [];
    closed := [];
    var delay := cfg.retryDelay;
    var attempt: nat := 0;
    while attempt <= cfg.maxRetries
      invariant calls == attempt
      invariant cfg.maxRetries >= 0 ==> attempt <= cfg.maxRetries
      invariant cfg.maxRetries < 0 ==> attempt == 0
      invariant attempt > 0 ==> out == send(attempt - 1)
      invariant attempt == 0 ==> out == CallOutcome(None, None) && closed == []
      invariant forall k :: 0 <= k < attempt ==> !Accepts(cfg, send(k))
      invariant |sleeps| == if attempt == 0 then 0 else attempt - 1
      invariant forall k :: 0 <= k < |sleeps| ==> sleeps[k] == Delay(cfg, k)
      invariant delay == Delay(cfg, |sleeps|)
      invariant forall k: nat :: k in closed <==> k < attempt && send(k).resp.Some?
      invariant forall i, j :: 0 <= i < j < |closed| ==> closed[i] < closed[j]
      invariant forall i :: 0 <= i < |closed| ==> closed[i] < attempt
      decreases cfg.maxRetries - attempt
    {
      if attempt > 0 {
        sleeps := sleeps + [delay];
        delay := Min(delay * cfg.multiplier, cfg.maxDelay);
      }
      out := send(attempt);
      calls := calls + 1;
      if Accepts(cfg, out) {
        break;
      }
      if attempt == cfg.maxRetries {
        break;
      }
      if out.resp.Some? {
        closed := closed + [attempt];
      }
      attempt := attempt + 1;
    }
  }
}
