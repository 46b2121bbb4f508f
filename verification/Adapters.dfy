/** The fixed-window rate limiter with a history of its grants, and the adapter's circuit
    breaker and retry loop around a provider oracle. */
module Adapters {
  import opened Wrappers

  /** One minute in nanoseconds. */
  const WINDOW := 60_000_000_000

  class RateLimiter {
    const requestsPerMinute: int
    var windowStarted: int
    var requests: int
    /** When each request was granted, and when the window it fell in had started. */
    ghost var grants: seq<int>
    ghost var starts: seq<int>
    ghost var clock: int

    ghost predicate Valid()
      reads this
    {
      && |starts| == |grants|
      && 0 <= requests <= |grants|
      && windowStarted <= clock
      && (requestsPerMinute <= 0 ==> grants == [])
      && (requestsPerMinute > 0 ==> requests <= requestsPerMinute)
      && (forall i | 0 <= i < |grants| :: starts[i] <= grants[i] < starts[i] + WINDOW && grants[i] <= clock)
      && (forall i, j | 0 <= i < j < |grants| :: grants[i] <= grants[j])
      && (forall i | |grants| - requests <= i < |grants| :: starts[i] == windowStarted)
      && (forall i | 0 <= i < |grants| - requests :: starts[i] <= windowStarted - WINDOW)
      && (forall i, j | 0 <= i && j < |grants| && j == i + requestsPerMinute && requestsPerMinute > 0 ::
            starts[j] >= starts[i] + WINDOW)
    }

    constructor (requestsPerMinute: int, now: int)
      ensures Valid() && this.requestsPerMinute == requestsPerMinute
      ensures grants == [] && requests == 0 && windowStarted == clock == now
    {
      this.requestsPerMinute := requestsPerMinute;
      windowStarted, requests, clock := now, 0, now;
      grants, starts := [], [];
    }

    /** No request is allowed at all, or the current window is full. */
    predicate Refuses(now: int)
      reads this
    {
      requestsPerMinute <= 0 || (now - windowStarted < WINDOW && requests >= requestsPerMinute)
    }

    method Acquire(now: int) returns (granted: bool)
      requires Valid() && clock <= now
      modifies this
      ensures Valid() && clock == now
      ensures granted <==> !old(Refuses(now))
      ensures grants == if granted then old(grants) + [now] else old(grants)
      ensures requestsPerMinute <= 0 ==> !granted
      ensures requestsPerMinute > 0 && now - old(windowStarted) >= WINDOW ==>
                granted && windowStarted == now && requests == 1
      ensures requestsPerMinute > 0 && now - old(windowStarted) < WINDOW ==>
                && windowStarted == old(windowStarted)
                && (granted <==> old(requests) < requestsPerMinute)
                && requests == old(requests) + (if granted then 1 else 0)
    {
      clock := now;
      if requestsPerMinute <= 0 { return false; }
      if now - windowStarted >= WINDOW {
        windowStarted := now;
        requests := 0;
      }
      if requests >= requestsPerMinute { return false; }
      requests := requests + 1;
      grants := grants + [now];
      starts := starts + [windowStarted];
      granted := true;
    }
  }

  /** How many of the first `k` flags are set. */
  ghost function Count(flags: seq<bool>, k: nat): nat
    requires k <= |flags|
  {
    if k == 0 then 0 else Count(flags, k - 1) + (if flags[k - 1] then 1 else 0)
  }

  ghost function WithinMinute(grants: seq<int>, from: int): (flags: seq<bool>)
    ensures |flags| == |grants|
  {
    seq(|grants|, i requires 0 <= i < |grants| => from <= grants[i] < from + WINDOW)
  }

  ghost function OfWindow(starts: seq<int>, start: int): (flags: seq<bool>)
    ensures |flags| == |starts|
  {
    seq(|starts|, i requires 0 <= i < |starts| => starts[i] == start)
  }

  /** How many grants fall in the minute that begins at `from`. */
  ghost function GrantsWithin(grants: seq<int>, from: int): nat { Count(WithinMinute(grants, from), |grants|) }

  ghost function GrantsOfWindow(starts: seq<int>, start: int): nat { Count(OfWindow(starts, start), |starts|) }

  lemma {:induction false} NoneFlagged(flags: seq<bool>, k: nat)
    requires k <= |flags| && forall i | 0 <= i < k :: !flags[i]
    ensures Count(flags, k) == 0
  {
    if k > 0 { NoneFlagged(flags, k - 1); }
  }

  lemma {:induction false} AllFlagged(flags: seq<bool>, k: nat)
    requires k <= |flags| && forall i | 0 <= i < k :: flags[i]
    ensures Count(flags, k) == k
  {
    if k > 0 { AllFlagged(flags, k - 1); }
  }

  lemma {:induction false} CountGrowth(flags: seq<bool>, lo: nat, hi: nat)
    requires lo <= hi <= |flags|
    ensures Count(flags, hi) <= Count(flags, lo) + (hi - lo)
  {
    if lo < hi { CountGrowth(flags, lo, hi - 1); }
  }

  /** Flags that never lie `n` or more apart are at most `n` in number. */
  lemma {:induction false} CloseFlags(flags: seq<bool>, k: nat, n: nat)
    requires k <= |flags| && n > 0
    requires forall i, j | 0 <= i < k && 0 <= j < k && flags[i] && flags[j] :: j < i + n
    ensures Count(flags, k) <= n
  {
    if k > 0 {
      if flags[k - 1] {
        var lo := if k < n then 0 else k - n;
        NoneFlagged(flags, lo);
        CountGrowth(flags, lo, k);
      } else {
        CloseFlags(flags, k - 1, n);
      }
    }
  }

  /** At most `requests_per_minute` grants fall in one window. */
  lemma GrantsPerWindow(r: RateLimiter, start: int)
    requires r.Valid() && r.requestsPerMinute > 0
    ensures GrantsOfWindow(r.starts, start) <= r.requestsPerMinute
  {
    var flags, n := OfWindow(r.starts, start), r.requestsPerMinute;
    forall i, j | 0 <= i < |flags| && 0 <= j < |flags| && flags[i] && flags[j] ensures j < i + n {
      if j >= i + n { FullWindowApart(r, i, j); }
    }
    CloseFlags(flags, |flags|, n);
  }

  lemma FullWindowApart(r: RateLimiter, i: nat, j: nat)
    requires r.Valid() && r.requestsPerMinute > 0
    requires i + r.requestsPerMinute <= j < |r.grants|
    ensures r.grants[j] >= r.starts[i] + WINDOW
  {
    var m := i + r.requestsPerMinute;
    assert r.starts[m] >= r.starts[i] + WINDOW;
    assert m == j || r.grants[m] <= r.grants[j];
  }

  /** Any half-open interval of one minute holds at most twice that many grants. */
  lemma GrantsInAnyMinute(r: RateLimiter, from: int)
    requires r.Valid() && r.requestsPerMinute > 0
    ensures GrantsWithin(r.grants, from) <= 2 * r.requestsPerMinute
  {
    var flags := WithinMinute(r.grants, from);
    var n := r.requestsPerMinute;
    forall i, j | 0 <= i < |flags| && 0 <= j < |flags| && flags[i] && flags[j] ensures j < i + 2 * n {
      if j >= i + 2 * n {
        assert r.starts[i + n] >= r.starts[i] + WINDOW;
        FullWindowApart(r, i + n, j);
      }
    }
    CloseFlags(flags, |flags|, 2 * n);
  }

  /** Twice is attained: a burst at the end of a window and one at the start of the next. */
  method BurstAcrossBoundary(n: nat) returns (r: RateLimiter)
    requires n > 0
    ensures r.Valid() && r.requestsPerMinute == n
    ensures GrantsWithin(r.grants, WINDOW - 1) == 2 * n
  {
    r := new RateLimiter(n, 0);
    for i := 0 to n
      invariant fresh(r) && r.Valid() && r.requestsPerMinute == n && r.windowStarted == 0
      invariant r.clock == (if i == 0 then 0 else WINDOW - 1)
      invariant r.requests == i && |r.grants| == i && forall k | 0 <= k < i :: r.grants[k] == WINDOW - 1
    {
      var ok := r.Acquire(WINDOW - 1);
    }
    for i := 0 to n
      invariant fresh(r) && r.Valid() && r.requestsPerMinute == n
      invariant r.clock == (if i == 0 then WINDOW - 1 else WINDOW)
      invariant i == 0 ==> r.windowStarted == 0
      invariant i > 0 ==> r.windowStarted == WINDOW && r.requests == i
      invariant |r.grants| == n + i && forall k | 0 <= k < n + i :: r.grants[k] == if k < n then WINDOW - 1 else WINDOW
    {
      var ok := r.Acquire(WINDOW);
    }
    AllFlagged(WithinMinute(r.grants, WINDOW - 1), 2 * n);
  }

  // ----- Circuit breaker -----

  class CircuitBreaker {
    const failureThreshold: int
    const recoveryTimeoutMs: int
    var consecutiveFailures: nat
    var openedAt: Option<int>

    /** The breaker is open exactly after enough failures in a row. */
    ghost predicate Valid()
      reads this
    {
      openedAt.Some? <==> consecutiveFailures > 0 && consecutiveFailures >= failureThreshold
    }

    constructor (failureThreshold: int, recoveryTimeoutMs: int)
      ensures Valid() && consecutiveFailures == 0
      ensures this.failureThreshold == failureThreshold && this.recoveryTimeoutMs == recoveryTimeoutMs
    {
      this.failureThreshold, this.recoveryTimeoutMs := failureThreshold, recoveryTimeoutMs;
      consecutiveFailures, openedAt := 0, None;
    }

    method Allow(now: int) returns (allowed: bool)
      requires Valid()
      modifies this
      ensures Valid()
      ensures allowed <==> old(openedAt).None? || now - old(openedAt).value >= recoveryTimeoutMs * 1_000_000
      ensures allowed ==> openedAt.None? && (old(openedAt).Some? ==> consecutiveFailures == 0)
      ensures !allowed || old(openedAt).None? ==>
                openedAt == old(openedAt) && consecutiveFailures == old(consecutiveFailures)
    {
      if openedAt.None? { return true; }
      if now - openedAt.value >= recoveryTimeoutMs * 1_000_000 {
        consecutiveFailures := 0;
        openedAt := None;
        return true;
      }
      allowed := false;
    }

    method RecordSuccess()
      modifies this
      ensures Valid() && consecutiveFailures == 0
    {
      consecutiveFailures := 0;
      openedAt := None;
    }

    method RecordFailure(now: int)
      requires Valid()
      modifies this
      ensures Valid() && consecutiveFailures == old(consecutiveFailures) + 1
      ensures openedAt.Some? ==> openedAt == Some(now)
    {
      consecutiveFailures := consecutiveFailures + 1;
      if consecutiveFailures >= failureThreshold { openedAt := Some(now); }
    }
  }

  // ----- The retry loop -----

  /** What the provider, the deadline and the cancellation token do at one attempt, and when. */
  datatype Attempt = Attempt(behaviour: Behaviour, at: int)

  /** An error text matters only through whether it mentions a deadline; a failure may carry none. */
  datatype Behaviour =
    | CancelledBefore
    | Raises(deadlineMentioned: bool)
    | TimesOut
    | CancelledAfter
    | Succeeds(outputValid: bool)
    | FailsWith(error: Option<bool>)

  datatype ErrorCode = NoError | CancelledError | InvalidStructuredOutput | Timeout | ProviderError
                     | CircuitOpen | RateLimited

  datatype Response = Response(success: bool, code: ErrorCode, attempts: nat)

  /** An attempt after which the loop goes on. */
  predicate Retried(b: Behaviour) { b.Raises? || b.FailsWith? }

  predicate CountsAsFailure(b: Behaviour) {
    Retried(b) || b == TimesOut || b == Succeeds(false)
  }

  /** Whether the last error text among the first `n` attempts mentions a deadline. */
  function DeadlineMentioned(oracle: seq<Attempt>, n: nat): bool
    requires n <= |oracle|
  {
    if n == 0 then false
    else
      match oracle[n - 1].behaviour
      case Raises(mentioned) => mentioned
      case FailsWith(Some(mentioned)) => mentioned
      case _ => DeadlineMentioned(oracle, n - 1)
  }

  /** The loop stopped at attempt `k`. */
  ghost predicate DecidedAt(oracle: seq<Attempt>, k: int) {
    0 <= k < |oracle| && !Retried(oracle[k].behaviour) && forall i | 0 <= i < k :: Retried(oracle[i].behaviour)
  }

  /** What a run of the retry loop answers, and the failures in a row before and after it. The
      first attempt that is neither an exception nor a reported failure decides; without one
      every attempt is used up. */
  ghost predicate Tried(oracle: seq<Attempt>, r: Response, before: nat, after: nat) {
    && r.attempts <= |oracle|
    && (r.success <==> exists k :: DecidedAt(oracle, k) && oracle[k].behaviour == Succeeds(true))
    && (forall k | DecidedAt(oracle, k) ::
          && r.attempts == k + 1
          && (oracle[k].behaviour == Succeeds(true) ==> r.code == NoError)
          && (oracle[k].behaviour == TimesOut ==> r.code == Timeout)
          && (oracle[k].behaviour == Succeeds(false) ==> r.code == InvalidStructuredOutput)
          && (oracle[k].behaviour in {CancelledBefore, CancelledAfter} ==> r.code == CancelledError))
    && ((forall i | 0 <= i < |oracle| :: Retried(oracle[i].behaviour)) ==>
          && r.attempts == |oracle| && !r.success
          && r.code == (if DeadlineMentioned(oracle, |oracle|) then Timeout else ProviderError))
    && after == if r.success then 0 else before + FailuresCounted(oracle, r.attempts)
  }

  lemma DecidedOnce(oracle: seq<Attempt>, j: int, k: int)
    requires DecidedAt(oracle, j) && DecidedAt(oracle, k)
    ensures j == k
  {
  }

  lemma DecidedOutcome(oracle: seq<Attempt>, k: nat, before: nat)
    requires k < |oracle| && !Retried(oracle[k].behaviour) && forall i | 0 <= i < k :: Retried(oracle[i].behaviour)
    ensures match oracle[k].behaviour
            case Succeeds(true) => Tried(oracle, Response(true, NoError, k + 1), before, 0)
            case Succeeds(false) =>
              Tried(oracle, Response(false, InvalidStructuredOutput, k + 1), before, before + k + 1)
            case TimesOut => Tried(oracle, Response(false, Timeout, k + 1), before, before + k + 1)
            case _ => Tried(oracle, Response(false, CancelledError, k + 1), before, before + k)
  {
    assert DecidedAt(oracle, k);
    forall j | DecidedAt(oracle, j) ensures j == k { DecidedOnce(oracle, j, k); }
    hide DecidedAt;
  }

  lemma UndecidedOutcome(oracle: seq<Attempt>, before: nat)
    requires forall i | 0 <= i < |oracle| :: Retried(oracle[i].behaviour)
    ensures var code := if DeadlineMentioned(oracle, |oracle|) then Timeout else ProviderError;
            Tried(oracle, Response(false, code, |oracle|), before, before + |oracle|)
  {
    hide DeadlineMentioned;
  }

  /** Of the attempts made, all but a cancelled last one count as failures. */
  function FailuresCounted(oracle: seq<Attempt>, attempts: nat): nat
    requires attempts <= |oracle|
  {
    if attempts > 0 && !CountsAsFailure(oracle[attempts - 1].behaviour) then attempts - 1 else attempts
  }

  class ProviderAdapter {
    const breaker: CircuitBreaker
    const rateLimiter: RateLimiter

    constructor (breaker: CircuitBreaker, rateLimiter: RateLimiter)
      ensures this.breaker == breaker && this.rateLimiter == rateLimiter
    {
      this.breaker, this.rateLimiter := breaker, rateLimiter;
    }

    /** The gates in front of the loop: the breaker first, then the rate limiter. */
    method Execute(oracle: seq<Attempt>, maxRetries: int, now: int) returns (r: Response)
      requires breaker.Valid() && rateLimiter.Valid() && rateLimiter.clock <= now
      requires |oracle| == (if maxRetries < 0 then 0 else maxRetries + 1)
      modifies breaker, rateLimiter
      ensures breaker.Valid() && rateLimiter.Valid()
      ensures r.code == CircuitOpen <==>
                old(breaker.openedAt).Some? && now - old(breaker.openedAt).value < breaker.recoveryTimeoutMs * 1_000_000
      ensures r.code == RateLimited <==>
                && (old(breaker.openedAt).None?
                    || now - old(breaker.openedAt).value >= breaker.recoveryTimeoutMs * 1_000_000)
                && old(rateLimiter.Refuses(now))
      ensures r.code == CircuitOpen || r.code == RateLimited ==>
                !r.success && r.attempts == 0 && rateLimiter.grants == old(rateLimiter.grants)
      ensures r.code != CircuitOpen && r.code != RateLimited ==>
                && rateLimiter.grants == old(rateLimiter.grants) + [now]
                && Tried(oracle, r, if old(breaker.openedAt).Some? then 0 else old(breaker.consecutiveFailures),
                         breaker.consecutiveFailures)
    {
      var allowed := breaker.Allow(now);
      if !allowed { return Response(false, CircuitOpen, 0); }
      var granted := rateLimiter.Acquire(now);
      if !granted { return Response(false, RateLimited, 0); }
      r := Retry(oracle);
    }

    method Retry(oracle: seq<Attempt>) returns (r: Response)
      requires breaker.Valid()
      modifies breaker
      ensures breaker.Valid()
      ensures Tried(oracle, r, old(breaker.consecutiveFailures), breaker.consecutiveFailures)
      ensures r.code != CircuitOpen && r.code != RateLimited
    {
      hide Tried;
      hide DecidedAt;
      ghost var failed := breaker.consecutiveFailures;
      var attempts, deadline := 0, false;
      while attempts < |oracle|
        invariant attempts <= |oracle| && breaker.Valid()
        invariant forall i | 0 <= i < attempts :: Retried(oracle[i].behaviour)
        invariant deadline == DeadlineMentioned(oracle, attempts)
        invariant breaker.consecutiveFailures == failed + attempts
      {
        var a := oracle[attempts];
        if !Retried(a.behaviour) { DecidedOutcome(oracle, attempts, failed); }
        attempts := attempts + 1;
        match a.behaviour
        case CancelledBefore => return Response(false, CancelledError, attempts);
        case CancelledAfter => return Response(false, CancelledError, attempts);
        case Raises(mentioned) =>
          deadline := mentioned;
          breaker.RecordFailure(a.at);
        case TimesOut =>
          breaker.RecordFailure(a.at);
          return Response(false, Timeout, attempts);
        case Succeeds(valid) =>
          if !valid {
            breaker.RecordFailure(a.at);
            return Response(false, InvalidStructuredOutput, attempts);
          }
          breaker.RecordSuccess();
          return Response(true, NoError, attempts);
        case FailsWith(error) =>
          if error.Some? { deadline := error.value; }
          breaker.RecordFailure(a.at);
      }
      UndecidedOutcome(oracle, failed);
      r := Response(false, if deadline then Timeout else ProviderError, attempts);
    }
  }
}
