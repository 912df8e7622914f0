/** Retrying a request over the endpoints of a service, guarded by one circuit breaker a service. */
module Dispatch {
  import opened Options
  import opened Breaker

  // ── Backoff ──

  datatype Backoff = Exponential | Linear | Fixed

  datatype Retry = Retry(
    enabled: bool, maxAttempts: int, strategy: Backoff, initialDelay: real, maxDelay: real, multiplier: real,
    retryableErrors: seq<string>, retryableStatusCodes: seq<int>)

  function Power(base: real, n: nat): real {
    if n == 0 then 1.0 else base * Power(base, n - 1)
  }

  function Min(a: real, b: real): real { if a < b then a else b }

  function RawDelay(retry: Retry, attempt: int): real
    requires attempt >= 1
  {
    match retry.strategy
    case Exponential => retry.initialDelay * Power(retry.multiplier, attempt - 1)
    case Linear => retry.initialDelay * attempt as real
    case Fixed => retry.initialDelay
  }

  function RetryDelay(retry: Retry, attempt: int): real
    requires attempt >= 1
  {
    Min(RawDelay(retry, attempt), retry.maxDelay)
  }

  lemma {:induction false} PowerGrows(base: real, n: nat)
    requires base >= 1.0
    ensures Power(base, n) >= 1.0
    ensures Power(base, n + 1) >= Power(base, n)
  {
    if n > 0 { PowerGrows(base, n - 1); }
  }

  lemma TimesGrows(a: real, x: real, y: real)
    requires a >= 0.0 && x <= y
    ensures a * x <= a * y
  {}

  lemma RawDelayGrows(retry: Retry, i: int)
    requires 1 <= i && retry.initialDelay >= 0.0
    requires retry.strategy.Exponential? ==> retry.multiplier >= 1.0
    ensures RawDelay(retry, i) <= RawDelay(retry, i + 1)
  {
    hide Power;
    match retry.strategy
    case Exponential =>
      PowerGrows(retry.multiplier, i - 1);
      TimesGrows(retry.initialDelay, Power(retry.multiplier, i - 1), Power(retry.multiplier, i));
    case Linear => TimesGrows(retry.initialDelay, i as real, (i + 1) as real);
    case Fixed =>
  }

  lemma {:induction false} DelaysGrow(retry: Retry, i: int, j: int)
    requires 1 <= i <= j && retry.initialDelay >= 0.0
    requires retry.strategy.Exponential? ==> retry.multiplier >= 1.0
    ensures RetryDelay(retry, i) <= RetryDelay(retry, j)
    decreases j - i
  {
    hide RawDelay;
    if i < j {
      DelaysGrow(retry, i, j - 1);
      RawDelayGrows(retry, j - 1);
    }
  }

  // ── Errors ──

  datatype Error = Error(message: string, statusCode: Option<int>)

  const NO_ENDPOINTS := Error("No endpoints available", None)
  const SERVICE_NOT_FOUND := Error("Service definition not found", Some(404))
  const DISPATCH_FAILED := Error("Dispatch failed after all retry attempts", Some(502))

  predicate Includes(s: string, part: string) {
    exists i :: 0 <= i <= |s| && part <= s[i..]
  }

  predicate IsRetryable(retry: Retry, e: Error) {
    retry.enabled
    && ((exists i :: 0 <= i < |retry.retryableErrors| && Includes(e.message, retry.retryableErrors[i]))
        || (e.statusCode.Some? && e.statusCode.value in retry.retryableStatusCodes))
  }

  // ── One dispatch ──

  /** What the outside does in one attempt: the endpoint chosen, clocks, registry and upstream. */
  datatype Attempt =
    | Attempt(endpoint: Option<string>, askedAt: int, registered: bool, upstream: Option<Error>, recordedAt: int)

  datatype Kind = NoEndpoint | Skipped | NotRegistered | CallFailed | CallSucceeded

  datatype Record = Record(service: string, kind: Kind)

  datatype Result = Responded(retryCount: nat) | Threw(error: Error)

  datatype Report = Report(result: Result, log: seq<Record>, waits: seq<real>, breakers: map<string, Breaker>)

  type Breakers = map<string, Breaker>

  function BreakerOf(breakers: Breakers, service: string): Breaker {
    if service in breakers then breakers[service] else FRESH
  }

  function AskOf(config: Config, breakers: Breakers, service: string, now: int): Breakers {
    if config.enabled then breakers[service := Asked(BreakerOf(breakers, service), now)] else breakers
  }

  function AdmitsOf(config: Config, breakers: Breakers, service: string, now: int): bool {
    config.enabled ==> Admits(BreakerOf(breakers, service), now)
  }

  function SuccessOf(config: Config, breakers: Breakers, service: string): Breakers {
    if config.enabled then breakers[service := Succeeded(BreakerOf(breakers, service))] else breakers
  }

  function FailureOf(config: Config, breakers: Breakers, service: string, now: int): Breakers {
    if config.enabled then breakers[service := Failed(config, BreakerOf(breakers, service), now)] else breakers
  }

  /** What one attempt comes to: its record, its error if it failed, and the breakers behind it. */
  function Try(config: Config, a: Attempt, breakers: Breakers): (Record, Option<Error>, Breakers) {
    if a.endpoint.None? then (Record("", NoEndpoint), Some(NO_ENDPOINTS), breakers)
    else
      var service := a.endpoint.value;
      var asked := AskOf(config, breakers, service, a.askedAt);
      if !AdmitsOf(config, breakers, service, a.askedAt) then (Record(service, Skipped), None, asked)
      else if !a.registered then
        (Record(service, NotRegistered), Some(SERVICE_NOT_FOUND), FailureOf(config, asked, service, a.recordedAt))
      else if a.upstream.Some? then
        (Record(service, CallFailed), a.upstream, FailureOf(config, asked, service, a.recordedAt))
      else (Record(service, CallSucceeded), None, SuccessOf(config, asked, service))
  }

  /** The attempts from number `n` on, `last` being the latest error. */
  function Dispatch(
    config: Config, retry: Retry, script: int -> Attempt, n: int, breakers: Breakers, last: Option<Error>): Report
    requires n >= 1
    decreases retry.maxAttempts - n + 1
  {
    if n > retry.maxAttempts then
      Report(Threw(if last.Some? then last.value else DISPATCH_FAILED), [], [], breakers)
    else
      var (record, error, next) := Try(config, script(n), breakers);
      if record.kind.CallSucceeded? then Report(Responded(n - 1), [record], [], next)
      else if error.None? then
        var rest := Dispatch(config, retry, script, n + 1, next, last);
        rest.(log := [record] + rest.log)
      else if !IsRetryable(retry, error.value) || n >= retry.maxAttempts then
        Report(Threw(error.value), [record], [], next)
      else
        var rest := Dispatch(config, retry, script, n + 1, next, error);
        rest.(log := [record] + rest.log, waits := [RetryDelay(retry, n)] + rest.waits)
  }

  function WholeDispatch(config: Config, retry: Retry, script: int -> Attempt, breakers: Breakers): Report {
    Dispatch(config, retry, script, 1, breakers, None)
  }

  // ── Bounds ──

  function Calls(log: seq<Record>): nat {
    if log == [] then 0
    else (if log[0].kind.CallFailed? || log[0].kind.CallSucceeded? then 1 else 0) + Calls(log[1..])
  }

  function Sum(xs: seq<real>): real {
    if xs == [] then 0.0 else xs[0] + Sum(xs[1..])
  }

  predicate NonDecreasing(xs: seq<real>) {
    forall i, j :: 0 <= i <= j < |xs| ==> xs[i] <= xs[j]
  }

  function AtLeastZero(n: int): nat { if n > 0 then n else 0 }

  lemma {:induction false} DispatchBounds(
    config: Config, retry: Retry, script: int -> Attempt, n: int, breakers: Breakers, last: Option<Error>)
    requires n >= 1
    ensures var r := Dispatch(config, retry, script, n, breakers, last);
            && |r.log| <= AtLeastZero(retry.maxAttempts - n + 1)
            && |r.waits| <= AtLeastZero(retry.maxAttempts - n)
            && (forall i :: 0 <= i < |r.waits| ==>
                  exists k :: n <= k < retry.maxAttempts && r.waits[i] == RetryDelay(retry, k))
    decreases retry.maxAttempts - n + 1
  {
    hide RetryDelay, IsRetryable, Try;
    if n <= retry.maxAttempts {
      var (record, error, next) := Try(config, script(n), breakers);
      DispatchBounds(config, retry, script, n + 1, next, last);
      DispatchBounds(config, retry, script, n + 1, next, error);
    }
  }

  lemma {:induction false} CallsAreAttempts(log: seq<Record>)
    ensures Calls(log) <= |log|
  {
    if log != [] { CallsAreAttempts(log[1..]); }
  }

  lemma {:induction false} SumBound(xs: seq<real>, most: real)
    requires forall i :: 0 <= i < |xs| ==> xs[i] <= most
    ensures Sum(xs) <= |xs| as real * most
  {
    if xs != [] {
      SumBound(xs[1..], most);
      assert |xs| as real * most == most + |xs[1..]| as real * most;
    }
  }

  lemma {:induction false} WaitsGrow(
    config: Config, retry: Retry, script: int -> Attempt, n: int, breakers: Breakers, last: Option<Error>)
    requires n >= 1 && retry.initialDelay >= 0.0
    requires retry.strategy.Exponential? ==> retry.multiplier >= 1.0
    ensures NonDecreasing(Dispatch(config, retry, script, n, breakers, last).waits)
    decreases retry.maxAttempts - n + 1
  {
    hide RetryDelay, IsRetryable, Try;
    if n <= retry.maxAttempts {
      var (record, error, next) := Try(config, script(n), breakers);
      WaitsGrow(config, retry, script, n + 1, next, last);
      WaitsGrow(config, retry, script, n + 1, next, error);
      var rest := Dispatch(config, retry, script, n + 1, next, error).waits;
      DispatchBounds(config, retry, script, n + 1, next, error);
      forall i | 0 <= i < |rest|
        ensures RetryDelay(retry, n) <= rest[i]
      {
        var k :| n + 1 <= k < retry.maxAttempts && rest[i] == RetryDelay(retry, k);
        DelaysGrow(retry, n, k);
      }
    }
  }

  lemma DelayCapped(retry: Retry, attempt: int)
    requires attempt >= 1
    ensures RetryDelay(retry, attempt) <= retry.maxDelay
  {}

  /**
   * One dispatch makes at most `maxAttempts` upstream calls, waits less often than that, at most
   * `maxDelay` each time, and never less than the time before.
   */
  lemma DispatchIsBounded(config: Config, retry: Retry, script: int -> Attempt, breakers: Breakers)
    ensures var r := WholeDispatch(config, retry, script, breakers);
            && Calls(r.log) <= |r.log| <= AtLeastZero(retry.maxAttempts)
            && |r.waits| <= AtLeastZero(retry.maxAttempts - 1)
            && (forall i :: 0 <= i < |r.waits| ==> r.waits[i] <= retry.maxDelay)
            && (retry.maxDelay >= 0.0 ==> Sum(r.waits) <= AtLeastZero(retry.maxAttempts - 1) as real * retry.maxDelay)
            && (retry.initialDelay >= 0.0 && (retry.strategy.Exponential? ==> retry.multiplier >= 1.0) ==>
                  NonDecreasing(r.waits))
  {
    hide Dispatch, RetryDelay, NonDecreasing, Calls, Sum;
    var r := WholeDispatch(config, retry, script, breakers);
    DispatchBounds(config, retry, script, 1, breakers, None);
    CallsAreAttempts(r.log);
    forall i | 0 <= i < |r.waits|
      ensures r.waits[i] <= retry.maxDelay
    {
      var k :| 1 <= k < retry.maxAttempts && r.waits[i] == RetryDelay(retry, k);
      DelayCapped(retry, k);
    }
    SumBound(r.waits, retry.maxDelay);
    if retry.maxDelay >= 0.0 {
      TimesGrows(retry.maxDelay, |r.waits| as real, AtLeastZero(retry.maxAttempts - 1) as real);
    }
    if retry.initialDelay >= 0.0 && (retry.strategy.Exponential? ==> retry.multiplier >= 1.0) {
      WaitsGrow(config, retry, script, 1, breakers, None);
    }
  }

  // ── Accounting ──

  predicate Counted(r: Record, service: string) {
    r.service == service && !r.kind.NoEndpoint? && !r.kind.Skipped?
  }

  function CountFor(log: seq<Record>, service: string): nat {
    if log == [] then 0 else (if Counted(log[0], service) then 1 else 0) + CountFor(log[1..], service)
  }

  lemma TryCounts(config: Config, a: Attempt, breakers: Breakers, service: string)
    requires config.enabled
    ensures var (record, error, next) := Try(config, a, breakers);
            && BreakerOf(next, service).totalRequests ==
                 BreakerOf(breakers, service).totalRequests + (if Counted(record, service) then 1 else 0)
            && (!Counted(record, service) && record.service != service ==>
              BreakerOf(next, service) == BreakerOf(breakers, service))
  {}

  /** A dispatch ends with its first attempt or goes on behind it. */
  lemma Unfold(config: Config, retry: Retry, script: int -> Attempt, n: int, breakers: Breakers, last: Option<Error>)
    requires 1 <= n <= retry.maxAttempts
    ensures var r := Dispatch(config, retry, script, n, breakers, last);
            var (record, error, next) := Try(config, script(n), breakers);
            var rest := Dispatch(config, retry, script, n + 1, next, if error.Some? then error else last);
            || (&& r.log == [record] && r.breakers == next
                && (record.kind.CallSucceeded? || error.Some?)
                && r.result == if record.kind.CallSucceeded? then Responded(n - 1) else Threw(error.value))
            || (&& r.log == [record] + rest.log && r.breakers == rest.breakers && r.result == rest.result
                && !record.kind.CallSucceeded?)
  {
    hide RetryDelay, IsRetryable, Try;
    var r := Dispatch(config, retry, script, n, breakers, last);
    var (record, error, next) := Try(config, script(n), breakers);
    if record.kind.CallSucceeded? {
      assert r.log == [record];
    } else if error.None? {
      var rest := Dispatch(config, retry, script, n + 1, next, last);
      assert r.log == [record] + rest.log;
    } else if IsRetryable(retry, error.value) && n < retry.maxAttempts {
      var rest := Dispatch(config, retry, script, n + 1, next, error);
      assert r.log == [record] + rest.log;
    }
  }

  /**
   * Every attempt that chose an endpoint and was not skipped adds exactly one to the requests of exactly
   * that endpoint's breaker, called upstream or not; skipped attempts add none.
   */
  lemma {:induction false} RequestsAreCounted(
    config: Config, retry: Retry, script: int -> Attempt, n: int, breakers: Breakers,
    last: Option<Error>, service: string)
    requires n >= 1 && config.enabled
    ensures var r := Dispatch(config, retry, script, n, breakers, last);
            BreakerOf(r.breakers, service).totalRequests ==
              BreakerOf(breakers, service).totalRequests + CountFor(r.log, service)
    decreases retry.maxAttempts - n + 1
  {
    if n <= retry.maxAttempts {
      hide Dispatch, Try, Counted, BreakerOf;
      Unfold(config, retry, script, n, breakers, last);
      TryCounts(config, script(n), breakers, service);
      var (record, error, next) := Try(config, script(n), breakers);
      RequestsAreCounted(config, retry, script, n + 1, next, if error.Some? then error else last, service);
      var rest := Dispatch(config, retry, script, n + 1, next, if error.Some? then error else last);
      assert ([record] + rest.log)[1..] == rest.log;
    }
  }

  // ── What the caller learns ──

  /** The latest error among the attempts from `n` on that were made, or `last`. */
  function LastError(
    config: Config, script: int -> Attempt, n: int, count: nat, breakers: Breakers, last: Option<Error>): Option<Error>
    decreases count
  {
    if count == 0 then last
    else
      var (record, error, next) := Try(config, script(n), breakers);
      LastError(config, script, n + 1, count - 1, next, if error.Some? then error else last)
  }

  /**
   * The caller gets the response of the last attempt made, or the latest error; only if every attempt was
   * skipped is it told that dispatching failed.
   */
  lemma {:induction false} ResultIsLast(
    config: Config, retry: Retry, script: int -> Attempt, n: int, breakers: Breakers, last: Option<Error>)
    requires n >= 1
    ensures var r := Dispatch(config, retry, script, n, breakers, last);
            var e := LastError(config, script, n, |r.log|, breakers, last);
            && (r.result.Responded? <==> r.log != [] && r.log[|r.log| - 1].kind.CallSucceeded?)
            && (r.result.Responded? ==> r.result.retryCount == n + |r.log| - 2)
            && (r.result.Threw? ==> r.result.error == if e.Some? then e.value else DISPATCH_FAILED)
    decreases retry.maxAttempts - n + 1
  {
    if n <= retry.maxAttempts {
      hide Dispatch, Try;
      Unfold(config, retry, script, n, breakers, last);
      TryKinds(config, script(n), breakers);
      var (record, error, next) := Try(config, script(n), breakers);
      var latest := if error.Some? then error else last;
      ResultIsLast(config, retry, script, n + 1, next, latest);
      assert LastError(config, script, n, 1, breakers, last) == LastError(config, script, n + 1, 0, next, latest);
    }
  }

  lemma TryKinds(config: Config, a: Attempt, breakers: Breakers)
    ensures var (record, error, next) := Try(config, a, breakers);
            && (record.kind.CallSucceeded? || record.kind.Skipped? <==> error.None?)
            && record.kind.Skipped? == (a.endpoint.Some? && !AdmitsOf(config, breakers, a.endpoint.value, a.askedAt))
            && (record.kind.NotRegistered? ==> error == Some(SERVICE_NOT_FOUND))
  {}

  // ── The dispatcher as it is written ──

  class ServiceDispatcher {
    const config: Config
    const retry: Retry
    var circuitBreakers: map<string, CircuitBreaker>

    constructor (config: Config, retry: Retry)
      ensures this.config == config && this.retry == retry && Valid() && Values() == map[]
    {
      this.config, this.retry := config, retry;
      circuitBreakers := map[];
    }

    /** No two services share a breaker. */
    ghost predicate Valid()
      reads this, circuitBreakers.Values
    {
      && (forall s, t :: s in circuitBreakers && t in circuitBreakers && s != t ==>
        circuitBreakers[s] != circuitBreakers[t])
      && (forall s :: s in circuitBreakers ==> circuitBreakers[s].config == config)
    }

    ghost function Values(): Breakers
      reads this, circuitBreakers.Values
    {
      map s | s in circuitBreakers :: circuitBreakers[s].Value()
    }

    method GetOrCreateCircuitBreaker(service: string) returns (breaker: CircuitBreaker)
      requires Valid()
      modifies this
      ensures Valid() && service in circuitBreakers && circuitBreakers[service] == breaker
      ensures fresh(circuitBreakers.Values - old(circuitBreakers.Values))
      ensures Values() == old(Values())[service := BreakerOf(old(Values()), service)]
    {
      if service !in circuitBreakers {
        var created := new CircuitBreaker(config);
        circuitBreakers := circuitBreakers[service := created];
      }
      breaker := circuitBreakers[service];
    }

    /** When only one service's breaker has changed, only its value has. */
    lemma OneBreakerMoved(before: Breakers, service: string, breaker: CircuitBreaker)
      requires Valid() && service in circuitBreakers && circuitBreakers[service] == breaker
      requires before.Keys == circuitBreakers.Keys
      requires forall s :: s in circuitBreakers && s != service ==> before[s] == circuitBreakers[s].Value()
      ensures Values() == before[service := breaker.Value()]
    {}

    method Ask(service: string, now: int) returns (admitted: bool)
      requires Valid()
      modifies this, circuitBreakers.Values
      ensures Valid() && fresh(circuitBreakers.Values - old(circuitBreakers.Values))
      ensures Values() == AskOf(config, old(Values()), service, now)
      ensures admitted == AdmitsOf(config, old(Values()), service, now)
    {
      if !config.enabled { return true; }
      hide Asked, Admits;
      var breaker := GetOrCreateCircuitBreaker(service);
      ghost var before := Values();
      assert before[service] == breaker.Value();
      admitted := breaker.CanExecute(now);
      OneBreakerMoved(before, service, breaker);
    }

    method Succeed(service: string)
      requires Valid()
      modifies this, circuitBreakers.Values
      ensures Valid() && fresh(circuitBreakers.Values - old(circuitBreakers.Values))
      ensures Values() == SuccessOf(config, old(Values()), service)
    {
      if !config.enabled { return; }
      hide Succeeded, Values;
      var breaker := GetOrCreateCircuitBreaker(service);
      RecordOn(service, breaker, Success);
    }

    method Fail(service: string, now: int)
      requires Valid()
      modifies this, circuitBreakers.Values
      ensures Valid() && fresh(circuitBreakers.Values - old(circuitBreakers.Values))
      ensures Values() == FailureOf(config, old(Values()), service, now)
    {
      if !config.enabled { return; }
      hide Failed, Values;
      var breaker := GetOrCreateCircuitBreaker(service);
      RecordOn(service, breaker, Failure(now));
    }

    /** An outcome goes to one breaker, and no other service can see it. */
    method RecordOn(service: string, breaker: CircuitBreaker, event: Event)
      requires Valid() && service in circuitBreakers && circuitBreakers[service] == breaker && !event.Ask?
      modifies breaker
      ensures Valid()
      ensures Values() == old(Values())[service := Next(config, old(Values())[service], event)]
    {
      hide Succeeded, Failed;
      ghost var before := Values();
      match event {
        case Success => breaker.RecordSuccess();
        case Failure(now) => breaker.RecordFailure(now);
      }
      OneBreakerMoved(before, service, breaker);
    }

    /** One turn of the retry loop: select, ask, call, record. */
    method TryOnce(a: Attempt) returns (record: Record, error: Option<Error>)
      requires Valid()
      modifies this, circuitBreakers.Values
      ensures Valid() && fresh(circuitBreakers.Values - old(circuitBreakers.Values))
      ensures (record, error, Values()) == Try(config, a, old(Values()))
    {
      hide AskOf, AdmitsOf, SuccessOf, FailureOf;
      if a.endpoint.None? { return Record("", NoEndpoint), Some(NO_ENDPOINTS); }
      var service := a.endpoint.value;
      var admitted := Ask(service, a.askedAt);
      if !admitted { return Record(service, Skipped), None; }
      if a.registered && a.upstream.None? {
        Succeed(service);
        return Record(service, CallSucceeded), None;
      }
      Fail(service, a.recordedAt);
      if !a.registered { return Record(service, NotRegistered), Some(SERVICE_NOT_FOUND); }
      return Record(service, CallFailed), a.upstream;
    }

    /** `dispatchWithRetry`. */
    method DispatchWithRetry(script: int -> Attempt) returns (result: Result, log: seq<Record>, waits: seq<real>)
      requires Valid()
      modifies this, circuitBreakers.Values
      ensures Valid()
      ensures Report(result, log, waits, Values()) == WholeDispatch(config, retry, script, old(Values()))
    {
      hide Try, IsRetryable, RetryDelay, Dispatch, Before;
      NothingBefore(WholeDispatch(config, retry, script, Values()));
      var lastError: Option<Error> := None;
      var attempt := 0;
      log, waits := [], [];
      while attempt < retry.maxAttempts
        invariant 0 <= attempt && Valid() && fresh(circuitBreakers.Values - old(circuitBreakers.Values))
        invariant Before(log, waits, Dispatch(config, retry, script, attempt + 1, Values(), lastError))
          == WholeDispatch(config, retry, script, old(Values()))
      {
        attempt := attempt + 1;
        Turn(config, retry, script, attempt, Values(), lastError, log, waits);
        TryKinds(config, script(attempt), Values());
        var record, error := TryOnce(script(attempt));
        log := log + [record];
        if record.kind.CallSucceeded? { return Responded(attempt - 1), log, waits; }
        if record.kind.Skipped? { continue; }
        lastError := error;
        if !IsRetryable(retry, error.value) || attempt >= retry.maxAttempts {
          return Threw(error.value), log, waits;
        }
        waits := waits + [RetryDelay(retry, attempt)];
      }
      NoTurn(config, retry, script, attempt + 1, Values(), lastError, log, waits);
      result := Threw(if lastError.Some? then lastError.value else DISPATCH_FAILED);
    }
  }

  function Before(log: seq<Record>, waits: seq<real>, r: Report): Report {
    r.(log := log + r.log, waits := waits + r.waits)
  }

  lemma NothingBefore(r: Report)
    ensures Before([], [], r) == r
  {}

  lemma Turn(config: Config, retry: Retry, script: int -> Attempt, n: int, breakers: Breakers, last: Option<Error>,
    log: seq<Record>, waits: seq<real>)
    requires 1 <= n <= retry.maxAttempts
    ensures var (record, error, next) := Try(config, script(n), breakers);
            Before(log, waits, Dispatch(config, retry, script, n, breakers, last)) ==
              if record.kind.CallSucceeded? then Report(Responded(n - 1), log + [record], waits, next)
              else if error.None? then Before(log + [record], waits, Dispatch(config, retry, script, n + 1, next, last))
              else if !IsRetryable(retry, error.value) || n >= retry.maxAttempts
              then Report(Threw(error.value), log + [record], waits, next)
              else Before(log + [record], waits + [RetryDelay(retry, n)],
                Dispatch(config, retry, script, n + 1, next, error))
  {
    hide Try, IsRetryable, RetryDelay;
  }

  lemma NoTurn(config: Config, retry: Retry, script: int -> Attempt, n: int, breakers: Breakers, last: Option<Error>,
    log: seq<Record>, waits: seq<real>)
    requires n >= 1 && n > retry.maxAttempts
    ensures Before(log, waits, Dispatch(config, retry, script, n, breakers, last)) ==
      Report(Threw(if last.Some? then last.value else DISPATCH_FAILED), log, waits, breakers)
  {}
}
