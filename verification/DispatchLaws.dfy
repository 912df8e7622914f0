/** When a dispatch goes on, how long it waits in between, and what each attempt costs a breaker. */
module DispatchLaws {
  import opened Options
  import opened Breaker
  import opened Dispatch

  // ── Errors and delays ──

  ghost predicate Contains(s: string, part: string) { exists before, after :: s == before + part + after }

  lemma IncludesExactly(s: string, part: string)
    ensures Includes(s, part) <==> Contains(s, part)
  {
    if i :| 0 <= i <= |s| && part <= s[i..] {
      assert s == s[..i] + part + s[i..][|part|..];
    }
    if before, after :| s == before + part + after {
      assert s[|before|..] == part + after;
    }
  }

  ghost predicate ListedText(retry: Retry, e: Error) {
    exists part :: part in retry.retryableErrors && Contains(e.message, part)
  }

  lemma ListedExactly(retry: Retry, e: Error)
    ensures (exists i :: 0 <= i < |retry.retryableErrors| && Includes(e.message, retry.retryableErrors[i]))
       <==> ListedText(retry, e)
  {
    hide Includes, Contains;
    forall part
      ensures Includes(e.message, part) <==> Contains(e.message, part)
    {
      IncludesExactly(e.message, part);
    }
    if i :| 0 <= i < |retry.retryableErrors| && Includes(e.message, retry.retryableErrors[i]) {
      assert retry.retryableErrors[i] in retry.retryableErrors && Contains(e.message, retry.retryableErrors[i]);
    }
  }

  /** An error is retried when its text contains a listed one anywhere, or its status is listed. */
  lemma RetryableExactly(retry: Retry, e: Error)
    ensures IsRetryable(retry, e) <==>
      && retry.enabled
      && (ListedText(retry, e) || (e.statusCode.Some? && e.statusCode.value in retry.retryableStatusCodes))
  {
    hide ListedText, Includes;
    ListedExactly(retry, e);
  }

  /** The first delay is the initial one; the next is the last one times the multiplier, plus the initial, or equal. */
  lemma DelaysExactly(retry: Retry, attempt: int)
    requires attempt >= 1
    ensures RawDelay(retry, 1) == retry.initialDelay
    ensures var here, next := RawDelay(retry, attempt), RawDelay(retry, attempt + 1);
            match retry.strategy
            case Exponential => next == here * retry.multiplier
            case Linear => next == here + retry.initialDelay
            case Fixed => next == here
    ensures var delay := RetryDelay(retry, attempt);
            && (delay == RawDelay(retry, attempt) || delay == retry.maxDelay)
            && delay <= RawDelay(retry, attempt) && delay <= retry.maxDelay
  {
    if retry.strategy.Exponential? {
      var p := Power(retry.multiplier, attempt - 1);
      assert Power(retry.multiplier, attempt) == retry.multiplier * p;
      assert retry.initialDelay * (retry.multiplier * p) == retry.initialDelay * p * retry.multiplier;
    }
    if retry.strategy.Linear? {
      assert retry.initialDelay * (attempt + 1) as real == retry.initialDelay * attempt as real + retry.initialDelay;
    }
  }

  // ── One attempt ──

  /** Whether the breaker of a service lets a question through now. */
  ghost predicate LetThrough(config: Config, breakers: Breakers, service: string, now: int) {
    config.enabled && service in breakers && breakers[service].state == Open ==>
      breakers[service].nextAttempt.Some? && breakers[service].nextAttempt.value <= now
  }

  /** What one attempt is recorded as, and its error. */
  lemma AttemptExactly(config: Config, a: Attempt, breakers: Breakers)
    ensures var (record, error, _) := Try(config, a, breakers);
            if a.endpoint.None? then
              record.kind == NoEndpoint && error == Some(Error("No endpoints available", None))
            else
              && record.service == a.endpoint.value
              && if !LetThrough(config, breakers, a.endpoint.value, a.askedAt) then
                   record.kind == Skipped && error == None
                 else if !a.registered then
                   record.kind == NotRegistered && error == Some(Error("Service definition not found", Some(404)))
                 else if a.upstream.Some? then record.kind == CallFailed && error == a.upstream
                 else record.kind == CallSucceeded && error == None
  {}

  /**
   * A success adds one to its breaker's successes, a failure one to its failures, and nobody else's
   * breaker is touched; without breakers nothing is counted.
   */
  lemma AttemptCosts(config: Config, a: Attempt, breakers: Breakers, service: string)
    ensures var (record, _, next) := Try(config, a, breakers);
            var was, after := BreakerOf(breakers, service), BreakerOf(next, service);
            var own := config.enabled && record.service == service && a.endpoint.Some?;
            && (!config.enabled ==> next == breakers)
            && (!own ==> after == was)
            && after.successes == was.successes + (if own && record.kind == CallSucceeded then 1 else 0)
            && (own && record.kind in {CallFailed, NotRegistered} ==>
                  after.failures == was.failures + 1 && after.lastFailure == Some(a.recordedAt))
            && (own && record.kind == CallSucceeded ==> after.failures in {was.failures, 0})
            && (own && record.kind == Skipped ==> after == was)
  {}

  // ── A whole dispatch ──

  /** The breakers before attempt `i`, if all before it were made. */
  function BreakersBefore(config: Config, script: int -> Attempt, i: nat, breakers: Breakers): Breakers
    requires i >= 1
    decreases i
  {
    if i == 1 then breakers else Try(config, script(i - 1), BreakersBefore(config, script, i - 1, breakers)).2
  }

  function RecordOf(config: Config, script: int -> Attempt, i: nat, breakers: Breakers): Record
    requires i >= 1
  {
    Try(config, script(i), BreakersBefore(config, script, i, breakers)).0
  }

  function ErrorOf(config: Config, script: int -> Attempt, i: nat, breakers: Breakers): Option<Error>
    requires i >= 1
  {
    Try(config, script(i), BreakersBefore(config, script, i, breakers)).1
  }

  /** Attempt `i` is followed by another one: it was skipped, or failed in a way that is retried, and one is left. */
  ghost predicate GoesOn(config: Config, retry: Retry, script: int -> Attempt, i: nat, breakers: Breakers)
    requires i >= 1
  {
    && i < retry.maxAttempts
    && !RecordOf(config, script, i, breakers).kind.CallSucceeded?
    && var e := ErrorOf(config, script, i, breakers);
       e.Some? ==> IsRetryable(retry, e.value)
  }

  /** The waits after attempts `i` to `n - 1`: none behind a skipped one. */
  ghost function WaitsFrom(config: Config, retry: Retry, script: int -> Attempt, i: nat, n: nat, breakers: Breakers)
    : seq<real>
    requires i >= 1
    decreases n - i
  {
    if i >= n then []
    else
      (if ErrorOf(config, script, i, breakers).Some? then [RetryDelay(retry, i)] else [])
      + WaitsFrom(config, retry, script, i + 1, n, breakers)
  }

  lemma {:induction false} FromAttempt(config: Config, retry: Retry, script: int -> Attempt, n: nat,
    breakers: Breakers, last: Option<Error>)
    requires 1 <= n <= retry.maxAttempts
    ensures var r := Dispatch.Dispatch(config, retry, script, n, BreakersBefore(config, script, n, breakers), last);
            && |r.log| >= 1
            && (forall i :: 0 <= i < |r.log| ==> r.log[i] == RecordOf(config, script, n + i, breakers))
            && (forall i :: n <= i < n + |r.log| - 1 ==> GoesOn(config, retry, script, i, breakers))
            && !GoesOn(config, retry, script, n + |r.log| - 1, breakers)
            && r.waits == WaitsFrom(config, retry, script, n, n + |r.log| - 1, breakers)
            && r.breakers == BreakersBefore(config, script, n + |r.log|, breakers)
    decreases retry.maxAttempts - n
  {
    hide Try, IsRetryable, RetryDelay, Dispatch.Dispatch;
    DispatchStep(config, retry, script, n, BreakersBefore(config, script, n, breakers), last);
    var at := BreakersBefore(config, script, n, breakers);
    var (record, error, next) := Try(config, script(n), at);
    assert next == BreakersBefore(config, script, n + 1, breakers);
    var r := Dispatch.Dispatch(config, retry, script, n, at, last);
    if GoesOn(config, retry, script, n, breakers) {
      var latest := if error.Some? then error else last;
      FromAttempt(config, retry, script, n + 1, breakers, latest);
      var rest := Dispatch.Dispatch(config, retry, script, n + 1, next, latest);
      assert r.log == [record] + rest.log;
    } else if error.None? && !record.kind.CallSucceeded? {
      LastSkipped(config, retry, script, n, at, last);
    }
  }

  /** A dispatch is its first attempt, and behind it the rest if it goes on. */
  lemma DispatchStep(config: Config, retry: Retry, script: int -> Attempt, n: nat, at: Breakers, last: Option<Error>)
    requires 1 <= n <= retry.maxAttempts
    ensures var r := Dispatch.Dispatch(config, retry, script, n, at, last);
            var (record, error, next) := Try(config, script(n), at);
            var rest := Dispatch.Dispatch(config, retry, script, n + 1, next, if error.Some? then error else last);
            if record.kind.CallSucceeded?
               || (error.Some? && (!IsRetryable(retry, error.value) || n >= retry.maxAttempts))
            then r.log == [record] && r.waits == [] && r.breakers == next
            else
              && r.log == [record] + rest.log && r.breakers == rest.breakers
              && r.waits == (if error.Some? then [RetryDelay(retry, n)] else []) + rest.waits
  {
    hide Try, IsRetryable, RetryDelay;
    var (record, error, next) := Try(config, script(n), at);
    if error.None? {
      var rest := Dispatch.Dispatch(config, retry, script, n + 1, next, last);
      assert [] + rest.waits == rest.waits;
    }
  }

  lemma LastSkipped(config: Config, retry: Retry, script: int -> Attempt, n: nat, at: Breakers, last: Option<Error>)
    requires 1 <= n == retry.maxAttempts
    requires var (record, error, _) := Try(config, script(n), at); error.None? && !record.kind.CallSucceeded?
    ensures var r := Dispatch.Dispatch(config, retry, script, n, at, last);
            var (record, _, next) := Try(config, script(n), at);
            r.log == [record] && r.waits == [] && r.breakers == next
  {
    hide Try, IsRetryable, RetryDelay;
    var next := Try(config, script(n), at).2;
    assert Dispatch.Dispatch(config, retry, script, n + 1, next, last).log == [];
  }

  /**
   * A dispatch makes its attempts in order and goes on behind one exactly when it was skipped or failed in a
   * way that is retried, while attempts are left; it waits the delay of the attempt behind each failure and
   * not at all behind a skipped one.
   */
  lemma GoesOnExactly(config: Config, retry: Retry, script: int -> Attempt, breakers: Breakers)
    requires retry.maxAttempts >= 1
    ensures var r := WholeDispatch(config, retry, script, breakers);
            && |r.log| >= 1
            && (forall i :: 0 <= i < |r.log| ==> r.log[i] == RecordOf(config, script, i + 1, breakers))
            && (forall i :: 1 <= i < |r.log| ==> GoesOn(config, retry, script, i, breakers))
            && !GoesOn(config, retry, script, |r.log|, breakers)
            && r.waits == WaitsFrom(config, retry, script, 1, |r.log|, breakers)
            && r.breakers == BreakersBefore(config, script, |r.log| + 1, breakers)
  {
    hide Dispatch.Dispatch, GoesOn, WaitsFrom;
    FromAttempt(config, retry, script, 1, breakers, None);
  }
}
