/** The circuit breaker of one service, over every sequence of questions and recorded outcomes. */
module Breaker {
  import opened Options

  datatype CircuitState = Closed | Open | HalfOpen

  datatype Config = Config(enabled: bool, failureThreshold: int, recoveryTimeout: int, minimumThroughput: int)

  datatype Breaker = Breaker(
    state: CircuitState, failures: nat, successes: nat, totalRequests: nat,
    lastFailure: Option<int>, nextAttempt: Option<int>)

  const FRESH := Breaker(Closed, 0, 0, 0, None, None)

  /** A question or an outcome, each with the time it came. */
  datatype Event = Ask(now: int) | Success | Failure(now: int)

  predicate Admits(b: Breaker, now: int) {
    match b.state
    case Closed => true
    case Open => b.nextAttempt.Some? && now >= b.nextAttempt.value
    case HalfOpen => true
  }

  function Asked(b: Breaker, now: int): Breaker {
    if b.state == Open && Admits(b, now) then b.(state := HalfOpen) else b
  }

  function Succeeded(b: Breaker): Breaker {
    var c := b.(successes := b.successes + 1, totalRequests := b.totalRequests + 1);
    if b.state == HalfOpen then c.(state := Closed, failures := 0, nextAttempt := None) else c
  }

  function Failed(config: Config, b: Breaker, now: int): Breaker {
    var c := b.(failures := b.failures + 1, totalRequests := b.totalRequests + 1, lastFailure := Some(now));
    if b.state != Open && c.failures >= config.failureThreshold && c.totalRequests >= config.minimumThroughput
    then c.(state := Open, nextAttempt := Some(now + config.recoveryTimeout))
    else c
  }

  function Next(config: Config, b: Breaker, e: Event): Breaker {
    match e
    case Ask(now) => Asked(b, now)
    case Success => Succeeded(b)
    case Failure(now) => Failed(config, b, now)
  }

  function Run(config: Config, events: seq<Event>): Breaker {
    if events == [] then FRESH
    else Next(config, Run(config, events[..|events| - 1]), events[|events| - 1])
  }

  // ── Counters ──

  function Recorded(events: seq<Event>): nat {
    if events == [] then 0
    else Recorded(events[..|events| - 1]) + if events[|events| - 1].Ask? then 0 else 1
  }

  function Successes(events: seq<Event>): nat {
    if events == [] then 0
    else Successes(events[..|events| - 1]) + if events[|events| - 1].Success? then 1 else 0
  }

  /** Failures since the breaker last closed. */
  function FailuresSinceClosing(config: Config, events: seq<Event>): nat {
    if events == [] then 0
    else
      var before, last := events[..|events| - 1], events[|events| - 1];
      if last.Success? && Run(config, before).state == HalfOpen then 0
      else FailuresSinceClosing(config, before) + if last.Failure? then 1 else 0
  }

  lemma {:induction false} CountersCount(config: Config, events: seq<Event>)
    ensures var b := Run(config, events);
            && b.totalRequests == Recorded(events)
            && b.successes == Successes(events)
            && b.failures == FailuresSinceClosing(config, events)
            && b.successes + b.failures <= b.totalRequests
  {
    if events != [] { CountersCount(config, events[..|events| - 1]); }
  }

  // ── States ──

  predicate Tripped(config: Config, b: Breaker) {
    b.failures >= config.failureThreshold && b.totalRequests >= config.minimumThroughput
  }

  /**
   * A time to try again is set exactly when the breaker is not closed, and a breaker that is not closed
   * has failed often enough and seen enough, so one more failure opens it again.
   */
  lemma {:induction false} StatesHold(config: Config, events: seq<Event>)
    ensures var b := Run(config, events);
            && (b.nextAttempt.Some? <==> b.state != Closed)
            && (b.state != Closed ==> Tripped(config, b))
  {
    if events != [] { StatesHold(config, events[..|events| - 1]); }
  }

  lemma RunOn(config: Config, events: seq<Event>, e: Event)
    ensures Run(config, events + [e]) == Next(config, Run(config, events), e)
    ensures Recorded(events + [e]) == Recorded(events) + if e.Ask? then 0 else 1
    ensures e.Failure? ==> FailuresSinceClosing(config, events + [e]) == FailuresSinceClosing(config, events) + 1
  {
    assert (events + [e])[..|events|] == events;
  }

  /**
   * A failure recorded while the breaker is not open opens it exactly when the failures since it last
   * closed have reached the threshold and the outcomes of the whole run the throughput.
   */
  lemma TripsExactly(config: Config, events: seq<Event>, now: int)
    requires Run(config, events).state != Open
    ensures var after := events + [Failure(now)];
            var b := Run(config, after);
            && (b.state == Open <==>
                  && FailuresSinceClosing(config, after) >= config.failureThreshold
                  && Recorded(after) >= config.minimumThroughput)
            && (b.state == Open ==> b.nextAttempt == Some(now + config.recoveryTimeout))
            && (b.state != Open ==> b.state == Closed)
            && b.lastFailure == Some(now)
  {
    CountersCount(config, events);
    StatesHold(config, events);
    RunOn(config, events, Failure(now));
  }

  /** A failure that is recorded while it is open moves nothing but the counters. */
  lemma OpenCountsOn(config: Config, events: seq<Event>, now: int)
    requires Run(config, events).state == Open
    ensures var b, was := Run(config, events + [Failure(now)]), Run(config, events);
            b.state == Open && b.nextAttempt == was.nextAttempt && b.lastFailure == Some(now)
  {
    RunOn(config, events, Failure(now));
  }

  function Failures(n: nat, now: int): (events: seq<Event>)
    ensures |events| == n && forall i :: 0 <= i < n ==> events[i] == Failure(now)
  {
    seq(n, i => Failure(now))
  }

  lemma {:induction false} FailuresCounted(config: Config, n: nat, now: int)
    ensures Recorded(Failures(n, now)) == n && FailuresSinceClosing(config, Failures(n, now)) == n
  {
    if n > 0 {
      assert Failures(n, now)[..n - 1] == Failures(n - 1, now);
      FailuresCounted(config, n - 1, now);
    }
  }

  /** Too few failures leave a fresh breaker closed. */
  lemma {:induction false} FewFailuresStayClosed(config: Config, n: nat, now: int)
    requires n == 0 || n < config.failureThreshold || n < config.minimumThroughput
    ensures Run(config, Failures(n, now)).state == Closed
  {
    if n > 0 {
      FewFailuresStayClosed(config, n - 1, now);
      FailuresCounted(config, n, now);
      assert Failures(n, now) == Failures(n - 1, now) + [Failure(now)];
      TripsExactly(config, Failures(n - 1, now), now);
    }
  }

  /** Failures alone open a fresh breaker at the first one that reaches both limits. */
  lemma EnoughFailuresOpen(config: Config, n: nat, now: int)
    requires n >= 1 && n >= config.failureThreshold && n >= config.minimumThroughput
    requires n == 1 || n == config.failureThreshold || n == config.minimumThroughput
    ensures OpensAt(config, Failures(n, now), n - 1)
  {
    var before := Failures(n - 1, now);
    FewFailuresStayClosed(config, n - 1, now);
    FailuresCounted(config, n, now);
    assert Failures(n, now) == before + [Failure(now)];
    assert Failures(n, now)[..n - 1] == before && Failures(n, now)[..n] == Failures(n, now);
    TripsExactly(config, before, now);
  }

  lemma FailedProbeReopens(config: Config, events: seq<Event>, now: int)
    requires Run(config, events).state == HalfOpen
    ensures var b := Failed(config, Run(config, events), now);
            b.state == Open && b.nextAttempt == Some(now + config.recoveryTimeout)
  {
    StatesHold(config, events);
  }

  lemma SucceededProbeCloses(config: Config, events: seq<Event>)
    requires Run(config, events).state == HalfOpen
    ensures Run(config, events + [Success]).state == Closed && Run(config, events + [Success]).failures == 0
  {
    assert (events + [Success])[..|events|] == events;
  }

  // ── Admission ──

  /** The breaker opens at position i. */
  predicate OpensAt(config: Config, events: seq<Event>, i: nat) {
    && i < |events| && events[i].Failure?
    && Run(config, events[..i]).state != Open && Run(config, events[..i + 1]).state == Open
  }

  /** Nobody who asks between positions i and n is admitted. */
  predicate AllRefused(config: Config, events: seq<Event>, i: nat, n: nat) {
    forall j :: i < j < n && j < |events| && events[j].Ask? ==> !Admits(Run(config, events[..j]), events[j].now)
  }

  lemma {:induction false} StaysOpen(config: Config, events: seq<Event>, i: nat, n: nat)
    requires OpensAt(config, events, i) && i < n <= |events| && AllRefused(config, events, i, n)
    ensures var b := Run(config, events[..n]);
            b.state == Open && b.nextAttempt == Some(events[i].now + config.recoveryTimeout)
  {
    assert events[..n][..n - 1] == events[..n - 1];
    if n > i + 1 {
      StaysOpen(config, events, i, n - 1);
    } else {
      StatesHold(config, events[..i]);
    }
  }

  /**
   * After it opens, the first question admitted is the first that comes no earlier than the recovery
   * timeout: as long as all were refused, a question is admitted exactly when that time has passed.
   */
  lemma AdmittedAfterTimeout(config: Config, events: seq<Event>, i: nat, n: nat, now: int)
    requires OpensAt(config, events, i) && i < n <= |events| && AllRefused(config, events, i, n)
    ensures Admits(Run(config, events[..n]), now) <==> now >= events[i].now + config.recoveryTimeout
  {
    StaysOpen(config, events, i, n);
  }

  /** Outside an open breaker everything is admitted. */
  lemma RefusedOnlyWhileOpen(config: Config, events: seq<Event>, now: int)
    requires !Admits(Run(config, events), now)
    ensures Run(config, events).state == Open && Run(config, events).nextAttempt.Some?
    ensures now < Run(config, events).nextAttempt.value
  {
    StatesHold(config, events);
  }

  /** The breaker as it is written. */
  class CircuitBreaker {
    const config: Config
    var state: CircuitState
    var failures: nat
    var successes: nat
    var lastFailure: Option<int>
    var nextAttempt: Option<int>
    var totalRequests: nat

    constructor (config: Config)
      ensures this.config == config && Value() == FRESH
    {
      this.config := config;
      state, failures, successes, totalRequests := Closed, 0, 0, 0;
      lastFailure, nextAttempt := None, None;
    }

    function Value(): Breaker
      reads this
    {
      Breaker(state, failures, successes, totalRequests, lastFailure, nextAttempt)
    }

    method CanExecute(now: int) returns (admitted: bool)
      modifies this
      ensures admitted == Admits(old(Value()), now)
      ensures Value() == Asked(old(Value()), now)
    {
      if state == Closed { return true; }
      if state == Open {
        if nextAttempt.Some? && now >= nextAttempt.value {
          state := HalfOpen;
          return true;
        }
        return false;
      }
      return true;
    }

    method RecordSuccess()
      modifies this
      ensures Value() == Succeeded(old(Value()))
    {
      successes := successes + 1;
      totalRequests := totalRequests + 1;
      if state == HalfOpen {
        state := Closed;
        failures := 0;
        nextAttempt := None;
      }
    }

    method RecordFailure(now: int)
      modifies this
      ensures Value() == Failed(config, old(Value()), now)
      ensures failures == old(failures) + 1 && totalRequests == old(totalRequests) + 1
      ensures old(state) != Open ==>
        (state == Open <==> failures >= config.failureThreshold && totalRequests >= config.minimumThroughput)
    {
      failures := failures + 1;
      totalRequests := totalRequests + 1;
      lastFailure := Some(now);
      if state == Closed || state == HalfOpen {
        if failures >= config.failureThreshold && totalRequests >= config.minimumThroughput {
          state := Open;
          nextAttempt := Some(now + config.recoveryTimeout);
        }
      }
    }
  }
}
