/**
 * Turning a stream's data, end and error events into an async iterator. Events and the consumer's pulls
 * interleave freely; the promise between them is fulfilled at one moment and acted upon at a later one.
 */
module AsyncBridge {
  import opened Options

  /**
   * Where the generator stands: not started (its listeners are registered by the first pull), at a yield,
   * awaiting the next event, about to go on with what the promise was given, over, or awaiting a promise
   * nobody can fulfil any more.
   */
  datatype Phase<T> = NotStarted | Suspended | Awaiting | Resumable(result: Option<T>) | Done | Stuck

  datatype Bridge<T> = Bridge(phase: Phase<T>, chunks: seq<T>, finished: bool, received: seq<T>, yielded: seq<T>)

  datatype Event<T> = Data(chunk: T) | End | Error | Pull | Resume

  function Start<T>(): Bridge<T> { Bridge(NotStarted, [], false, [], []) }

  /** The consumer asks only at the start or a yield; the generator resumes only once its promise is fulfilled. */
  predicate Enabled<T>(b: Bridge<T>, e: Event<T>) {
    (e.Pull? ==> b.phase.NotStarted? || b.phase.Suspended?) && (e.Resume? ==> b.phase.Resumable?)
  }

  /** Before the first pull nobody listens, and an event has no effect. */
  function Step<T>(b: Bridge<T>, e: Event<T>): Bridge<T>
    requires Enabled(b, e)
  {
    if b.phase.NotStarted? && !e.Pull? then b
    else match e
    case Data(x) =>
      var c := b.(received := b.received + [x]);
      if b.phase.Awaiting? then c.(phase := Resumable(Some(x))) else c.(chunks := b.chunks + [x])
    case End =>
      var c := b.(finished := true);
      if b.phase.Awaiting? then c.(phase := Resumable(None)) else c
    case Error =>
      var c := b.(finished := true);
      if b.phase.Awaiting? then c.(phase := Stuck) else c
    case Pull =>
      if b.finished then b.(phase := Done)
      else if |b.chunks| > 0 then
        b.(phase := Suspended, yielded := b.yielded + [b.chunks[0]], chunks := b.chunks[1..])
      else b.(phase := Awaiting)
    case Resume =>
      if b.phase.result.None? then b.(phase := Done)
      else b.(phase := Suspended, yielded := b.yielded + [b.phase.result.value])
  }

  ghost predicate Possible<T>(b: Bridge<T>, events: seq<Event<T>>)
    decreases |events|
  {
    events != [] ==> Enabled(b, events[0]) && Possible(Step(b, events[0]), events[1..])
  }

  function Run<T>(b: Bridge<T>, events: seq<Event<T>>): Bridge<T>
    requires Possible(b, events)
    decreases |events|
  {
    if events == [] then b else Run(Step(b, events[0]), events[1..])
  }

  // ── Nothing is lost on the way, doubled or put out of order ──

  function InFlight<T>(b: Bridge<T>): seq<T> {
    if b.phase.Resumable? && b.phase.result.Some? then [b.phase.result.value] else []
  }

  /** Everything received is yielded, in flight or buffered, in that order. */
  ghost predicate Accounted<T>(b: Bridge<T>) {
    && b.received == b.yielded + InFlight(b) + b.chunks
    && (b.phase.Awaiting? || b.phase.NotStarted? ==> b.chunks == [] && !b.finished)
    && (b.phase.Stuck? ==> b.finished)
    && (b.phase.Done? ==> b.finished)
    && (b.phase == Resumable(None) ==> b.finished)
  }

  lemma AccountedKept<T>(b: Bridge<T>, e: Event<T>)
    requires Accounted(b) && Enabled(b, e)
    ensures Accounted(Step(b, e))
  {
    if e.Pull? && !b.finished && |b.chunks| > 0 { assert b.chunks == [b.chunks[0]] + b.chunks[1..]; }
  }

  lemma {:induction false} AccountedAlways<T>(b: Bridge<T>, events: seq<Event<T>>)
    requires Accounted(b) && Possible(b, events)
    ensures Accounted(Run(b, events))
    decreases |events|
  {
    if events != [] {
      AccountedKept(b, events[0]);
      AccountedAlways(Step(b, events[0]), events[1..]);
    }
  }

  /** What is yielded is a prefix of what is received: in order, without gaps or repeats. */
  lemma YieldsArePrefix<T>(events: seq<Event<T>>)
    requires Possible(Start(), events)
    ensures Run(Start(), events).yielded <= Run(Start(), events).received
  {
    AccountedAlways(Start(), events);
  }

  // ── The end ──

  ghost predicate NoData<T>(events: seq<Event<T>>) {
    forall i :: 0 <= i < |events| ==> !events[i].Data?
  }

  lemma {:induction false} BufferFrozen<T>(b: Bridge<T>, events: seq<Event<T>>)
    requires Accounted(b) && b.finished && Possible(b, events) && NoData(events)
    ensures var c := Run(b, events); c.chunks == b.chunks && c.received == b.received && Accounted(c)
    decreases |events|
  {
    if events != [] {
      AccountedKept(b, events[0]);
      assert NoData(events[1..]);
      BufferFrozen(Step(b, events[0]), events[1..]);
    }
  }

  /**
   * When the consumer has been told that the stream is over, it has had everything exactly if the buffer
   * was empty at the moment the stream ended; what was buffered then is dropped.
   */
  lemma AllYieldedExactlyIfEmpty<T>(before: seq<Event<T>>, after: seq<Event<T>>)
    requires Possible(Start(), before) && Possible(Step(Run(Start(), before), End), after) && NoData(after)
    requires Run(Step(Run(Start(), before), End), after).phase.Done?
    ensures var b := Run(Start(), before);
            var c := Run(Step(b, End), after);
            && c.received == c.yielded + b.chunks
            && (c.yielded == c.received <==> b.chunks == [])
  {
    AccountedAlways(Start(), before);
    var b := Run(Start(), before);
    AccountedKept(b, End);
    if b.phase.NotStarted? {
      NothingHeard(Start(), before);
      NothingReceived(Step(b, End), after);
    } else {
      BufferFrozen(Step(b, End), after);
    }
  }

  lemma {:induction false} NothingHeard<T>(b: Bridge<T>, events: seq<Event<T>>)
    requires b.received == [] && Possible(b, events) && Run(b, events).phase.NotStarted?
    ensures Run(b, events).received == []
    decreases |events|
  {
    if events != [] {
      Unstarted(Step(b, events[0]), events[1..]);
      NothingHeard(Step(b, events[0]), events[1..]);
    }
  }

  /** A generator that has not started by the end has not started before. */
  lemma {:induction false} Unstarted<T>(b: Bridge<T>, events: seq<Event<T>>)
    requires Possible(b, events) && Run(b, events).phase.NotStarted?
    ensures b.phase.NotStarted?
    decreases |events|
  {
    if events != [] { Unstarted(Step(b, events[0]), events[1..]); }
  }

  lemma {:induction false} NothingReceived<T>(b: Bridge<T>, events: seq<Event<T>>)
    requires Accounted(b) && b.received == [] && Possible(b, events) && NoData(events)
    ensures Run(b, events).received == [] && Accounted(Run(b, events))
    decreases |events|
  {
    if events != [] {
      AccountedKept(b, events[0]);
      assert NoData(events[1..]);
      NothingReceived(Step(b, events[0]), events[1..]);
    }
  }

  /** Even one chunk still buffered at the end is lost: the consumer is told it has had everything. */
  lemma BufferedChunkIsLost<T>(x: T, y: T)
    ensures var events := [Pull, Data(x), Data(y), End, Resume, Pull];
            && Possible(Start(), events)
            && Run(Start(), events).phase.Done?
            && Run(Start(), events).received == [x, y] && Run(Start(), events).yielded == [x]
  {
    var events: seq<Event<T>> := [Pull, Data(x), Data(y), End, Resume, Pull];
    var waiting := Step(Start(), Pull);
    var given := Step(waiting, Data(x));
    var kept := Step(given, Data(y));
    var over := Step(kept, End);
    var told := Step(over, Resume);
    assert events[1..][1..] == events[2..] && events[2..][1..] == events[3..] && events[3..][1..] == events[4..];
    assert events[4..][1..] == events[5..] && events[5..][1..] == [];
    assert [x] + [y] == [x, y];
    Goes(told, events[5..]);
    Goes(over, events[4..]);
    Goes(kept, events[3..]);
    Goes(given, events[2..]);
    Goes(waiting, events[1..]);
    Goes(Start(), events);
    Ends(Step(told, Pull));
  }

  lemma Ends<T>(b: Bridge<T>)
    ensures Possible(b, []) && Run(b, []) == b
  {}

  lemma Goes<T>(b: Bridge<T>, events: seq<Event<T>>)
    requires events != [] && Enabled(b, events[0])
    ensures Possible(Step(b, events[0]), events[1..]) ==>
              Possible(b, events) && Run(b, events) == Run(Step(b, events[0]), events[1..])
  {}

  // ── Errors ──

  /** An error that comes while the consumer waits leaves it waiting for ever. */
  lemma {:induction false} StuckForever<T>(b: Bridge<T>, events: seq<Event<T>>)
    requires b.phase.Stuck? && Possible(b, events)
    ensures var c := Run(b, events); c.phase.Stuck? && c.yielded == b.yielded
    decreases |events|
  {
    if events != [] { StuckForever(Step(b, events[0]), events[1..]); }
  }

  /** From here on nothing is yielded and the consumer is never told that it is over. */
  ghost predicate Hangs<T(!new)>(b: Bridge<T>) {
    forall events :: Possible(b, events) ==> !Run(b, events).phase.Done? && Run(b, events).yielded == b.yielded
  }

  /**
   * An error hangs the consumer for ever exactly when it is waiting (or hangs already); at any other time
   * the error looks like the end.
   */
  lemma ErrorHangsExactlyWaiting<T(!new)>(events: seq<Event<T>>)
    requires Possible(Start(), events)
    ensures var b := Run(Start(), events);
            && (Hangs(Step(b, Error)) <==> b.phase.Awaiting? || b.phase.Stuck?)
            && (!b.phase.Awaiting? ==> Step(b, Error) == Step(b, End))
  {
    AccountedAlways(Start(), events);
    var b := Run(Start(), events);
    hide Run, Possible;
    var c := Step(b, Error);
    if b.phase.Awaiting? || b.phase.Stuck? {
      forall more | Possible(c, more)
        ensures !Run(c, more).phase.Done? && Run(c, more).yielded == c.yielded
      {
        StuckForever(c, more);
      }
    } else {
      var more := WayOut(c);
      assert Run(c, more).phase.Done? || Run(c, more).yielded != c.yielded;
    }
  }

  /** Whoever is neither waiting nor stuck can be brought to its end, or to one more yield. */
  lemma WayOut<T>(b: Bridge<T>) returns (more: seq<Event<T>>)
    requires Accounted(b) && !b.phase.Awaiting? && !b.phase.Stuck?
    requires b.finished || b.phase.NotStarted? || b.phase.Resumable? || b.phase.Done?
    ensures Possible(b, more)
    ensures Run(b, more).phase.Done? || Run(b, more).yielded != b.yielded
  {
    match b.phase
    case NotStarted =>
      more := [Pull, End, Resume];
      var waiting := Step(b, Pull);
      assert more[1..] == [End, Resume] && more[1..][1..] == [Resume] && more[2..][1..] == [];
      Goes(Step(waiting, End), more[2..]);
      assert more[1..][1..] == more[2..];
      Goes(waiting, more[1..]);
      Goes(b, more);
    case Suspended =>
      more := [Pull];
      assert more[1..] == [];
      Goes(b, more);
    case Resumable(r) =>
      more := [Resume];
      assert more[1..] == [];
      Goes(b, more);
      if r.Some? { assert |Step(b, Resume).yielded| == |b.yielded| + 1; }
    case Done => more := [];
  }

  // ── Progress ──

  /** As long as the stream is not over, buffered chunks come out one pull each. */
  lemma {:induction false} PullsDrain<T>(b: Bridge<T>, n: nat)
    requires b.phase.Suspended? && !b.finished && n <= |b.chunks|
    ensures Possible(b, Pulls(n))
    ensures Run(b, Pulls(n)) == b.(yielded := b.yielded + b.chunks[..n], chunks := b.chunks[n..])
    decreases n
  {
    if n > 0 {
      var c := Step(b, Pull);
      PullsDrain(c, n - 1);
      assert Pulls<T>(n)[0] == Pull && Pulls<T>(n)[1..] == Pulls<T>(n - 1);
      assert b.chunks[..n] == [b.chunks[0]] + c.chunks[..n - 1];
      assert b.chunks[n..] == c.chunks[n - 1..];
      assert b.yielded + b.chunks[..n] == c.yielded + c.chunks[..n - 1];
    }
  }

  function Pulls<T>(n: nat): seq<Event<T>> { seq(n, _ => Pull) }

  // ── As it is written ──

  class AsyncIterable<T> {
    var chunks: seq<T>
    var resolve: bool
    var finished: bool
    var phase: Phase<T>
    ghost var received: seq<T>
    ghost var yielded: seq<T>

    /** `resolve` is set exactly while the generator awaits. */
    ghost predicate Valid()
      reads this
    {
      resolve <==> phase.Awaiting?
    }

    constructor ()
      ensures Valid() && State() == Start()
    {
      chunks, resolve, finished, phase, received, yielded := [], false, false, NotStarted, [], [];
    }

    ghost function State(): Bridge<T>
      reads this
    {
      Bridge(phase, chunks, finished, received, yielded)
    }

    method OnData(chunk: T)
      requires Valid()
      modifies this
      ensures Valid() && State() == Step(old(State()), Data(chunk))
    {
      if phase.NotStarted? { return; }
      received := received + [chunk];
      if resolve {
        resolve := false;
        phase := Resumable(Some(chunk));
      } else {
        chunks := chunks + [chunk];
      }
    }

    method OnEnd()
      requires Valid()
      modifies this
      ensures Valid() && State() == Step(old(State()), End)
    {
      if phase.NotStarted? { return; }
      finished := true;
      if resolve {
        resolve := false;
        phase := Resumable(None);
      }
    }

    /** The throw goes to the emitter of the event, not to whoever awaits. */
    method OnError()
      requires Valid()
      modifies this
      ensures Valid() && State() == Step(old(State()), Error)
    {
      if phase.NotStarted? { return; }
      finished := true;
      if resolve {
        resolve := false;
        phase := Stuck;
      }
    }

    /** From a yield to the next yield, await or return. */
    method Next() returns (chunk: Option<T>)
      requires Valid() && (phase.NotStarted? || phase.Suspended?)
      modifies this
      ensures Valid() && State() == Step(old(State()), Pull)
      ensures chunk.Some? ==> yielded == old(yielded) + [chunk.value]
      ensures chunk.None? ==> yielded == old(yielded)
    {
      if finished {
        phase := Done;
        return None;
      }
      if |chunks| > 0 {
        chunk := Some(chunks[0]);
        yielded := yielded + [chunks[0]];
        chunks := chunks[1..];
        phase := Suspended;
      } else {
        resolve := true;
        phase := Awaiting;
        chunk := None;
      }
    }

    /** From a fulfilled promise to the next yield or return. */
    method GoOn() returns (chunk: Option<T>)
      requires Valid() && phase.Resumable?
      modifies this
      ensures Valid() && State() == Step(old(State()), Resume)
      ensures chunk.Some? ==> yielded == old(yielded) + [chunk.value]
      ensures chunk.None? ==> yielded == old(yielded)
    {
      chunk := phase.result;
      if chunk.None? {
        phase := Done;
      } else {
        yielded := yielded + [chunk.value];
        phase := Suspended;
      }
    }
  }
}
