/**
 * Requests running side by side under one lock per cluster: whatever the interleaving, the tables
 * stay safe at every step and end as if the sections had run one at a time.
 */
module AlloyProtocol {
  import opened AlloyNames
  import opened AlloySections
  import opened AlloyFrames
  import opened AlloySafety

  datatype Phase = Idle | Running(pc: Pc) | Done(outcome: Outcome)

  /** The lock is held per cluster name; `holders` says by which request. */
  datatype System = System(db: Db, phases: seq<Phase>, holders: map<string, nat>)

  datatype Action = Acquire(t: nat) | Advance(t: nat) | Release(t: nat)

  function LockName(r: Request): string { ClusterName(r.key) }

  predicate Enabled(s: System, reqs: seq<Request>, a: Action)
    requires |s.phases| == |reqs|
  {
    && a.t < |reqs|
    && match a
       case Acquire(t) => s.phases[t].Idle? && LockName(reqs[t]) !in s.holders
       case Advance(t) => s.phases[t].Running? && !s.phases[t].pc.Finished?
       case Release(t) => s.phases[t].Running? && s.phases[t].pc.Finished?
  }

  function Apply(s: System, reqs: seq<Request>, a: Action): (next: System)
    requires |s.phases| == |reqs| && Enabled(s, reqs, a)
    ensures |next.phases| == |reqs|
  {
    match a
    case Acquire(t) =>
      s.(phases := s.phases[t := Running(Start)], holders := s.holders[LockName(reqs[t]) := t])
    case Advance(t) =>
      var (db, pc) := Step(s.db, reqs[t], s.phases[t].pc);
      s.(db := db, phases := s.phases[t := Running(pc)])
    case Release(t) =>
      s.(phases := s.phases[t := Done(s.phases[t].pc.outcome)], holders := s.holders - {LockName(reqs[t])})
  }

  function Initial(db: Db, reqs: seq<Request>): System {
    System(db, seq(|reqs|, i => Idle), map[])
  }

  /** A schedule is possible when each action is enabled where it happens. */
  predicate Possible(db: Db, reqs: seq<Request>, acts: seq<Action>)
    decreases |acts|, 0
  {
    acts != [] ==>
      var before := acts[..|acts| - 1];
      Possible(db, reqs, before) && Enabled(Run(db, reqs, before), reqs, acts[|acts| - 1])
  }

  function Run(db: Db, reqs: seq<Request>, acts: seq<Action>): (s: System)
    requires Possible(db, reqs, acts)
    ensures |s.phases| == |reqs|
    decreases |acts|, 1
  {
    if acts == [] then Initial(db, reqs)
    else Apply(Run(db, reqs, acts[..|acts| - 1]), reqs, acts[|acts| - 1])
  }

  lemma RunLast(db: Db, reqs: seq<Request>, acts: seq<Action>, a: Action)
    requires Possible(db, reqs, acts + [a])
    ensures Possible(db, reqs, acts) && Enabled(Run(db, reqs, acts), reqs, a)
    ensures Run(db, reqs, acts + [a]) == Apply(Run(db, reqs, acts), reqs, a)
  {
    hide Enabled, Apply;
    assert (acts + [a])[..|acts|] == acts;
  }

  /** The requests in the order in which they got their locks. */
  function LockOrder(acts: seq<Action>): seq<nat> {
    if acts == [] then []
    else
      var order := LockOrder(acts[..|acts| - 1]);
      if acts[|acts| - 1].Acquire? then order + [acts[|acts| - 1].t] else order
  }

  predicate InRange(reqs: seq<Request>, order: seq<nat>) {
    forall i :: 0 <= i < |order| ==> order[i] < |reqs|
  }

  /** The same requests one after the other. */
  function Serial(db: Db, reqs: seq<Request>, order: seq<nat>): Db
    requires InRange(reqs, order)
  {
    if order == [] then db
    else Section(Serial(db, reqs, order[..|order| - 1]), reqs[order[|order| - 1]]).0
  }

  /** What the `i`th request of a serial run answers. */
  function SerialOutcome(db: Db, reqs: seq<Request>, order: seq<nat>, i: nat): Outcome
    requires InRange(reqs, order) && i < |order|
  {
    Section(Serial(db, reqs, order[..i]), reqs[order[i]]).1
  }

  // ── The invariant of the locking discipline ──

  ghost predicate Standing(s: System, reqs: seq<Request>, t: nat)
    requires |s.phases| == |reqs| && t < |reqs|
  {
    s.phases[t].Running? ==>
      && LockName(reqs[t]) in s.holders && s.holders[LockName(reqs[t])] == t
      && Fits(reqs[t], s.phases[t].pc)
      && OwnNames(reqs[t].key, s.phases[t].pc)
      && PcOk(s.db, reqs[t], s.phases[t].pc)
  }

  ghost predicate HeldBy(s: System, reqs: seq<Request>, n: string)
    requires |s.phases| == |reqs| && n in s.holders
  {
    var t := s.holders[n];
    t < |reqs| && s.phases[t].Running? && n == LockName(reqs[t])
  }

  ghost predicate Disciplined(s: System, reqs: seq<Request>) {
    && |s.phases| == |reqs|
    && (forall t :: 0 <= t < |reqs| ==> ValidRequest(reqs[t]))
    && (forall t :: 0 <= t < |reqs| ==> Standing(s, reqs, t))
    && (forall n :: n in s.holders ==> HeldBy(s, reqs, n))
    && Inv(s.db)
  }

  /** Two requests inside their sections hold different clusters. */
  lemma Exclusive(s: System, reqs: seq<Request>, t: nat, u: nat)
    requires Disciplined(s, reqs) && t < |reqs| && u < |reqs| && t != u
    requires s.phases[t].Running? && s.phases[u].Running?
    ensures reqs[t].key != reqs[u].key
  {
    assert Standing(s, reqs, t) && Standing(s, reqs, u);
  }

  lemma RootedKept(db: Db, after: Db, k: Key)
    requires Rooted(db) && ValidKey(k) && AgreeOff(db, after, k)
    ensures Rooted(after)
  {
    hide ClusterName, InstancePrefix, UserPrefix, EndpointPrefix, ValidKey;
    forall n | n in after.clusters ensures exists k :: ValidKey(k) && n == ClusterName(k) {
      if n != ClusterName(k) { assert SameRow(db.clusters, after.clusters, n); }
    }
    forall n | n in after.instances ensures exists k :: ValidKey(k) && InstancePrefix(k) <= n {
      if !(InstancePrefix(k) <= n) { assert SameRow(db.instances, after.instances, n); }
    }
    forall n | n in after.users ensures exists k :: ValidKey(k) && UserPrefix(k) <= n {
      if !(UserPrefix(k) <= n) { assert SameRow(db.users, after.users, n); }
    }
    forall e | e in after.endpoints ensures exists k :: ValidKey(k) && EndpointPrefix(k) <= e {
      if !(EndpointPrefix(k) <= e) { assert SameEndpoint(db.endpoints, after.endpoints, e); }
    }
    forall op | op in after.operations ensures ValidKey(op.owner) {
      if op.owner != k { assert SameCount(db.operations, after.operations, op); }
    }
  }

  /** A change confined to one cluster that keeps that cluster's invariant keeps the whole one. */
  lemma InvKept(db: Db, after: Db, k: Key)
    requires Inv(db) && ValidKey(k) && AgreeOff(db, after, k) && ClusterOk(after, k)
    ensures Inv(after)
  {
    RootedKept(db, after, k);
    forall other | ValidKey(other) ensures ClusterOk(after, other) {
      if other != k {
        Disjoint(db, after, k, other);
        SameCluster(db, after, other);
      }
    }
  }

  lemma StartStands(db: Db, r: Request)
    ensures Fits(r, Start) && OwnNames(r.key, Start) && PcOk(db, r, Start)
  {}

  lemma AcquireDisciplined(s: System, reqs: seq<Request>, t: nat)
    requires Disciplined(s, reqs) && Enabled(s, reqs, Acquire(t))
    ensures Disciplined(Apply(s, reqs, Acquire(t)), reqs)
  {
    hide Inv, PcOk, LockName, Fits, OwnNames, ValidRequest, Step;
    var next := Apply(s, reqs, Acquire(t));
    StartStands(s.db, reqs[t]);
    forall u | 0 <= u < |reqs| ensures Standing(next, reqs, u) {
      assert Standing(s, reqs, u);
    }
    forall n | n in next.holders ensures HeldBy(next, reqs, n) {
      if n != LockName(reqs[t]) { assert HeldBy(s, reqs, n); }
    }
  }

  /** What one step does to the request that takes it. */
  lemma AdvanceOwn(s: System, reqs: seq<Request>, t: nat)
    requires Disciplined(s, reqs) && Enabled(s, reqs, Advance(t))
    ensures var next := Apply(s, reqs, Advance(t));
            && Inv(next.db) && AgreeOff(s.db, next.db, reqs[t].key)
            && Standing(next, reqs, t)
  {
    hide PcOk, LockName, Step, Fits, OwnNames, AgreeOff, ClusterOk, Rooted;
    var r, pc := reqs[t], s.phases[t].pc;
    assert Standing(s, reqs, t);
    assert ValidKey(r.key) && ClusterOk(s.db, r.key);
    StepFits(s.db, r, pc);
    StepFrame(s.db, s.db, r, pc);
    StepOk(s.db, r, pc);
    InvKept(s.db, Step(s.db, r, pc).0, r.key);
  }

  lemma AdvanceDisciplined(s: System, reqs: seq<Request>, t: nat)
    requires Disciplined(s, reqs) && Enabled(s, reqs, Advance(t))
    ensures Disciplined(Apply(s, reqs, Advance(t)), reqs)
  {
    hide Inv, PcOk, LockName, Step, Fits, OwnNames, AgreeOff, AgreeOn;
    var next := Apply(s, reqs, Advance(t));
    AdvanceOwn(s, reqs, t);
    forall u | 0 <= u < |reqs| ensures Standing(next, reqs, u) {
      assert Standing(s, reqs, u);
      if u != t && s.phases[u].Running? {
        Exclusive(s, reqs, t, u);
        assert ValidRequest(reqs[t]) && ValidRequest(reqs[u]);
        Disjoint(s.db, next.db, reqs[t].key, reqs[u].key);
        SamePc(s.db, next.db, reqs[u], s.phases[u].pc);
      }
    }
    forall n | n in next.holders ensures HeldBy(next, reqs, n) {
      assert HeldBy(s, reqs, n);
    }
  }

  lemma ReleaseDisciplined(s: System, reqs: seq<Request>, t: nat)
    requires Disciplined(s, reqs) && Enabled(s, reqs, Release(t))
    ensures Disciplined(Apply(s, reqs, Release(t)), reqs)
  {
    hide Inv, PcOk, LockName, Fits, OwnNames, ValidRequest, Step;
    var next := Apply(s, reqs, Release(t));
    assert Standing(s, reqs, t);
    forall u | 0 <= u < |reqs| ensures Standing(next, reqs, u) {
      assert Standing(s, reqs, u);
    }
    forall n | n in next.holders ensures HeldBy(next, reqs, n) {
      assert HeldBy(s, reqs, n);
    }
  }

  lemma {:induction false} RunDisciplined(db: Db, reqs: seq<Request>, acts: seq<Action>)
    requires Inv(db) && (forall t :: 0 <= t < |reqs| ==> ValidRequest(reqs[t]))
    requires Possible(db, reqs, acts)
    ensures Disciplined(Run(db, reqs, acts), reqs)
    decreases |acts|
  {
    hide Inv, ValidRequest, Enabled, Apply;
    if acts != [] {
      var last := acts[|acts| - 1];
      RunDisciplined(db, reqs, acts[..|acts| - 1]);
      var s := Run(db, reqs, acts[..|acts| - 1]);
      match last
      case Acquire(t) => AcquireDisciplined(s, reqs, t);
      case Advance(t) => AdvanceDisciplined(s, reqs, t);
      case Release(t) => ReleaseDisciplined(s, reqs, t);
    }
  }
}
