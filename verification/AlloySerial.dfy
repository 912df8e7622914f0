/** Every interleaving equals the serial run in lock-acquisition order. */
module AlloySerial {
  import opened Options
  import opened AlloyNames
  import opened AlloyTypes
  import opened AlloySections
  import opened AlloyFrames
  import opened AlloySafety
  import opened AlloyProtocol

  /** Where a cluster's subtree is heading: whoever holds its lock runs to the end of its section. */
  ghost function Heading(s: System, reqs: seq<Request>, k: Key): Db
    requires Disciplined(s, reqs)
  {
    if ClusterName(k) in s.holders
    then
      assert HeldBy(s, reqs, ClusterName(k));
      var t := s.holders[ClusterName(k)];
      assert Standing(s, reqs, t);
      Complete(s.db, reqs[t], s.phases[t].pc).0
    else s.db
  }

  ghost predicate Tracks(s: System, reqs: seq<Request>, serial: Db)
    requires Disciplined(s, reqs)
  {
    forall k :: ValidKey(k) ==> AgreeOn(Heading(s, reqs, k), serial, k)
  }

  /** The answer a request has given, or will give if nothing else happens. */
  ghost function Answer(s: System, reqs: seq<Request>, t: nat): Option<Outcome>
    requires Disciplined(s, reqs) && t < |reqs|
  {
    assert Standing(s, reqs, t);
    match s.phases[t]
    case Idle => None
    case Running(pc) => Some(Complete(s.db, reqs[t], pc).1)
    case Done(o) => Some(o)
  }

  // ── How an action of one request moves headings and answers ──

  /** `next` differs from `s` only in request `t`, its lock and its cluster's subtree. */
  ghost predicate OnlyMoved(s: System, next: System, reqs: seq<Request>, t: nat)
    requires t < |reqs|
  {
    && |s.phases| == |next.phases| == |reqs|
    && (forall u :: 0 <= u < |reqs| && u != t ==> s.phases[u] == next.phases[u])
    && (forall n :: n != LockName(reqs[t]) ==> SameRow(s.holders, next.holders, n))
    && AgreeOff(s.db, next.db, reqs[t].key)
  }

  lemma ActionMoves(s: System, reqs: seq<Request>, a: Action)
    requires Disciplined(s, reqs) && Enabled(s, reqs, a)
    ensures Disciplined(Apply(s, reqs, a), reqs)
    ensures OnlyMoved(s, Apply(s, reqs, a), reqs, a.t)
  {
    hide Inv, Step, Fits, OwnNames, PcOk, AgreeOff, LockName, ValidRequest;
    SelfOff(s.db, reqs[a.t].key);
    match a
    case Acquire(t) => AcquireDisciplined(s, reqs, t);
    case Advance(t) => AdvanceDisciplined(s, reqs, t); AdvanceOwn(s, reqs, t);
    case Release(t) => ReleaseDisciplined(s, reqs, t);
  }

  lemma OthersHeading(s: System, next: System, reqs: seq<Request>, t: nat, k: Key)
    requires Disciplined(s, reqs) && Disciplined(next, reqs) && t < |reqs| && OnlyMoved(s, next, reqs, t)
    requires ValidKey(k) && k != reqs[t].key
    ensures AgreeOn(Heading(next, reqs, k), Heading(s, reqs, k), k)
  {
    hide Inv, Step, Fits, OwnNames, PcOk, AgreeOn, AgreeOff, ClusterName, ValidKey;
    assert ValidKey(reqs[t].key) by { assert ValidRequest(reqs[t]); }
    if ClusterName(k) == ClusterName(reqs[t].key) { ClusterNameInjective(k, reqs[t].key); }
    assert SameRow(s.holders, next.holders, ClusterName(k));
    Disjoint(s.db, next.db, reqs[t].key, k);
    AgreeOnSymmetric(s.db, next.db, k);
    if ClusterName(k) in s.holders {
      assert HeldBy(s, reqs, ClusterName(k));
      var u := s.holders[ClusterName(k)];
      assert Standing(s, reqs, u) && ValidRequest(reqs[u]);
      ClusterNameInjective(k, reqs[u].key);
      CompleteFrame(next.db, s.db, reqs[u], s.phases[u].pc);
    }
  }

  lemma OthersAnswer(s: System, next: System, reqs: seq<Request>, t: nat, u: nat)
    requires Disciplined(s, reqs) && Disciplined(next, reqs) && t < |reqs| && OnlyMoved(s, next, reqs, t)
    requires u < |reqs| && u != t && (s.phases[u].Running? ==> reqs[u].key != reqs[t].key)
    ensures Answer(next, reqs, u) == Answer(s, reqs, u)
  {
    hide Inv, Step, Fits, OwnNames, PcOk, AgreeOn, AgreeOff, ClusterName, ValidKey;
    if s.phases[u].Running? {
      assert Standing(s, reqs, u) && ValidRequest(reqs[u]) && ValidRequest(reqs[t]);
      Disjoint(s.db, next.db, reqs[t].key, reqs[u].key);
      AgreeOnSymmetric(s.db, next.db, reqs[u].key);
      CompleteFrame(next.db, s.db, reqs[u], s.phases[u].pc);
    }
  }

  /** The request inside its section: the heading of its cluster is what it will leave there. */
  lemma OwnHeading(s: System, reqs: seq<Request>, t: nat)
    requires Disciplined(s, reqs) && t < |reqs| && s.phases[t].Running?
    ensures Fits(reqs[t], s.phases[t].pc)
    ensures Heading(s, reqs, reqs[t].key) == Complete(s.db, reqs[t], s.phases[t].pc).0
    ensures Answer(s, reqs, t) == Some(Complete(s.db, reqs[t], s.phases[t].pc).1)
  {
    assert Standing(s, reqs, t);
  }

  lemma UnlockedHeading(s: System, reqs: seq<Request>, k: Key)
    requires Disciplined(s, reqs) && ClusterName(k) !in s.holders
    ensures Heading(s, reqs, k) == s.db
  {}

  /** Taking a free lock commits to running the whole section from the current tables. */
  lemma AcquireOwn(s: System, reqs: seq<Request>, t: nat)
    requires Disciplined(s, reqs) && Enabled(s, reqs, Acquire(t))
    requires Disciplined(Apply(s, reqs, Acquire(t)), reqs)
    ensures Heading(s, reqs, reqs[t].key) == s.db
    ensures Heading(Apply(s, reqs, Acquire(t)), reqs, reqs[t].key) == Section(s.db, reqs[t]).0
    ensures Answer(Apply(s, reqs, Acquire(t)), reqs, t) == Some(Section(s.db, reqs[t]).1)
  {
    UnlockedHeading(s, reqs, reqs[t].key);
    OwnHeading(Apply(s, reqs, Acquire(t)), reqs, t);
    hide Disciplined, Complete, Heading, Answer;
  }

  /** Stepping inside a section, and leaving it, change neither its heading nor its answer. */
  lemma ProceedOwn(s: System, reqs: seq<Request>, a: Action)
    requires Disciplined(s, reqs) && Enabled(s, reqs, a) && !a.Acquire?
    requires Disciplined(Apply(s, reqs, a), reqs)
    ensures Heading(Apply(s, reqs, a), reqs, reqs[a.t].key) == Heading(s, reqs, reqs[a.t].key)
    ensures Answer(Apply(s, reqs, a), reqs, a.t) == Answer(s, reqs, a.t)
  {
    var next, t := Apply(s, reqs, a), a.t;
    OwnHeading(s, reqs, t);
    if a.Advance? {
      OwnHeading(next, reqs, t);
      CompleteStep(s.db, reqs[t], s.phases[t].pc);
    } else {
      UnlockedHeading(next, reqs, reqs[t].key);
    }
    hide Disciplined, Heading, Step;
  }

  // ── Tracking a serial run ──

  lemma AcquireTracks(s: System, reqs: seq<Request>, t: nat, serial: Db)
    requires Disciplined(s, reqs) && Enabled(s, reqs, Acquire(t)) && Tracks(s, reqs, serial)
    ensures Disciplined(Apply(s, reqs, Acquire(t)), reqs)
    ensures Tracks(Apply(s, reqs, Acquire(t)), reqs, Section(serial, reqs[t]).0)
    ensures Answer(Apply(s, reqs, Acquire(t)), reqs, t) == Some(Section(serial, reqs[t]).1)
  {
    var next, r := Apply(s, reqs, Acquire(t)), reqs[t];
    ActionMoves(s, reqs, Acquire(t));
    assert ValidKey(r.key) by { assert ValidRequest(r); }
    StartStands(s.db, r);
    hide Disciplined, AgreeOn, AgreeOff, Heading, Answer, Fits, OwnNames, ValidKey, Complete, OnlyMoved, Apply, Enabled;
    AcquireOwn(s, reqs, t);
    CompleteFrame(s.db, serial, r, Start);
    CompleteFrame(serial, serial, r, Start);
    var after := Section(serial, r).0;
    forall k | ValidKey(k) ensures AgreeOn(Heading(next, reqs, k), after, k) {
      assert AgreeOn(Heading(s, reqs, k), serial, k);
      if k != r.key {
        OthersHeading(s, next, reqs, t, k);
        Disjoint(serial, after, r.key, k);
        AgreeOnTransitive(Heading(next, reqs, k), Heading(s, reqs, k), serial, k);
        AgreeOnTransitive(Heading(next, reqs, k), serial, after, k);
      }
    }
  }

  lemma ProceedTracks(s: System, reqs: seq<Request>, a: Action, serial: Db)
    requires Disciplined(s, reqs) && Enabled(s, reqs, a) && !a.Acquire? && Tracks(s, reqs, serial)
    ensures Disciplined(Apply(s, reqs, a), reqs)
    ensures Tracks(Apply(s, reqs, a), reqs, serial)
  {
    var next := Apply(s, reqs, a);
    ActionMoves(s, reqs, a);
    hide Disciplined, AgreeOn, AgreeOff, Heading, ValidKey, OnlyMoved, Apply;
    ProceedOwn(s, reqs, a);
    forall k | ValidKey(k) ensures AgreeOn(Heading(next, reqs, k), serial, k) {
      assert AgreeOn(Heading(s, reqs, k), serial, k);
      if k != reqs[a.t].key {
        OthersHeading(s, next, reqs, a.t, k);
        AgreeOnTransitive(Heading(next, reqs, k), Heading(s, reqs, k), serial, k);
      }
    }
  }

  /** Each request that got its lock answers as it does in the serial run; the others have not begun. */
  ghost predicate Answers(s: System, db: Db, reqs: seq<Request>, order: seq<nat>)
    requires Disciplined(s, reqs) && InRange(reqs, order)
  {
    && (forall i :: 0 <= i < |order| ==> Answer(s, reqs, order[i]) == Some(SerialOutcome(db, reqs, order, i)))
    && (forall t :: 0 <= t < |reqs| && t !in order ==> s.phases[t].Idle?)
  }

  lemma SerialPrefix(db: Db, reqs: seq<Request>, order: seq<nat>, t: nat, i: nat)
    requires InRange(reqs, order) && t < |reqs| && i < |order|
    ensures SerialOutcome(db, reqs, order + [t], i) == SerialOutcome(db, reqs, order, i)
  {
    assert (order + [t])[..i] == order[..i];
  }

  lemma OtherRunning(s: System, reqs: seq<Request>, a: Action, u: nat)
    requires Disciplined(s, reqs) && Enabled(s, reqs, a) && u < |reqs| && u != a.t && s.phases[u].Running?
    ensures reqs[u].key != reqs[a.t].key
  {
    assert Standing(s, reqs, u);
    if !a.Acquire? { Exclusive(s, reqs, u, a.t); }
  }

  lemma AnswersKept(s: System, reqs: seq<Request>, a: Action, u: nat)
    requires Disciplined(s, reqs) && Enabled(s, reqs, a) && u < |reqs|
    requires u == a.t ==> !a.Acquire?
    ensures Disciplined(Apply(s, reqs, a), reqs)
    ensures Answer(Apply(s, reqs, a), reqs, u) == Answer(s, reqs, u)
  {
    ActionMoves(s, reqs, a);
    if u == a.t {
      ProceedOwn(s, reqs, a);
    } else {
      if s.phases[u].Running? { OtherRunning(s, reqs, a, u); }
      OthersAnswer(s, Apply(s, reqs, a), reqs, a.t, u);
    }
    hide Disciplined, Answer, Apply;
  }

  lemma ProceedAnswers(s: System, reqs: seq<Request>, a: Action, db: Db, order: seq<nat>)
    requires Disciplined(s, reqs) && Enabled(s, reqs, a) && !a.Acquire?
    requires InRange(reqs, order) && Answers(s, db, reqs, order)
    ensures Disciplined(Apply(s, reqs, a), reqs)
    ensures Answers(Apply(s, reqs, a), db, reqs, order)
  {
    hide Standing, HeldBy, Inv, ValidRequest, Step, LockName, Answer, SerialOutcome, AgreeOff;
    var next := Apply(s, reqs, a);
    ActionMoves(s, reqs, a);
    assert s.phases[a.t].Running?;
    forall i | 0 <= i < |order| ensures Answer(next, reqs, order[i]) == Some(SerialOutcome(db, reqs, order, i)) {
      AnswersKept(s, reqs, a, order[i]);
    }
    forall t | 0 <= t < |reqs| && t !in order ensures next.phases[t].Idle? {
      assert s.phases[t].Idle?;
    }
  }

  lemma AcquireAnswerAt(s: System, reqs: seq<Request>, t: nat, db: Db, order: seq<nat>, i: nat)
    requires Disciplined(s, reqs) && Enabled(s, reqs, Acquire(t)) && InRange(reqs, order)
    requires Answers(s, db, reqs, order) && Tracks(s, reqs, Serial(db, reqs, order))
    requires i <= |order|
    ensures Disciplined(Apply(s, reqs, Acquire(t)), reqs)
    ensures Answer(Apply(s, reqs, Acquire(t)), reqs, (order + [t])[i])
         == Some(SerialOutcome(db, reqs, order + [t], i))
  {
    hide Standing, HeldBy, Inv, ValidRequest, Step, LockName, SerialOutcome, Tracks, Section, Serial;
    assert s.phases[t].Idle?;
    AcquireTracks(s, reqs, t, Serial(db, reqs, order));
    if i < |order| {
      NotYet(s, reqs, db, order, t);
      AnswersKept(s, reqs, Acquire(t), order[i]);
      SerialPrefix(db, reqs, order, t, i);
    } else {
      LastOutcome(db, reqs, order, t);
    }
  }

  lemma AcquireAnswers(s: System, reqs: seq<Request>, t: nat, db: Db, order: seq<nat>)
    requires Disciplined(s, reqs) && Enabled(s, reqs, Acquire(t)) && InRange(reqs, order)
    requires Answers(s, db, reqs, order) && Tracks(s, reqs, Serial(db, reqs, order))
    ensures Disciplined(Apply(s, reqs, Acquire(t)), reqs)
    ensures Answers(Apply(s, reqs, Acquire(t)), db, reqs, order + [t])
  {
    hide Standing, HeldBy, Inv, ValidRequest, Answer, SerialOutcome, Tracks, Serial, Step, LockName;
    var next, longer := Apply(s, reqs, Acquire(t)), order + [t];
    AcquireLeavesIdle(s, reqs, t, db, order);
    forall i | 0 <= i < |longer| ensures Answer(next, reqs, longer[i]) == Some(SerialOutcome(db, reqs, longer, i)) {
      AcquireAnswerAt(s, reqs, t, db, order, i);
    }
  }

  lemma AcquireLeavesIdle(s: System, reqs: seq<Request>, t: nat, db: Db, order: seq<nat>)
    requires Disciplined(s, reqs) && Enabled(s, reqs, Acquire(t)) && InRange(reqs, order)
    requires Answers(s, db, reqs, order)
    ensures Disciplined(Apply(s, reqs, Acquire(t)), reqs)
    ensures forall u :: 0 <= u < |reqs| && u !in order + [t] ==> Apply(s, reqs, Acquire(t)).phases[u].Idle?
  {
    hide Standing, HeldBy, Inv, ValidRequest, Step, LockName, Answer, SerialOutcome, Serial;
    AcquireDisciplined(s, reqs, t);
    forall u | 0 <= u < |reqs| && u !in order + [t] ensures Apply(s, reqs, Acquire(t)).phases[u].Idle? {
      assert u !in order && u != t by { assert (order + [t])[|order|] == t; }
    }
  }

  lemma LastOutcome(db: Db, reqs: seq<Request>, order: seq<nat>, t: nat)
    requires InRange(reqs, order) && t < |reqs|
    ensures SerialOutcome(db, reqs, order + [t], |order|) == Section(Serial(db, reqs, order), reqs[t]).1
  {
    hide Section;
    assert (order + [t])[..|order|] == order;
  }

  /** A request that still waits for its lock is not in the order yet. */
  lemma NotYet(s: System, reqs: seq<Request>, db: Db, order: seq<nat>, t: nat)
    requires Disciplined(s, reqs) && InRange(reqs, order) && Answers(s, db, reqs, order)
    requires t < |reqs| && s.phases[t].Idle?
    ensures t !in order
  {
    hide Disciplined, SerialOutcome;
    forall i | 0 <= i < |order| ensures order[i] != t {
      assert Answer(s, reqs, order[i]) == Some(SerialOutcome(db, reqs, order, i));
    }
  }

  /** The simulation: at every point of every schedule, subtrees head where the serial run is. */
  lemma {:induction false} Simulates(db: Db, reqs: seq<Request>, acts: seq<Action>)
    requires Inv(db) && (forall t :: 0 <= t < |reqs| ==> ValidRequest(reqs[t]))
    requires Possible(db, reqs, acts)
    ensures InRange(reqs, LockOrder(acts)) && Disciplined(Run(db, reqs, acts), reqs)
    ensures Tracks(Run(db, reqs, acts), reqs, Serial(db, reqs, LockOrder(acts)))
    ensures Answers(Run(db, reqs, acts), db, reqs, LockOrder(acts))
    decreases |acts|
  {
    hide Inv, Standing, HeldBy, Heading, AgreeOn, Section, Step, ValidKey, Tracks, Answers;
    RunDisciplined(db, reqs, acts);
    if acts == [] {
      InitialTracks(db, reqs);
    } else {
      var before, last := acts[..|acts| - 1], acts[|acts| - 1];
      Simulates(db, reqs, before);
      var s, order := Run(db, reqs, before), LockOrder(before);
      if last.Acquire? {
        AcquireTracks(s, reqs, last.t, Serial(db, reqs, order));
        AcquireAnswers(s, reqs, last.t, db, order);
        assert LockOrder(acts)[..|order|] == order;
      } else {
        ProceedAnswers(s, reqs, last, db, order);
        ProceedTracks(s, reqs, last, Serial(db, reqs, order));
      }
    }
  }

  lemma InitialTracks(db: Db, reqs: seq<Request>)
    requires Disciplined(Initial(db, reqs), reqs)
    ensures Tracks(Initial(db, reqs), reqs, db)
    ensures Answers(Initial(db, reqs), db, reqs, [])
  {
    hide AgreeOn, Disciplined;
    forall k | ValidKey(k) ensures AgreeOn(Heading(Initial(db, reqs), reqs, k), db, k) {
      SelfOff(db, k);
    }
  }

  // ── The theorem ──

  /** Databases that hold the same subtree of every cluster, and nothing else, are equal. */
  lemma SameEverywhere(a: Db, b: Db)
    requires Rooted(a) && Rooted(b)
    requires forall k :: ValidKey(k) ==> AgreeOn(a, b, k)
    ensures a == b
  {
    hide ClusterName, InstancePrefix, UserPrefix, EndpointPrefix, ValidKey, AgreeOn;
    forall n | n in a.clusters || n in b.clusters ensures SameRow(a.clusters, b.clusters, n) {
      var k :| ValidKey(k) && n == ClusterName(k);
      OnCluster(a, b, k);
    }
    forall n | n in a.instances || n in b.instances ensures SameRow(a.instances, b.instances, n) {
      var k :| ValidKey(k) && InstancePrefix(k) <= n;
      OnInstanceRow(a, b, k, n);
    }
    forall n | n in a.users || n in b.users ensures SameRow(a.users, b.users, n) {
      var k :| ValidKey(k) && UserPrefix(k) <= n;
      OnUserRow(a, b, k, n);
    }
    forall e ensures e in a.endpoints <==> e in b.endpoints {
      if e in a.endpoints || e in b.endpoints {
        var k :| ValidKey(k) && EndpointPrefix(k) <= e;
        OnEndpoint(a, b, k, e);
      }
    }
    forall op: Operation ensures a.operations[op] == b.operations[op] {
      if op in a.operations || op in b.operations { OnOperation(a, b, op); }
    }
    assert a.clusters == b.clusters && a.instances == b.instances && a.users == b.users;
    assert a.endpoints == b.endpoints && a.operations == b.operations;
  }

  lemma OnCluster(a: Db, b: Db, k: Key)
    requires AgreeOn(a, b, k)
    ensures SameRow(a.clusters, b.clusters, ClusterName(k))
  {}

  lemma OnInstanceRow(a: Db, b: Db, k: Key, n: string)
    requires AgreeOn(a, b, k) && InstancePrefix(k) <= n
    ensures SameRow(a.instances, b.instances, n)
  {}

  lemma OnUserRow(a: Db, b: Db, k: Key, n: string)
    requires AgreeOn(a, b, k) && UserPrefix(k) <= n
    ensures SameRow(a.users, b.users, n)
  {}

  lemma OnEndpoint(a: Db, b: Db, k: Key, e: string)
    requires AgreeOn(a, b, k) && EndpointPrefix(k) <= e
    ensures e in a.endpoints <==> e in b.endpoints
  {
    assert SameEndpoint(a.endpoints, b.endpoints, e);
  }

  lemma OnOperation(a: Db, b: Db, op: Operation)
    requires AgreeOn(a, b, op.owner)
    ensures a.operations[op] == b.operations[op]
  {
    assert SameCount(a.operations, b.operations, op);
  }

  lemma {:induction false} SerialRooted(db: Db, reqs: seq<Request>, order: seq<nat>)
    requires Rooted(db) && InRange(reqs, order) && (forall t :: 0 <= t < |reqs| ==> ValidRequest(reqs[t]))
    ensures Rooted(Serial(db, reqs, order))
  {
    hide Rooted, Section;
    if order != [] {
      var before, r := Serial(db, reqs, order[..|order| - 1]), reqs[order[|order| - 1]];
      SerialRooted(db, reqs, order[..|order| - 1]);
      assert ValidRequest(r);
      SectionRooted(before, r);
    }
  }

  lemma SectionRooted(db: Db, r: Request)
    requires Rooted(db) && ValidRequest(r)
    ensures Rooted(Section(db, r).0)
  {
    hide Rooted, AgreeOff;
    StartStands(db, r);
    CompleteFrame(db, db, r, Start);
    RootedKept(db, Section(db, r).0, r.key);
  }

  ghost predicate Quiet(s: System) {
    forall t :: 0 <= t < |s.phases| ==> !s.phases[t].Running?
  }

  /**
   * Once nobody is inside a section, every interleaving has left exactly the tables and endpoints the
   * same requests leave when run one at a time in the order in which they got their locks, and every
   * request has answered what it answers there.
   */
  lemma Serializable(db: Db, reqs: seq<Request>, acts: seq<Action>)
    requires Inv(db) && (forall t :: 0 <= t < |reqs| ==> ValidRequest(reqs[t]))
    requires Possible(db, reqs, acts) && Quiet(Run(db, reqs, acts))
    ensures InRange(reqs, LockOrder(acts))
    ensures Run(db, reqs, acts).db == Serial(db, reqs, LockOrder(acts))
    ensures forall i :: 0 <= i < |LockOrder(acts)| ==>
              Run(db, reqs, acts).phases[LockOrder(acts)[i]] == Done(SerialOutcome(db, reqs, LockOrder(acts), i))
  {
    hide Inv, Standing, HeldBy, ValidRequest, AgreeOn, Section, Serial, Run, LockOrder, Possible, Step, Rooted;
    var s, order := Run(db, reqs, acts), LockOrder(acts);
    Simulates(db, reqs, acts);
    InvRooted(db);
    SerialRooted(db, reqs, order);
    NothingHeld(s, reqs);
    forall k | ValidKey(k) ensures AgreeOn(s.db, Serial(db, reqs, order), k) {
      UnlockedHeading(s, reqs, k);
    }
    InvRooted(s.db);
    SameEverywhere(s.db, Serial(db, reqs, order));
    forall i | 0 <= i < |order| ensures s.phases[order[i]] == Done(SerialOutcome(db, reqs, order, i)) {
      assert Answer(s, reqs, order[i]) == Some(SerialOutcome(db, reqs, order, i));
    }
  }

  lemma HolderRuns(s: System, reqs: seq<Request>, n: string)
    requires Disciplined(s, reqs) && n in s.holders
    ensures s.holders[n] < |reqs| && s.phases[s.holders[n]].Running?
  {
    hide Inv, Standing;
    assert HeldBy(s, reqs, n);
  }

  lemma NothingHeld(s: System, reqs: seq<Request>)
    requires Disciplined(s, reqs) && Quiet(s)
    ensures s.holders == map[]
  {
    hide Inv, Standing, HeldBy;
    if n :| n in s.holders {
      HolderRuns(s, reqs, n);
    }
  }

  lemma InvRooted(db: Db)
    requires Inv(db)
    ensures Rooted(db)
  {}

  /**
   * At every point of every schedule, in the middle of a cascade or a rollback too: one PRIMARY at
   * most per cluster, read pools only beside it, and no instance or user without its cluster.
   */
  lemma SafeThroughout(db: Db, reqs: seq<Request>, acts: seq<Action>, k: Key)
    requires Inv(db) && (forall t :: 0 <= t < |reqs| ==> ValidRequest(reqs[t]))
    requires Possible(db, reqs, acts) && ValidKey(k)
    ensures Placed(Run(db, reqs, acts).db, k) && Housed(Run(db, reqs, acts).db, k)
  {
    RunDisciplined(db, reqs, acts);
  }

  const NO_DB := Db(map[], map[], map[], {}, multiset{})

  /** Where the emulator starts. */
  lemma NothingIsSound()
    ensures Inv(NO_DB)
  {
    forall k | ValidKey(k)
      ensures ClusterOk(NO_DB, k)
    {
      assert InstancesUnder(NO_DB, k) == {} && UsersUnder(NO_DB, k) == {};
    }
  }

  /** So it is from an empty start, whatever the requests and however they interleave. */
  lemma SafeFromEmpty(reqs: seq<Request>, acts: seq<Action>, k: Key)
    requires (forall t :: 0 <= t < |reqs| ==> ValidRequest(reqs[t])) && Possible(NO_DB, reqs, acts) && ValidKey(k)
    ensures var now := Run(NO_DB, reqs, acts).db;
            Inv(now) && Placed(now, k) && Housed(now, k)
  {
    NothingIsSound();
    RunDisciplined(NO_DB, reqs, acts);
  }
}
