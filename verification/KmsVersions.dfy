/**
 * Crypto keys and their versions, as every turn of the event loop changes them.
 *
 * Version allocations of one key queue behind each other; primary switches and state transitions
 * run beside the queue and may interleave with any of its steps.
 */
module KmsVersions {
  import opened Options
  import opened Text
  import opened Bytes

  // ── Rows ──

  datatype Purpose = EncryptDecrypt | AsymmetricSign | AsymmetricDecrypt | Mac

  datatype Algorithm =
    | GoogleSymmetric
    | HmacSha256
    | EcSign(curve: nat)
    | RsaSign(modulus: nat, pss: bool)
    | RsaDecrypt(modulus: nat)

  function PurposeOf(a: Algorithm): Purpose {
    match a
    case GoogleSymmetric => EncryptDecrypt
    case HmacSha256 => Mac
    case EcSign(_) | RsaSign(_, _) => AsymmetricSign
    case RsaDecrypt(_) => AsymmetricDecrypt
  }

  const AES_KEY_LENGTH := 32

  datatype Material = Secret(bytes: ByteString) | KeyPair(seed: ByteString)

  function GenerateKeyMaterial(a: Algorithm, random: ByteString): Material {
    if a.GoogleSymmetric? || a.HmacSha256? then Secret(random) else KeyPair(random)
  }

  datatype VersionState = ENABLED | DISABLED | DESTROYED | DESTROY_SCHEDULED

  datatype KeyRow = KeyRow(purpose: Purpose, algorithm: Algorithm, primary: Option<string>)

  datatype VersionRow =
    VersionRow(key: string, number: nat, state: VersionState, algorithm: Algorithm, material: Material)

  /** Where a crypto key lives. Only the first three parts come from the route; the id is a query parameter. */
  datatype KeyPath = KeyPath(project: string, location: string, keyRing: string, id: string)

  function KeyParts(p: KeyPath): seq<string> {
    ["projects", p.project, "locations", p.location, "keyRings", p.keyRing, "cryptoKeys", p.id]
  }

  function KeyName(p: KeyPath): string { Join(KeyParts(p), '/') }

  function VersionName(key: string, id: string): string { key + "/cryptoKeyVersions/" + id }

  datatype KmsError = NotFound | AlreadyExists | InvalidArgument | FailedPrecondition

  // ── State ──

  /** Where an allocation stands between two awaits. It remembers the key row it read. */
  datatype Phase =
    | Queued
    | ReadHighest(key: KeyRow)
    | Insert(key: KeyRow, number: nat)
    | WritePrimary(number: nat)
    | Settled(ok: bool)

  /** One call of `addVersion`, and the allocation whose tail it was chained to. */
  datatype Job = Job(key: string, after: Option<nat>, phase: Phase)

  datatype SwitchPhase = FindKey | FindVersion | Write | Answered(error: Option<KmsError>)

  /** One call of `updatePrimaryVersion`. */
  datatype Switch = Switch(key: string, id: string, phase: SwitchPhase)

  datatype Kms = Kms(
    keys: map<string, KeyRow>,
    versions: map<string, VersionRow>,
    jobs: seq<Job>,
    tails: map<string, nat>,
    switches: seq<Switch>)

  const EMPTY := Kms(map[], map[], [], map[], [])

  // ── Steps ──

  datatype Transition = Enable | Disable | Destroy | Restore

  datatype Action =
    | CreateKey(path: KeyPath, purpose: Purpose, algorithm: Algorithm)
    | ChangeAlgorithm(name: string, algorithm: Algorithm)
    | AddVersion(name: string)
    | Allocate(job: nat, random: ByteString)
    | Forget(job: nat)
    | AskPrimary(name: string, id: string)
    | AdvanceSwitch(switch: nat)
    | MoveVersion(name: string, transition: Transition)

  /** What the event loop can do next. */
  predicate Enabled(s: Kms, a: Action) {
    match a
    case Allocate(j, random) =>
      && j < |s.jobs| && |random| == AES_KEY_LENGTH && !s.jobs[j].phase.Settled?
      && (s.jobs[j].phase.Queued? && s.jobs[j].after.Some? && s.jobs[j].after.value < |s.jobs| ==>
            s.jobs[s.jobs[j].after.value].phase.Settled?)
    case Forget(j) => j < |s.jobs| && s.jobs[j].phase.Settled?
    case CreateKey(path, _, _) => '/' !in path.project && '/' !in path.location && '/' !in path.keyRing
    case AdvanceSwitch(i) => i < |s.switches| && !s.switches[i].phase.Answered?
    case _ => true
  }

  ghost function Numbers(versions: map<string, VersionRow>, key: string): set<nat> {
    set n | n in versions && versions[n].key == key :: versions[n].number
  }

  ghost function Max(s: set<nat>): (m: nat)
    ensures forall x :: x in s ==> x <= m
    ensures if s == {} then m == 0 else m in s
  {
    if s == {} then 0
    else
      var x :| x in s;
      var m := Max(s - {x});
      assert s == (s - {x}) + {x};
      if m < x then x else m
  }

  /** The highest number allocated for a key, or 0. */
  ghost function Highest(versions: map<string, VersionRow>, key: string): nat { Max(Numbers(versions, key)) }

  /** One turn of `allocateVersion`. */
  ghost function AllocateStep(s: Kms, j: nat, random: ByteString): (t: Kms)
    requires j < |s.jobs|
    ensures |t.jobs| == |s.jobs| && t.jobs[j].key == s.jobs[j].key
    ensures forall i :: 0 <= i < |s.jobs| && i != j ==> t.jobs[i] == s.jobs[i]
    ensures t.switches == s.switches && t.tails == s.tails
  {
    var job := s.jobs[j];
    match job.phase
    case Queued =>
      To(s, j, if job.key in s.keys then ReadHighest(s.keys[job.key]) else Settled(false))
    case ReadHighest(row) => To(s, j, Insert(row, Highest(s.versions, job.key) + 1))
    case Insert(row, n) =>
      var name := VersionName(job.key, FromNat(n));
      if name in s.versions then To(s, j, Settled(false))
      else
        var version := VersionRow(job.key, n, ENABLED, row.algorithm, GenerateKeyMaterial(row.algorithm, random));
        var done := row.primary.Some? || row.purpose != EncryptDecrypt;
        To(s, j, if done then Settled(true) else WritePrimary(n)).(versions := s.versions[name := version])
    case WritePrimary(n) => To(s, j, Settled(true)).(keys := PrimarySet(s.keys, job.key, FromNat(n)))
    case Settled(_) => s
  }

  function To(s: Kms, j: nat, phase: Phase): Kms
    requires j < |s.jobs|
  {
    s.(jobs := s.jobs[j := s.jobs[j].(phase := phase)])
  }

  function PrimarySet(keys: map<string, KeyRow>, key: string, id: string): map<string, KeyRow> {
    if key in keys then keys[key := keys[key].(primary := Some(id))] else keys
  }

  /** One turn of `updatePrimaryVersion`. */
  function SwitchStep(s: Kms, i: nat): Kms
    requires i < |s.switches|
  {
    var w := s.switches[i];
    match w.phase
    case FindKey =>
      SwitchTo(s, i,
        if w.key !in s.keys then Answered(Some(NotFound))
        else if s.keys[w.key].purpose != EncryptDecrypt || w.id == "" then Answered(Some(InvalidArgument))
        else FindVersion)
    case FindVersion =>
      var name := VersionName(w.key, w.id);
      SwitchTo(s, i,
        if name !in s.versions then Answered(Some(NotFound))
        else if s.versions[name].state != ENABLED then Answered(Some(FailedPrecondition))
        else Write)
    case Write =>
      SwitchTo(s, i, Answered(if w.key in s.keys then None else Some(NotFound)))
        .(keys := PrimarySet(s.keys, w.key, w.id))
    case Answered(_) => s
  }

  function SwitchTo(s: Kms, i: nat, phase: SwitchPhase): Kms
    requires i < |s.switches|
  {
    s.(switches := s.switches[i := s.switches[i].(phase := phase)])
  }

  function Moved(state: VersionState, t: Transition): Option<VersionState> {
    match t
    case Enable => if state == ENABLED || state == DISABLED then Some(ENABLED) else None
    case Disable => if state == ENABLED || state == DISABLED then Some(DISABLED) else None
    case Destroy => if state == DESTROYED || state == DESTROY_SCHEDULED then None else Some(DESTROY_SCHEDULED)
    case Restore => if state == DESTROY_SCHEDULED then Some(DISABLED) else None
  }

  ghost function Apply(s: Kms, a: Action): Kms
    requires Enabled(s, a)
  {
    match a
    case CreateKey(path, purpose, algorithm) =>
      if path.id == "" || KeyName(path) in s.keys || PurposeOf(algorithm) != purpose then s
      else s.(keys := s.keys[KeyName(path) := KeyRow(purpose, algorithm, None)])
    case ChangeAlgorithm(name, algorithm) =>
      if name !in s.keys || PurposeOf(algorithm) != s.keys[name].purpose then s
      else s.(keys := s.keys[name := s.keys[name].(algorithm := algorithm)])
    case AddVersion(name) =>
      var after := if name in s.tails then Some(s.tails[name]) else None;
      s.(jobs := s.jobs + [Job(name, after, Queued)], tails := s.tails[name := |s.jobs|])
    case Allocate(j, random) => AllocateStep(s, j, random)
    case Forget(j) =>
      var key := s.jobs[j].key;
      if key in s.tails && s.tails[key] == j then s.(tails := s.tails - {key}) else s
    case AskPrimary(name, id) => s.(switches := s.switches + [Switch(name, id, FindKey)])
    case AdvanceSwitch(i) => SwitchStep(s, i)
    case MoveVersion(name, t) =>
      if name !in s.versions || Moved(s.versions[name].state, t).None? then s
      else s.(versions := s.versions[name := s.versions[name].(state := Moved(s.versions[name].state, t).value)])
  }

  ghost predicate Possible(s: Kms, actions: seq<Action>)
    decreases |actions|, 0
  {
    |actions| > 0 ==>
      Possible(s, actions[..|actions| - 1]) && Enabled(Run(s, actions[..|actions| - 1]), actions[|actions| - 1])
  }

  ghost function Run(s: Kms, actions: seq<Action>): Kms
    requires Possible(s, actions)
    decreases |actions|, 1
  {
    if actions == [] then s
    else Apply(Run(s, actions[..|actions| - 1]), actions[|actions| - 1])
  }

  // ── The queue ──

  predicate Running(p: Phase) { !p.Settled? && !p.Queued? }

  /** A tail is the last allocation asked for under its key, and a key without one has nothing to wait for. */
  ghost predicate TailsOk(jobs: seq<Job>, tails: map<string, nat>) {
    && (forall k :: k in tails ==> tails[k] < |jobs| && jobs[tails[k]].key == k)
    && (forall k, j :: k in tails && 0 <= j < |jobs| && jobs[j].key == k ==> j <= tails[k])
    && (forall j :: 0 <= j < |jobs| && !jobs[j].phase.Settled? ==> jobs[j].key in tails)
  }

  ghost predicate Behind(jobs: seq<Job>, i: nat, j: nat)
    requires i < j < |jobs|
  {
    && jobs[j].phase.Queued?
    && jobs[j].after.Some? && i <= jobs[j].after.value < j
    && jobs[jobs[j].after.value].key == jobs[j].key
  }

  /** Whoever is not finished holds back everybody asked for later under the same key. */
  ghost predicate ChainOk(jobs: seq<Job>) {
    forall i, j :: 0 <= i < j < |jobs| && jobs[i].key == jobs[j].key && !jobs[i].phase.Settled? ==>
      Behind(jobs, i, j)
  }

  ghost predicate QueueOk(s: Kms) { TailsOk(s.jobs, s.tails) && ChainOk(s.jobs) }

  lemma ChainAt(jobs: seq<Job>, i: nat, j: nat)
    requires ChainOk(jobs) && i < j < |jobs| && jobs[i].key == jobs[j].key
    ensures jobs[i].phase.Settled? || Behind(jobs, i, j)
  {}

  /** Nobody before an allocation that may take a turn is unfinished. */
  lemma TurnIsFirst(jobs: seq<Job>, i: nat, j: nat)
    requires ChainOk(jobs) && i < j < |jobs| && jobs[i].key == jobs[j].key
    requires jobs[j].phase.Queued? && jobs[j].after.Some? && jobs[j].after.value < |jobs| ==>
               jobs[jobs[j].after.value].phase.Settled?
    ensures jobs[i].phase.Settled?
  {
    ChainAt(jobs, i, j);
    if jobs[j].after.Some? && i < jobs[j].after.value < |jobs| && jobs[jobs[j].after.value].key == jobs[i].key {
      ChainAt(jobs, i, jobs[j].after.value);
    }
  }

  lemma PhaseKept(jobs: seq<Job>, tails: map<string, nat>, j: nat, phase: Phase)
    requires TailsOk(jobs, tails) && ChainOk(jobs) && j < |jobs|
    requires !jobs[j].phase.Settled? && !phase.Queued?
    requires jobs[j].phase.Queued? && jobs[j].after.Some? && jobs[j].after.value < |jobs| ==>
               jobs[jobs[j].after.value].phase.Settled?
    ensures TailsOk(jobs[j := jobs[j].(phase := phase)], tails)
    ensures ChainOk(jobs[j := jobs[j].(phase := phase)])
  {
    var next := jobs[j := jobs[j].(phase := phase)];
    forall i, l | 0 <= i < l < |next| && next[i].key == next[l].key && !next[i].phase.Settled?
      ensures Behind(next, i, l)
    {
      ChainAt(jobs, i, l);
      if l == j { TurnIsFirst(jobs, i, j); }
    }
  }

  lemma AddKept(jobs: seq<Job>, tails: map<string, nat>, key: string)
    requires TailsOk(jobs, tails) && ChainOk(jobs)
    ensures var after := if key in tails then Some(tails[key]) else None;
            var next := jobs + [Job(key, after, Queued)];
            TailsOk(next, tails[key := |jobs|]) && ChainOk(next)
  {
    var after := if key in tails then Some(tails[key]) else None;
    var next := jobs + [Job(key, after, Queued)];
    forall i, l | 0 <= i < l < |next| && next[i].key == next[l].key && !next[i].phase.Settled?
      ensures Behind(next, i, l)
    {
      assert next[i] == jobs[i];
      if l < |jobs| {
        assert next[l] == jobs[l];
        assert Behind(jobs, i, l);
      }
    }
  }

  lemma ForgetKept(jobs: seq<Job>, tails: map<string, nat>, j: nat)
    requires TailsOk(jobs, tails) && ChainOk(jobs) && j < |jobs| && jobs[j].phase.Settled?
    requires jobs[j].key in tails && tails[jobs[j].key] == j
    ensures TailsOk(jobs, tails - {jobs[j].key})
  {
    forall i | 0 <= i < |jobs| && !jobs[i].phase.Settled?
      ensures jobs[i].key != jobs[j].key
    {
      if i < j && jobs[i].key == jobs[j].key { ChainAt(jobs, i, j); }
    }
  }

  lemma QueueKept(s: Kms, a: Action)
    requires QueueOk(s) && Enabled(s, a)
    ensures QueueOk(Apply(s, a))
  {
    hide Highest, VersionName, PrimarySet, KeyName, TailsOk, ChainOk;
    match a
    case AddVersion(name) => AddKept(s.jobs, s.tails, name);
    case Allocate(j, random) => PhaseKept(s.jobs, s.tails, j, AllocateStep(s, j, random).jobs[j].phase);
    case Forget(j) =>
      if s.jobs[j].key in s.tails && s.tails[s.jobs[j].key] == j { ForgetKept(s.jobs, s.tails, j); }
    case _ => assert Apply(s, a).jobs == s.jobs && Apply(s, a).tails == s.tails;
  }
}
