/** What every interleaving of version allocations, primary switches and state transitions keeps. */
module KmsSafety {
  import opened Options
  import opened Text
  import opened Bytes
  import opened KmsVersions

  // ── Names ──

  lemma VersionNameUnique(k1: string, id1: string, k2: string, id2: string)
    requires '/' !in id1 && '/' !in id2
    requires VersionName(k1, id1) == VersionName(k2, id2)
    ensures k1 == k2 && id1 == id2
  {
    var n := VersionName(k1, id1);
    assert n[|n| - |id1|..] == id1 && n[|n| - |id1| - 1] == '/';
    assert n[|n| - |id2|..] == id2 && n[|n| - |id2| - 1] == '/';
    assert forall j :: |n| - |id1| <= j < |n| ==> n[j] == id1[j - (|n| - |id1|)] && n[j] != '/';
    assert forall j :: |n| - |id2| <= j < |n| ==> n[j] == id2[j - (|n| - |id2|)] && n[j] != '/';
    assert n[..|k1|] == k1 && n[..|k2|] == k2;
  }

  lemma NumberHasNoSlash(n: nat)
    ensures '/' !in FromNat(n) && FromNat(n) != ""
  {}

  lemma VersionOfNumber(k1: string, m1: nat, k2: string, m2: nat)
    requires VersionName(k1, FromNat(m1)) == VersionName(k2, FromNat(m2))
    ensures k1 == k2 && m1 == m2
  {
    VersionNameUnique(k1, FromNat(m1), k2, FromNat(m2));
    FromNatInjective(m1, m2);
  }

  // ── Nothing is taken back ──

  ghost predicate KeysGrow(keys: map<string, KeyRow>, next: map<string, KeyRow>) {
    forall k :: k in keys ==>
      && k in next
      && next[k].purpose == keys[k].purpose
      && (keys[k].primary.Some? ==> next[k].primary.Some?)
  }

  ghost predicate VersionsGrow(versions: map<string, VersionRow>, next: map<string, VersionRow>) {
    forall n :: n in versions ==> n in next && next[n] == versions[n].(state := next[n].state)
  }

  ghost predicate Grows(s: Kms, t: Kms) { KeysGrow(s.keys, t.keys) && VersionsGrow(s.versions, t.versions) }

  /** No step removes a key or a version, changes what a version is, or leaves a key without its primary. */
  lemma StepGrows(s: Kms, a: Action)
    requires Enabled(s, a)
    ensures Grows(s, Apply(s, a))
  {
    hide Highest, VersionName, KeyName, AllocateStep, FromNat, GenerateKeyMaterial;
    if a.Allocate? { TurnGrows(s, a.job, a.random); }
  }

  lemma TurnGrows(s: Kms, j: nat, random: ByteString)
    requires j < |s.jobs|
    ensures Grows(s, AllocateStep(s, j, random))
  {
    hide Highest, VersionName, FromNat, GenerateKeyMaterial;
  }

  lemma {:induction false} RunGrows(s: Kms, actions: seq<Action>)
    requires Possible(s, actions)
    ensures Grows(s, Run(s, actions))
    decreases |actions|
  {
    if actions != [] {
      var before := actions[..|actions| - 1];
      RunGrows(s, before);
      StepGrows(Run(s, before), actions[|actions| - 1]);
      hide Apply, Run, Possible;
    }
  }

  /** A run and another from where it ended are one run. */
  lemma {:induction false} RunOn(s: Kms, before: seq<Action>, after: seq<Action>)
    requires Possible(s, before) && Possible(Run(s, before), after)
    ensures Possible(s, before + after) && Run(s, before + after) == Run(Run(s, before), after)
    decreases |after|
  {
    hide Apply, Enabled;
    if after == [] {
      assert before + after == before;
    } else {
      var n := |after| - 1;
      RunOn(s, before, after[..n]);
      assert (before + after)[..|before + after| - 1] == before + after[..n];
    }
  }

  // ── Version numbers ──

  ghost predicate RowOk(keys: map<string, KeyRow>, n: string, row: VersionRow) {
    && row.number >= 1
    && n == VersionName(row.key, FromNat(row.number))
    && row.key in keys
    && PurposeOf(row.algorithm) == keys[row.key].purpose
    && exists random :: |random| == AES_KEY_LENGTH && row.material == GenerateKeyMaterial(row.algorithm, random)
  }

  ghost predicate VersionsOk(keys: map<string, KeyRow>, versions: map<string, VersionRow>) {
    && (forall n :: n in versions ==> RowOk(keys, n, versions[n]))
    && (forall n, m: nat :: n in versions && 1 <= m <= versions[n].number ==>
          VersionName(versions[n].key, FromNat(m)) in versions)
  }

  lemma HighestIsBound(versions: map<string, VersionRow>, n: string)
    requires n in versions
    ensures versions[n].number <= Highest(versions, versions[n].key)
  {
    assert versions[n].number in Numbers(versions, versions[n].key);
  }

  /** A key's version numbers are exactly 1 to n, each carried by the version named after it and no other. */
  lemma NumbersAreDense(keys: map<string, KeyRow>, versions: map<string, VersionRow>, k: string)
    requires VersionsOk(keys, versions)
    ensures forall m: nat :: m in Numbers(versions, k) <==> 1 <= m <= Highest(versions, k)
    ensures forall m: nat :: 1 <= m <= Highest(versions, k) <==> VersionName(k, FromNat(m)) in versions && m >= 1
    ensures forall n :: n in versions && versions[n].key == k ==> n == VersionName(k, FromNat(versions[n].number))
  {
    var h := Highest(versions, k);
    forall m: nat | 1 <= m <= h
      ensures m in Numbers(versions, k) && VersionName(k, FromNat(m)) in versions
    {
      var n :| n in versions && versions[n].key == k && versions[n].number == h;
      var name := VersionName(versions[n].key, FromNat(m));
      assert RowOk(keys, name, versions[name]);
      VersionOfNumber(k, m, versions[name].key, versions[name].number);
    }
    forall m: nat | m >= 1 && VersionName(k, FromNat(m)) in versions
      ensures m <= h
    {
      var name := VersionName(k, FromNat(m));
      assert RowOk(keys, name, versions[name]);
      VersionOfNumber(k, m, versions[name].key, versions[name].number);
      HighestIsBound(versions, name);
    }
  }

  lemma EndOfNumbers(keys: map<string, KeyRow>, versions: map<string, VersionRow>, k: string)
    requires VersionsOk(keys, versions)
    ensures VersionName(k, FromNat(Highest(versions, k) + 1)) !in versions
    ensures Highest(versions, k) >= 1 ==> VersionName(k, FromNat(Highest(versions, k))) in versions
  {
    hide Highest, VersionsOk;
    NumbersAreDense(keys, versions, k);
  }

  lemma NumbersSame(versions: map<string, VersionRow>, next: map<string, VersionRow>, k: string)
    requires VersionsGrow(versions, next)
    requires forall n :: n in next && n !in versions ==> next[n].key != k
    ensures Highest(next, k) == Highest(versions, k)
  {
    assert Numbers(next, k) == Numbers(versions, k);
  }

  lemma HighestInserted(versions: map<string, VersionRow>, n: string, row: VersionRow)
    requires n !in versions && row.number == Highest(versions, row.key) + 1
    ensures Highest(versions[n := row], row.key) == row.number
  {
    var next := versions[n := row];
    assert next[n].number in Numbers(next, row.key);
    assert Numbers(next, row.key) <= Numbers(versions, row.key) + {row.number};
  }

  // ── The invariant ──

  ghost predicate KeyOk(keys: map<string, KeyRow>, versions: map<string, VersionRow>, k: string)
    requires k in keys
  {
    && PurposeOf(keys[k].algorithm) == keys[k].purpose
    && (keys[k].primary.Some? ==>
          && keys[k].purpose == EncryptDecrypt
          && keys[k].primary.value != ""
          && VersionName(k, keys[k].primary.value) in versions)
  }

  /** A snapshot still tells the key's purpose, and whether the key had a primary long before. */
  ghost predicate SnapshotOk(keys: map<string, KeyRow>, versions: map<string, VersionRow>, k: string, row: KeyRow) {
    && k in keys
    && row.purpose == keys[k].purpose == PurposeOf(row.algorithm)
    && (row.primary.Some? ==> keys[k].primary.Some?)
    && (row.primary.None? && row.purpose == EncryptDecrypt ==> Highest(versions, k) == 0)
  }

  ghost predicate JobOk(keys: map<string, KeyRow>, versions: map<string, VersionRow>, job: Job) {
    match job.phase
    case Queued | Settled(_) => true
    case ReadHighest(row) => SnapshotOk(keys, versions, job.key, row)
    case Insert(row, n) => SnapshotOk(keys, versions, job.key, row) && n == Highest(versions, job.key) + 1
    case WritePrimary(n) =>
      && job.key in keys && keys[job.key].purpose == EncryptDecrypt
      && n == 1 == Highest(versions, job.key)
  }

  ghost predicate SwitchOk(keys: map<string, KeyRow>, versions: map<string, VersionRow>, w: Switch) {
    && (w.phase.FindVersion? || w.phase.Write? ==>
          w.key in keys && keys[w.key].purpose == EncryptDecrypt && w.id != "")
    && (w.phase.Write? ==> VersionName(w.key, w.id) in versions)
  }

  ghost predicate WritingPrimary(jobs: seq<Job>, k: string) {
    exists j :: 0 <= j < |jobs| && jobs[j].key == k && jobs[j].phase.WritePrimary?
  }

  /** A key that has versions but no primary yet is about to get one. */
  ghost predicate PrimaryComing(s: Kms, k: string) {
    k in s.keys && s.keys[k].purpose == EncryptDecrypt && s.keys[k].primary.None? && Highest(s.versions, k) > 0 ==>
      WritingPrimary(s.jobs, k)
  }

  ghost predicate KeysOk(s: Kms) { forall k :: k in s.keys ==> KeyOk(s.keys, s.versions, k) }

  ghost predicate JobsOk(s: Kms) { forall j :: 0 <= j < |s.jobs| ==> JobOk(s.keys, s.versions, s.jobs[j]) }

  ghost predicate SwitchesOk(s: Kms) {
    forall i :: 0 <= i < |s.switches| ==> SwitchOk(s.keys, s.versions, s.switches[i])
  }

  ghost predicate PrimariesComing(s: Kms) { forall k :: PrimaryComing(s, k) }

  ghost predicate Inv(s: Kms) {
    && QueueOk(s)
    && VersionsOk(s.keys, s.versions)
    && KeysOk(s)
    && JobsOk(s)
    && SwitchesOk(s)
    && PrimariesComing(s)
  }

  lemma InvAt(s: Kms)
    requires Inv(s)
    ensures forall k :: k in s.keys ==> KeyOk(s.keys, s.versions, k)
    ensures forall j :: 0 <= j < |s.jobs| ==> JobOk(s.keys, s.versions, s.jobs[j])
    ensures forall i :: 0 <= i < |s.switches| ==> SwitchOk(s.keys, s.versions, s.switches[i])
    ensures forall k :: PrimaryComing(s, k)
    ensures VersionsOk(s.keys, s.versions) && QueueOk(s)
  {
    hide KeyOk, JobOk, SwitchOk, PrimaryComing, VersionsOk, QueueOk;
  }

  lemma JobHolds(s: Kms, j: nat)
    requires Inv(s) && j < |s.jobs|
    ensures JobOk(s.keys, s.versions, s.jobs[j]) && VersionsOk(s.keys, s.versions)
  {
    hide JobOk, VersionsOk, QueueOk, KeyOk, SwitchOk, PrimaryComing;
  }

  lemma SwitchHolds(s: Kms, i: nat)
    requires Inv(s) && i < |s.switches|
    ensures SwitchOk(s.keys, s.versions, s.switches[i])
  {
    hide JobOk, VersionsOk, QueueOk, KeyOk, SwitchOk, PrimaryComing;
  }

  lemma KeyHolds(s: Kms, k: string)
    requires Inv(s)
    ensures PrimaryComing(s, k) && (k in s.keys ==> KeyOk(s.keys, s.versions, k))
  {
    hide JobOk, VersionsOk, QueueOk, KeyOk, SwitchOk, PrimaryComing;
  }

  // ── One part at a time ──

  lemma RowsKept(s: Kms, t: Kms)
    requires VersionsOk(s.keys, s.versions) && Grows(s, t)
    requires forall n :: n in t.versions && n !in s.versions ==>
               && RowOk(t.keys, n, t.versions[n])
               && t.versions[n].number == Highest(s.versions, t.versions[n].key) + 1
    ensures VersionsOk(t.keys, t.versions)
  {
    hide Highest, VersionName, GenerateKeyMaterial;
    forall n, m: nat | n in t.versions && 1 <= m <= t.versions[n].number
      ensures VersionName(t.versions[n].key, FromNat(m)) in t.versions
    {
      if n !in s.versions { NumbersAreDense(s.keys, s.versions, t.versions[n].key); }
    }
  }

  lemma JobKept(s: Kms, t: Kms, job: Job)
    requires JobOk(s.keys, s.versions, job) && Grows(s, t)
    requires Running(job.phase) ==> forall n :: n in t.versions && n !in s.versions ==> t.versions[n].key != job.key
    ensures JobOk(t.keys, t.versions, job)
  {
    if Running(job.phase) { NumbersSame(s.versions, t.versions, job.key); }
    hide Highest;
  }

  lemma SwitchKept(s: Kms, t: Kms, w: Switch)
    requires SwitchOk(s.keys, s.versions, w) && Grows(s, t)
    ensures SwitchOk(t.keys, t.versions, w)
  {
    hide VersionName;
  }

  lemma KeyKept(s: Kms, t: Kms, k: string)
    requires Grows(s, t) && k in s.keys && KeyOk(s.keys, s.versions, k)
    requires PurposeOf(t.keys[k].algorithm) == t.keys[k].purpose
    requires t.keys[k].primary == s.keys[k].primary
    ensures KeyOk(t.keys, t.versions, k)
  {
    hide VersionName;
  }

  lemma ComingKept(s: Kms, t: Kms, k: string)
    requires PrimaryComing(s, k) && Grows(s, t)
    requires k in t.keys && k !in s.keys ==> Highest(t.versions, k) == 0
    requires Highest(t.versions, k) == Highest(s.versions, k)
    requires WritingPrimary(s.jobs, k) ==> WritingPrimary(t.jobs, k)
    ensures PrimaryComing(t, k)
  {
    hide Highest, WritingPrimary;
  }

  // ── Steps that touch no version ──

  /** Keys without versions under their name have no version at all. */
  lemma NoKeyNoVersion(s: Kms, k: string)
    requires VersionsOk(s.keys, s.versions) && k !in s.keys
    ensures Highest(s.versions, k) == 0
  {
    assert Numbers(s.versions, k) == {};
  }

  /** The parts of the state an action leaves alone. */
  lemma Untouched(s: Kms, a: Action)
    requires Enabled(s, a)
    ensures !a.Allocate? && !a.AddVersion? ==> Apply(s, a).jobs == s.jobs
    ensures !a.AdvanceSwitch? && !a.AskPrimary? ==> Apply(s, a).switches == s.switches
    ensures !a.Allocate? ==> Apply(s, a).versions.Keys == s.versions.Keys
    ensures !a.CreateKey? && !a.ChangeAlgorithm? && !a.Allocate? && !a.AdvanceSwitch? ==> Apply(s, a).keys == s.keys
  {
    hide Highest, VersionName, KeyName, PrimarySet, To, AllocateStep;
  }

  /** What one turn of an allocation inserts: the next number of its own key. */
  lemma Inserted(s: Kms, j: nat, random: ByteString, n: string)
    requires Inv(s) && Enabled(s, Allocate(j, random))
    requires n in AllocateStep(s, j, random).versions && n !in s.versions
    ensures var row := AllocateStep(s, j, random).versions[n];
            && row.key == s.jobs[j].key
            && row.number == Highest(s.versions, row.key) + 1
            && s.jobs[j].phase.Insert?
            && RowOk(s.keys, n, row)
  {
    hide Highest, VersionName, PrimarySet, QueueOk, VersionsOk, KeysOk, SwitchesOk, PrimariesComing;
    assert JobOk(s.keys, s.versions, s.jobs[j]);
  }

  lemma VersionsKept(s: Kms, a: Action)
    requires Inv(s) && Enabled(s, a)
    ensures VersionsOk(Apply(s, a).keys, Apply(s, a).versions)
  {
    hide Highest, VersionsOk, RowOk, AllocateStep, Grows;
    var t := Apply(s, a);
    Untouched(s, a);
    StepGrows(s, a);
    forall n | n in t.versions && n !in s.versions
      ensures RowOk(t.keys, n, t.versions[n])
      ensures t.versions[n].number == Highest(s.versions, t.versions[n].key) + 1
    {
      Inserted(s, a.job, a.random, n);
      RowLater(s, t, n, t.versions[n]);
    }
    hide Apply;
    RowsKept(s, t);
  }

  lemma RowLater(s: Kms, t: Kms, n: string, row: VersionRow)
    requires RowOk(s.keys, n, row) && Grows(s, t)
    ensures RowOk(t.keys, n, row)
  {
    hide VersionName;
  }

  /** Nobody else running under the key of an allocation can see its insert. */
  lemma OthersKept(s: Kms, a: Action, job: Job)
    requires Inv(s) && Enabled(s, a) && JobOk(s.keys, s.versions, job)
    requires a.Allocate? && Running(job.phase) ==> job.key != s.jobs[a.job].key
    ensures JobOk(Apply(s, a).keys, Apply(s, a).versions, job)
  {
    hide JobOk, AllocateStep, Inv;
    var t := Apply(s, a);
    Untouched(s, a);
    StepGrows(s, a);
    forall n | n in t.versions && n !in s.versions && Running(job.phase)
      ensures t.versions[n].key != job.key
    {
      Inserted(s, a.job, a.random, n);
    }
    hide Apply;
    JobKept(s, t, job);
  }

  /** Whoever reads a key without a primary reads a key without versions. */
  lemma FirstReadKept(s: Kms, j: nat)
    requires Inv(s) && j < |s.jobs| && s.jobs[j].phase.Queued? && s.jobs[j].key in s.keys
    requires s.jobs[j].after.Some? && s.jobs[j].after.value < |s.jobs| ==>
               s.jobs[s.jobs[j].after.value].phase.Settled?
    ensures SnapshotOk(s.keys, s.versions, s.jobs[j].key, s.keys[s.jobs[j].key])
  {
    hide Highest, VersionName, VersionsOk, JobsOk, SwitchesOk, TailsOk;
    var k := s.jobs[j].key;
    assert PrimaryComing(s, k);
    forall i | 0 <= i < |s.jobs| && s.jobs[i].key == k
      ensures !s.jobs[i].phase.WritePrimary?
    {
      if i < j { TurnIsFirst(s.jobs, i, j); }
      if j < i { ChainAt(s.jobs, j, i); }
    }
  }

  lemma InsertKept(s: Kms, j: nat, random: ByteString)
    requires Inv(s) && Enabled(s, Allocate(j, random)) && s.jobs[j].phase.Insert?
    ensures var t := AllocateStep(s, j, random);
            && JobOk(t.keys, t.versions, t.jobs[j])
            && t.jobs[j].phase != Settled(false)
  {
    hide Inv, VersionsOk, VersionName, Highest, GenerateKeyMaterial, FromNat, AllDigits;
    JobHolds(s, j);
    var t, k, n := AllocateStep(s, j, random), s.jobs[j].key, s.jobs[j].phase.number;
    EndOfNumbers(s.keys, s.versions, k);
    var name := VersionName(k, FromNat(n));
    HighestInserted(s.versions, name, t.versions[name]);
  }

  /** A turn that inserts nothing. */
  lemma ReadTurnKept(s: Kms, j: nat, random: ByteString)
    requires Enabled(s, Allocate(j, random)) && JobOk(s.keys, s.versions, s.jobs[j]) && !s.jobs[j].phase.Insert?
    requires s.jobs[j].phase.Queued? && s.jobs[j].key in s.keys ==>
               SnapshotOk(s.keys, s.versions, s.jobs[j].key, s.keys[s.jobs[j].key])
    ensures var t := AllocateStep(s, j, random);
            && JobOk(t.keys, t.versions, t.jobs[j])
            && (t.jobs[j].phase == Settled(false) ==> s.jobs[j].phase.Queued? && s.jobs[j].key !in s.keys)
  {
    hide Highest, SnapshotOk, VersionName, FromNat;
  }

  /** The allocation that takes the turn. It fails only when its key was gone before it started. */
  lemma TurnKept(s: Kms, j: nat, random: ByteString)
    requires Inv(s) && Enabled(s, Allocate(j, random))
    ensures var t := AllocateStep(s, j, random);
            && JobOk(t.keys, t.versions, t.jobs[j])
            && (t.jobs[j].phase == Settled(false) ==> s.jobs[j].phase.Queued? && s.jobs[j].key !in s.keys)
  {
    assert JobOk(s.keys, s.versions, s.jobs[j]);
    hide AllocateStep, JobOk, SnapshotOk, Inv;
    if s.jobs[j].phase.Insert? {
      InsertKept(s, j, random);
    } else {
      if s.jobs[j].phase.Queued? && s.jobs[j].key in s.keys { FirstReadKept(s, j); }
      ReadTurnKept(s, j, random);
    }
  }

  lemma JobsKept(s: Kms, a: Action)
    requires Inv(s) && Enabled(s, a)
    ensures JobsOk(Apply(s, a))
  {
    hide Inv, JobOk, AllocateStep;
    var t := Apply(s, a);
    Untouched(s, a);
    forall j | 0 <= j < |t.jobs|
      ensures JobOk(t.keys, t.versions, t.jobs[j])
    {
      if a.Allocate? && a.job == j {
        TurnKept(s, j, a.random);
      } else if j < |s.jobs| {
        JobHolds(s, j);
        if a.Allocate? { OneRuns(s, a.job, j); }
        OthersKept(s, a, s.jobs[j]);
      } else {
        NewJobOk(t.keys, t.versions, t.jobs[j]);
      }
    }
  }

  lemma NewJobOk(keys: map<string, KeyRow>, versions: map<string, VersionRow>, job: Job)
    requires job.phase.Queued?
    ensures JobOk(keys, versions, job)
  {}

  /** While one allocation of a key takes its turn no other one of that key is running. */
  lemma OneRuns(s: Kms, j: nat, i: nat)
    requires Inv(s) && j < |s.jobs| && i < |s.jobs| && i != j && !s.jobs[j].phase.Settled?
    requires s.jobs[j].phase.Queued? && s.jobs[j].after.Some? && s.jobs[j].after.value < |s.jobs| ==>
               s.jobs[s.jobs[j].after.value].phase.Settled?
    ensures Running(s.jobs[i].phase) ==> s.jobs[i].key != s.jobs[j].key
  {
    hide Inv;
    QueueHolds(s);
    if s.jobs[i].key == s.jobs[j].key {
      if i < j { TurnIsFirst(s.jobs, i, j); }
      if j < i { ChainAt(s.jobs, j, i); }
    }
  }

  // ── Primaries ──

  lemma SwitchTurnKept(s: Kms, i: nat)
    requires Inv(s) && i < |s.switches|
    ensures var t := SwitchStep(s, i); SwitchOk(t.keys, t.versions, t.switches[i])
  {
    assert SwitchOk(s.keys, s.versions, s.switches[i]);
    hide VersionName, Inv;
  }

  lemma SwitchesKept(s: Kms, a: Action)
    requires Inv(s) && Enabled(s, a)
    ensures SwitchesOk(Apply(s, a))
  {
    var t := Apply(s, a);
    StepGrows(s, a);
    hide SwitchOk, Grows, Inv;
    forall i | 0 <= i < |t.switches|
      ensures SwitchOk(t.keys, t.versions, t.switches[i])
    {
      if a.AdvanceSwitch? && a.switch == i {
        SwitchTurnKept(s, i);
      } else if i < |s.switches| {
        SwitchAt(s, a, i);
        hide Apply;
        SwitchKept(s, t, s.switches[i]);
      } else {
        Asked(s, a);
      }
    }
  }

  lemma SwitchAt(s: Kms, a: Action, i: nat)
    requires Inv(s) && Enabled(s, a) && i < |s.switches|
    requires a.AdvanceSwitch? ==> a.switch != i
    ensures SwitchOk(s.keys, s.versions, s.switches[i])
    ensures i < |Apply(s, a).switches| && Apply(s, a).switches[i] == s.switches[i]
  {
    hide Inv, SwitchOk, VersionName, AllocateStep, PrimarySet, Highest, KeyName;
    SwitchHolds(s, i);
    Untouched(s, a);
  }

  lemma Asked(s: Kms, a: Action)
    requires Enabled(s, a) && |Apply(s, a).switches| > |s.switches|
    ensures var t := Apply(s, a);
            |t.switches| == |s.switches| + 1 && SwitchOk(t.keys, t.versions, t.switches[|s.switches|])
  {
    hide AllocateStep;
  }

  lemma KeysKept(s: Kms, a: Action)
    requires Inv(s) && Enabled(s, a)
    ensures KeysOk(Apply(s, a))
  {
    var t := Apply(s, a);
    StepGrows(s, a);
    hide KeyOk, Apply;
    forall k | k in t.keys
      ensures KeyOk(t.keys, t.versions, k)
    {
      if k !in s.keys {
        Created(s, a, k);
      } else if t.keys[k].primary == s.keys[k].primary {
        SamePrimary(s, a, t, k);
        hide Inv, Grows;
        KeyKept(s, t, k);
      } else {
        PrimaryChange(s, a, t, k);
      }
    }
  }

  lemma Created(s: Kms, a: Action, k: string)
    requires Enabled(s, a) && k in Apply(s, a).keys && k !in s.keys
    ensures KeyOk(Apply(s, a).keys, Apply(s, a).versions, k)
    ensures a.CreateKey?
  {
    hide KeyName, VersionName, Highest;
  }

  ghost predicate SwitchWrites(s: Kms, a: Action, k: string) {
    a.AdvanceSwitch? && a.switch < |s.switches| && s.switches[a.switch].phase.Write? && s.switches[a.switch].key == k
  }

  ghost predicate JobWrites(s: Kms, a: Action, k: string) {
    a.Allocate? && a.job < |s.jobs| && s.jobs[a.job].phase.WritePrimary? && s.jobs[a.job].key == k
  }

  /** Everything that can happen to a key row in one step. */
  lemma RowChange(s: Kms, a: Action, t: Kms, k: string)
    requires Enabled(s, a) && t == Apply(s, a) && k in s.keys && k in t.keys
    ensures PurposeOf(s.keys[k].algorithm) == s.keys[k].purpose ==> PurposeOf(t.keys[k].algorithm) == t.keys[k].purpose
    ensures t.keys[k].primary ==
              if SwitchWrites(s, a, k) then Some(s.switches[a.switch].id)
              else if JobWrites(s, a, k) then Some(FromNat(s.jobs[a.job].phase.number))
              else s.keys[k].primary
    ensures JobWrites(s, a, k) || SwitchWrites(s, a, k) ==>
              t.keys[k].purpose == s.keys[k].purpose && t.versions == s.versions
  {
    hide KeyName, VersionName, Highest, FromNat, GenerateKeyMaterial;
  }

  lemma SamePrimary(s: Kms, a: Action, t: Kms, k: string)
    requires Inv(s) && Enabled(s, a) && t == Apply(s, a) && k in s.keys && k in t.keys
    ensures KeyOk(s.keys, s.versions, k)
    ensures PurposeOf(t.keys[k].algorithm) == t.keys[k].purpose
  {
    hide Inv, Apply, Enabled;
    InvAt(s);
    RowChange(s, a, t, k);
    assert KeyOk(s.keys, s.versions, k);
  }

  lemma JobChange(s: Kms, a: Action, t: Kms, k: string)
    requires Inv(s) && JobWrites(s, a, k) && k in t.keys
    requires t.versions == s.versions && t.keys[k].purpose == PurposeOf(t.keys[k].algorithm)
    requires k in s.keys && t.keys[k].purpose == s.keys[k].purpose
    requires t.keys[k].primary == Some(FromNat(s.jobs[a.job].phase.number))
    ensures KeyOk(t.keys, t.versions, k) && t.keys[k].primary == Some(FromNat(1)) && Highest(s.versions, k) == 1
  {
    hide Inv, VersionsOk, Highest, FromNat, VersionName, AllDigits, Max, Numbers;
    JobHolds(s, a.job);
    EndOfNumbers(s.keys, s.versions, k);
    NumberHasNoSlash(1);
  }

  lemma SwitchChange(s: Kms, a: Action, t: Kms, k: string)
    requires Inv(s) && SwitchWrites(s, a, k) && k in t.keys
    requires t.versions == s.versions && t.keys[k].purpose == PurposeOf(t.keys[k].algorithm)
    requires k in s.keys && t.keys[k].purpose == s.keys[k].purpose
    requires t.keys[k].primary == Some(s.switches[a.switch].id)
    ensures KeyOk(t.keys, t.versions, k)
  {
    hide Inv, VersionName;
    SwitchHolds(s, a.switch);
  }

  /** The only two writes of a primary name a version that exists. */
  lemma PrimaryChange(s: Kms, a: Action, t: Kms, k: string)
    requires Inv(s) && Enabled(s, a) && t == Apply(s, a)
    requires k in s.keys && k in t.keys && t.keys[k].primary != s.keys[k].primary
    ensures KeyOk(t.keys, t.versions, k)
    ensures a.AdvanceSwitch? || (a.Allocate? && t.keys[k].primary == Some(FromNat(1)) && Highest(s.versions, k) == 1)
  {
    hide Inv, Apply, Enabled, KeyOk, Highest, VersionName, FromNat;
    RowChange(s, a, t, k);
    SamePrimary(s, a, t, k);
    KeyHolds(s, k);
    if JobWrites(s, a, k) { JobChange(s, a, t, k); } else { SwitchChange(s, a, t, k); }
  }

  lemma ComingsKept(s: Kms, a: Action)
    requires Inv(s) && Enabled(s, a)
    ensures PrimariesComing(Apply(s, a))
  {
    var t := Apply(s, a);
    StepGrows(s, a);
    forall k
      ensures PrimaryComing(t, k)
    {
      if a.Allocate? && s.jobs[a.job].key == k {
        TurnComing(s, a.job, a.random);
      } else {
        assert PrimaryComing(s, k);
        StepHighest(s, a, k);
        StepWriting(s, a, k);
        hide Apply, Inv, Grows;
        ComingKept(s, t, k);
      }
    }
  }

  lemma TurnComing(s: Kms, j: nat, random: ByteString)
    requires Inv(s) && Enabled(s, Allocate(j, random))
    ensures PrimaryComing(AllocateStep(s, j, random), s.jobs[j].key)
  {
    hide Inv, Highest, VersionName, FromNat, GenerateKeyMaterial, SnapshotOk;
    JobHolds(s, j);
    KeyHolds(s, s.jobs[j].key);
    if s.jobs[j].phase.Insert? {
      InsertComing(s, j, random);
    } else if !s.jobs[j].phase.WritePrimary? {
      KeepsWriting(s, j, random);
    }
  }

  lemma InsertComing(s: Kms, j: nat, random: ByteString)
    requires Enabled(s, Allocate(j, random)) && JobOk(s.keys, s.versions, s.jobs[j]) && s.jobs[j].phase.Insert?
    requires PrimaryComing(s, s.jobs[j].key)
    ensures PrimaryComing(AllocateStep(s, j, random), s.jobs[j].key)
  {
    hide Highest, VersionName, FromNat, GenerateKeyMaterial, WritingPrimary;
    var t, k := AllocateStep(s, j, random), s.jobs[j].key;
    if t.jobs[j].phase.WritePrimary? { WritesAt(t, j); }
  }

  lemma WritesAt(t: Kms, j: nat)
    requires j < |t.jobs| && t.jobs[j].phase.WritePrimary?
    ensures WritingPrimary(t.jobs, t.jobs[j].key)
  {}

  lemma KeepsWriting(s: Kms, j: nat, random: ByteString)
    requires j < |s.jobs| && !s.jobs[j].phase.WritePrimary?
    ensures WritingPrimary(s.jobs, s.jobs[j].key) ==> WritingPrimary(AllocateStep(s, j, random).jobs, s.jobs[j].key)
  {
    hide AllocateStep;
    var t, k := AllocateStep(s, j, random), s.jobs[j].key;
    forall i | 0 <= i < |s.jobs| && s.jobs[i].key == k && s.jobs[i].phase.WritePrimary?
      ensures WritingPrimary(t.jobs, k)
    {
      assert t.jobs[i] == s.jobs[i];
    }
  }

  lemma StepHighest(s: Kms, a: Action, k: string)
    requires Inv(s) && Enabled(s, a)
    requires !(a.Allocate? && s.jobs[a.job].key == k)
    ensures Highest(Apply(s, a).versions, k) == Highest(s.versions, k)
    ensures k !in s.keys ==> Highest(s.versions, k) == 0
  {
    hide Inv, Highest, AllocateStep, Grows;
    InvAt(s);
    hide VersionsOk, JobOk, KeyOk, SwitchOk, PrimaryComing, QueueOk;
    var t := Apply(s, a);
    StepGrows(s, a);
    Untouched(s, a);
    if k !in s.keys { NoKeyNoVersion(s, k); }
    forall n | n in t.versions && n !in s.versions
      ensures t.versions[n].key != k
    {
      Inserted(s, a.job, a.random, n);
    }
    hide Apply;
    VersionsGrew(s, t);
    NumbersSame(s.versions, t.versions, k);
  }

  lemma VersionsGrew(s: Kms, t: Kms)
    requires Grows(s, t)
    ensures VersionsGrow(s.versions, t.versions)
  {}

  lemma StepWriting(s: Kms, a: Action, k: string)
    requires Enabled(s, a) && !(a.Allocate? && s.jobs[a.job].key == k)
    ensures WritingPrimary(s.jobs, k) ==> WritingPrimary(Apply(s, a).jobs, k)
  {
    hide AllocateStep;
    var t := Apply(s, a);
    Untouched(s, a);
    forall j | 0 <= j < |s.jobs| && s.jobs[j].key == k && s.jobs[j].phase.WritePrimary?
      ensures WritingPrimary(t.jobs, k)
    {
      assert t.jobs[j] == s.jobs[j];
    }
  }

  // ── Every reachable state ──

  lemma InvKept(s: Kms, a: Action)
    requires Inv(s) && Enabled(s, a)
    ensures Inv(Apply(s, a))
  {
    QueueHolds(s);
    QueueKept(s, a);
    VersionsKept(s, a);
    JobsKept(s, a);
    SwitchesKept(s, a);
    KeysKept(s, a);
    ComingsKept(s, a);
    hide Apply, Enabled, QueueOk, VersionsOk, JobsOk, SwitchesOk, KeysOk, PrimariesComing;
  }

  lemma QueueHolds(s: Kms)
    requires Inv(s)
    ensures QueueOk(s)
  {
    hide QueueOk, VersionsOk, JobsOk, SwitchesOk, KeysOk, PrimariesComing;
  }

  lemma InvStart()
    ensures Inv(EMPTY)
  {
    assert forall k :: Numbers(EMPTY.versions, k) == {};
  }

  lemma {:induction false} InvAlways(actions: seq<Action>)
    requires Possible(EMPTY, actions)
    ensures Inv(Run(EMPTY, actions))
    decreases |actions|
  {
    hide Inv, Apply, Enabled;
    if actions == [] {
      InvStart();
    } else {
      InvAlways(actions[..|actions| - 1]);
      InvKept(Run(EMPTY, actions[..|actions| - 1]), actions[|actions| - 1]);
    }
  }

  /** However requests interleave, a key's versions are numbered 1 to n and named after their numbers. */
  lemma VersionNumbersDense(actions: seq<Action>, k: string)
    requires Possible(EMPTY, actions)
    ensures var s := Run(EMPTY, actions);
            && (forall m: nat :: m in Numbers(s.versions, k) <==> 1 <= m <= Highest(s.versions, k))
            && (forall n :: n in s.versions && s.versions[n].key == k ==>
                  n == VersionName(k, FromNat(s.versions[n].number)))
  {
    hide Inv, Run, Possible, VersionsOk, Highest, VersionName;
    InvAlways(actions);
    VersionsHold(Run(EMPTY, actions));
    NumbersAreDense(Run(EMPTY, actions).keys, Run(EMPTY, actions).versions, k);
  }

  lemma VersionsHold(s: Kms)
    requires Inv(s)
    ensures VersionsOk(s.keys, s.versions)
  {
    hide QueueOk, VersionsOk, JobsOk, SwitchesOk, KeysOk, PrimariesComing;
  }

  /** Under one key at most one allocation is under way, and in the order they were asked for. */
  lemma OneAllocationAtATime(actions: seq<Action>, i: nat, j: nat)
    requires Possible(EMPTY, actions)
    requires var s := Run(EMPTY, actions);
             i < j < |s.jobs| && s.jobs[i].key == s.jobs[j].key && !s.jobs[j].phase.Queued?
    ensures Run(EMPTY, actions).jobs[i].phase.Settled?
  {
    hide Inv, Run, Possible;
    InvAlways(actions);
    QueueHolds(Run(EMPTY, actions));
    ChainAt(Run(EMPTY, actions).jobs, i, j);
  }

  /** An allocation fails only for a key that does not exist; a taken name never gets in its way. */
  lemma AllocationsSucceed(actions: seq<Action>, j: nat, random: ByteString)
    requires Possible(EMPTY, actions) && Enabled(Run(EMPTY, actions), Allocate(j, random))
    ensures var s := Run(EMPTY, actions);
            AllocateStep(s, j, random).jobs[j].phase == Settled(false) <==>
              s.jobs[j].phase.Queued? && s.jobs[j].key !in s.keys
  {
    hide Inv, Run, Possible;
    InvAlways(actions);
    TurnKept(Run(EMPTY, actions), j, random);
    hide JobOk;
  }

  /** A primary names a version; it is a version of the same key exactly when the id has no slash. */
  lemma PrimaryNamesVersion(actions: seq<Action>, k: string)
    requires Possible(EMPTY, actions)
    requires k in Run(EMPTY, actions).keys && Run(EMPTY, actions).keys[k].primary.Some?
    ensures var s := Run(EMPTY, actions);
            var id := s.keys[k].primary.value;
            && VersionName(k, id) in s.versions
            && s.keys[k].purpose == EncryptDecrypt
            && (s.versions[VersionName(k, id)].key == k <==> '/' !in id)
            && ('/' !in id ==> id == FromNat(s.versions[VersionName(k, id)].number))
  {
    hide Inv, Run, Possible;
    InvAlways(actions);
    PrimaryNames(Run(EMPTY, actions), k);
  }

  lemma PrimaryNames(s: Kms, k: string)
    requires Inv(s) && k in s.keys && s.keys[k].primary.Some?
    ensures var id := s.keys[k].primary.value;
            && VersionName(k, id) in s.versions
            && s.keys[k].purpose == EncryptDecrypt
            && (s.versions[VersionName(k, id)].key == k <==> '/' !in id)
            && ('/' !in id ==> id == FromNat(s.versions[VersionName(k, id)].number))
  {
    hide Inv;
    KeyHolds(s, k);
    VersionsHold(s);
    var id := s.keys[k].primary.value;
    var row := s.versions[VersionName(k, id)];
    assert RowOk(s.keys, VersionName(k, id), row);
    NumberHasNoSlash(row.number);
    if '/' !in id { VersionNameUnique(k, id, row.key, FromNat(row.number)); }
    if row.key == k { SameId(k, id, FromNat(row.number)); }
  }

  lemma SameId(k: string, id1: string, id2: string)
    requires VersionName(k, id1) == VersionName(k, id2)
    ensures id1 == id2
  {
    var n := VersionName(k, id1);
    assert n[|n| - |id1|..] == id1 && n[|n| - |id2|..] == id2;
  }

  /**
   * The write at the end of an allocation is based on a key row read long before. It never replaces
   * another primary, exactly when that primary is a version of this key.
   */
  lemma StaleWriteHarmless(actions: seq<Action>, j: nat, random: ByteString)
    requires Possible(EMPTY, actions) && Enabled(Run(EMPTY, actions), Allocate(j, random))
    ensures var s := Run(EMPTY, actions);
            var k, t := s.jobs[j].key, AllocateStep(s, j, random);
            k in s.keys && s.keys[k].primary.Some? && s.jobs[j].phase.WritePrimary? ==>
              && k in t.keys
              && (t.keys[k].primary == s.keys[k].primary <==> '/' !in s.keys[k].primary.value)
  {
    hide Inv, Run, Possible;
    InvAlways(actions);
    var s := Run(EMPTY, actions);
    if s.jobs[j].key in s.keys && s.keys[s.jobs[j].key].primary.Some? && s.jobs[j].phase.WritePrimary? {
      StaleWrite(s, j, random);
    }
  }

  lemma StaleWrite(s: Kms, j: nat, random: ByteString)
    requires Inv(s) && Enabled(s, Allocate(j, random)) && s.jobs[j].phase.WritePrimary?
    requires s.jobs[j].key in s.keys && s.keys[s.jobs[j].key].primary.Some?
    ensures var k, t := s.jobs[j].key, AllocateStep(s, j, random);
            k in t.keys && (t.keys[k].primary == s.keys[k].primary <==> '/' !in s.keys[k].primary.value)
  {
    hide Inv, Highest, VersionName, FromNat, VersionsOk;
    var k := s.jobs[j].key;
    var id := s.keys[k].primary.value;
    PrimaryNames(s, k);
    JobHolds(s, j);
    NumberHasNoSlash(1);
    var n := VersionName(k, id);
    VersionsHold(s);
    PositiveNumber(s, n);
    HighestIsBound(s.versions, n);
  }

  lemma PositiveNumber(s: Kms, n: string)
    requires VersionsOk(s.keys, s.versions) && n in s.versions
    ensures s.versions[n].number >= 1
  {}

  /** No other step of an allocation writes a primary at all. */
  lemma OnlyLastTurnWrites(s: Kms, j: nat, random: ByteString)
    requires Enabled(s, Allocate(j, random)) && !s.jobs[j].phase.WritePrimary?
    ensures AllocateStep(s, j, random).keys == s.keys
  {}

  // ── Slash-free ids ──

  predicate SlashFree(a: Action) { a.CreateKey? ==> '/' !in a.path.id }

  predicate SlashFreePath(p: KeyPath) {
    '/' !in p.project && '/' !in p.location && '/' !in p.keyRing && '/' !in p.id
  }

  ghost predicate Keyed(s: Kms) {
    forall k :: k in s.keys ==> exists p :: SlashFreePath(p) && k == KeyName(p)
  }

  lemma KeyedKept(s: Kms, a: Action)
    requires Keyed(s) && Enabled(s, a) && SlashFree(a)
    ensures Keyed(Apply(s, a))
  {
    hide Highest, VersionName, KeyName;
    var t := Apply(s, a);
    forall k | k in t.keys
      ensures exists p :: SlashFreePath(p) && k == KeyName(p)
    {
      if k !in s.keys { assert SlashFreePath(a.path); }
    }
  }

  lemma {:induction false} KeyedAlways(actions: seq<Action>)
    requires Possible(EMPTY, actions) && forall i :: 0 <= i < |actions| ==> SlashFree(actions[i])
    ensures Keyed(Run(EMPTY, actions))
    decreases |actions|
  {
    hide Apply, Enabled;
    if actions != [] {
      KeyedAlways(actions[..|actions| - 1]);
      KeyedKept(Run(EMPTY, actions[..|actions| - 1]), actions[|actions| - 1]);
    }
  }

  lemma NoKeyBeneath(s: Kms, k1: string, k2: string, x: string, y: string)
    requires Keyed(s) && k1 in s.keys && k2 in s.keys && k1 + "/" + x == k2 + "/" + y
    ensures k1 == k2
  {
    var p :| SlashFreePath(p) && k1 == KeyName(p);
    var q :| SlashFreePath(q) && k2 == KeyName(q);
    PathUnique(KeyParts(p), x, KeyParts(q), y, '/');
  }

  lemma OwnVersion(s: Kms, k: string, id: string)
    requires Keyed(s) && Inv(s) && k in s.keys && VersionName(k, id) in s.versions
    ensures s.versions[VersionName(k, id)].key == k
  {
    hide Inv, Keyed, FromNat, VersionName;
    var n := VersionName(k, id);
    var owner, number := s.versions[n].key, FromNat(s.versions[n].number);
    OwnerExists(s, n);
    NameParts(k, id);
    NameParts(owner, number);
    NoKeyBeneath(s, k, owner, "cryptoKeyVersions/" + id, "cryptoKeyVersions/" + number);
  }

  lemma NameParts(k: string, id: string)
    ensures VersionName(k, id) == k + "/" + ("cryptoKeyVersions/" + id)
  {}

  /** With slash-free key ids a primary is always the number of one of the key's own versions. */
  lemma PrimaryIsOwn(actions: seq<Action>, k: string)
    requires Possible(EMPTY, actions) && forall i :: 0 <= i < |actions| ==> SlashFree(actions[i])
    requires k in Run(EMPTY, actions).keys && Run(EMPTY, actions).keys[k].primary.Some?
    ensures var s := Run(EMPTY, actions);
            var id := s.keys[k].primary.value;
            && VersionName(k, id) in s.versions
            && s.versions[VersionName(k, id)].key == k
            && '/' !in id
            && id == FromNat(s.versions[VersionName(k, id)].number)
  {
    hide Inv, Run, Possible, VersionName, Keyed, FromNat;
    PrimaryNamesVersion(actions, k);
    KeyedAlways(actions);
    InvAlways(actions);
    OwnVersion(Run(EMPTY, actions), k, Run(EMPTY, actions).keys[k].primary.value);
  }

  lemma OwnerExists(s: Kms, n: string)
    requires Inv(s) && n in s.versions
    ensures s.versions[n].key in s.keys
    ensures n == VersionName(s.versions[n].key, FromNat(s.versions[n].number))
  {
    hide Inv, VersionName, FromNat;
    VersionsHold(s);
    assert RowOk(s.keys, n, s.versions[n]);
  }

  // ── And with a slash ──

  const PLAIN := KeyPath("p", "l", "r", "a")

  const BENEATH := KeyPath("p", "l", "r", VersionName("a", "1"))

  const RANDOM: ByteString := seq(AES_KEY_LENGTH, _ => 0)

  lemma Extend(s: Kms, actions: seq<Action>, a: Action)
    requires Possible(s, actions) && Enabled(Run(s, actions), a)
    ensures Possible(s, actions + [a]) && Run(s, actions + [a]) == Apply(Run(s, actions), a)
  {
    assert (actions + [a])[..|actions + [a]| - 1] == actions;
  }

  lemma Nested(k: string, id: string, below: string)
    ensures VersionName(k, id + "/cryptoKeyVersions/" + below) == VersionName(VersionName(k, id), below)
  {}

  lemma KeyNameTail(p: KeyPath, tail: string)
    ensures KeyName(p.(id := p.id + tail)) == KeyName(p) + tail
  {
    var q := p.(id := p.id + tail);
    var parts := KeyParts(p)[..7];
    assert KeyParts(p) == parts + [p.id] && KeyParts(q) == parts + [q.id];
    hide KeyParts;
    JoinAppend(parts, [p.id], '/');
    JoinAppend(parts, [q.id], '/');
    assert Join([p.id], '/') == p.id && Join([q.id], '/') == q.id;
    hide Join;
  }

  lemma AstrayNames(a: string, b: string)
    requires a == KeyName(PLAIN) && b == KeyName(BENEATH)
    ensures a != b && VersionName("1", "1") != "" && BENEATH.id != ""
    ensures VersionName(a, VersionName("1", "1")) == VersionName(b, "1") != VersionName(a, "1")
  {
    hide KeyName, VersionName;
    NameParts("a", "1");
    NameParts(a, "1");
    NameParts(b, "1");
    var tail := "/" + ("cryptoKeyVersions/" + "1");
    KeyNameTail(PLAIN, tail);
    assert "a" + tail == VersionName("a", "1") && a + tail == VersionName(a, "1");
    NestedOne(a);
    assert |b| > |a|;
  }

  lemma NestedOne(k: string)
    ensures VersionName("1", "1") != ""
    ensures VersionName(k, VersionName("1", "1")) == VersionName(VersionName(k, "1"), "1")
  {
    Nested(k, "1", "1");
  }

  /** An allocation alone until it has inserted the first version of its key. */
  lemma FirstVersion(s: Kms, actions: seq<Action>, k: string, row: KeyRow) returns (next: seq<Action>)
    requires Possible(s, actions) && Run(s, actions).keys.Keys >= {k} && Run(s, actions).keys[k] == row
    requires row == KeyRow(EncryptDecrypt, GoogleSymmetric, None)
    requires Highest(Run(s, actions).versions, k) == 0
    requires k !in Run(s, actions).tails && VersionName(k, FromNat(1)) !in Run(s, actions).versions
    ensures Possible(s, next)
    ensures var t, u := Run(s, actions), Run(s, next);
            u == Kms(t.keys,
                     t.versions[VersionName(k, FromNat(1)) :=
                       VersionRow(k, 1, ENABLED, GoogleSymmetric, Secret(RANDOM))],
                     t.jobs + [Job(k, None, WritePrimary(1))], t.tails[k := |t.jobs|], t.switches)
  {
    hide Possible, Run, Highest, VersionName, FromNat, Enabled, Apply;
    var t := Run(s, actions);
    var j := |t.jobs|;
    Asks(t, k);
    Extend(s, actions, AddVersion(k));
    next := actions + [AddVersion(k)];
    var t1 := Run(s, next);
    TakesTurn(t1, j);
    Extend(s, next, Allocate(j, RANDOM));
    next := next + [Allocate(j, RANDOM)];
    var t2 := Run(s, next);
    assert t2 == To(t1, j, ReadHighest(row)) && t2.jobs == t.jobs + [Job(k, None, ReadHighest(row))];
    TakesTurn(t2, j);
    Extend(s, next, Allocate(j, RANDOM));
    next := next + [Allocate(j, RANDOM)];
    var t3 := Run(s, next);
    assert t3 == To(t2, j, Insert(row, 1)) && t3.jobs == t.jobs + [Job(k, None, Insert(row, 1))];
    TakesTurn(t3, j);
    Extend(s, next, Allocate(j, RANDOM));
    next := next + [Allocate(j, RANDOM)];
    assert Run(s, next).jobs == t.jobs + [Job(k, None, WritePrimary(1))];
  }

  lemma Asks(t: Kms, k: string)
    requires k !in t.tails
    ensures Enabled(t, AddVersion(k))
    ensures Apply(t, AddVersion(k)) == t.(jobs := t.jobs + [Job(k, None, Queued)], tails := t.tails[k := |t.jobs|])
  {}

  lemma TakesTurn(t: Kms, j: nat)
    requires j < |t.jobs| && !t.jobs[j].phase.Settled? && t.jobs[j].after.None?
    ensures Enabled(t, Allocate(j, RANDOM)) && Apply(t, Allocate(j, RANDOM)) == AllocateStep(t, j, RANDOM)
  {
    hide AllocateStep;
  }

  /** A primary switch that succeeds. */
  lemma SwitchWhole(s: Kms, actions: seq<Action>, k: string, id: string) returns (next: seq<Action>)
    requires Possible(s, actions) && k in Run(s, actions).keys && id != ""
    requires Run(s, actions).keys[k].purpose == EncryptDecrypt
    requires VersionName(k, id) in Run(s, actions).versions
    requires Run(s, actions).versions[VersionName(k, id)].state == ENABLED
    ensures Possible(s, next)
    ensures var t, u := Run(s, actions), Run(s, next);
            u == t.(keys := PrimarySet(t.keys, k, id), switches := t.switches + [Switch(k, id, Answered(None))])
  {
    hide Possible, Run, VersionName;
    var t := Run(s, actions);
    var i := |t.switches|;
    Extend(s, actions, AskPrimary(k, id));
    next := actions + [AskPrimary(k, id)];
    Extend(s, next, AdvanceSwitch(i));
    next := next + [AdvanceSwitch(i)];
    assert Run(s, next).switches == t.switches + [Switch(k, id, FindVersion)];
    Extend(s, next, AdvanceSwitch(i));
    next := next + [AdvanceSwitch(i)];
    assert Run(s, next).switches == t.switches + [Switch(k, id, Write)];
    Extend(s, next, AdvanceSwitch(i));
    next := next + [AdvanceSwitch(i)];
    assert Run(s, next).switches == t.switches + [Switch(k, id, Answered(None))];
  }

  ghost predicate Astray(s: Kms, a: string, j: nat, random: ByteString) {
    && Enabled(s, Allocate(j, random))
    && a in s.keys && s.keys[a].primary.Some?
    && VersionName(a, s.keys[a].primary.value) in s.versions
    && s.versions[VersionName(a, s.keys[a].primary.value)].key != a
    && s.keys[a].primary != Some(FromNat(1))
    && a in AllocateStep(s, j, random).keys
    && AllocateStep(s, j, random).keys[a].primary == Some(FromNat(1))
  }

  /**
   * With a key named beneath another key's first version, a primary can name a version of the wrong
   * key, and the stale write at the end of an allocation does replace it.
   */
  lemma SlashesGoAstray()
    ensures exists actions, a, j, random ::
              Possible(EMPTY, actions) && Astray(Run(EMPTY, actions), a, j, random)
  {
    hide Possible, Run, Highest, VersionName, FromNat, KeyName;
    var a, b, row := KeyName(PLAIN), KeyName(BENEATH), KeyRow(EncryptDecrypt, GoogleSymmetric, None);
    AstrayNames(a, b);
    OneIsOne();
    var create, beneath := CreateKey(PLAIN, EncryptDecrypt, GoogleSymmetric),
                           CreateKey(BENEATH, EncryptDecrypt, GoogleSymmetric);
    EmptyRun();
    Extend(EMPTY, [], create);
    Extend(EMPTY, [] + [create], beneath);
    NoVersions(a);
    NoVersions(b);
    var two := FirstVersion(EMPTY, [] + [create] + [beneath], b, row);
    OtherKey(a, b, Run(EMPTY, two).versions);
    var three := FirstVersion(EMPTY, two, a, row);
    var actions := SwitchWhole(EMPTY, three, a, VersionName("1", "1"));
    assert Astray(Run(EMPTY, actions), a, 1, RANDOM);
  }

  lemma OneIsOne()
    ensures FromNat(1) == "1"
  {}

  lemma EmptyRun()
    ensures Possible(EMPTY, []) && Run(EMPTY, []) == EMPTY
  {}

  lemma NoVersions(k: string)
    ensures Highest(map[], k) == 0
  {
    assert Numbers(map[], k) == {};
  }

  lemma OtherKey(a: string, b: string, versions: map<string, VersionRow>)
    requires forall n :: n in versions ==> versions[n].key != a
    ensures Highest(versions, a) == 0
  {
    assert Numbers(versions, a) == {};
  }
}
