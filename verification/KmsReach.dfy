/** Every version number is reached, those past 32 bits too, and what that does to a ciphertext. */
module KmsReach {
  import opened Options
  import opened Text
  import opened Bytes
  import opened KmsVersions
  import opened KmsSafety
  import opened KmsCrypto

  /** A key with `n` enabled versions and nothing under way. */
  ghost predicate Ready(s: Kms, k: string, n: nat) {
    && k in s.keys && s.keys[k] == KeyRow(EncryptDecrypt, GoogleSymmetric, Some(FromNat(1)))
    && Highest(s.versions, k) == n >= 1
    && (forall v :: v in s.versions ==> s.versions[v].state == ENABLED)
    && (forall j :: 0 <= j < |s.jobs| ==> s.jobs[j].phase.Settled?)
  }

  lemma OneVersion() returns (actions: seq<Action>)
    ensures Possible(EMPTY, actions) && Ready(Run(EMPTY, actions), KeyName(PLAIN), 1)
  {
    hide Possible, Run, Highest, VersionName, FromNat, KeyName, Apply, Enabled;
    var k, row := KeyName(PLAIN), KeyRow(EncryptDecrypt, GoogleSymmetric, None);
    EmptyRun();
    FirstKey();
    var create := CreateKey(PLAIN, EncryptDecrypt, GoogleSymmetric);
    Extend(EMPTY, [], create);
    NoVersions(k);
    actions := FirstVersion(EMPTY, [] + [create], k, row);
    var s := Run(EMPTY, actions);
    TakesTurn(s, 0);
    Extend(EMPTY, actions, Allocate(0, RANDOM));
    actions := actions + [Allocate(0, RANDOM)];
    NoVersions(k);
    HighestInserted(map[], VersionName(k, FromNat(1)), VersionRow(k, 1, ENABLED, GoogleSymmetric, Secret(RANDOM)));
    LastTurn(s);
  }

  lemma FirstKey()
    ensures Enabled(EMPTY, CreateKey(PLAIN, EncryptDecrypt, GoogleSymmetric))
    ensures Apply(EMPTY, CreateKey(PLAIN, EncryptDecrypt, GoogleSymmetric))
         == EMPTY.(keys := map[KeyName(PLAIN) := KeyRow(EncryptDecrypt, GoogleSymmetric, None)])
  {
    hide KeyName;
  }

  lemma LastTurn(s: Kms)
    requires |s.jobs| == 1 && s.jobs[0].phase.WritePrimary? && s.jobs[0].key in s.keys
    ensures var t := AllocateStep(s, 0, RANDOM);
            && t.keys == PrimarySet(s.keys, s.jobs[0].key, FromNat(s.jobs[0].phase.number))
            && t.versions == s.versions && |t.jobs| == 1 && t.jobs[0].phase == Settled(true)
  {
    hide FromNat;
  }

  lemma Queues(s: Kms, k: string)
    requires QueueOk(s) && forall j :: 0 <= j < |s.jobs| ==> s.jobs[j].phase.Settled?
    ensures Enabled(s, AddVersion(k))
    ensures var t := Apply(s, AddVersion(k));
            && t == s.(jobs := t.jobs, tails := t.tails) && |t.jobs| == |s.jobs| + 1
            && t.jobs[..|s.jobs|] == s.jobs && t.jobs[|s.jobs|].key == k && t.jobs[|s.jobs|].phase.Queued?
            && (t.jobs[|s.jobs|].after.Some? ==> t.jobs[|s.jobs|].after.value < |s.jobs|)
  {}

  lemma Turn(s: Kms, j: nat)
    requires j < |s.jobs| && !s.jobs[j].phase.Settled? && forall i :: 0 <= i < j ==> s.jobs[i].phase.Settled?
    requires s.jobs[j].after.Some? ==> s.jobs[j].after.value < j
    ensures Enabled(s, Allocate(j, RANDOM)) && Apply(s, Allocate(j, RANDOM)) == AllocateStep(s, j, RANDOM)
  {
    hide AllocateStep;
  }

  /** Three turns of an allocation of a key that has a primary. */
  lemma ThreeTurns(s: Kms, j: nat, row: KeyRow, n: nat)
    requires j < |s.jobs| && s.jobs[j].phase.Queued?
    requires s.jobs[j].key in s.keys && s.keys[s.jobs[j].key] == row && row.primary.Some?
    requires Highest(s.versions, s.jobs[j].key) == n && VersionName(s.jobs[j].key, FromNat(n + 1)) !in s.versions
    ensures var k := s.jobs[j].key;
            var t1 := AllocateStep(s, j, RANDOM);
            var t2 := AllocateStep(t1, j, RANDOM);
            var t3 := AllocateStep(t2, j, RANDOM);
            && t1 == To(s, j, ReadHighest(row)) && t2 == To(s, j, Insert(row, n + 1))
            && t3.keys == s.keys && |t3.jobs| == |s.jobs| && t3.jobs[j].phase == Settled(true)
            && (forall i :: 0 <= i < j ==> t3.jobs[i] == s.jobs[i])
            && t3.versions == s.versions[VersionName(k, FromNat(n + 1)) :=
                 VersionRow(k, n + 1, ENABLED, row.algorithm, GenerateKeyMaterial(row.algorithm, RANDOM))]
  {
    hide Highest, VersionName, FromNat, GenerateKeyMaterial;
    assert AllocateStep(s, j, RANDOM) == To(s, j, ReadHighest(row));
    assert AllocateStep(To(s, j, ReadHighest(row)), j, RANDOM) == To(To(s, j, ReadHighest(row)), j, Insert(row, n + 1));
    assert To(To(s, j, ReadHighest(row)), j, Insert(row, n + 1)).jobs == To(s, j, Insert(row, n + 1)).jobs;
  }

  lemma OneMore(actions: seq<Action>, k: string, n: nat) returns (next: seq<Action>)
    requires Possible(EMPTY, actions) && Ready(Run(EMPTY, actions), k, n)
    ensures Possible(EMPTY, next) && Ready(Run(EMPTY, next), k, n + 1)
  {
    hide Possible, Run, Highest, VersionName, FromNat, Apply, Enabled, Inv, QueueOk, VersionsOk, GenerateKeyMaterial;
    hide AllocateStep;
    var s := Run(EMPTY, actions);
    InvAlways(actions);
    QueueHolds(s);
    VersionsHold(s);
    EndOfNumbers(s.keys, s.versions, k);
    Queues(s, k);
    Extend(EMPTY, actions, AddVersion(k));
    next := actions + [AddVersion(k)];
    var t, j := Run(EMPTY, next), |s.jobs|;
    assert forall i :: 0 <= i < j ==> t.jobs[i] == t.jobs[..j][i];
    ThreeTurns(t, j, s.keys[k], n);
    next := Turns(next, j);
    HighestInserted(s.versions, VersionName(k, FromNat(n + 1)),
      Run(EMPTY, next).versions[VersionName(k, FromNat(n + 1))]);
  }

  lemma Turns(actions: seq<Action>, j: nat) returns (next: seq<Action>)
    requires Possible(EMPTY, actions)
    requires var s := Run(EMPTY, actions);
             && j < |s.jobs| && (forall i :: 0 <= i < j ==> s.jobs[i].phase.Settled?)
             && (s.jobs[j].after.Some? ==> s.jobs[j].after.value < j)
             && !s.jobs[j].phase.Settled?
             && !AllocateStep(s, j, RANDOM).jobs[j].phase.Settled?
             && AllocateStep(s, j, RANDOM).jobs[j].after == s.jobs[j].after
             && !AllocateStep(AllocateStep(s, j, RANDOM), j, RANDOM).jobs[j].phase.Settled?
             && AllocateStep(AllocateStep(s, j, RANDOM), j, RANDOM).jobs[j].after == s.jobs[j].after
    ensures Possible(EMPTY, next)
    ensures var s := Run(EMPTY, actions);
            Run(EMPTY, next) == AllocateStep(AllocateStep(AllocateStep(s, j, RANDOM), j, RANDOM), j, RANDOM)
  {
    hide Possible, Run, Apply, Enabled, AllocateStep;
    var turn := Allocate(j, RANDOM);
    Turn(Run(EMPTY, actions), j);
    Extend(EMPTY, actions, turn);
    next := actions + [turn];
    Turn(Run(EMPTY, next), j);
    Extend(EMPTY, next, turn);
    next := next + [turn];
    Turn(Run(EMPTY, next), j);
    Extend(EMPTY, next, turn);
    next := next + [turn];
  }

  lemma {:induction false} Reached(n: nat) returns (actions: seq<Action>)
    requires n >= 1
    ensures Possible(EMPTY, actions) && Ready(Run(EMPTY, actions), KeyName(PLAIN), n)
    decreases n
  {
    hide Ready, Run, Possible, KeyName;
    if n == 1 {
      actions := OneVersion();
    } else {
      var before := Reached(n - 1);
      actions := OneMore(before, KeyName(PLAIN), n - 1);
    }
  }

  /** Every number is one a key encrypts under in some reachable state; its multiples of 2^32 lose the text. */
  lemma EveryNumberIsReached(n: nat, aead: Aead, text: ByteString, aad: Option<ByteString>, iv: ByteString)
    returns (actions: seq<Action>)
    requires n >= 1 && Sound(aead) && |iv| == IV_LENGTH
    ensures Possible(EMPTY, actions)
    ensures var s, k := Run(EMPTY, actions), KeyName(PLAIN);
            var out := Encrypt(s, aead, k, text, aad, iv);
            && out.Ok? && out.value.versionName == VersionName(k, FromNat(n))
            && (n % TWO_TO_32 == 0 ==> Decrypt(s, aead, k, out.value.ciphertext, aad) == Err(InvalidArgument))
  {
    hide Run, Possible, KeyName, VersionName, FromNat, Inv, VersionsOk, Highest, ParseInt, SymmetricEncrypt;
    var k := KeyName(PLAIN);
    var ready := Reached(n);
    var s := Run(EMPTY, ready);
    InvAlways(ready);
    VersionsHold(s);
    EndOfNumbers(s.keys, s.versions, k);
    NumberHasNoSlash(n);
    actions := SwitchWhole(EMPTY, ready, k, FromNat(n));
    EncryptSucceeds(actions, aead, k, text, aad, iv);
    var t := Run(EMPTY, actions);
    EncryptNames(actions, aead, k, text, aad, iv);
    var out := Encrypt(t, aead, k, text, aad, iv).value;
    VersionOfNumber(k, n, k, t.versions[out.versionName].number);
    Stands(t);
    WrappedIdIsLost(actions, [], aead, k, text, aad, iv);
  }

  lemma Stands(s: Kms)
    ensures Possible(s, []) && Run(s, []) == s
  {}
}
