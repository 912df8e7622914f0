/** What each KMS call comes to when its turns follow each other undisturbed, and why calls are turned down. */
module KmsEffects {
  import opened Options
  import opened Text
  import opened Bytes
  import opened KmsVersions
  import opened KmsSafety
  import opened KmsCrypto

  /** Which algorithms serve which purpose. */
  lemma PurposesExactly(a: Algorithm)
    ensures PurposeOf(a) == EncryptDecrypt <==> a == GoogleSymmetric
    ensures PurposeOf(a) == Mac <==> a == HmacSha256
    ensures PurposeOf(a) == AsymmetricSign <==> a.EcSign? || a.RsaSign?
    ensures PurposeOf(a) == AsymmetricDecrypt <==> a.RsaDecrypt?
  {}

  /** A key is created without a primary, unless it has no id, is there, or its algorithm serves another purpose. */
  lemma CreateKeyExactly(s: Kms, path: KeyPath, purpose: Purpose, algorithm: Algorithm)
    requires Enabled(s, CreateKey(path, purpose, algorithm))
    ensures var t := Apply(s, CreateKey(path, purpose, algorithm));
            var name := Join(["projects", path.project, "locations", path.location, "keyRings", path.keyRing,
                              "cryptoKeys", path.id], '/');
            && t == s.(keys := t.keys)
            && (forall k :: k in s.keys ==> k in t.keys && t.keys[k] == s.keys[k])
            && t.keys.Keys == s.keys.Keys + (if path.id != "" && PurposeOf(algorithm) == purpose then {name} else {})
            && (name in t.keys && name !in s.keys ==> t.keys[name] == KeyRow(purpose, algorithm, None))
  {
    hide Join;
  }

  /** A new algorithm for the versions to come, if it serves the key's purpose. */
  lemma ChangeAlgorithmExactly(s: Kms, name: string, algorithm: Algorithm)
    ensures var t := Apply(s, ChangeAlgorithm(name, algorithm));
            && t == s.(keys := t.keys) && t.keys.Keys == s.keys.Keys
            && (forall k :: k in s.keys ==>
                  t.keys[k] ==
                    if k == name && PurposeOf(algorithm) == s.keys[k].purpose
                    then s.keys[k].(algorithm := algorithm)
                    else s.keys[k])
  {}

  // ── A primary switch on its own ──

  function Switched(s: Kms, i: nat): Kms
    requires i < |s.switches|
  {
    SwitchStep(SwitchStep(SwitchStep(s, i), i), i)
  }

  /** Three turns on end set the primary, or answer why not. */
  lemma SwitchAlone(s: Kms, i: nat)
    requires i < |s.switches| && s.switches[i].phase == FindKey
    ensures var k, id := s.switches[i].key, s.switches[i].id;
            var version := VersionName(k, id);
            var t := Switched(s, i);
            var error :=
              if k !in s.keys then Some(NotFound)
              else if s.keys[k].purpose != EncryptDecrypt || id == "" then Some(InvalidArgument)
              else if version !in s.versions then Some(NotFound)
              else if s.versions[version].state != ENABLED then Some(FailedPrecondition)
              else None;
            && t.switches[i].phase == Answered(error)
            && t == s.(keys := t.keys, switches := t.switches)
            && t.keys == if error == None then s.keys[k := s.keys[k].(primary := Some(id))] else s.keys
  {
    hide VersionName;
  }

  // ── An allocation on its own ──

  ghost function Allocated(s: Kms, j: nat, random: ByteString): Kms
    requires j < |s.jobs|
  {
    var two := AllocateStep(AllocateStep(s, j, random), j, random);
    AllocateStep(AllocateStep(two, j, random), j, random)
  }

  /**
   * Four turns on end add the next version, enabled, with the key's algorithm and new material. It becomes
   * the primary exactly if the key encrypts and had none.
   */
  lemma AllocateAlone(actions: seq<Action>, j: nat, random: ByteString)
    requires Possible(EMPTY, actions) && j < |Run(EMPTY, actions).jobs|
    requires var s := Run(EMPTY, actions); s.jobs[j].phase == Queued && s.jobs[j].key in s.keys
    ensures var s := Run(EMPTY, actions);
            var k := s.jobs[j].key;
            var key, n := s.keys[k], Highest(s.versions, k) + 1;
            var first := key.purpose == EncryptDecrypt && key.primary == None;
            var material := if key.algorithm == GoogleSymmetric || key.algorithm == HmacSha256
                            then Secret(random) else KeyPair(random);
            var name := k + "/cryptoKeyVersions/" + FromNat(n);
            && name !in s.versions
            && Allocated(s, j, random) == Kms(
                 if first then s.keys[k := key.(primary := Some(FromNat(n)))] else s.keys,
                 s.versions[name := VersionRow(k, n, ENABLED, key.algorithm, material)],
                 s.jobs[j := s.jobs[j].(phase := Settled(true))], s.tails, s.switches)
  {
    hide FromNat, Highest, Run, Possible, Allocated;
    NextIsFree(actions, Run(EMPTY, actions).jobs[j].key);
    FourTurns(Run(EMPTY, actions), j, random);
  }

  lemma NextIsFree(actions: seq<Action>, k: string)
    requires Possible(EMPTY, actions)
    ensures var s := Run(EMPTY, actions); VersionName(k, FromNat(Highest(s.versions, k) + 1)) !in s.versions
  {
    hide VersionName, FromNat, Highest, Run, Possible, Inv, VersionsOk;
    var s := Run(EMPTY, actions);
    InvAlways(actions);
    VersionsHold(s);
    EndOfNumbers(s.keys, s.versions, k);
  }

  lemma TwoTurns(s: Kms, j: nat, random: ByteString)
    requires j < |s.jobs| && s.jobs[j].phase == Queued && s.jobs[j].key in s.keys
    ensures var k := s.jobs[j].key;
            AllocateStep(AllocateStep(s, j, random), j, random)
              == To(s, j, Insert(s.keys[k], Highest(s.versions, k) + 1))
  {
    hide VersionName, FromNat, Highest;
    assert AllocateStep(s, j, random) == To(s, j, ReadHighest(s.keys[s.jobs[j].key]));
  }

  lemma InsertTurn(s: Kms, j: nat, random: ByteString, row: KeyRow, n: nat)
    requires j < |s.jobs| && s.jobs[j].phase == Insert(row, n)
    requires VersionName(s.jobs[j].key, FromNat(n)) !in s.versions
    ensures var t := AllocateStep(s, j, random);
            var k, first := s.jobs[j].key, row.purpose == EncryptDecrypt && row.primary == None;
            var material := if row.algorithm == GoogleSymmetric || row.algorithm == HmacSha256
                            then Secret(random) else KeyPair(random);
            && t.keys == s.keys && t.tails == s.tails && t.switches == s.switches
            && t.jobs == s.jobs[j := s.jobs[j].(phase := if first then WritePrimary(n) else Settled(true))]
            && t.versions == s.versions[VersionName(k, FromNat(n)) :=
                 VersionRow(k, n, ENABLED, row.algorithm, material)]
  {
    hide VersionName, FromNat;
  }

  lemma FourTurns(s: Kms, j: nat, random: ByteString)
    requires j < |s.jobs| && s.jobs[j].phase == Queued && s.jobs[j].key in s.keys
    requires VersionName(s.jobs[j].key, FromNat(Highest(s.versions, s.jobs[j].key) + 1)) !in s.versions
    ensures var k := s.jobs[j].key;
            var key, n := s.keys[k], Highest(s.versions, k) + 1;
            var first := key.purpose == EncryptDecrypt && key.primary == None;
            var material := if key.algorithm == GoogleSymmetric || key.algorithm == HmacSha256
                            then Secret(random) else KeyPair(random);
            Allocated(s, j, random) == Kms(
              if first then s.keys[k := key.(primary := Some(FromNat(n)))] else s.keys,
              s.versions[VersionName(k, FromNat(n)) := VersionRow(k, n, ENABLED, key.algorithm, material)],
              s.jobs[j := s.jobs[j].(phase := Settled(true))], s.tails, s.switches)
  {
    hide VersionName, FromNat, Highest, AllocateStep;
    var k := s.jobs[j].key;
    var n := Highest(s.versions, k) + 1;
    TwoTurns(s, j, random);
    var two := To(s, j, Insert(s.keys[k], n));
    InsertTurn(two, j, random, s.keys[k], n);
    LastTurn(AllocateStep(two, j, random), j, random);
  }

  lemma LastTurn(s: Kms, j: nat, random: ByteString)
    requires j < |s.jobs|
    ensures var t := AllocateStep(s, j, random);
            && (s.jobs[j].phase.Settled? ==> t == s)
            && (s.jobs[j].phase.WritePrimary? && s.jobs[j].key in s.keys ==>
                  var k := s.jobs[j].key;
                  && t.keys == s.keys[k := s.keys[k].(primary := Some(FromNat(s.jobs[j].phase.number)))]
                  && t.versions == s.versions && t.tails == s.tails && t.switches == s.switches
                  && t.jobs == s.jobs[j := s.jobs[j].(phase := Settled(true))])
  {
    hide FromNat;
  }

  // ── Version ids as numbers ──

  lemma {:induction false} DigitsInFront(digits: string, rest: string)
    requires AllDigits(digits) && (rest == "" || !IsDigit(rest[0]))
    ensures DigitPrefix(digits + rest) == digits
  {
    assert (digits + rest)[1..] == digits[1..] + rest && (digits + rest)[0] == digits[0];
    if |digits| > 1 {
      DigitsInFront(digits[1..], rest);
    } else {
      assert digits[1..] + rest == rest && DigitPrefix(rest) == "";
    }
    assert [digits[0]] + digits[1..] == digits;
  }

  /** The number in front counts, with its sign; where there is none the header stores zero. */
  lemma ParseIntExactly(n: nat, rest: string)
    requires rest == "" || !IsDigit(rest[0])
    ensures ParseInt(FromNat(n) + rest) == n
    ensures ParseInt("+" + (FromNat(n) + rest)) == n
    ensures ParseInt("-" + (FromNat(n) + rest)) == 0 - n
    ensures rest != "" && !IsSpace(rest[0]) && rest[0] != '-' && rest[0] != '+' ==> ParseInt(rest) == 0
  {
    hide FromNat;
    ToNatFromNat(n);
    DigitsInFront(FromNat(n), rest);
    var s := FromNat(n) + rest;
    assert s[0] == FromNat(n)[0] && IsDigit(s[0]);
    assert ("+" + s)[1..] == s && ("-" + s)[1..] == s;
    assert TrimStart(s) == s && TrimStart("+" + s) == "+" + s && TrimStart("-" + s) == "-" + s;
  }

  // ── Why encryption is turned down ──

  lemma EncryptRefusals(s: Kms, aead: Aead, k: string, text: ByteString, aad: Option<ByteString>, iv: ByteString)
    ensures var r := Encrypt(s, aead, k, text, aad, iv);
            if k !in s.keys then r == Err(NotFound)
            else if s.keys[k].purpose != EncryptDecrypt then r == Err(InvalidArgument)
            else if s.keys[k].primary == None then r == Err(FailedPrecondition)
            else VersionName(k, s.keys[k].primary.value) !in s.versions ==> r == Err(FailedPrecondition)
  {
    hide VersionName;
  }

  lemma DecryptRefusals(s: Kms, aead: Aead, k: string, ciphertext: ByteString, aad: Option<ByteString>)
    ensures var r := Decrypt(s, aead, k, ciphertext, aad);
            if k !in s.keys then r == Err(NotFound)
            else if s.keys[k].purpose != EncryptDecrypt then r == Err(InvalidArgument)
            else if |ciphertext| < 33 || ciphertext[0] != 1 then r == Err(InvalidArgument)
            else
              VersionName(k, FromNat(ReadUint32BE(ciphertext[1..5]))) !in s.versions ==> r == Err(InvalidArgument)
  {
    hide VersionName, FromNat, ReadUint32BE;
  }
}
