/** What a version's state is after any run: what the last transition it accepted left it in. */
module KmsStates {
  import opened Options
  import opened Text
  import opened Bytes
  import opened KmsVersions
  import opened KmsSafety
  import opened KmsCrypto

  /** The states a transition is accepted from. */
  predicate Accepts(state: VersionState, t: Transition) {
    if t.Restore? then state == DESTROY_SCHEDULED
    else if t.Destroy? then state != DESTROYED && state != DESTROY_SCHEDULED
    else state == ENABLED || state == DISABLED
  }

  /** The state it leaves. */
  function Left(t: Transition): VersionState {
    match t
    case Enable => ENABLED
    case Disable => DISABLED
    case Destroy => DESTROY_SCHEDULED
    case Restore => DISABLED
  }

  /** A transition changes one version's state if it is accepted, and nothing else at all. */
  lemma MovesExactly(s: Kms, name: string, t: Transition)
    ensures var next := Apply(s, MoveVersion(name, t));
            && next == s.(versions := next.versions)
            && next.versions.Keys == s.versions.Keys
            && (forall n :: n in s.versions && n != name ==> next.versions[n] == s.versions[n])
            && (name in s.versions ==>
                  next.versions[name] == s.versions[name].(
                    state := if Accepts(s.versions[name].state, t) then Left(t) else s.versions[name].state))
  {}

  /** The last transition of a version that was accepted. */
  ghost function LastMove(s: Kms, actions: seq<Action>, name: string): Option<Transition>
    requires Possible(s, actions)
    decreases |actions|
  {
    if actions == [] then None
    else
      var n := |actions| - 1;
      var before, a := Run(s, actions[..n]), actions[n];
      if a.MoveVersion? && a.name == name && name in before.versions
         && Accepts(before.versions[name].state, a.transition)
      then Some(a.transition)
      else LastMove(s, actions[..n], name)
  }

  /** No other action touches the state of a version, and a version that was not there starts enabled. */
  lemma OthersKeepStates(s: Kms, a: Action, name: string)
    requires Enabled(s, a) && name in Apply(s, a).versions && !(a.MoveVersion? && a.name == name)
    ensures Apply(s, a).versions[name].state == if name in s.versions then s.versions[name].state else ENABLED
  {
    hide Highest, VersionName, KeyName, FromNat, GenerateKeyMaterial;
  }

  /** The state of every version that every run leaves: never DESTROYED, for one. */
  lemma {:induction false} StateIsLastMove(s: Kms, actions: seq<Action>, name: string)
    requires Possible(s, actions) && name in Run(s, actions).versions
    ensures var last := LastMove(s, actions, name);
            Run(s, actions).versions[name].state ==
              if last.Some? then Left(last.value)
              else if name in s.versions then s.versions[name].state
              else ENABLED
    decreases |actions|
  {
    hide Apply, Enabled;
    if actions != [] {
      var n := |actions| - 1;
      var before, a := Run(s, actions[..n]), actions[n];
      if name in before.versions {
        StateIsLastMove(s, actions[..n], name);
      } else {
        NotYetThere(s, actions[..n], name);
      }
      if a.MoveVersion? && a.name == name {
        MovesExactly(before, name, a.transition);
      } else {
        OthersKeepStates(before, a, name);
      }
    }
  }

  lemma {:induction false} NotYetThere(s: Kms, actions: seq<Action>, name: string)
    requires Possible(s, actions) && name !in Run(s, actions).versions
    ensures LastMove(s, actions, name) == None && name !in s.versions
    decreases |actions|
  {
    hide Apply, Enabled;
    if actions != [] {
      var n := |actions| - 1;
      StepGrows(Run(s, actions[..n]), actions[n]);
      NotYetThere(s, actions[..n], name);
    }
  }

  /** Nothing can be encrypted or decrypted under a version that is not enabled. */
  lemma OffRefuses(s: Kms, name: string, aead: Aead, k: string, aad: Option<ByteString>)
    requires name in s.versions && s.versions[name].state != ENABLED
    requires k in s.keys && s.keys[k].purpose == EncryptDecrypt
    ensures s.keys[k].primary.Some? && VersionName(k, s.keys[k].primary.value) == name ==>
              forall text, iv :: Encrypt(s, aead, k, text, aad, iv) == Err(FailedPrecondition)
    ensures forall c, n :: ReadEnvelopeVersionId(c) == Ok(n) && VersionName(k, FromNat(n)) == name ==>
              Decrypt(s, aead, k, c, aad) == Err(FailedPrecondition)
  {
    hide VersionName, FromNat, ReadEnvelopeVersionId;
  }

  /**
   * Once a disable or destroy is accepted, encrypting and decrypting under that version are turned down in
   * every later state, until an enable is accepted; a restore alone does not lift it.
   */
  lemma OffUntilEnabled(s: Kms, name: string, off: Transition, after: seq<Action>, aead: Aead, k: string,
    aad: Option<ByteString>)
    requires name in s.versions && (off.Disable? || off.Destroy?) && Accepts(s.versions[name].state, off)
    requires var next := Apply(s, MoveVersion(name, off));
             Possible(next, after) && LastMove(next, after, name) != Some(Enable)
    requires k in s.keys && s.keys[k].purpose == EncryptDecrypt
    ensures var t := Run(Apply(s, MoveVersion(name, off)), after);
            && name in t.versions && t.versions[name].state != ENABLED && k in t.keys
            && (t.keys[k].primary.Some? && VersionName(k, t.keys[k].primary.value) == name ==>
                  forall text, iv :: Encrypt(t, aead, k, text, aad, iv) == Err(FailedPrecondition))
            && (forall c, n :: ReadEnvelopeVersionId(c) == Ok(n) && VersionName(k, FromNat(n)) == name ==>
                  Decrypt(t, aead, k, c, aad) == Err(FailedPrecondition))
  {
    hide Encrypt, Decrypt, VersionName, FromNat, Apply, Run, Possible, LastMove, ReadEnvelopeVersionId;
    MovesExactly(s, name, off);
    var next := Apply(s, MoveVersion(name, off));
    RunGrows(next, after);
    StateIsLastMove(next, after, name);
    OffRefuses(Run(next, after), name, aead, k, aad);
  }
}
