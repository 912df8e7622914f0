/**
 * The key management service as it is written: two tables and a map of queue tails, changed in place
 * between awaits. Every method is one turn of the event loop and does what the step function says.
 */
module KmsService {
  import opened Options
  import opened Text
  import opened Bytes
  import opened KmsVersions

  class KeyManagementService {
    var keys: map<string, KeyRow>
    var versions: map<string, VersionRow>
    var jobs: seq<Job>
    var versionAllocations: map<string, nat>
    var switches: seq<Switch>

    constructor ()
      ensures State() == EMPTY
    {
      keys, versions, jobs, versionAllocations, switches := map[], map[], [], map[], [];
    }

    ghost function State(): Kms
      reads this
    {
      Kms(keys, versions, jobs, versionAllocations, switches)
    }

    // ── Repositories ──

    /** The first of the key's versions sorted by number downwards, or 0. */
    method GetHighestVersionNumber(key: string) returns (highest: nat)
      ensures highest == Highest(versions, key)
    {
      highest := 0;
      var names := versions.Keys;
      ghost var seen: set<string> := {};
      while names != {}
        invariant names + seen == versions.Keys && names !! seen
        invariant forall n :: n in seen && versions[n].key == key ==> versions[n].number <= highest
        invariant highest == 0 || highest in Numbers(versions, key)
        decreases names
      {
        var n :| n in names;
        if versions[n].key == key && versions[n].number > highest { highest := versions[n].number; }
        names := names - {n};
        seen := seen + {n};
      }
      HighestIs(versions, key, highest);
    }

    static lemma HighestIs(versions: map<string, VersionRow>, key: string, highest: nat)
      requires highest == 0 || highest in Numbers(versions, key)
      requires forall n :: n in versions && versions[n].key == key ==> versions[n].number <= highest
      ensures highest == Highest(versions, key)
    {}

    method CreateVersion(name: string, row: VersionRow) returns (created: bool)
      modifies this`versions
      ensures created == (name !in old(versions))
      ensures versions == if created then old(versions)[name := row] else old(versions)
    {
      created := name !in versions;
      if created { versions := versions[name := row]; }
    }

    method SetPrimary(name: string, id: string) returns (updated: bool)
      modifies this`keys
      ensures updated == (name in old(keys))
      ensures keys == PrimarySet(old(keys), name, id)
    {
      updated := name in keys;
      if updated { keys := keys[name := keys[name].(primary := Some(id))]; }
    }

    // ── The queue ──

    method AddVersion(name: string)
      modifies this
      ensures State() == Apply(old(State()), Action.AddVersion(name))
    {
      var after := if name in versionAllocations then Some(versionAllocations[name]) else None;
      versionAllocations := versionAllocations[name := |jobs|];
      jobs := jobs + [Job(name, after, Queued)];
    }

    /** Runs once an allocation is settled: forgets its tail unless somebody has queued behind it. */
    method ForgetTail(job: nat)
      requires Enabled(State(), Forget(job))
      modifies this
      ensures State() == Apply(old(State()), Forget(job))
    {
      var name := jobs[job].key;
      if name in versionAllocations && versionAllocations[name] == job {
        versionAllocations := versionAllocations - {name};
      }
    }

    /** `allocateVersion` from one await to the next. */
    method AllocateVersion(job: nat, random: ByteString)
      requires Enabled(State(), Allocate(job, random))
      modifies this
      ensures State() == Apply(old(State()), Allocate(job, random))
    {
      hide Highest, FromNat, VersionName, GenerateKeyMaterial;
      var name := jobs[job].key;
      var next;
      match jobs[job].phase {
        case Queued =>
          next := if name in keys then ReadHighest(keys[name]) else Settled(false);
        case ReadHighest(row) =>
          var highest := GetHighestVersionNumber(name);
          next := Insert(row, highest + 1);
        case Insert(row, number) =>
          var material := GenerateKeyMaterial(row.algorithm, random);
          var created := CreateVersion(VersionName(name, FromNat(number)),
            VersionRow(name, number, ENABLED, row.algorithm, material));
          if !created { next := Settled(false); }
          else if row.primary.Some? || row.purpose != EncryptDecrypt { next := Settled(true); }
          else { next := WritePrimary(number); }
        case WritePrimary(number) =>
          var updated := SetPrimary(name, FromNat(number));
          next := Settled(true);
      }
      jobs := jobs[job := jobs[job].(phase := next)];
    }

    // ── Primary switches ──

    method UpdatePrimaryVersion(i: nat)
      requires Enabled(State(), AdvanceSwitch(i))
      modifies this
      ensures State() == Apply(old(State()), AdvanceSwitch(i))
    {
      hide VersionName;
      var w := switches[i];
      var next;
      match w.phase {
        case FindKey =>
          if w.key !in keys { next := Answered(Some(NotFound)); }
          else if keys[w.key].purpose != EncryptDecrypt { next := Answered(Some(InvalidArgument)); }
          else if w.id == "" { next := Answered(Some(InvalidArgument)); }
          else { next := FindVersion; }
        case FindVersion =>
          var name := VersionName(w.key, w.id);
          if name !in versions { next := Answered(Some(NotFound)); }
          else if versions[name].state != ENABLED { next := Answered(Some(FailedPrecondition)); }
          else { next := Write; }
        case Write =>
          var updated := SetPrimary(w.key, w.id);
          next := Answered(if updated then None else Some(NotFound));
      }
      switches := switches[i := w.(phase := next)];
    }

    // ── Version states ──

    /** `updateCryptoKeyVersion`, `destroyCryptoKeyVersion` and `restoreCryptoKeyVersion`. */
    method MoveVersion(name: string, t: Transition) returns (error: Option<KmsError>)
      modifies this
      ensures State() == Apply(old(State()), Action.MoveVersion(name, t))
      ensures error ==
        if name !in old(versions) then Some(NotFound)
        else if Moved(old(versions)[name].state, t).None? then Some(FailedPrecondition)
        else None
      ensures error == None && t.Enable? ==>
        old(versions)[name].state in {ENABLED, DISABLED} && versions[name].state == ENABLED
      ensures error == None && t.Disable? ==>
        old(versions)[name].state in {ENABLED, DISABLED} && versions[name].state == DISABLED
      ensures error == None && t.Destroy? ==>
        old(versions)[name].state in {ENABLED, DISABLED} && versions[name].state == DESTROY_SCHEDULED
      ensures error == None && t.Restore? ==>
        old(versions)[name].state == DESTROY_SCHEDULED && versions[name].state == DISABLED
      ensures error == Some(FailedPrecondition) ==>
        old(versions)[name].state in
          if t.Restore? then {ENABLED, DISABLED, DESTROYED} else {DESTROYED, DESTROY_SCHEDULED}
      ensures error.Some? ==> versions == old(versions)
    {
      if name !in versions { return Some(NotFound); }
      var state := versions[name].state;
      match t {
        case Enable | Disable =>
          if state != ENABLED && state != DISABLED { return Some(FailedPrecondition); }
          state := if t.Enable? then ENABLED else DISABLED;
        case Destroy =>
          if state == DESTROYED || state == DESTROY_SCHEDULED { return Some(FailedPrecondition); }
          state := DESTROY_SCHEDULED;
        case Restore =>
          if state != DESTROY_SCHEDULED { return Some(FailedPrecondition); }
          state := DISABLED;
      }
      versions := versions[name := versions[name].(state := state)];
      return None;
    }
  }
}
