/**
 * The AlloyDB services as they are written: repositories updated in place, a data plane, an operations
 * table. Every `*Exclusively` method does exactly what the section machine says.
 */
module AlloyServices {
  import opened Options
  import opened Json
  import opened StringOrder
  import opened AlloyNames
  import opened AlloyTypes
  import opened AlloySections
  import opened AlloyPatch
  import opened AlloyEffects

  /** A table of name-addressed rows, changed in place. */
  class ResourceRepository<Row> {
    var rows: map<string, Row>

    constructor ()
      ensures rows == map[]
    {
      rows := map[];
    }

    /** Rejects a duplicate name and leaves the table alone then. */
    method Create(name: string, row: Row) returns (created: bool)
      modifies this
      ensures created == (name !in old(rows))
      ensures rows == if created then old(rows)[name := row] else old(rows)
    {
      created := name !in rows;
      if created { rows := rows[name := row]; }
    }

    method Update(name: string, row: Row) returns (updated: bool)
      modifies this
      ensures updated == (name in old(rows))
      ensures rows == if updated then old(rows)[name := row] else old(rows)
    {
      updated := name in rows;
      if updated { rows := rows[name := row]; }
    }

    method Delete(name: string) returns (deleted: bool)
      modifies this
      ensures deleted == (name in old(rows))
      ensures rows == old(rows) - {name}
    {
      deleted := name in rows;
      rows := rows - {name};
    }

    /** The names beneath a prefix, in order and unpaged. */
    method ListAllByPrefix(prefix: string) returns (names: seq<string>)
      ensures names == Sorted(set n | n in rows && prefix <= n)
    {
      names := Sorted(set n | n in rows && prefix <= n);
    }

    method CountByPrefix(prefix: string) returns (count: nat)
      ensures count == |set n | n in rows && prefix <= n|
    {
      count := |set n | n in rows && prefix <= n|;
    }

    /** Removes everything beneath a prefix and nothing else, returning how many rows went. */
    method DeleteByPrefix(prefix: string) returns (count: nat)
      modifies this
      ensures rows == DeleteUnder(old(rows), prefix)
      ensures count == |old(rows)| - |rows|
    {
      var doomed := set n | n in rows && prefix <= n;
      assert rows.Keys == DeleteUnder(rows, prefix).Keys + doomed;
      count := |doomed|;
      rows := DeleteUnder(rows, prefix);
    }
  }

  class ControlPlane {
    const clusters: ResourceRepository<ClusterRow>
    const instances: ResourceRepository<InstanceRow>
    const users: ResourceRepository<UserRow>
    var endpoints: set<string>
    var operations: multiset<Operation>

    constructor ()
      ensures fresh(clusters) && fresh(instances) && fresh(users)
      ensures State() == Db(map[], map[], map[], {}, multiset{})
    {
      clusters := new ResourceRepository();
      instances := new ResourceRepository();
      users := new ResourceRepository();
      endpoints := {};
      operations := multiset{};
    }

    /** The tables and endpoints as one value. */
    function State(): Db
      reads this, clusters, instances, users
    {
      Db(clusters.rows, instances.rows, users.rows, endpoints, operations)
    }

    /** Undoing a create: the endpoint is dropped if it can be, and the row goes either way. */
    method RollbackFailedCreate(r: Request)
      requires Fits(r, RollbackDrop)
      modifies this, instances
      ensures Complete(State(), r, RecordOperation("create", true)) == Complete(old(State()), r, RollbackDrop)
    {
      hide StartStep, ClusterStep, UserStep, PlacementError, ApplyInstanceUpdates, AnotherHasType, NewInstance;
      hide Complete, DropOf, EndpointKey, InstanceName;
      CompleteStep(State(), r, RollbackDrop);
      var dropped := DropInstance(EndpointKey(r.key, r.verb.instanceId), r.env);
      CompleteStep(State(), r, RollbackRow);
      var deleted := instances.Delete(InstanceTarget(r));
    }

    /** The data plane's drop. It reports a throw; the endpoint may or may not be gone then. */
    method DropInstance(endpoint: string, env: Env) returns (ok: bool)
      modifies this
      ensures State() == DropEndpoint(old(State()), endpoint, DropOf(env, endpoint))
      ensures ok == DropOf(env, endpoint).Dropped?
    {
      var outcome := DropOf(env, endpoint);
      if outcome != Threw(true) { endpoints := endpoints - {endpoint}; }
      ok := outcome.Dropped?;
    }

    method CreateOperation(r: Request, verb: string, failed: bool) returns (outcome: Outcome)
      modifies this
      ensures State() == Logged(old(State()), r, verb, failed)
      ensures outcome == Accepted(failed)
      ensures Complete(old(State()), r, RecordOperation(verb, failed)) == (State(), outcome)
    {
      hide InstanceTarget, ClusterName;
      CompleteStep(State(), r, RecordOperation(verb, failed));
      var target := if OnInstance(r.verb) then InstanceTarget(r) else ClusterName(r.key);
      operations := operations + multiset{Operation(r.key, r.env.operationId, target, verb, failed)};
      outcome := Accepted(failed);
      CompleteEnd(State(), r, outcome);
    }

    method ValidateInstancePlacement(k: Key, name: string, instanceType: string) returns (error: Option<ErrorCode>)
      ensures error == PlacementError(State(), k, name, instanceType)
    {
      if instanceType == SECONDARY { return Some(InvalidArgument); }
      var siblings := instances.ListAllByPrefix(InstancePrefix(k));
      assert (set n | n in instances.rows && InstancePrefix(k) <= n) == InstancesUnder(State(), k);
      assert forall n :: n in siblings <==> n in InstancesUnder(State(), k);
      hide InstancePrefix, InstancesUnder;
      var anotherIsPrimary :=
        exists n :: n in siblings && n != name && instances.rows[n].instanceType == PRIMARY;
      if instanceType == PRIMARY && anotherIsPrimary { return Some(FailedPrecondition); }
      if instanceType == READ_POOL && !anotherIsPrimary { return Some(FailedPrecondition); }
      return None;
    }

    method ValidatePrimaryHasNoDependentReadPools(k: Key, name: string) returns (ok: bool)
      requires name in instances.rows
      ensures ok == !(instances.rows[name].instanceType == PRIMARY && AnotherHasType(State(), k, name, READ_POOL))
    {
      if instances.rows[name].instanceType != PRIMARY { return true; }
      var siblings := instances.ListAllByPrefix(InstancePrefix(k));
      assert (set n | n in instances.rows && InstancePrefix(k) <= n) == InstancesUnder(State(), k);
      assert forall n :: n in siblings <==> n in InstancesUnder(State(), k);
      hide InstancePrefix, InstancesUnder;
      ok := !exists n :: n in siblings && n != name && instances.rows[n].instanceType == READ_POOL;
    }

    // ── Instances ──

    method CreateInstanceExclusively(r: Request) returns (outcome: Outcome)
      requires Fits(r, InstanceParent)
      modifies this, instances
      ensures (State(), outcome) == Complete(old(State()), r, InstanceParent)
      ensures CreateInstanceEffect(old(State()), r, r.verb.instanceId, State(), outcome)
    {
      hide StartStep, ClusterStep, UserStep, ApplyInstanceUpdates, AnotherHasType, DropEndpoint;
      hide Complete, DropOf, EndpointKey, InstanceName, ClusterName, PlacementError, RequestedType, NewInstance,
        CreateInstanceEffect;
      CreateInstanceDoes(State(), r);
      var name, endpoint := InstanceTarget(r), EndpointKey(r.key, r.verb.instanceId);
      CompleteStep(State(), r, InstanceParent);
      if ClusterName(r.key) !in clusters.rows {
        outcome := Rejected(NotFound);
        CompleteEnd(State(), r, outcome);
        return;
      }
      CompleteStep(State(), r, InstanceAbsent);
      if name in instances.rows {
        outcome := Rejected(AlreadyExists);
        CompleteEnd(State(), r, outcome);
        return;
      }
      CompleteStep(State(), r, InstancePlacement);
      var error := ValidateInstancePlacement(r.key, name, RequestedType(r.body));
      if error.Some? {
        outcome := Rejected(error.value);
        CompleteEnd(State(), r, outcome);
        return;
      }
      if r.validateOnly {
        outcome := Accepted(false);
        CompleteEnd(State(), r, outcome);
        return;
      }
      outcome := PersistAndStart(r);
    }

    method PersistAndStart(r: Request) returns (outcome: Outcome)
      requires Fits(r, InstanceInsert)
      modifies this, instances
      ensures (State(), outcome) == Complete(old(State()), r, InstanceInsert)
    {
      hide StartStep, ClusterStep, UserStep, PlacementError, ApplyInstanceUpdates, AnotherHasType, DropEndpoint, Logged;
      hide Complete, DropOf, EndpointKey, InstanceName, NewInstance;
      CompleteStep(State(), r, InstanceInsert);
      var created := instances.Create(InstanceTarget(r), NewInstance(r.body, r.env.uid, r.env.now));
      if created {
        outcome := StartInstance(r);
      } else {
        outcome := Rejected(Internal);
        CompleteEnd(State(), r, outcome);
      }
    }

    method StartInstance(r: Request) returns (outcome: Outcome)
      requires Fits(r, InstanceStart)
      modifies this, instances
      ensures (State(), outcome) == Complete(old(State()), r, InstanceStart)
    {
      hide StartStep, ClusterStep, UserStep, PlacementError, ApplyInstanceUpdates, AnotherHasType, DropEndpoint, Logged;
      hide Complete, DropOf, EndpointKey, InstanceName, NewInstance;
      var endpoint := EndpointKey(r.key, r.verb.instanceId);
      CompleteStep(State(), r, InstanceStart);
      if r.env.startSucceeds {
        endpoints := endpoints + {endpoint};
        outcome := CreateOperation(r, "create", false);
      } else {
        endpoints := endpoints - {endpoint};
        RollbackFailedCreate(r);
        outcome := CreateOperation(r, "create", true);
      }
    }

    method UpdateInstanceExclusively(r: Request) returns (outcome: Outcome)
      requires r.verb.UpdateInstance?
      modifies this, instances
      ensures (State(), outcome) == Complete(old(State()), r, Start)
      ensures InstanceEffect(old(State()), r, State(), outcome)
    {
      hide StartClusterUpdate, StartUserUpdate, InstanceStep, ClusterStep, UserStep, Logged;
      hide Complete, InstanceName, BuildInstanceUpdates, InstanceRequestOk, InstanceEffect;
      InstanceSectionDoes(State(), r);
      var name := InstanceTarget(r);
      CompleteStep(State(), r, Start);
      if name !in instances.rows {
        if !r.verb.instanceMissing {
          outcome := Rejected(NotFound);
          CompleteEnd(State(), r, outcome);
        } else if !InstanceRequestOk(r.verb.instanceId, r.body, r.env.nodeCount) {
          outcome := Rejected(InvalidArgument);
          CompleteEnd(State(), r, outcome);
        } else {
          outcome := CreateInstanceExclusively(r);
        }
        return;
      }
      var updates := BuildInstanceUpdates(instances.rows[name], r.body, r.verb.instanceMask, r.env.now);
      if updates.None? {
        outcome := Rejected(InvalidArgument);
        CompleteEnd(State(), r, outcome);
        return;
      }
      outcome := WriteInstance(r, updates.value);
    }

    /** The rest of an update once what it changes is known. */
    method WriteInstance(r: Request, u: InstanceUpdates) returns (outcome: Outcome)
      requires r.verb.UpdateInstance? && InstanceTarget(r) in instances.rows
      modifies this, instances
      ensures (State(), outcome) ==
        Complete(old(State()), r, if u.instanceType.Some? then InstanceRetype(u) else UnlessDry(r, InstanceWrite(u)))
    {
      hide StartStep, ClusterStep, UserStep, NewInstance, AnotherHasType, DropEndpoint, RequestedType;
      hide Complete, InstanceName, PlacementError, ApplyInstanceUpdates;
      var name := InstanceTarget(r);
      if u.instanceType.Some? {
        CompleteStep(State(), r, InstanceRetype(u));
        var error := ValidateInstancePlacement(r.key, name, u.instanceType.value);
        if error.Some? {
          outcome := Rejected(error.value);
          CompleteEnd(State(), r, outcome);
          return;
        }
      }
      if r.validateOnly {
        outcome := Accepted(false);
        CompleteEnd(State(), r, outcome);
        return;
      }
      CompleteStep(State(), r, InstanceWrite(u));
      var updated := instances.Update(name, ApplyInstanceUpdates(instances.rows[name], u));
      outcome := CreateOperation(r, "update", false);
    }

    method DeleteInstanceExclusively(r: Request) returns (outcome: Outcome)
      requires r.verb.DeleteInstance?
      modifies this, instances
      ensures (State(), outcome) == Complete(old(State()), r, Start)
      ensures DeleteInstanceEffect(old(State()), r, r.verb.instanceId, State(), outcome)
    {
      hide StartInstanceUpdate, StartClusterUpdate, StartUserUpdate, ClusterStep, UserStep, PlacementError, NewInstance;
      hide Complete, DropOf, EndpointKey, InstanceName, AnotherHasType, DropEndpoint, ApplyInstanceUpdates,
        DeleteInstanceEffect;
      DeleteInstanceDoes(State(), r);
      var name := InstanceTarget(r);
      CompleteStep(State(), r, Start);
      if name !in instances.rows {
        outcome := Rejected(NotFound);
        CompleteEnd(State(), r, outcome);
        return;
      }
      if instances.rows[name].instanceType == PRIMARY { CompleteStep(State(), r, InstancePools); }
      var free := ValidatePrimaryHasNoDependentReadPools(r.key, name);
      if !free {
        outcome := Rejected(FailedPrecondition);
        CompleteEnd(State(), r, outcome);
      } else if r.validateOnly {
        outcome := Accepted(false);
        CompleteEnd(State(), r, outcome);
      } else {
        outcome := DropAndDelete(r);
      }
    }

    method DropAndDelete(r: Request) returns (outcome: Outcome)
      requires r.verb.DeleteInstance?
      modifies this, instances
      ensures (State(), outcome) == Complete(old(State()), r, InstanceDrop)
    {
      hide StartStep, ClusterStep, UserStep, PlacementError, NewInstance, ApplyInstanceUpdates;
      hide Complete, DropOf, EndpointKey, InstanceName, AnotherHasType, DropEndpoint;
      CompleteStep(State(), r, InstanceDrop);
      var dropped := DropInstance(EndpointKey(r.key, r.verb.instanceId), r.env);
      if !dropped {
        outcome := Rejected(Internal);
        CompleteEnd(State(), r, outcome);
        return;
      }
      CompleteStep(State(), r, InstanceDelete);
      var deleted := instances.Delete(InstanceTarget(r));
      outcome := CreateOperation(r, "delete", false);
    }

    // ── Clusters ──

    method CreateClusterExclusively(r: Request) returns (outcome: Outcome)
      requires Fits(r, ClusterAbsent)
      modifies this, clusters, users
      ensures (State(), outcome) == Complete(old(State()), r, ClusterAbsent)
      ensures CreateClusterEffect(old(State()), r, State(), outcome)
    {
      hide Complete, ClusterName, UserName, NewCluster, ClusterBody, Sources, ResolvedUserName, ResolvedPassword;
      hide StartStep, InstanceStep, UserStep, DeleteUnder, CascadeEndpoint, DropEndpoint, Sorted, InstancesUnder,
        CreateClusterEffect;
      CreateClusterDoes(State(), r);
      var name := ClusterName(r.key);
      CompleteStep(State(), r, ClusterAbsent);
      if name in clusters.rows {
        outcome := Rejected(AlreadyExists);
        CompleteEnd(State(), r, outcome);
        return;
      }
      if r.validateOnly {
        outcome := Accepted(false);
        CompleteEnd(State(), r, outcome);
        return;
      }
      CompleteStep(State(), r, ClusterInsert);
      var created := clusters.Create(name, NewCluster(ClusterBody(r), Sources(r), r.env.uid, r.env.now));
      CompleteStep(State(), r, ClusterUser);
      var row := UserRow(BUILT_IN, ResolvedPassword(ClusterBody(r)), map[]);
      var added := users.Create(InitialUserTarget(r), row);
      if !added {
        outcome := Rejected(Internal);
        CompleteEnd(State(), r, outcome);
        return;
      }
      outcome := CreateOperation(r, if r.verb.RestoreCluster? then "restore" else "create", false);
    }

    method UpdateClusterExclusively(r: Request) returns (outcome: Outcome)
      requires r.verb.UpdateCluster?
      modifies this, clusters, users
      ensures (State(), outcome) == Complete(old(State()), r, Start)
      ensures ValidKey(r.key) ==> ClusterEffect(old(State()), r, State(), outcome)
    {
      hide StartInstanceUpdate, StartUserUpdate, InstanceStep, UserStep, NewCluster, DropEndpoint, DeleteUnder;
      hide Complete, ClusterName, BuildClusterUpdates, ClusterRequestOk, ApplyClusterUpdates, ClusterEffect, ValidKey;
      if ValidKey(r.key) { ClusterSectionDoes(State(), r); }
      var name := ClusterName(r.key);
      CompleteStep(State(), r, Start);
      if name !in clusters.rows {
        if !r.verb.clusterMissing {
          outcome := Rejected(NotFound);
          CompleteEnd(State(), r, outcome);
        } else if !ClusterRequestOk(r.key.cluster, r.body) {
          outcome := Rejected(InvalidArgument);
          CompleteEnd(State(), r, outcome);
        } else {
          outcome := CreateClusterExclusively(r);
        }
        return;
      }
      var updates := BuildClusterUpdates(clusters.rows[name], r.body, r.verb.clusterMask, r.env.now);
      if updates.None? {
        outcome := Rejected(InvalidArgument);
        CompleteEnd(State(), r, outcome);
        return;
      }
      if r.validateOnly {
        outcome := Accepted(false);
        CompleteEnd(State(), r, outcome);
        return;
      }
      CompleteStep(State(), r, ClusterWrite(updates.value));
      var updated := clusters.Update(name, ApplyClusterUpdates(clusters.rows[name], updates.value));
      outcome := CreateOperation(r, "update", false);
    }

    method DeleteClusterExclusively(r: Request) returns (outcome: Outcome)
      requires r.verb.DeleteCluster?
      modifies this, clusters, instances, users
      ensures (State(), outcome) == Complete(old(State()), r, Start)
      ensures ValidKey(r.key) ==> DeleteClusterEffect(old(State()), r, r.verb.force, State(), outcome)
    {
      hide StartInstanceUpdate, StartClusterUpdate, StartUserUpdate, InstanceStep, UserStep, NewCluster, DropEndpoint,
        DeleteUnder;
      hide Complete, ClusterName, InstancePrefix, DeleteClusterEffect, ValidKey;
      if ValidKey(r.key) { DeleteClusterDoes(State(), r); }
      CompleteStep(State(), r, Start);
      if ClusterName(r.key) !in clusters.rows {
        outcome := Rejected(NotFound);
        CompleteEnd(State(), r, outcome);
        return;
      }
      if !r.verb.force {
        CompleteStep(State(), r, ClusterCount);
        var children := instances.CountByPrefix(InstancePrefix(r.key));
        assert InstancesUnder(State(), r.key) == set n | n in instances.rows && InstancePrefix(r.key) <= n;
        if children > 0 {
          outcome := Rejected(FailedPrecondition);
          CompleteEnd(State(), r, outcome);
          return;
        }
      }
      if r.validateOnly {
        outcome := Accepted(false);
        CompleteEnd(State(), r, outcome);
        return;
      }
      outcome := Cascade(r);
    }

    /** Children first: endpoints, then instance rows, then users, then the cluster itself. */
    method Cascade(r: Request) returns (outcome: Outcome)
      requires r.verb.DeleteCluster?
      modifies this, clusters, instances, users
      ensures (State(), outcome) == Complete(old(State()), r, ClusterList)
    {
      hide Complete, StartStep, InstanceStep, UserStep, ClusterName, InstancePrefix, Sorted;
      CompleteStep(State(), r, ClusterList);
      var names := instances.ListAllByPrefix(InstancePrefix(r.key));
      assert InstancesUnder(State(), r.key) == set n | n in instances.rows && InstancePrefix(r.key) <= n;
      DropEndpoints(r, names);
      outcome := DeleteRows(r);
    }

    method DeleteRows(r: Request) returns (outcome: Outcome)
      requires r.verb.DeleteCluster?
      modifies this, clusters, instances, users
      ensures (State(), outcome) == Complete(old(State()), r, CascadeInstances)
    {
      hide Complete, Step, ClusterName, InstancePrefix, UserPrefix, DeleteUnder, Logged;
      CompleteDeletes(State(), r);
      var instancesGone := instances.DeleteByPrefix(InstancePrefix(r.key));
      var usersGone := users.DeleteByPrefix(UserPrefix(r.key));
      var deleted := clusters.Delete(ClusterName(r.key));
      outcome := CreateOperation(r, "delete", false);
    }

    static lemma CompleteDeletes(db: Db, r: Request)
      requires r.verb.DeleteCluster?
      ensures Complete(db, r, CascadeInstances)
           == Complete(Db(db.clusters - {ClusterName(r.key)},
                          DeleteUnder(db.instances, InstancePrefix(r.key)),
                          DeleteUnder(db.users, UserPrefix(r.key)),
                          db.endpoints, db.operations), r, RecordOperation("delete", false))
    {
      hide Complete, StartStep, InstanceStep, UserStep, ClusterName, InstancePrefix, UserPrefix, DeleteUnder;
      var db1 := db.(instances := DeleteUnder(db.instances, InstancePrefix(r.key)));
      var db2 := db1.(users := DeleteUnder(db.users, UserPrefix(r.key)));
      CompleteStep(db, r, CascadeInstances);
      CompleteStep(db1, r, CascadeUsers);
      CompleteStep(db2, r, CascadeCluster);
    }

    /** Drops the children's endpoints one by one. A drop that throws does not stop the others. */
    method DropEndpoints(r: Request, names: seq<string>)
      requires r.verb.DeleteCluster?
      modifies this
      ensures Complete(State(), r, CascadeInstances) == Complete(old(State()), r, CascadeDrops(names))
    {
      hide Complete, CascadeEndpoint, DropOf, DropEndpoint;
      hide StartStep, InstanceStep, UserStep, DeleteUnder, NewCluster, InitialUserTarget, Sorted;
      for i := 0 to |names|
        invariant Complete(State(), r, CascadeDrops(names[i..])) == Complete(old(State()), r, CascadeDrops(names))
      {
        CompleteDrop(State(), r, names[i..]);
        assert names[i..][1..] == names[i + 1..];
        var endpoint := CascadeEndpoint(r.key, names[i]);
        if endpoint.Some? {
          var dropped := DropInstance(endpoint.value, r.env);
        }
      }
      CompleteStep(State(), r, CascadeDrops([]));
    }

    static lemma CompleteDrop(db: Db, r: Request, names: seq<string>)
      requires r.verb.DeleteCluster? && |names| > 0
      ensures Complete(db, r, CascadeDrops(names))
           == var e := CascadeEndpoint(r.key, names[0]);
              Complete(if e.None? then db else DropEndpoint(db, e.value, DropOf(r.env, e.value)), r,
                CascadeDrops(names[1..]))
    {
      hide Complete, CascadeEndpoint, DropOf, DropEndpoint;
      CompleteStep(db, r, CascadeDrops(names));
    }

    // ── Users ──

    method CreateUserExclusively(r: Request) returns (outcome: Outcome)
      requires Fits(r, UserParent)
      modifies users
      ensures (State(), outcome) == Complete(old(State()), r, UserParent)
      ensures CreateUserEffect(old(State()), r, r.verb.userId, State(), outcome)
    {
      hide Complete, ClusterName, UserName, NewUser;
      hide StartStep, InstanceStep, ClusterStep, CreateUserEffect;
      CreateUserDoes(State(), r);
      var name := UserTarget(r);
      CompleteStep(State(), r, UserParent);
      if ClusterName(r.key) !in clusters.rows {
        outcome := Rejected(NotFound);
        CompleteEnd(State(), r, outcome);
        return;
      }
      CompleteStep(State(), r, UserAbsent);
      if name in users.rows {
        outcome := Rejected(AlreadyExists);
        CompleteEnd(State(), r, outcome);
        return;
      }
      outcome := Accepted(false);
      if !r.validateOnly {
        CompleteStep(State(), r, UserInsert);
        var created := users.Create(name, NewUser(r.body));
      }
      CompleteEnd(State(), r, outcome);
    }

    method UpdateUserExclusively(r: Request) returns (outcome: Outcome)
      requires r.verb.UpdateUser?
      modifies users
      ensures (State(), outcome) == Complete(old(State()), r, Start)
      ensures UserEffect(old(State()), r, State(), outcome)
    {
      hide StartInstanceUpdate, StartClusterUpdate, InstanceStep, ClusterStep, NewUser;
      hide Complete, ClusterName, UserName, BuildUserUpdates, ApplyUserUpdates, UserTypeOk, IsValidUserId, UserEffect;
      UserSectionDoes(State(), r);
      var name := UserTarget(r);
      CompleteStep(State(), r, Start);
      if name !in users.rows {
        if !r.verb.userMissing {
          outcome := Rejected(NotFound);
          CompleteEnd(State(), r, outcome);
        } else if !(IsValidUserId(r.verb.userId) && UserTypeOk(r.body)) {
          outcome := Rejected(InvalidArgument);
          CompleteEnd(State(), r, outcome);
        } else {
          outcome := CreateUserExclusively(r);
        }
        return;
      }
      var updates := BuildUserUpdates(users.rows[name], r.body, r.verb.userMask);
      if updates.None? {
        outcome := Rejected(InvalidArgument);
        CompleteEnd(State(), r, outcome);
        return;
      }
      outcome := Accepted(false);
      if !r.validateOnly {
        CompleteStep(State(), r, UserWrite(updates.value));
        var updated := users.Update(name, ApplyUserUpdates(users.rows[name], updates.value));
      }
      CompleteEnd(State(), r, outcome);
    }

    method DeleteUserExclusively(r: Request) returns (outcome: Outcome)
      requires r.verb.DeleteUser?
      modifies users
      ensures (State(), outcome) == Complete(old(State()), r, Start)
      ensures UserEffect(old(State()), r, State(), outcome)
    {
      hide StartInstanceUpdate, StartClusterUpdate, StartUserUpdate, InstanceStep, ClusterStep, NewUser,
        ApplyUserUpdates;
      hide Complete, UserName, UserEffect;
      UserSectionDoes(State(), r);
      CompleteStep(State(), r, Start);
      if UserTarget(r) !in users.rows {
        outcome := Rejected(NotFound);
        CompleteEnd(State(), r, outcome);
        return;
      }
      outcome := Accepted(false);
      if !r.validateOnly {
        CompleteStep(State(), r, UserDelete);
        var deleted := users.Delete(UserTarget(r));
      }
      CompleteEnd(State(), r, outcome);
    }
  }

  // ── The PATCH builders, as loops over the masked fields ──

  method BuildClusterUpdatesStepwise(existing: ClusterRow, body: Object, mask: Option<string>, now: string)
    returns (updates: Option<ClusterUpdates>)
    ensures updates == BuildClusterUpdates(existing, body, mask, now)
  {
    hide NetworkConfigured, InitialUserName, MaskedFields;
    var masked := ResolveMaskedFields(body, MUTABLE_CLUSTER_FIELDS, mask);
    if masked.None? { return None; }
    var rest := Without(masked.value, {"initialUser"});
    var spec := MergeSpec(existing.spec, body, rest, CLUSTER_ENUM_FIELDS);
    assert "initialUser" in masked.value <==> "initialUser" in Elements(masked.value);
    var user := if "initialUser" in masked.value then Some(InitialUserName(body)) else None;
    if !NetworkConfigured(spec) { return None; }
    return Some(ClusterUpdates(user, now, spec));
  }

  /** The masked fields that are not handled apart. */
  method Without(fields: seq<string>, apart: set<string>) returns (rest: seq<string>)
    ensures Elements(rest) == Elements(fields) - apart
  {
    rest := [];
    for i := 0 to |fields|
      invariant Elements(rest) == Elements(fields[..i]) - apart
    {
      assert fields[..i + 1] == fields[..i] + [fields[i]];
      Push(fields[..i], fields[i]);
      Push(rest, fields[i]);
      if fields[i] !in apart { rest := rest + [fields[i]]; }
    }
    assert fields[..|fields|] == fields;
  }

  /** One field of the merge: set if the body has it, deleted if not. */
  function Merged(spec: Object, body: Object, field: string, enums: map<string, EnumNumbers>): Object {
    if field in body then spec[field := NormalizeSpecField(field, body[field], enums)] else spec - {field}
  }

  lemma MergeOne(
    existing: Object, body: Object, fields: seq<string>, i: nat, apart: set<string>, enums: map<string, EnumNumbers>)
    requires i < |fields|
    ensures Elements(fields[..i + 1]) == Elements(fields[..i]) + {fields[i]}
    ensures PatchSpec(existing, body, Elements(fields[..i + 1]) - apart, enums) ==
      var spec := PatchSpec(existing, body, Elements(fields[..i]) - apart, enums);
      if fields[i] in apart then spec else Merged(spec, body, fields[i], enums)
  {
    hide PatchSpec;
    assert fields[..i + 1] == fields[..i] + [fields[i]];
    Push(fields[..i], fields[i]);
    var done := Elements(fields[..i]);
    if fields[i] in apart {
      assert done + {fields[i]} - apart == done - apart;
    } else {
      assert done + {fields[i]} - apart == (done - apart) + {fields[i]};
      PatchOneMore(existing, body, done - apart, fields[i], enums);
    }
  }

  /** `instanceType` has a column of its own and keeps its value when the body has none. */
  method BuildInstanceUpdatesStepwise(existing: InstanceRow, body: Object, mask: Option<string>, now: string)
    returns (updates: Option<InstanceUpdates>)
    ensures updates == BuildInstanceUpdates(existing, body, mask, now)
  {
    hide InstanceTypeOk, NormalizeEnum, MaskedFields, NormalizeSpecField, PatchSpec, Elements;
    var masked := ResolveMaskedFields(body, MUTABLE_INSTANCE_FIELDS, mask);
    if masked.None? { return None; }
    var fields := masked.value;
    var spec := existing.spec;
    var newType: Option<string> := None;
    NothingMerged(existing.spec, body, fields, {"instanceType"}, INSTANCE_ENUM_FIELDS);
    for i := 0 to |fields|
      invariant spec == PatchSpec(existing.spec, body, Elements(fields[..i]) - {"instanceType"}, INSTANCE_ENUM_FIELDS)
      invariant newType.Some? <==> "instanceType" in Elements(fields[..i]) && "instanceType" in body
      invariant newType.Some? ==> InstanceTypeOk(body) && newType == Some(TypeFrom(body, existing.instanceType))
    {
      var field := fields[i];
      MergeOne(existing.spec, body, fields, i, {"instanceType"}, INSTANCE_ENUM_FIELDS);
      if field == "instanceType" {
        if "instanceType" !in body { continue; }
        if !InstanceTypeOk(body) {
          AmongAll(fields, i);
          return None;
        }
        newType := Some(TypeFrom(body, existing.instanceType));
        continue;
      }
      spec := Merged(spec, body, field, INSTANCE_ENUM_FIELDS);
    }
    assert fields[..|fields|] == fields;
    return Some(InstanceUpdates(newType, now, spec));
  }

  function TypeFrom(body: Object, existing: string): string
    requires "instanceType" in body
  {
    var t := NormalizeEnum(body["instanceType"], INSTANCE_TYPE_ENUM);
    if t.Str? then t.s else existing
  }

  lemma AmongAll(fields: seq<string>, i: nat)
    requires i < |fields|
    ensures fields[i] in Elements(fields)
  {}

  lemma NothingMerged(
    existing: Object, body: Object, fields: seq<string>, apart: set<string>, enums: map<string, EnumNumbers>)
    ensures Elements(fields[..0]) == {}
    ensures PatchSpec(existing, body, Elements(fields[..0]) - apart, enums) == existing
  {}

  /** A password is only ever replaced, and never by none; `keepExtraRoles` is not stored. */
  method BuildUserUpdatesStepwise(existing: UserRow, body: Object, mask: Option<string>)
    returns (updates: Option<UserUpdates>)
    ensures updates == BuildUserUpdates(existing, body, mask)
  {
    hide UserTypeOk, NormalizeEnum, MaskedFields, NormalizeSpecField, PatchSpec, Elements;
    var masked := ResolveMaskedFields(body, MUTABLE_USER_FIELDS, mask);
    if masked.None? { return None; }
    var fields := masked.value;
    var spec := existing.spec;
    var newType: Option<string> := None;
    var password: Option<string> := None;
    NothingMerged(existing.spec, body, fields, COLUMNED_USER_FIELDS, USER_ENUM_FIELDS);
    for i := 0 to |fields|
      invariant spec == PatchSpec(existing.spec, body, Elements(fields[..i]) - COLUMNED_USER_FIELDS, USER_ENUM_FIELDS)
      invariant newType.Some? <==> "userType" in Elements(fields[..i]) && "userType" in body
      invariant newType.Some? ==> UserTypeOk(body) && newType == Some(UserTypeFrom(body, existing.userType))
      invariant password == if "password" in Elements(fields[..i]) then PasswordFrom(body) else None
    {
      var field := fields[i];
      MergeOne(existing.spec, body, fields, i, COLUMNED_USER_FIELDS, USER_ENUM_FIELDS);
      if field == "userType" {
        if "userType" !in body { continue; }
        if !UserTypeOk(body) {
          AmongAll(fields, i);
          return None;
        }
        newType := Some(UserTypeFrom(body, existing.userType));
        continue;
      }
      if field == "password" {
        password := PasswordFrom(body);
        continue;
      }
      if field == "keepExtraRoles" { continue; }
      spec := Merged(spec, body, field, USER_ENUM_FIELDS);
    }
    assert fields[..|fields|] == fields;
    return Some(UserUpdates(newType, password, spec));
  }

  function UserTypeFrom(body: Object, existing: string): string
    requires "userType" in body
  {
    var t := NormalizeEnum(body["userType"], USER_TYPE_ENUM);
    if t.Str? then t.s else existing
  }

  function PasswordFrom(body: Object): Option<string> {
    if "password" in body && body["password"].Str? then Some(body["password"].s) else None
  }
}
