/** What one AlloyDB request leaves behind, from the database before it to the one after, without its steps. */
module AlloyEffects {
  import opened Options
  import opened StringOrder
  import opened AlloyNames
  import opened AlloyTypes
  import opened AlloySections

  ghost predicate Refused(before: Db, after: Db, out: Outcome, e: ErrorCode) {
    after == before && out == Rejected(e)
  }

  /** Some other instance of the cluster has this type. */
  ghost predicate Another(db: Db, k: Key, name: string, instanceType: string) {
    exists n :: n in db.instances && InstancePrefix(k) <= n && n != name && db.instances[n].instanceType == instanceType
  }

  ghost predicate OneOperation(before: Db, after: Db, r: Request, target: string, verb: string, failed: bool) {
    after.operations == before.operations + multiset{Operation(r.key, r.env.operationId, target, verb, failed)}
  }

  // ── Instances ──

  /** Why placing an instance is refused, if it is. */
  ghost function Misplaced(db: Db, k: Key, name: string, t: string): Option<ErrorCode> {
    if t == "SECONDARY" then Some(InvalidArgument)
    else if t == "PRIMARY" && Another(db, k, name, "PRIMARY") then Some(FailedPrecondition)
    else if t == "READ_POOL" && !Another(db, k, name, "PRIMARY") then Some(FailedPrecondition)
    else None
  }

  /** A started create keeps its row and lists its endpoint; one that does not start leaves a failed operation only. */
  ghost predicate CreatedInstance(before: Db, r: Request, id: string, after: Db, out: Outcome) {
    var name, endpoint := InstanceName(r.key, id), EndpointKey(r.key, id);
    && after.clusters == before.clusters && after.users == before.users
    && OneOperation(before, after, r, name, "create", !r.env.startSucceeds)
    && out == Accepted(!r.env.startSucceeds)
    && (!r.env.startSucceeds ==>
          after.instances == before.instances && after.endpoints == before.endpoints - {endpoint})
    && (r.env.startSucceeds ==>
          && after.endpoints == before.endpoints + {endpoint}
          && after.instances.Keys == before.instances.Keys + {name}
          && (forall n :: n in before.instances ==> after.instances[n] == before.instances[n])
          && var row := after.instances[name];
             && row.instanceType == RequestedType(r.body) && row.uid == r.env.uid
             && row.createTime == r.env.now && row.updateTime == r.env.now
             && row.spec == NewInstance(r.body, r.env.uid, r.env.now).spec)
  }

  /** A create whose request is well formed. */
  ghost predicate CreateInstanceEffect(before: Db, r: Request, id: string, after: Db, out: Outcome) {
    var name := InstanceName(r.key, id);
    var misplaced := Misplaced(before, r.key, name, RequestedType(r.body));
    if ClusterName(r.key) !in before.clusters then Refused(before, after, out, NotFound)
    else if name in before.instances then Refused(before, after, out, AlreadyExists)
    else if misplaced.Some? then Refused(before, after, out, misplaced.value)
    else if r.validateOnly then after == before && out == Accepted(false)
    else CreatedInstance(before, r, id, after, out)
  }

  lemma MisplacedIsError(db: Db, k: Key, name: string, t: string)
    ensures PlacementError(db, k, name, t) == Misplaced(db, k, name, t)
  {
    hide InstancePrefix;
    AnotherIsAnother(db, k, name, "PRIMARY");
    hide AnotherHasType, Another;
  }

  lemma StartedInstance(db: Db, r: Request)
    requires (r.verb.CreateInstance? || r.verb.UpdateInstance?) && InstanceTarget(r) !in db.instances
    ensures var (after, out) := Complete(db, r, InstanceInsert);
            CreatedInstance(db, r, r.verb.instanceId, after, out)
  {
    hide InstanceName, EndpointKey, ClusterName, StartStep, ClusterStep, UserStep, PickSpecFields, WithResponseDefaults,
      Complete, RequestedType, Logged;
    var name, endpoint := InstanceTarget(r), EndpointKey(r.key, r.verb.instanceId);
    var row := NewInstance(r.body, r.env.uid, r.env.now);
    CompleteStep(db, r, InstanceInsert);
    var inserted := db.(instances := db.instances[name := row]);
    CompleteStep(inserted, r, InstanceStart);
    if r.env.startSucceeds {
      LoggedInstance(inserted.(endpoints := db.endpoints + {endpoint}), r, "create", false);
    } else {
      StoppedInstance(db, r);
    }
  }

  lemma LoggedInstance(db: Db, r: Request, verb: string, failed: bool)
    requires OnInstance(r.verb)
    ensures Complete(db, r, RecordOperation(verb, failed)) ==
      (db.(operations := db.operations
        + multiset{Operation(r.key, r.env.operationId, InstanceTarget(r), verb, failed)}), Accepted(failed))
  {
    hide InstanceName, StartStep, InstanceStep, Complete;
    CompleteStep(db, r, RecordOperation(verb, failed));
    CompleteEnd(Logged(db, r, verb, failed), r, Accepted(failed));
  }

  /** A start that fails is undone, whatever the drop does. */
  lemma StoppedInstance(db: Db, r: Request)
    requires (r.verb.CreateInstance? || r.verb.UpdateInstance?) && InstanceTarget(r) !in db.instances
    ensures var row := NewInstance(r.body, r.env.uid, r.env.now);
            var endpoints := db.endpoints - {EndpointKey(r.key, r.verb.instanceId)};
            var inserted := db.(instances := db.instances[InstanceTarget(r) := row], endpoints := endpoints);
            var operation := Operation(r.key, r.env.operationId, InstanceTarget(r), "create", true);
            Complete(inserted, r, RollbackDrop) ==
              (db.(endpoints := endpoints, operations := db.operations + multiset{operation}), Accepted(true))
  {
    hide InstanceName, EndpointKey, StartStep, ClusterStep, UserStep, NewInstance, Complete, DropOf;
    var endpoint := EndpointKey(r.key, r.verb.instanceId);
    var row := NewInstance(r.body, r.env.uid, r.env.now);
    var inserted := db.(instances := db.instances[InstanceTarget(r) := row], endpoints := db.endpoints - {endpoint});
    CompleteStep(inserted, r, RollbackDrop);
    assert DropEndpoint(inserted, endpoint, DropOf(r.env, endpoint)) == inserted;
    CompleteStep(inserted, r, RollbackRow);
    assert inserted.instances - {InstanceTarget(r)} == db.instances;
    LoggedInstance(db.(endpoints := db.endpoints - {endpoint}), r, "create", true);
  }

  /** Whatever a well-formed create does, step by step, comes to this. */
  lemma CreateInstanceDoes(db: Db, r: Request)
    requires r.verb.CreateInstance? || r.verb.UpdateInstance?
    ensures var (after, out) := Complete(db, r, InstanceParent);
            CreateInstanceEffect(db, r, r.verb.instanceId, after, out)
  {
    hide InstanceName, ClusterName, EndpointKey, StartStep, ClusterStep, UserStep, PlacementError, CreatedInstance,
      Complete, RequestedType, Misplaced, NewInstance;
    CompleteStep(db, r, InstanceParent);
    if ClusterName(r.key) !in db.clusters {
      CompleteEnd(db, r, Rejected(NotFound));
    } else {
      CompleteStep(db, r, InstanceAbsent);
      if InstanceTarget(r) in db.instances {
        CompleteEnd(db, r, Rejected(AlreadyExists));
      } else {
        CompleteStep(db, r, InstancePlacement);
        MisplacedIsError(db, r.key, InstanceTarget(r), RequestedType(r.body));
        var e := PlacementError(db, r.key, InstanceTarget(r), RequestedType(r.body));
        if e.Some? { CompleteEnd(db, r, Rejected(e.value)); }
        else if r.validateOnly { CompleteEnd(db, r, Accepted(false)); }
        else { StartedInstance(db, r); }
      }
    }
  }

  /** The rest of a PATCH of a row that is there, for the columns and the spec its body and mask come to. */
  ghost predicate UpdateInstanceEffect(before: Db, r: Request, u: InstanceUpdates, after: Db, out: Outcome)
    requires r.verb.UpdateInstance? && InstanceName(r.key, r.verb.instanceId) in before.instances
  {
    var name := InstanceName(r.key, r.verb.instanceId);
    var was := before.instances[name];
    var misplaced := if u.instanceType.Some? then Misplaced(before, r.key, name, u.instanceType.value) else None;
    if misplaced.Some? then Refused(before, after, out, misplaced.value)
    else if r.validateOnly then after == before && out == Accepted(false)
    else
      && out == Accepted(false) && OneOperation(before, after, r, name, "update", false)
      && after == before.(instances := after.instances, operations := after.operations)
      && after.instances.Keys == before.instances.Keys
      && (forall n :: n in before.instances && n != name ==> after.instances[n] == before.instances[n])
      && var row := after.instances[name];
         && row.uid == was.uid && row.createTime == was.createTime
         && row.updateTime == u.updateTime && row.spec == u.spec
         && row.instanceType == if u.instanceType.Some? then u.instanceType.value else was.instanceType
  }

  lemma UpdateInstanceDoes(db: Db, r: Request, u: InstanceUpdates)
    requires r.verb.UpdateInstance? && InstanceName(r.key, r.verb.instanceId) in db.instances
    ensures var from := if u.instanceType.Some? then InstanceRetype(u) else UnlessDry(r, InstanceWrite(u));
            var (after, out) := Complete(db, r, from);
            UpdateInstanceEffect(db, r, u, after, out)
  {
    hide InstanceName, StartStep, ClusterStep, UserStep, PlacementError, Misplaced, Complete;
    var name := InstanceTarget(r);
    if u.instanceType.Some? {
      CompleteStep(db, r, InstanceRetype(u));
      MisplacedIsError(db, r.key, name, u.instanceType.value);
    }
    var e := if u.instanceType.Some? then PlacementError(db, r.key, name, u.instanceType.value) else None;
    if e.Some? { CompleteEnd(db, r, Rejected(e.value)); }
    else if r.validateOnly { CompleteEnd(db, r, Accepted(false)); }
    else { WrittenInstance(db, r, u); }
  }

  lemma WrittenInstance(db: Db, r: Request, u: InstanceUpdates)
    requires r.verb.UpdateInstance? && InstanceTarget(r) in db.instances
    ensures var row := ApplyInstanceUpdates(db.instances[InstanceTarget(r)], u);
            var operation := Operation(r.key, r.env.operationId, InstanceTarget(r), "update", false);
            Complete(db, r, InstanceWrite(u)) ==
              (db.(instances := db.instances[InstanceTarget(r) := row],
                   operations := db.operations + multiset{operation}), Accepted(false))
  {
    hide InstanceName, StartStep, ClusterStep, UserStep, PlacementError, Complete, ApplyInstanceUpdates;
    var row := ApplyInstanceUpdates(db.instances[InstanceTarget(r)], u);
    CompleteStep(db, r, InstanceWrite(u));
    LoggedInstance(db.(instances := db.instances[InstanceTarget(r) := row]), r, "update", false);
  }

  /** A delete takes the row and the endpoint; a drop that throws leaves the row, and an endpoint still listening. */
  ghost predicate DeleteInstanceEffect(before: Db, r: Request, id: string, after: Db, out: Outcome) {
    var name, endpoint := InstanceName(r.key, id), EndpointKey(r.key, id);
    if name !in before.instances then Refused(before, after, out, NotFound)
    else if before.instances[name].instanceType == "PRIMARY" && Another(before, r.key, name, "READ_POOL")
    then Refused(before, after, out, FailedPrecondition)
    else if r.validateOnly then after == before && out == Accepted(false)
    else if endpoint in r.env.drops && r.env.drops[endpoint].Threw? then
      && out == Rejected(Internal)
      && after == before.(endpoints := after.endpoints)
      && after.endpoints == before.endpoints - if r.env.drops[endpoint].stillListening then {} else {endpoint}
    else
      && out == Accepted(false) && OneOperation(before, after, r, name, "delete", false)
      && after.clusters == before.clusters && after.users == before.users
      && after.instances == before.instances - {name}
      && after.endpoints == before.endpoints - {endpoint}
  }

  lemma DeleteInstanceDoes(db: Db, r: Request)
    requires r.verb.DeleteInstance?
    ensures var (after, out) := Section(db, r);
            DeleteInstanceEffect(db, r, r.verb.instanceId, after, out)
  {
    hide InstanceName, EndpointKey, StartInstanceUpdate, StartClusterUpdate, StartUserUpdate, ClusterStep, UserStep,
      PlacementError, Complete;
    var name, endpoint := InstanceTarget(r), EndpointKey(r.key, r.verb.instanceId);
    CompleteStep(db, r, Start);
    if name !in db.instances {
      CompleteEnd(db, r, Rejected(NotFound));
    } else {
      AnotherIsAnother(db, r.key, name, "READ_POOL");
      hide AnotherHasType, Another;
      if db.instances[name].instanceType == PRIMARY { CompleteStep(db, r, InstancePools); }
      if db.instances[name].instanceType == PRIMARY && AnotherHasType(db, r.key, name, READ_POOL) {
        CompleteEnd(db, r, Rejected(FailedPrecondition));
      } else if r.validateOnly {
        CompleteEnd(db, r, Accepted(false));
      } else {
        DroppedInstance(db, r);
      }
    }
  }

  lemma AnotherIsAnother(db: Db, k: Key, name: string, t: string)
    ensures AnotherHasType(db, k, name, t) == Another(db, k, name, t)
  {
    hide InstancePrefix;
    if Another(db, k, name, t) {
      var n :| n in db.instances && InstancePrefix(k) <= n && n != name && db.instances[n].instanceType == t;
      assert n in InstancesUnder(db, k);
    }
  }

  lemma DroppedInstance(db: Db, r: Request)
    requires r.verb.DeleteInstance?
    ensures var name, endpoint := InstanceTarget(r), EndpointKey(r.key, r.verb.instanceId);
            var gone := db.(endpoints := db.endpoints - {endpoint});
            var operation := Operation(r.key, r.env.operationId, name, "delete", false);
            Complete(db, r, InstanceDrop) ==
              if endpoint in r.env.drops && r.env.drops[endpoint].Threw?
              then (if r.env.drops[endpoint].stillListening then db else gone, Rejected(Internal))
              else (gone.(instances := db.instances - {name}, operations := db.operations + multiset{operation}),
                    Accepted(false))
  {
    hide InstanceName, EndpointKey, StartStep, ClusterStep, UserStep, PlacementError, Complete;
    var name, endpoint := InstanceTarget(r), EndpointKey(r.key, r.verb.instanceId);
    CompleteStep(db, r, InstanceDrop);
    var dropped := DropEndpoint(db, endpoint, DropOf(r.env, endpoint));
    if DropOf(r.env, endpoint).Dropped? {
      CompleteStep(dropped, r, InstanceDelete);
      LoggedInstance(dropped.(instances := db.instances - {name}), r, "delete", false);
    } else {
      CompleteEnd(dropped, r, Rejected(Internal));
    }
  }

  ghost predicate InstanceEffect(before: Db, r: Request, after: Db, out: Outcome)
    requires OnInstance(r.verb)
  {
    match r.verb
    case CreateInstance(id) =>
      if !InstanceRequestOk(id, r.body, r.env.nodeCount) then Refused(before, after, out, InvalidArgument)
      else CreateInstanceEffect(before, r, id, after, out)
    case UpdateInstance(id, mask, missing) =>
      var name := InstanceName(r.key, id);
      if name in before.instances then
        var u := BuildInstanceUpdates(before.instances[name], r.body, mask, r.env.now);
        if u.None? then Refused(before, after, out, InvalidArgument)
        else UpdateInstanceEffect(before, r, u.value, after, out)
      else if !missing then Refused(before, after, out, NotFound)
      else if !InstanceRequestOk(id, r.body, r.env.nodeCount) then Refused(before, after, out, InvalidArgument)
      else CreateInstanceEffect(before, r, id, after, out)
    case DeleteInstance(id) => DeleteInstanceEffect(before, r, id, after, out)
  }

  lemma InstanceSectionDoes(db: Db, r: Request)
    requires OnInstance(r.verb)
    ensures InstanceEffect(db, r, Section(db, r).0, Section(db, r).1)
  {
    hide InstanceName, InstanceRequestOk, BuildInstanceUpdates, StartClusterUpdate, StartUserUpdate, InstanceStep,
      ClusterStep, UserStep, Complete, CreateInstanceEffect, UpdateInstanceEffect, DeleteInstanceEffect;
    CompleteStep(db, r, Start);
    var next := Step(db, r, Start).1;
    if r.verb.DeleteInstance? {
      DeleteInstanceDoes(db, r);
    } else if next.InstanceParent? {
      CreateInstanceDoes(db, r);
    } else if next.Finished? && next.outcome.Rejected? {
      CompleteEnd(db, r, next.outcome);
    } else {
      var u := BuildInstanceUpdates(db.instances[InstanceTarget(r)], r.body, r.verb.instanceMask, r.env.now);
      UpdateInstanceDoes(db, r, u.value);
    }
  }

  // ── Users ──

  ghost predicate CreateUserEffect(before: Db, r: Request, id: string, after: Db, out: Outcome) {
    var name := UserName(r.key, id);
    if ClusterName(r.key) !in before.clusters then Refused(before, after, out, NotFound)
    else if name in before.users then Refused(before, after, out, AlreadyExists)
    else if r.validateOnly then after == before && out == Accepted(false)
    else after == before.(users := before.users[name := NewUser(r.body)]) && out == Accepted(false)
  }

  ghost predicate UserEffect(before: Db, r: Request, after: Db, out: Outcome)
    requires OnUser(r.verb)
  {
    match r.verb
    case CreateUser(id) =>
      if !IsValidUserId(id) || !UserTypeOk(r.body) then Refused(before, after, out, InvalidArgument)
      else CreateUserEffect(before, r, id, after, out)
    case UpdateUser(id, mask, missing) =>
      var name := UserName(r.key, id);
      if name in before.users then
        var u := BuildUserUpdates(before.users[name], r.body, mask);
        if u.None? then Refused(before, after, out, InvalidArgument)
        else
          && out == Accepted(false)
          && after == if r.validateOnly then before
             else before.(users := before.users[name := ApplyUserUpdates(before.users[name], u.value)])
      else if !missing then Refused(before, after, out, NotFound)
      else if !IsValidUserId(id) || !UserTypeOk(r.body) then Refused(before, after, out, InvalidArgument)
      else CreateUserEffect(before, r, id, after, out)
    case DeleteUser(id) =>
      var name := UserName(r.key, id);
      if name !in before.users then Refused(before, after, out, NotFound)
      else
        && out == Accepted(false)
        && after == if r.validateOnly then before else before.(users := before.users - {name})
  }

  lemma CreateUserDoes(db: Db, r: Request)
    requires r.verb.CreateUser? || r.verb.UpdateUser?
    ensures var (after, out) := Complete(db, r, UserParent);
            CreateUserEffect(db, r, r.verb.userId, after, out)
  {
    hide UserName, ClusterName, StartStep, InstanceStep, ClusterStep, NewUser, Complete;
    CompleteStep(db, r, UserParent);
    if ClusterName(r.key) !in db.clusters {
      CompleteEnd(db, r, Rejected(NotFound));
    } else {
      CompleteStep(db, r, UserAbsent);
      if UserTarget(r) in db.users { CompleteEnd(db, r, Rejected(AlreadyExists)); }
      else if r.validateOnly { CompleteEnd(db, r, Accepted(false)); }
      else {
        CompleteStep(db, r, UserInsert);
        CompleteEnd(db.(users := db.users[UserTarget(r) := NewUser(r.body)]), r, Accepted(false));
      }
    }
  }

  lemma UserSectionDoes(db: Db, r: Request)
    requires OnUser(r.verb)
    ensures UserEffect(db, r, Section(db, r).0, Section(db, r).1)
  {
    hide UserName, UserTypeOk, BuildUserUpdates, ApplyUserUpdates, StartClusterUpdate, StartInstanceUpdate, NewUser,
      InstanceStep, ClusterStep, Complete, CreateUserEffect;
    CompleteStep(db, r, Start);
    var next := Step(db, r, Start).1;
    if next.UserParent? {
      CreateUserDoes(db, r);
    } else if next.Finished? {
      CompleteEnd(db, r, next.outcome);
    } else {
      CompleteStep(db, r, next);
      CompleteEnd(Step(db, r, next).0, r, Accepted(false));
    }
  }

  // ── Clusters ──

  /** The row of a new cluster and its built-in initial user. */
  ghost predicate CreateClusterEffect(before: Db, r: Request, after: Db, out: Outcome) {
    var name, user := ClusterName(r.key), InitialUserTarget(r);
    var body := ClusterBody(r);
    if name in before.clusters then Refused(before, after, out, AlreadyExists)
    else if r.validateOnly then after == before && out == Accepted(false)
    else
      && after == before.(clusters := after.clusters, users := after.users, operations := after.operations)
      && after.clusters.Keys == before.clusters.Keys + {name}
      && (forall n :: n in before.clusters ==> after.clusters[n] == before.clusters[n])
      && (var row := after.clusters[name];
          && row.uid == r.env.uid && row.createTime == r.env.now && row.updateTime == r.env.now
          && row.initialUserName == Some(ResolvedUserName(body))
          && row.spec == NewCluster(body, Sources(r), r.env.uid, r.env.now).spec)
      && if user in before.users
         then after.users == before.users && after.operations == before.operations && out == Rejected(Internal)
         else
           && after.users == before.users[user := UserRow("ALLOYDB_BUILT_IN", ResolvedPassword(body), map[])]
           && OneOperation(before, after, r, name, if r.verb.RestoreCluster? then "restore" else "create", false)
           && out == Accepted(false)
  }

  lemma LoggedCluster(db: Db, r: Request, verb: string)
    requires !OnInstance(r.verb)
    ensures Complete(db, r, RecordOperation(verb, false)) ==
      (db.(operations := db.operations
        + multiset{Operation(r.key, r.env.operationId, ClusterName(r.key), verb, false)}), Accepted(false))
  {
    hide ClusterName, StartStep, InstanceStep, ClusterStep, UserStep, Complete;
    CompleteStep(db, r, RecordOperation(verb, false));
    CompleteEnd(Logged(db, r, verb, false), r, Accepted(false));
  }

  lemma CreateClusterDoes(db: Db, r: Request)
    requires r.verb.CreateCluster? || r.verb.RestoreCluster? || r.verb.UpdateCluster?
    ensures var (after, out) := Complete(db, r, ClusterAbsent);
            CreateClusterEffect(db, r, after, out)
  {
    hide ClusterName, UserName, StartStep, InstanceStep, UserStep, Complete, ResolvedUserName, ResolvedPassword,
      PickSpecFields, OrDefault, ClusterBody, Sources, Sorted, DeleteUnder, CascadeEndpoint, DropOf;
    CompleteStep(db, r, ClusterAbsent);
    if ClusterName(r.key) in db.clusters {
      CompleteEnd(db, r, Rejected(AlreadyExists));
    } else if r.validateOnly {
      CompleteEnd(db, r, Accepted(false));
    } else {
      InsertedCluster(db, r);
    }
  }

  lemma InsertedCluster(db: Db, r: Request)
    requires Fits(r, ClusterInsert) && ClusterName(r.key) !in db.clusters
    ensures var row := NewCluster(ClusterBody(r), Sources(r), r.env.uid, r.env.now);
            var inserted := db.(clusters := db.clusters[ClusterName(r.key) := row]);
            var user := UserRow(BUILT_IN, ResolvedPassword(ClusterBody(r)), map[]);
            var verb := if r.verb.RestoreCluster? then "restore" else "create";
            var operation := Operation(r.key, r.env.operationId, ClusterName(r.key), verb, false);
            Complete(db, r, ClusterInsert) ==
              if InitialUserTarget(r) in db.users then (inserted, Rejected(Internal))
              else (inserted.(users := db.users[InitialUserTarget(r) := user],
                              operations := db.operations + multiset{operation}), Accepted(false))
  {
    hide ClusterName, UserName, StartStep, InstanceStep, UserStep, Complete, ResolvedUserName, ResolvedPassword,
      NewCluster, ClusterBody, Sources, Sorted, DeleteUnder, CascadeEndpoint, DropOf, InitialUserTarget;
    var row := NewCluster(ClusterBody(r), Sources(r), r.env.uid, r.env.now);
    var inserted := db.(clusters := db.clusters[ClusterName(r.key) := row]);
    var user := UserRow(BUILT_IN, ResolvedPassword(ClusterBody(r)), map[]);
    CompleteStep(db, r, ClusterInsert);
    CompleteStep(inserted, r, ClusterUser);
    if InitialUserTarget(r) in db.users {
      CompleteEnd(inserted, r, Rejected(Internal));
    } else {
      LoggedCluster(inserted.(users := db.users[InitialUserTarget(r) := user]), r,
        if r.verb.RestoreCluster? then "restore" else "create");
    }
  }

  ghost predicate UpdateClusterEffect(before: Db, r: Request, u: ClusterUpdates, after: Db, out: Outcome)
    requires ClusterName(r.key) in before.clusters
  {
    var name := ClusterName(r.key);
    var was := before.clusters[name];
    if r.validateOnly then after == before && out == Accepted(false)
    else
      && out == Accepted(false) && OneOperation(before, after, r, name, "update", false)
      && after == before.(clusters := after.clusters, operations := after.operations)
      && after.clusters.Keys == before.clusters.Keys
      && (forall n :: n in before.clusters && n != name ==> after.clusters[n] == before.clusters[n])
      && var row := after.clusters[name];
         && row.uid == was.uid && row.createTime == was.createTime
         && row.updateTime == u.updateTime && row.spec == u.spec
         && row.initialUserName == if u.initialUserName.Some? then u.initialUserName.value else was.initialUserName
  }

  /** The endpoint of one of the cluster's instances, and its drop does not leave it listening. */
  ghost predicate EndpointGoes(before: Db, r: Request, e: string) {
    && (exists id :: Segment(id) && InstanceName(r.key, id) in before.instances && e == EndpointKey(r.key, id))
    && !(e in r.env.drops && r.env.drops[e] == Threw(true))
  }

  /** A cluster goes with all it holds: instances, their endpoints, and users. */
  ghost predicate DeleteClusterEffect(before: Db, r: Request, force: bool, after: Db, out: Outcome) {
    var name := ClusterName(r.key);
    if name !in before.clusters then Refused(before, after, out, NotFound)
    else if !force && (exists n :: n in before.instances && InstancePrefix(r.key) <= n)
    then Refused(before, after, out, FailedPrecondition)
    else if r.validateOnly then after == before && out == Accepted(false)
    else
      && out == Accepted(false) && OneOperation(before, after, r, name, "delete", false)
      && after.clusters == before.clusters - {name}
      && after.instances == (map n | n in before.instances && !(InstancePrefix(r.key) <= n) :: before.instances[n])
      && after.users == (map n | n in before.users && !(UserPrefix(r.key) <= n) :: before.users[n])
      && forall e :: e in after.endpoints <==> e in before.endpoints && !EndpointGoes(before, r, e)
  }

  /** A drop of one of these names goes for this endpoint. */
  ghost predicate GoesFor(r: Request, names: seq<string>, e: string) {
    && (exists n :: n in names && CascadeEndpoint(r.key, n) == Some(e))
    && !(e in r.env.drops && r.env.drops[e] == Threw(true))
  }

  lemma GoesForFirst(r: Request, names: seq<string>, e: string)
    requires names != []
    ensures GoesFor(r, names, e) <==>
      || (CascadeEndpoint(r.key, names[0]) == Some(e) && !(e in r.env.drops && r.env.drops[e] == Threw(true)))
      || GoesFor(r, names[1..], e)
  {
    hide CascadeEndpoint;
    if n :| n in names && CascadeEndpoint(r.key, n) == Some(e) {
      assert n == names[0] || n in names[1..];
    }
    assert forall n :: n in names[1..] ==> n in names;
    assert names[0] in names;
  }

  lemma {:induction false} Cascaded(db: Db, r: Request, names: seq<string>) returns (gone: Db)
    requires r.verb.DeleteCluster? && Fits(r, CascadeDrops(names)) && Fits(r, CascadeInstances)
    ensures gone == db.(endpoints := gone.endpoints)
    ensures forall e :: e in gone.endpoints <==> e in db.endpoints && !GoesFor(r, names, e)
    ensures Complete(db, r, CascadeDrops(names)) == Complete(gone, r, CascadeInstances)
    decreases |names|
  {
    hide Complete, CascadeEndpoint, StartStep, InstanceStep, UserStep, GoesFor;
    if names == [] {
      gone := db;
      CascadeOver(db, r);
    } else {
      var dropped := CascadeOne(db, r, names);
      gone := Cascaded(dropped, r, names[1..]);
      forall e
        ensures e in gone.endpoints <==> e in db.endpoints && !GoesFor(r, names, e)
      {
        GoesForFirst(r, names, e);
      }
    }
  }

  lemma CascadeOver(db: Db, r: Request)
    requires r.verb.DeleteCluster?
    ensures Complete(db, r, CascadeDrops([])) == Complete(db, r, CascadeInstances)
    ensures forall e :: !GoesFor(r, [], e)
  {
    hide Complete, CascadeEndpoint, StartStep, InstanceStep, UserStep;
    CompleteStep(db, r, CascadeDrops([]));
  }

  lemma CascadeOne(db: Db, r: Request, names: seq<string>) returns (dropped: Db)
    requires r.verb.DeleteCluster? && names != []
    ensures dropped == db.(endpoints := dropped.endpoints)
    ensures forall e :: e in dropped.endpoints <==>
              && e in db.endpoints
              && !(CascadeEndpoint(r.key, names[0]) == Some(e) && !(e in r.env.drops && r.env.drops[e] == Threw(true)))
    ensures Complete(db, r, CascadeDrops(names)) == Complete(dropped, r, CascadeDrops(names[1..]))
  {
    hide Complete, CascadeEndpoint, StartStep, InstanceStep, UserStep, NewCluster, DeleteUnder, Sorted;
    CompleteStep(db, r, CascadeDrops(names));
    dropped := Step(db, r, CascadeDrops(names)).0;
  }

  /** The names listed are the cluster's own, so the endpoints dropped are exactly those of its instances. */
  lemma CascadeEndpoints(db: Db, r: Request, e: string)
    requires ValidKey(r.key)
    ensures GoesFor(r, Sorted(InstancesUnder(db, r.key)), e) <==> EndpointGoes(db, r, e)
  {
    hide InstanceName, EndpointKey, ParseInstanceName;
    var names := Sorted(InstancesUnder(db, r.key));
    if n :| n in names && CascadeEndpoint(r.key, n) == Some(e) {
      BuildUndoesParse(n);
      var (k, id) := ParseInstanceName(n).value;
      OwnInstance(k, id);
      InstanceOwnerUnique(n, k, r.key);
    }
    if id :| Segment(id) && InstanceName(r.key, id) in db.instances && e == EndpointKey(r.key, id) {
      OwnInstance(r.key, id);
      ParseUndoesBuild(r.key, id);
      assert InstanceName(r.key, id) in names;
      assert CascadeEndpoint(r.key, InstanceName(r.key, id)) == Some(e);
    }
  }

  lemma OwnInstance(k: Key, id: string)
    ensures InstancePrefix(k) <= InstanceName(k, id)
  {}

  lemma DeletedCluster(db: Db, r: Request)
    requires r.verb.DeleteCluster? && ValidKey(r.key) && ClusterName(r.key) in db.clusters
    requires !r.validateOnly && (r.verb.force || InstancesUnder(db, r.key) == {})
    ensures var (after, out) := Complete(db, r, ClusterList);
            DeleteClusterEffect(db, r, r.verb.force, after, out)
  {
    hide ClusterName, InstancePrefix, UserPrefix, StartStep, InstanceStep, UserStep, Complete, Sorted, ValidKey,
      NewCluster, GoesFor, EndpointGoes, DeleteUnder;
    CompleteStep(db, r, ClusterList);
    var gone := Cascaded(db, r, Sorted(InstancesUnder(db, r.key)));
    forall e
      ensures e in gone.endpoints <==> e in db.endpoints && !EndpointGoes(db, r, e)
    {
      CascadeEndpoints(db, r, e);
    }
    DeletedRows(gone, r);
    DeletedUnder(db.instances, InstancePrefix(r.key));
    DeletedUnder(db.users, UserPrefix(r.key));
    if n :| n in db.instances && InstancePrefix(r.key) <= n { assert n in InstancesUnder(db, r.key); }
  }

  lemma DeletedUnder<V>(table: map<string, V>, prefix: string)
    ensures DeleteUnder(table, prefix) == map n | n in table && !(prefix <= n) :: table[n]
  {}

  lemma DeletedRows(db: Db, r: Request)
    requires r.verb.DeleteCluster?
    ensures var operation := Operation(r.key, r.env.operationId, ClusterName(r.key), "delete", false);
            Complete(db, r, CascadeInstances) ==
              (Db(db.clusters - {ClusterName(r.key)}, DeleteUnder(db.instances, InstancePrefix(r.key)),
                  DeleteUnder(db.users, UserPrefix(r.key)), db.endpoints, db.operations + multiset{operation}),
               Accepted(false))
  {
    hide ClusterName, InstancePrefix, UserPrefix, StartStep, InstanceStep, UserStep, Complete, DeleteUnder, Sorted,
      NewCluster, CascadeEndpoint, DropOf;
    var first := db.(instances := DeleteUnder(db.instances, InstancePrefix(r.key)));
    var second := first.(users := DeleteUnder(db.users, UserPrefix(r.key)));
    CompleteStep(db, r, CascadeInstances);
    CompleteStep(first, r, CascadeUsers);
    CompleteStep(second, r, CascadeCluster);
    LoggedCluster(second.(clusters := db.clusters - {ClusterName(r.key)}), r, "delete");
  }

  ghost predicate ClusterEffect(before: Db, r: Request, after: Db, out: Outcome)
    requires !OnInstance(r.verb) && !OnUser(r.verb)
  {
    match r.verb
    case UpdateCluster(mask, missing) =>
      if ClusterName(r.key) in before.clusters then
        var u := BuildClusterUpdates(before.clusters[ClusterName(r.key)], r.body, mask, r.env.now);
        if u.None? then Refused(before, after, out, InvalidArgument)
        else UpdateClusterEffect(before, r, u.value, after, out)
      else if !missing then Refused(before, after, out, NotFound)
      else if !ClusterRequestOk(r.key.cluster, r.body) then Refused(before, after, out, InvalidArgument)
      else CreateClusterEffect(before, r, after, out)
    case DeleteCluster(force) => DeleteClusterEffect(before, r, force, after, out)
    case _ =>
      if !ClusterRequestOk(r.key.cluster, ClusterBody(r)) then Refused(before, after, out, InvalidArgument)
      else CreateClusterEffect(before, r, after, out)
  }

  lemma DeleteClusterDoes(db: Db, r: Request)
    requires r.verb.DeleteCluster? && ValidKey(r.key)
    ensures var (after, out) := Section(db, r);
            DeleteClusterEffect(db, r, r.verb.force, after, out)
  {
    hide ClusterName, InstancePrefix, StartInstanceUpdate, StartClusterUpdate, StartUserUpdate, InstanceStep, UserStep,
      Complete, Sorted, DeleteUnder, EndpointGoes, ValidKey, NewCluster;
    CompleteStep(db, r, Start);
    if ClusterName(r.key) !in db.clusters {
      CompleteEnd(db, r, Rejected(NotFound));
    } else {
      if !r.verb.force { CompleteStep(db, r, ClusterCount); }
      if n :| n in db.instances && InstancePrefix(r.key) <= n { assert n in InstancesUnder(db, r.key); }
      if !r.verb.force && InstancesUnder(db, r.key) != {} {
        var n :| n in InstancesUnder(db, r.key);
        CompleteEnd(db, r, Rejected(FailedPrecondition));
      } else if r.validateOnly {
        CompleteEnd(db, r, Accepted(false));
      } else {
        DeletedCluster(db, r);
      }
    }
  }

  lemma UpdateClusterDoes(db: Db, r: Request, u: ClusterUpdates)
    requires r.verb.UpdateCluster? && ClusterName(r.key) in db.clusters
    ensures var (after, out) := Complete(db, r, UnlessDry(r, ClusterWrite(u)));
            UpdateClusterEffect(db, r, u, after, out)
  {
    hide ClusterName, StartStep, InstanceStep, UserStep, Complete, Sorted, DeleteUnder, NewCluster, CascadeEndpoint,
      DropOf;
    if r.validateOnly {
      CompleteEnd(db, r, Accepted(false));
    } else {
      CompleteStep(db, r, ClusterWrite(u));
      var row := ApplyClusterUpdates(db.clusters[ClusterName(r.key)], u);
      LoggedCluster(db.(clusters := db.clusters[ClusterName(r.key) := row]), r, "update");
    }
  }

  lemma ClusterSectionDoes(db: Db, r: Request)
    requires !OnInstance(r.verb) && !OnUser(r.verb) && ValidKey(r.key)
    ensures ClusterEffect(db, r, Section(db, r).0, Section(db, r).1)
  {
    hide ClusterName, ClusterRequestOk, BuildClusterUpdates, StartInstanceUpdate, StartUserUpdate, InstanceStep,
      UserStep, ClusterStep, Complete, CreateClusterEffect, UpdateClusterEffect, DeleteClusterEffect, RestoredCluster,
      ValidKey;
    CompleteStep(db, r, Start);
    var next := Step(db, r, Start).1;
    if r.verb.DeleteCluster? {
      DeleteClusterDoes(db, r);
    } else if next.ClusterAbsent? {
      CreateClusterDoes(db, r);
    } else if next.Finished? && next.outcome.Rejected? {
      CompleteEnd(db, r, next.outcome);
    } else {
      var u := BuildClusterUpdates(db.clusters[ClusterName(r.key)], r.body, r.verb.clusterMask, r.env.now);
      UpdateClusterDoes(db, r, u.value);
    }
  }

  // ── Every request ──

  ghost predicate Effect(before: Db, r: Request, after: Db, out: Outcome) {
    if OnInstance(r.verb) then InstanceEffect(before, r, after, out)
    else if OnUser(r.verb) then UserEffect(before, r, after, out)
    else ClusterEffect(before, r, after, out)
  }

  /** What the steps of any section come to, on any database. */
  lemma SectionDoes(db: Db, r: Request)
    requires ValidKey(r.key)
    ensures Effect(db, r, Section(db, r).0, Section(db, r).1)
  {
    hide InstanceEffect, UserEffect, ClusterEffect, Section;
    if OnInstance(r.verb) { InstanceSectionDoes(db, r); }
    else if OnUser(r.verb) { UserSectionDoes(db, r); }
    else { ClusterSectionDoes(db, r); }
  }
}
