/** What every step of every section keeps: the cluster-wide placement rules, and no orphans. */
module AlloySafety {
  import opened Options
  import opened Json
  import opened StringOrder
  import opened AlloyNames
  import opened AlloyTypes
  import opened AlloySections
  import opened AlloyFrames

  ghost function UsersUnder(db: Db, k: Key): set<string> {
    set n | n in db.users && UserPrefix(k) <= n
  }

  ghost predicate HasCluster(db: Db, k: Key) { ClusterName(k) in db.clusters }

  ghost predicate IsPrimary(db: Db, k: Key, n: string) {
    n in InstancesUnder(db, k) && db.instances[n].instanceType == PRIMARY
  }

  ghost predicate IsPool(db: Db, k: Key, n: string) {
    n in InstancesUnder(db, k) && db.instances[n].instanceType == READ_POOL
  }

  /** At most one PRIMARY; no other kind than PRIMARY and READ_POOL; pools only beside a PRIMARY. */
  ghost predicate Placed(db: Db, k: Key) {
    && (forall m, n :: IsPrimary(db, k, m) && IsPrimary(db, k, n) ==> m == n)
    && (forall n :: n in InstancesUnder(db, k) ==> IsPrimary(db, k, n) || IsPool(db, k, n))
    && ((exists n :: IsPool(db, k, n)) ==> exists n :: IsPrimary(db, k, n))
  }

  ghost predicate InstanceNamed(k: Key, n: string) {
    exists id :: Segment(id) && n == InstanceName(k, id)
  }

  ghost predicate UserNamed(k: Key, n: string) {
    exists id :: Segment(id) && n == UserName(k, id)
  }

  /** No instance or user without its cluster, and every name below the cluster is well formed. */
  ghost predicate Housed(db: Db, k: Key) {
    && (forall n :: n in InstancesUnder(db, k) ==> HasCluster(db, k) && InstanceNamed(k, n))
    && (forall n :: n in UsersUnder(db, k) ==> HasCluster(db, k) && UserNamed(k, n))
  }

  ghost predicate ClusterOk(db: Db, k: Key) { Placed(db, k) && Housed(db, k) }

  /** Every name in every table lies below some cluster's name. */
  ghost predicate Rooted(db: Db) {
    && (forall n :: n in db.clusters ==> exists k :: ValidKey(k) && n == ClusterName(k))
    && (forall n :: n in db.instances ==> exists k :: ValidKey(k) && InstancePrefix(k) <= n)
    && (forall n :: n in db.users ==> exists k :: ValidKey(k) && UserPrefix(k) <= n)
    && (forall e :: e in db.endpoints ==> exists k :: ValidKey(k) && EndpointPrefix(k) <= e)
    && (forall op :: op in db.operations ==> ValidKey(op.owner))
  }

  ghost predicate Inv(db: Db) {
    && Rooted(db)
    && forall k :: ValidKey(k) ==> ClusterOk(db, k)
  }

  /** What a section has established by the time it stands at `pc`. */
  ghost predicate PcOk(db: Db, r: Request, pc: Pc) {
    var k := r.key;
    match pc
    case InstanceParent => NewInstanceOk(r)
    case InstanceAbsent => NewInstanceOk(r) && HasCluster(db, k)
    case InstancePlacement => NewInstanceOk(r) && HasCluster(db, k) && InstanceTarget(r) !in db.instances
    case InstanceInsert =>
      && NewInstanceOk(r) && HasCluster(db, k) && InstanceTarget(r) !in db.instances
      && PlacementError(db, k, InstanceTarget(r), RequestedType(r.body)).None?
    case InstanceStart | RollbackDrop | RollbackRow => Removable(db, r)
    case InstanceRetype(u) =>
      && OnInstance(r.verb) && InstanceTarget(r) in db.instances
      && u.instanceType.Some? && u.instanceType.value in INSTANCE_TYPES
    case InstanceWrite(u) =>
      && OnInstance(r.verb) && InstanceTarget(r) in db.instances
      && (u.instanceType.Some? ==> u.instanceType.value == db.instances[InstanceTarget(r)].instanceType)
    case InstancePools => OnInstance(r.verb) && InstanceTarget(r) in db.instances
    case InstanceDrop | InstanceDelete => Removable(db, r)
    case ClusterAbsent => IsValidUserId(ResolvedUserName(ClusterBody(r)))
    case ClusterInsert => IsValidUserId(ResolvedUserName(ClusterBody(r))) && !HasCluster(db, k)
    case ClusterUser =>
      && IsValidUserId(ResolvedUserName(ClusterBody(r))) && HasCluster(db, k)
      && InstancesUnder(db, k) == {} && UsersUnder(db, k) == {}
    case ClusterWrite(_) | ClusterCount | ClusterList | CascadeDrops(_) | CascadeInstances => HasCluster(db, k)
    case CascadeUsers => InstancesUnder(db, k) == {}
    case CascadeCluster => InstancesUnder(db, k) == {} && UsersUnder(db, k) == {}
    case UserParent => NewUserOk(r)
    case UserAbsent => NewUserOk(r) && HasCluster(db, k)
    case UserInsert => NewUserOk(r) && HasCluster(db, k) && UserTarget(r) !in db.users
    case UserWrite(_) | UserDelete => OnUser(r.verb) && UserTarget(r) in db.users
    case _ => true
  }

  ghost predicate NewInstanceOk(r: Request) {
    OnInstance(r.verb) && IsValidInstanceId(r.verb.instanceId) && RequestedType(r.body) in INSTANCE_TYPES
  }

  ghost predicate NewUserOk(r: Request) { OnUser(r.verb) && IsValidUserId(r.verb.userId) }

  /** The row can go without stranding a read pool. */
  ghost predicate Removable(db: Db, r: Request) {
    && OnInstance(r.verb) && InstanceTarget(r) in db.instances
    && (db.instances[InstanceTarget(r)].instanceType == PRIMARY ==>
          !AnotherHasType(db, r.key, InstanceTarget(r), READ_POOL))
  }

  // ── Both depend on the subtree alone ──

  lemma SameUsersUnder(a: Db, b: Db, k: Key)
    requires AgreeOn(a, b, k)
    ensures UsersUnder(a, k) == UsersUnder(b, k)
  {
    hide ClusterName, InstancePrefix, UserPrefix, EndpointPrefix;
    forall n ensures n in UsersUnder(a, k) <==> n in UsersUnder(b, k) {
      if UserPrefix(k) <= n { assert SameRow(a.users, b.users, n); }
    }
  }

  lemma SameCluster(a: Db, b: Db, k: Key)
    requires AgreeOn(a, b, k) && ClusterOk(a, k)
    ensures ClusterOk(b, k)
  {
    SameUnder(a, b, k);
    SameUsersUnder(a, b, k);
    SameTargets(a, b, k, "");
    hide AgreeOn, InstancesUnder, UsersUnder, ClusterName, InstanceNamed, UserNamed;
    assert forall n :: IsPrimary(a, k, n) == IsPrimary(b, k, n);
    assert forall n :: IsPool(a, k, n) == IsPool(b, k, n);
  }

  lemma SameRemovable(a: Db, b: Db, r: Request)
    requires AgreeOn(a, b, r.key) && OnInstance(r.verb)
    ensures Removable(a, r) ==> Removable(b, r)
  {
    hide AgreeOn, InstancesUnder, AnotherHasType, InstanceName;
    SameTargets(a, b, r.key, r.verb.instanceId);
    SameType(a, b, r.key, InstanceTarget(r), READ_POOL);
  }

  lemma SamePc(a: Db, b: Db, r: Request, pc: Pc)
    requires AgreeOn(a, b, r.key) && Fits(r, pc) && PcOk(a, r, pc)
    ensures PcOk(b, r, pc)
  {
    hide RequestedType, IsValidInstanceId, ResolvedUserName, ClusterBody;
    hide AgreeOn, InstancesUnder, UsersUnder, AnotherHasType, PlacementError;
    hide InstanceName, UserName, ClusterName, NewInstanceOk, NewUserOk, Removable;
    SameUnder(a, b, r.key);
    SameUsersUnder(a, b, r.key);
    if OnInstance(r.verb) {
      SameTargets(a, b, r.key, r.verb.instanceId);
      SameRemovable(a, b, r);
      SamePlacement(a, b, r.key, InstanceTarget(r), RequestedType(r.body));
    } else if OnUser(r.verb) {
      SameTargets(a, b, r.key, r.verb.userId);
    } else {
      SameTargets(a, b, r.key, "");
    }
  }

  // ── The placement rule under each kind of write ──

  /** A type the placement rule admits for an existing row is the type the row already has. */
  lemma RetypeKeepsType(db: Db, k: Key, name: string, t: string)
    requires Placed(db, k) && name in InstancesUnder(db, k) && t in INSTANCE_TYPES
    requires PlacementError(db, k, name, t).None?
    ensures t == db.instances[name].instanceType
  {
    hide InstancesUnder;
    assert IsPrimary(db, k, name) || IsPool(db, k, name);
  }

  /** The rule admits a new row exactly when the cluster stays properly placed with it. */
  lemma InsertKeepsPlaced(db: Db, k: Key, name: string, row: InstanceRow)
    requires Placed(db, k) && name !in db.instances && InstancePrefix(k) <= name
    ensures PlacementError(db, k, name, row.instanceType).None? && row.instanceType in INSTANCE_TYPES
       <==> Placed(db.(instances := db.instances[name := row]), k)
  {
    var after := db.(instances := db.instances[name := row]);
    assert InstancesUnder(after, k) == InstancesUnder(db, k) + {name};
    hide InstancesUnder, InstancePrefix;
    assert forall n :: n != name ==> IsPrimary(db, k, n) == IsPrimary(after, k, n);
    assert forall n :: n != name ==> IsPool(db, k, n) == IsPool(after, k, n);
    assert AnotherHasType(db, k, name, PRIMARY) <==> exists n :: IsPrimary(db, k, n) by {
      if n :| IsPrimary(db, k, n) { assert n in InstancesUnder(db, k) && n != name; }
      if AnotherHasType(db, k, name, PRIMARY) {
        var n :| n in InstancesUnder(db, k) && n != name && db.instances[n].instanceType == PRIMARY;
        assert IsPrimary(db, k, n);
      }
    }
    assert name in InstancesUnder(after, k);
    if Placed(after, k) && row.instanceType == PRIMARY {
      assert IsPrimary(after, k, name);
      assert forall n :: IsPrimary(db, k, n) ==> n == name;
    }
    if Placed(after, k) && row.instanceType == READ_POOL {
      assert IsPool(after, k, name);
      var n :| IsPrimary(after, k, n);
      assert IsPrimary(db, k, n);
    }
    if PlacementError(db, k, name, row.instanceType).None? && row.instanceType == READ_POOL {
      var n :| IsPrimary(db, k, n);
      assert IsPrimary(after, k, n);
    }
    if row.instanceType == PRIMARY {
      assert IsPrimary(after, k, name);
    }
  }

  /** A row can go exactly when it is not the PRIMARY of a read pool that stays. */
  lemma RemoveKeepsPlaced(db: Db, k: Key, name: string)
    requires Placed(db, k) && name in InstancesUnder(db, k)
    ensures (db.instances[name].instanceType == PRIMARY ==> !AnotherHasType(db, k, name, READ_POOL))
       <==> Placed(db.(instances := db.instances - {name}), k)
  {
    var after := db.(instances := db.instances - {name});
    assert InstancesUnder(after, k) == InstancesUnder(db, k) - {name};
    hide InstancesUnder;
    assert forall n :: n != name ==> IsPrimary(db, k, n) == IsPrimary(after, k, n);
    assert forall n :: n != name ==> IsPool(db, k, n) == IsPool(after, k, n);
    if n :| IsPool(after, k, n) {
      assert IsPool(db, k, n);
      var p :| IsPrimary(db, k, p);
      assert p != name ==> IsPrimary(after, k, p);
    }
    assert !IsPrimary(after, k, name) && !IsPool(after, k, name);
    if db.instances[name].instanceType == PRIMARY && AnotherHasType(db, k, name, READ_POOL) {
      assert IsPrimary(db, k, name);
      var n :| n in InstancesUnder(db, k) && n != name && db.instances[n].instanceType == READ_POOL;
      assert IsPool(after, k, n);
    }
  }

  lemma RewriteKeepsPlaced(db: Db, k: Key, name: string, row: InstanceRow)
    requires Placed(db, k) && name in InstancesUnder(db, k)
    requires row.instanceType == db.instances[name].instanceType
    ensures Placed(db.(instances := db.instances[name := row]), k)
  {
    var after := db.(instances := db.instances[name := row]);
    assert InstancesUnder(after, k) == InstancesUnder(db, k);
    hide InstancesUnder;
    assert forall n :: IsPrimary(db, k, n) == IsPrimary(after, k, n);
    assert forall n :: IsPool(db, k, n) == IsPool(after, k, n);
  }

  /** Endpoints and operations play no part in the invariant. */
  lemma SameTables(db: Db, after: Db, k: Key)
    requires ClusterOk(db, k)
    requires after.clusters == db.clusters && after.instances == db.instances && after.users == db.users
    ensures ClusterOk(after, k)
  {
    assert InstancesUnder(after, k) == InstancesUnder(db, k);
    assert UsersUnder(after, k) == UsersUnder(db, k);
    hide InstancesUnder, UsersUnder, InstanceNamed, UserNamed;
    assert forall n :: IsPrimary(db, k, n) == IsPrimary(after, k, n);
    assert forall n :: IsPool(db, k, n) == IsPool(after, k, n);
  }

  /** The rule again, as a change to the instances of one cluster that leaves users and cluster alone. */
  lemma InstancesChanged(db: Db, after: Db, k: Key)
    requires Housed(db, k) && Placed(after, k)
    requires after.clusters == db.clusters && after.users == db.users
    requires forall n :: n in InstancesUnder(after, k) && n !in InstancesUnder(db, k) ==>
               HasCluster(db, k) && InstanceNamed(k, n)
    ensures ClusterOk(after, k)
  {
    assert UsersUnder(after, k) == UsersUnder(db, k);
    hide InstancesUnder, UsersUnder, InstanceNamed, UserNamed, Placed;
  }

  // ── Start ──

  lemma RequestedTypeKnown(body: Object)
    requires InstanceTypeOk(body)
    ensures RequestedType(body) in INSTANCE_TYPES
  {
    hide NormalizeEnum;
  }

  lemma UpdatedTypeKnown(row: InstanceRow, body: Object, mask: Option<string>, now: string)
    requires row.instanceType in INSTANCE_TYPES
    ensures var u := BuildInstanceUpdates(row, body, mask, now);
            u.Some? && u.value.instanceType.Some? ==> u.value.instanceType.value in INSTANCE_TYPES
  {
    hide NormalizeEnum, MaskedFields, PatchSpec;
  }

  lemma ExistingInstance(db: Db, k: Key, id: string)
    requires Placed(db, k) && InstanceName(k, id) in db.instances
    ensures InstanceName(k, id) in InstancesUnder(db, k)
    ensures db.instances[InstanceName(k, id)].instanceType in {PRIMARY, READ_POOL}
  {
    OwnPrefixes(k, id);
    hide InstanceName, InstancePrefix;
    assert IsPrimary(db, k, InstanceName(k, id)) || IsPool(db, k, InstanceName(k, id));
  }

  lemma StartInstanceOk(db: Db, r: Request)
    requires ClusterOk(db, r.key) && OnInstance(r.verb)
    ensures PcOk(db, r, StartStep(db, r))
  {
    hide Placed, Housed, BuildInstanceUpdates, RequestedType, InstanceTypeOk, NodeCountOk;
    hide InstanceName, InstancesUnder, AnotherHasType, IsValidInstanceId, PlacementError;
    if InstanceTarget(r) in db.instances {
      ExistingInstance(db, r.key, r.verb.instanceId);
      if r.verb.UpdateInstance? {
        UpdatedTypeKnown(db.instances[InstanceTarget(r)], r.body, r.verb.instanceMask, r.env.now);
      }
    }
    if InstanceTypeOk(r.body) { RequestedTypeKnown(r.body); }
  }

  lemma StartOk(db: Db, r: Request)
    requires ClusterOk(db, r.key)
    ensures PcOk(db, r, StartStep(db, r))
  {
    hide ClusterOk, InstanceName, UserName, ClusterName, ResolvedUserName, RestoredCluster, NetworkConfigured;
    hide BuildClusterUpdates, BuildUserUpdates, UserTypeOk, IsValidClusterId;
    hide BuildInstanceUpdates, RequestedType, InstanceTypeOk, NodeCountOk, IsValidInstanceId;
    if OnInstance(r.verb) { StartInstanceOk(db, r); }
  }

  // ── One step keeps the invariant of its own cluster ──

  ghost predicate Kept(r: Request, next: (Db, Pc)) {
    ClusterOk(next.0, r.key) && PcOk(next.0, r, next.1)
  }

  lemma InstanceLookOk(db: Db, r: Request, pc: Pc)
    requires OnInstance(r.verb) && Looks(pc) && Fits(r, pc)
    requires ClusterOk(db, r.key) && PcOk(db, r, pc)
    ensures PcOk(db, r, InstanceStep(db, r, pc).1)
  {
    hide Placed, Housed, InstanceName, InstancesUnder, AnotherHasType, IsValidInstanceId, PlacementError;
    hide RequestedType, ClusterName, NewInstance, ApplyInstanceUpdates, EndpointKey, DropEndpoint, DropOf;
    if InstanceTarget(r) in db.instances {
      ExistingInstance(db, r.key, r.verb.instanceId);
      if pc.InstanceRetype?
        && PlacementError(db, r.key, InstanceTarget(r), pc.instanceUpdates.instanceType.value).None? {
        RetypeKeepsType(db, r.key, InstanceTarget(r), pc.instanceUpdates.instanceType.value);
      }
    }
  }

  lemma InstanceInsertOk(db: Db, r: Request, row: InstanceRow)
    requires ClusterOk(db, r.key) && NewInstanceOk(r) && HasCluster(db, r.key)
    requires InstanceTarget(r) !in db.instances && row.instanceType == RequestedType(r.body)
    requires PlacementError(db, r.key, InstanceTarget(r), RequestedType(r.body)).None?
    ensures var after := db.(instances := db.instances[InstanceTarget(r) := row]);
            ClusterOk(after, r.key) && Removable(after, r)
  {
    var k, name := r.key, InstanceTarget(r);
    var after := db.(instances := db.instances[name := row]);
    OwnPrefixes(k, r.verb.instanceId);
    ValidIdIsSegment(r.verb.instanceId);
    InsertKeepsPlaced(db, k, name, row);
    assert InstanceNamed(k, name);
    assert InstancesUnder(after, k) == InstancesUnder(db, k) + {name};
    InstancesChanged(db, after, k);
    hide InstancesUnder, InstanceName, InstancePrefix, Housed, InstanceNamed, IsValidInstanceId, RequestedType;
    if row.instanceType == PRIMARY {
      assert forall n :: !IsPrimary(db, k, n);
      assert forall n :: !IsPool(db, k, n);
    }
  }

  lemma RemoveOk(db: Db, r: Request)
    requires ClusterOk(db, r.key) && Removable(db, r)
    ensures ClusterOk(db.(instances := db.instances - {InstanceTarget(r)}), r.key)
  {
    ExistingInstance(db, r.key, r.verb.instanceId);
    var after := db.(instances := db.instances - {InstanceTarget(r)});
    RemoveKeepsPlaced(db, r.key, InstanceTarget(r));
    assert forall n :: n in InstancesUnder(after, r.key) ==> n in InstancesUnder(db, r.key);
    InstancesChanged(db, after, r.key);
  }

  lemma RewriteOk(db: Db, r: Request, row: InstanceRow)
    requires OnInstance(r.verb) && ClusterOk(db, r.key) && InstanceTarget(r) in db.instances
    requires row.instanceType == db.instances[InstanceTarget(r)].instanceType
    ensures ClusterOk(db.(instances := db.instances[InstanceTarget(r) := row]), r.key)
  {
    ExistingInstance(db, r.key, r.verb.instanceId);
    var after := db.(instances := db.instances[InstanceTarget(r) := row]);
    RewriteKeepsPlaced(db, r.key, InstanceTarget(r), row);
    assert forall n :: n in InstancesUnder(after, r.key) ==> n in InstancesUnder(db, r.key);
    InstancesChanged(db, after, r.key);
  }

  lemma EndpointsOk(db: Db, r: Request, endpoints: set<string>)
    requires ClusterOk(db, r.key)
    ensures ClusterOk(db.(endpoints := endpoints), r.key)
    ensures Removable(db, r) ==> Removable(db.(endpoints := endpoints), r)
  {
    var after := db.(endpoints := endpoints);
    SameTables(db, after, r.key);
    assert InstancesUnder(after, r.key) == InstancesUnder(db, r.key);
    hide InstancesUnder, ClusterOk, InstanceName;
  }

  lemma InstanceMakesOk(db: Db, r: Request, pc: Pc)
    requires OnInstance(r.verb) && Makes(pc)
    requires ClusterOk(db, r.key) && PcOk(db, r, pc)
    ensures Kept(r, InstanceStep(db, r, pc))
  {
    hide ClusterOk, InstanceName, InstancesUnder, AnotherHasType, IsValidInstanceId, PlacementError;
    hide RequestedType, ClusterName, EndpointKey, DropOf, ApplyInstanceUpdates, PickSpecFields, SameRow;
    var e := EndpointKey(r.key, r.verb.instanceId);
    if pc.InstanceInsert? {
      var row := NewInstance(r.body, r.env.uid, r.env.now);
      assert row.instanceType == RequestedType(r.body);
      hide NewInstance;
      InstanceInsertOk(db, r, row);
    } else if pc.RollbackRow? {
      RemoveOk(db, r);
    } else {
      EndpointsOk(db, r, db.endpoints + {e});
      EndpointsOk(db, r, db.endpoints - {e});
    }
  }

  lemma InstanceChangesOk(db: Db, r: Request, pc: Pc)
    requires OnInstance(r.verb) && (pc.InstanceWrite? || pc.InstanceDrop? || pc.InstanceDelete?)
    requires ClusterOk(db, r.key) && PcOk(db, r, pc)
    ensures Kept(r, InstanceStep(db, r, pc))
  {
    hide ClusterOk, InstanceName, InstancesUnder, AnotherHasType, IsValidInstanceId, PlacementError;
    hide RequestedType, ClusterName, EndpointKey, DropOf, NewInstance;
    if pc.InstanceWrite? {
      RewriteOk(db, r, ApplyInstanceUpdates(db.instances[InstanceTarget(r)], pc.instanceUpdates));
    } else if pc.InstanceDrop? {
      EndpointsOk(db, r, db.endpoints - {EndpointKey(r.key, r.verb.instanceId)});
    } else {
      RemoveOk(db, r);
    }
  }

  // ── Clusters and users ──

  lemma UnderCleared(db: Db, k: Key)
    ensures InstancesUnder(db.(instances := DeleteUnder(db.instances, InstancePrefix(k))), k) == {}
    ensures UsersUnder(db.(users := DeleteUnder(db.users, UserPrefix(k))), k) == {}
  {}

  /** A cluster with nothing below it meets the invariant whether or not its row exists. */
  lemma EmptyOk(db: Db, k: Key)
    requires InstancesUnder(db, k) == {} && UsersUnder(db, k) == {}
    ensures ClusterOk(db, k)
  {
    hide InstancesUnder, UsersUnder;
  }

  lemma ClusterRowOk(db: Db, k: Key, row: ClusterRow)
    requires ClusterOk(db, k)
    ensures ClusterOk(db.(clusters := db.clusters[ClusterName(k) := row]), k)
  {
    var after := db.(clusters := db.clusters[ClusterName(k) := row]);
    assert InstancesUnder(after, k) == InstancesUnder(db, k);
    assert UsersUnder(after, k) == UsersUnder(db, k);
    hide InstancesUnder, UsersUnder, InstanceNamed, UserNamed, ClusterName;
    assert forall n :: IsPrimary(db, k, n) == IsPrimary(after, k, n);
    assert forall n :: IsPool(db, k, n) == IsPool(after, k, n);
  }

  lemma UsersChanged(db: Db, k: Key, users: map<string, UserRow>)
    requires ClusterOk(db, k)
    requires forall n :: n in users && UserPrefix(k) <= n && n !in db.users ==> HasCluster(db, k) && UserNamed(k, n)
    ensures ClusterOk(db.(users := users), k)
  {
    var after := db.(users := users);
    assert InstancesUnder(after, k) == InstancesUnder(db, k);
    assert forall n :: n in UsersUnder(after, k) ==> n in UsersUnder(db, k) || (HasCluster(db, k) && UserNamed(k, n));
    hide InstancesUnder, UsersUnder, InstanceNamed, UserNamed, ClusterName, UserPrefix;
    assert forall n :: IsPrimary(db, k, n) == IsPrimary(after, k, n);
    assert forall n :: IsPool(db, k, n) == IsPool(after, k, n);
  }

  lemma NoRowNothingBelow(db: Db, k: Key)
    requires Housed(db, k) && !HasCluster(db, k)
    ensures InstancesUnder(db, k) == {} && UsersUnder(db, k) == {}
  {
    hide InstancesUnder, UsersUnder, InstanceNamed, UserNamed, ClusterName;
  }

  lemma ClusterStepOk(db: Db, r: Request, pc: Pc)
    requires !OnInstance(r.verb) && !OnUser(r.verb) && Fits(r, pc)
    requires !pc.Start? && !pc.RecordOperation? && !pc.Finished? && !Cascades(pc) && !pc.CascadeDrops?
    requires ClusterOk(db, r.key) && PcOk(db, r, pc)
    ensures Kept(r, ClusterStep(db, r, pc))
  {
    var k, name, user := r.key, ClusterName(r.key), InitialUserTarget(r);
    OwnPrefixes(k, ResolvedUserName(ClusterBody(r)));
    hide ClusterName, UserName, UserPrefix, InstancePrefix, ResolvedUserName, ResolvedPassword, ClusterBody;
    hide Sources, NewCluster, ApplyClusterUpdates, Sorted, DropEndpoint, CascadeEndpoint, DeleteUnder, DropOf;
    hide Placed, InstancesUnder, UsersUnder;
    if pc.ClusterInsert? {
      NoRowNothingBelow(db, k);
      var after := db.(clusters := db.clusters[name := NewCluster(ClusterBody(r), Sources(r), r.env.uid, r.env.now)]);
      ClusterRowOk(db, k, NewCluster(ClusterBody(r), Sources(r), r.env.uid, r.env.now));
      SameBelow(db, after, k);
    } else if pc.ClusterUser? {
      assert UserNamed(k, user);
      hide Housed, UserNamed;
      var row := UserRow(BUILT_IN, ResolvedPassword(ClusterBody(r)), map[]);
      UsersChanged(db, k, db.users[user := row]);
    } else if pc.ClusterWrite? {
      hide Housed;
      ClusterRowOk(db, k, ApplyClusterUpdates(db.clusters[name], pc.clusterUpdates));
    }
  }

  lemma SameBelow(db: Db, after: Db, k: Key)
    requires after.instances == db.instances && after.users == db.users
    ensures InstancesUnder(after, k) == InstancesUnder(db, k) && UsersUnder(after, k) == UsersUnder(db, k)
  {}

  lemma CascadeOk(db: Db, r: Request, pc: Pc)
    requires r.verb.DeleteCluster? && (Cascades(pc) || pc.CascadeDrops?)
    requires ClusterOk(db, r.key) && PcOk(db, r, pc)
    ensures Kept(r, ClusterStep(db, r, pc))
  {
    hide ClusterName, UserName, UserPrefix, InstancePrefix, ClusterBody, InitialUserTarget;
    hide Sources, NewCluster, ApplyClusterUpdates, Sorted, CascadeEndpoint, DeleteUnder, DropOf;
    hide ClusterOk, InstancesUnder, UsersUnder;
    var k := r.key;
    if pc.CascadeDrops? {
      if pc.names != [] && CascadeEndpoint(k, pc.names[0]).Some? {
        SameTables(db, db.(endpoints := db.endpoints - {CascadeEndpoint(k, pc.names[0]).value}), k);
      }
    } else {
      UnderCleared(db, k);
      if pc.CascadeInstances? {
        CascadeInstancesOk(db, k);
      } else if pc.CascadeUsers? {
        var after := db.(users := DeleteUnder(db.users, UserPrefix(k)));
        InstancesSame(db, after, k);
        EmptyOk(after, k);
      } else {
        var after := db.(clusters := db.clusters - {ClusterName(k)});
        SameBelow(db, after, k);
        EmptyOk(after, k);
      }
    }
  }

  lemma InstancesSame(db: Db, after: Db, k: Key)
    requires after.instances == db.instances
    ensures InstancesUnder(after, k) == InstancesUnder(db, k)
  {}

  lemma CascadeInstancesOk(db: Db, k: Key)
    requires ClusterOk(db, k)
    ensures ClusterOk(db.(instances := DeleteUnder(db.instances, InstancePrefix(k))), k)
  {
    var after := db.(instances := DeleteUnder(db.instances, InstancePrefix(k)));
    UnderCleared(db, k);
    assert UsersUnder(after, k) == UsersUnder(db, k);
    hide InstancesUnder, UsersUnder, InstanceNamed, UserNamed, ClusterName;
  }

  lemma UserStepOk(db: Db, r: Request, pc: Pc)
    requires OnUser(r.verb) && Fits(r, pc)
    requires !pc.Start? && !pc.RecordOperation? && !pc.Finished?
    requires ClusterOk(db, r.key) && PcOk(db, r, pc)
    ensures Kept(r, UserStep(db, r, pc))
  {
    hide ClusterName, UserName, UserPrefix, InstancePrefix, NewUser, ApplyUserUpdates, ClusterOk;
    hide InstancesUnder, UsersUnder, InstanceName;
    var k, name := r.key, UserTarget(r);
    OwnPrefixes(k, r.verb.userId);
    if pc.UserInsert? {
      assert UserNamed(k, name);
      hide UserNamed;
      UsersChanged(db, k, db.users[name := NewUser(r.body)]);
    } else if pc.UserWrite? {
      UsersChanged(db, k, db.users[name := ApplyUserUpdates(db.users[name], pc.userUpdates)]);
    } else if pc.UserDelete? {
      UsersChanged(db, k, db.users - {name});
    }
  }

  /** Every step keeps its own cluster's invariant and what its section has established. */
  lemma StepOk(db: Db, r: Request, pc: Pc)
    requires Fits(r, pc) && !pc.Finished?
    requires ClusterOk(db, r.key) && PcOk(db, r, pc)
    ensures Kept(r, Step(db, r, pc))
  {
    hide ClusterOk, InstanceStep, ClusterStep, UserStep, StartStep;
    if pc.Start? {
      StartOk(db, r);
    } else if pc.RecordOperation? {
      hide InstanceTarget;
      SameTables(db, Logged(db, r, pc.verb, pc.failed), r.key);
    } else if OnInstance(r.verb) {
      if Looks(pc) {
        InstanceLookOk(db, r, pc);
        InstanceLooks(db, db, r, pc);
      } else if Makes(pc) {
        InstanceMakesOk(db, r, pc);
      } else {
        InstanceChangesOk(db, r, pc);
      }
    } else if OnUser(r.verb) {
      UserStepOk(db, r, pc);
    } else if Cascades(pc) || pc.CascadeDrops? {
      CascadeOk(db, r, pc);
    } else {
      ClusterStepOk(db, r, pc);
    }
  }
}
