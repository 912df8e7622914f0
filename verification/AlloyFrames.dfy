/** What one cluster's section reads and writes: its own subtree of every table, and nothing else. */
module AlloyFrames {
  import opened Options
  import opened StringOrder
  import opened AlloyNames
  import opened AlloyTypes
  import opened AlloySections

  ghost predicate SameRow<V>(a: map<string, V>, b: map<string, V>, n: string) {
    if n in a then n in b && a[n] == b[n] else n !in b
  }

  ghost predicate SameEndpoint(a: set<string>, b: set<string>, e: string) { e in a <==> e in b }

  ghost predicate SameCount(a: multiset<Operation>, b: multiset<Operation>, op: Operation) { a[op] == b[op] }

  /** Both databases hold the same subtree of `k`: its row, instances, users, endpoints and operations. */
  ghost predicate AgreeOn(a: Db, b: Db, k: Key) {
    && SameRow(a.clusters, b.clusters, ClusterName(k))
    && (forall n :: InstancePrefix(k) <= n ==> SameRow(a.instances, b.instances, n))
    && (forall n :: UserPrefix(k) <= n ==> SameRow(a.users, b.users, n))
    && (forall e :: EndpointPrefix(k) <= e ==> SameEndpoint(a.endpoints, b.endpoints, e))
    && (forall op: Operation :: op.owner == k ==> SameCount(a.operations, b.operations, op))
  }

  /** Both databases hold the same everywhere outside the subtree of `k`. */
  ghost predicate AgreeOff(a: Db, b: Db, k: Key) {
    && (forall n :: n != ClusterName(k) ==> SameRow(a.clusters, b.clusters, n))
    && (forall n :: !(InstancePrefix(k) <= n) ==> SameRow(a.instances, b.instances, n))
    && (forall n :: !(UserPrefix(k) <= n) ==> SameRow(a.users, b.users, n))
    && (forall e :: !(EndpointPrefix(k) <= e) ==> SameEndpoint(a.endpoints, b.endpoints, e))
    && (forall op: Operation :: op.owner != k ==> SameCount(a.operations, b.operations, op))
  }

  /** A cascade only ever walks names below its own cluster. */
  ghost predicate OwnNames(k: Key, pc: Pc) {
    pc.CascadeDrops? ==> forall n :: n in pc.names ==> InstancePrefix(k) <= n
  }

  /** Subtrees of different clusters are disjoint in all five tables. */
  lemma Disjoint(a: Db, b: Db, k: Key, other: Key)
    requires ValidKey(k) && ValidKey(other) && k != other
    requires AgreeOff(a, b, k)
    ensures AgreeOn(a, b, other)
  {
    hide ClusterName, InstancePrefix, UserPrefix, EndpointPrefix, ValidKey;
    if ClusterName(other) == ClusterName(k) { ClusterNameInjective(k, other); }
    forall n | InstancePrefix(other) <= n ensures SameRow(a.instances, b.instances, n) {
      if InstancePrefix(k) <= n { InstanceOwnerUnique(n, k, other); }
    }
    forall n | UserPrefix(other) <= n ensures SameRow(a.users, b.users, n) {
      if UserPrefix(k) <= n { UserOwnerUnique(n, k, other); }
    }
    forall e | EndpointPrefix(other) <= e ensures SameEndpoint(a.endpoints, b.endpoints, e) {
      if EndpointPrefix(k) <= e { EndpointOwnerUnique(e, k, other); }
    }
  }

  lemma AgreeOnTransitive(a: Db, b: Db, c: Db, k: Key)
    requires AgreeOn(a, b, k) && AgreeOn(b, c, k)
    ensures AgreeOn(a, c, k)
  {
    hide ClusterName, InstancePrefix, UserPrefix, EndpointPrefix;
    assert SameRow(a.clusters, b.clusters, ClusterName(k));
    forall n | InstancePrefix(k) <= n ensures SameRow(a.instances, c.instances, n) {
      assert SameRow(a.instances, b.instances, n) && SameRow(b.instances, c.instances, n);
    }
    forall n | UserPrefix(k) <= n ensures SameRow(a.users, c.users, n) {
      assert SameRow(a.users, b.users, n) && SameRow(b.users, c.users, n);
    }
    forall e | EndpointPrefix(k) <= e ensures SameEndpoint(a.endpoints, c.endpoints, e) {
      assert SameEndpoint(a.endpoints, b.endpoints, e) && SameEndpoint(b.endpoints, c.endpoints, e);
    }
    forall op: Operation | op.owner == k ensures SameCount(a.operations, c.operations, op) {
      assert SameCount(a.operations, b.operations, op) && SameCount(b.operations, c.operations, op);
    }
  }

  lemma AgreeOnSymmetric(a: Db, b: Db, k: Key)
    requires AgreeOn(a, b, k)
    ensures AgreeOn(b, a, k)
  {
    hide ClusterName, InstancePrefix, UserPrefix, EndpointPrefix;
    assert SameRow(a.clusters, b.clusters, ClusterName(k));
    forall n | InstancePrefix(k) <= n ensures SameRow(b.instances, a.instances, n) {
      assert SameRow(a.instances, b.instances, n);
    }
    forall n | UserPrefix(k) <= n ensures SameRow(b.users, a.users, n) {
      assert SameRow(a.users, b.users, n);
    }
    forall e | EndpointPrefix(k) <= e ensures SameEndpoint(b.endpoints, a.endpoints, e) {
      assert SameEndpoint(a.endpoints, b.endpoints, e);
    }
    forall op: Operation | op.owner == k ensures SameCount(b.operations, a.operations, op) {
      assert SameCount(a.operations, b.operations, op);
    }
  }

  lemma AgreeOffTransitive(a: Db, b: Db, c: Db, k: Key)
    requires AgreeOff(a, b, k) && AgreeOff(b, c, k)
    ensures AgreeOff(a, c, k)
  {
    hide ClusterName, InstancePrefix, UserPrefix, EndpointPrefix;
    forall n | n != ClusterName(k) ensures SameRow(a.clusters, c.clusters, n) {
      assert SameRow(a.clusters, b.clusters, n) && SameRow(b.clusters, c.clusters, n);
    }
    forall n | !(InstancePrefix(k) <= n) ensures SameRow(a.instances, c.instances, n) {
      assert SameRow(a.instances, b.instances, n) && SameRow(b.instances, c.instances, n);
    }
    forall n | !(UserPrefix(k) <= n) ensures SameRow(a.users, c.users, n) {
      assert SameRow(a.users, b.users, n) && SameRow(b.users, c.users, n);
    }
    forall e | !(EndpointPrefix(k) <= e) ensures SameEndpoint(a.endpoints, c.endpoints, e) {
      assert SameEndpoint(a.endpoints, b.endpoints, e) && SameEndpoint(b.endpoints, c.endpoints, e);
    }
    forall op: Operation | op.owner != k ensures SameCount(a.operations, c.operations, op) {
      assert SameCount(a.operations, b.operations, op) && SameCount(b.operations, c.operations, op);
    }
  }

  // ── Reads depend only on the subtree ──

  lemma SameUnder(a: Db, b: Db, k: Key)
    requires AgreeOn(a, b, k)
    ensures InstancesUnder(a, k) == InstancesUnder(b, k)
    ensures forall n :: n in InstancesUnder(a, k) ==> a.instances[n] == b.instances[n]
  {
    hide ClusterName, InstancePrefix, UserPrefix, EndpointPrefix;
    forall n ensures n in InstancesUnder(a, k) <==> n in InstancesUnder(b, k) {
      if InstancePrefix(k) <= n { assert SameRow(a.instances, b.instances, n); }
    }
    forall n | n in InstancesUnder(a, k) ensures a.instances[n] == b.instances[n] {
      assert SameRow(a.instances, b.instances, n);
    }
  }

  lemma SameType(a: Db, b: Db, k: Key, name: string, t: string)
    requires AgreeOn(a, b, k)
    ensures AnotherHasType(a, k, name, t) == AnotherHasType(b, k, name, t)
  {
    SameUnder(a, b, k);
    hide InstancesUnder, AgreeOn;
  }

  lemma SamePlacement(a: Db, b: Db, k: Key, name: string, t: string)
    requires AgreeOn(a, b, k)
    ensures PlacementError(a, k, name, t) == PlacementError(b, k, name, t)
  {
    SameType(a, b, k, name, PRIMARY);
    hide AnotherHasType, AgreeOn;
  }

  lemma OwnPrefixes(k: Key, id: string)
    ensures InstancePrefix(k) <= InstanceName(k, id)
    ensures UserPrefix(k) <= UserName(k, id)
    ensures EndpointPrefix(k) <= EndpointKey(k, id)
  {}

  /** The rows a request addresses by name are the same on both sides. */
  lemma SameTargets(a: Db, b: Db, k: Key, id: string)
    requires AgreeOn(a, b, k)
    ensures SameRow(a.clusters, b.clusters, ClusterName(k))
    ensures SameRow(a.instances, b.instances, InstanceName(k, id))
    ensures SameRow(a.users, b.users, UserName(k, id))
  {
    OwnPrefixes(k, id);
    hide InstanceName, UserName, InstancePrefix, UserPrefix, ClusterName;
  }

  /** The endpoint a cascade drops for one of its own names is an endpoint of its own cluster. */
  lemma CascadeEndpointOwned(k: Key, name: string)
    requires ValidKey(k) && InstancePrefix(k) <= name
    requires CascadeEndpoint(k, name).Some?
    ensures EndpointPrefix(k) <= CascadeEndpoint(k, name).value
    ensures exists id :: Segment(id) && name == InstanceName(k, id)
                      && CascadeEndpoint(k, name).value == EndpointKey(k, id)
  {
    hide ParseInstanceName;
    var (parsed, id) := ParseInstanceName(name).value;
    BuildUndoesParse(name);
    OwnPrefixes(parsed, id);
    InstanceOwnerUnique(name, parsed, k);
    assert Segment(id) && name == InstanceName(k, id) && CascadeEndpoint(k, name).value == EndpointKey(k, id);
  }

  // ── Writes stay in the subtree, and depend only on it ──

  /** One instance row, cluster row or user row written alike on both sides. */
  lemma PutInstance(a: Db, b: Db, k: Key, n: string, row: InstanceRow)
    requires InstancePrefix(k) <= n
    ensures AgreeOff(a, a.(instances := a.instances[n := row]), k)
    ensures AgreeOff(a, a.(instances := a.instances - {n}), k)
    ensures AgreeOn(a, b, k) ==>
      && AgreeOn(a.(instances := a.instances[n := row]), b.(instances := b.instances[n := row]), k)
      && AgreeOn(a.(instances := a.instances - {n}), b.(instances := b.instances - {n}), k)
  {
    hide ClusterName, InstancePrefix, UserPrefix, EndpointPrefix;
    if AgreeOn(a, b, k) {
      var putA, putB, cutA, cutB := a.instances[n := row], b.instances[n := row], a.instances - {n}, b.instances - {n};
      forall m | InstancePrefix(k) <= m ensures SameRow(putA, putB, m) {
        assert SameRow(a.instances, b.instances, m);
      }
      forall m | InstancePrefix(k) <= m ensures SameRow(cutA, cutB, m) {
        assert SameRow(a.instances, b.instances, m);
      }
    }
  }

  lemma PutUser(a: Db, b: Db, k: Key, n: string, row: UserRow)
    requires UserPrefix(k) <= n
    ensures AgreeOff(a, a.(users := a.users[n := row]), k)
    ensures AgreeOff(a, a.(users := a.users - {n}), k)
    ensures AgreeOn(a, b, k) ==>
      && AgreeOn(a.(users := a.users[n := row]), b.(users := b.users[n := row]), k)
      && AgreeOn(a.(users := a.users - {n}), b.(users := b.users - {n}), k)
  {
    hide ClusterName, InstancePrefix, UserPrefix, EndpointPrefix;
    if AgreeOn(a, b, k) {
      var putA, putB, cutA, cutB := a.users[n := row], b.users[n := row], a.users - {n}, b.users - {n};
      forall m | UserPrefix(k) <= m ensures SameRow(putA, putB, m) {
        assert SameRow(a.users, b.users, m);
      }
      forall m | UserPrefix(k) <= m ensures SameRow(cutA, cutB, m) {
        assert SameRow(a.users, b.users, m);
      }
    }
  }

  lemma PutCluster(a: Db, b: Db, k: Key, row: ClusterRow)
    ensures AgreeOff(a, a.(clusters := a.clusters[ClusterName(k) := row]), k)
    ensures AgreeOff(a, a.(clusters := a.clusters - {ClusterName(k)}), k)
    ensures AgreeOn(a, b, k) ==>
      && AgreeOn(a.(clusters := a.clusters[ClusterName(k) := row]),
                 b.(clusters := b.clusters[ClusterName(k) := row]), k)
      && AgreeOn(a.(clusters := a.clusters - {ClusterName(k)}),
                 b.(clusters := b.clusters - {ClusterName(k)}), k)
  {
    hide ClusterName, InstancePrefix, UserPrefix, EndpointPrefix;
  }

  lemma PutEndpoint(a: Db, b: Db, k: Key, e: string)
    requires EndpointPrefix(k) <= e
    ensures AgreeOff(a, a.(endpoints := a.endpoints + {e}), k)
    ensures AgreeOff(a, a.(endpoints := a.endpoints - {e}), k)
    ensures AgreeOn(a, b, k) ==>
      && AgreeOn(a.(endpoints := a.endpoints + {e}), b.(endpoints := b.endpoints + {e}), k)
      && AgreeOn(a.(endpoints := a.endpoints - {e}), b.(endpoints := b.endpoints - {e}), k)
  {
    hide ClusterName, InstancePrefix, UserPrefix, EndpointPrefix;
    if AgreeOn(a, b, k) {
      forall f | EndpointPrefix(k) <= f ensures (f in a.endpoints <==> f in b.endpoints) {
        assert SameEndpoint(a.endpoints, b.endpoints, f);
      }
    }
  }

  lemma ClearSubtree(a: Db, b: Db, k: Key)
    ensures AgreeOff(a, a.(instances := DeleteUnder(a.instances, InstancePrefix(k))), k)
    ensures AgreeOff(a, a.(users := DeleteUnder(a.users, UserPrefix(k))), k)
    ensures AgreeOn(a, b, k) ==>
      && AgreeOn(a.(instances := DeleteUnder(a.instances, InstancePrefix(k))),
                 b.(instances := DeleteUnder(b.instances, InstancePrefix(k))), k)
      && AgreeOn(a.(users := DeleteUnder(a.users, UserPrefix(k))),
                 b.(users := DeleteUnder(b.users, UserPrefix(k))), k)
  {
    hide ClusterName, InstancePrefix, UserPrefix, EndpointPrefix;
  }

  lemma LogFrame(a: Db, b: Db, r: Request, verb: string, failed: bool)
    ensures AgreeOff(a, Logged(a, r, verb, failed), r.key)
    ensures AgreeOn(a, b, r.key) ==> AgreeOn(Logged(a, r, verb, failed), Logged(b, r, verb, failed), r.key)
  {
    hide ClusterName, InstancePrefix, UserPrefix, EndpointPrefix, InstanceTarget;
    if AgreeOn(a, b, r.key) {
      forall op: Operation | op.owner == r.key
        ensures SameCount(Logged(a, r, verb, failed).operations, Logged(b, r, verb, failed).operations, op)
      {
        assert SameCount(a.operations, b.operations, op);
      }
    }
  }

  /** A step leaves everything outside its cluster's subtree alone. */
  ghost predicate Framed(a: Db, r: Request, next: (Db, Pc)) {
    AgreeOff(a, next.0, r.key) && OwnNames(r.key, next.1)
  }

  /** A step taken from two databases that agree on its cluster's subtree does the same to both. */
  ghost predicate Local(r: Request, x: (Db, Pc), y: (Db, Pc)) {
    x.1 == y.1 && AgreeOn(x.0, y.0, r.key)
  }

  lemma DropFrame(a: Db, b: Db, k: Key, e: string, outcome: DropOutcome)
    requires EndpointPrefix(k) <= e
    ensures AgreeOff(a, DropEndpoint(a, e, outcome), k)
    ensures AgreeOn(a, b, k) ==> AgreeOn(DropEndpoint(a, e, outcome), DropEndpoint(b, e, outcome), k)
  {
    PutEndpoint(a, b, k, e);
    hide AgreeOn;
  }

  lemma StartFrame(a: Db, b: Db, r: Request)
    requires AgreeOn(a, b, r.key)
    ensures StartStep(a, r) == StartStep(b, r)
    ensures !StartStep(a, r).CascadeDrops?
  {
    hide BuildInstanceUpdates, BuildClusterUpdates, BuildUserUpdates;
    hide InstanceRequestOk, ClusterRequestOk, UserTypeOk, IsValidUserId, ClusterBody;
    hide ClusterName, InstancePrefix, UserPrefix;
    assert SameRow(a.clusters, b.clusters, ClusterName(r.key));
    if OnInstance(r.verb) { assert SameRow(a.instances, b.instances, InstanceTarget(r)); }
    if OnUser(r.verb) { assert SameRow(a.users, b.users, UserTarget(r)); }
  }

  /** Program points that only look. */
  predicate Looks(pc: Pc) {
    || pc.InstanceParent? || pc.InstanceAbsent? || pc.InstancePlacement? || pc.InstanceRetype?
    || pc.InstancePools? || pc.ClusterAbsent? || pc.ClusterCount? || pc.ClusterList?
  }

  lemma InstanceLooks(a: Db, b: Db, r: Request, pc: Pc)
    requires OnInstance(r.verb) && Looks(pc)
    ensures InstanceStep(a, r, pc).0 == a && !InstanceStep(a, r, pc).1.CascadeDrops?
    ensures AgreeOn(a, b, r.key) ==> InstanceStep(a, r, pc).1 == InstanceStep(b, r, pc).1
  {
    hide AgreeOn, PlacementError, AnotherHasType;
    hide RequestedType, InstanceName, ClusterName, EndpointKey, DropEndpoint, NewInstance, ApplyInstanceUpdates;
    if AgreeOn(a, b, r.key) {
      SameTargets(a, b, r.key, r.verb.instanceId);
      SamePlacement(a, b, r.key, InstanceTarget(r), RequestedType(r.body));
      SameType(a, b, r.key, InstanceTarget(r), READ_POOL);
      if pc.InstanceRetype? && pc.instanceUpdates.instanceType.Some? {
        SamePlacement(a, b, r.key, InstanceTarget(r), pc.instanceUpdates.instanceType.value);
      }
    }
  }

  /** Program points at which an instance comes into being or is taken back. */
  predicate Makes(pc: Pc) {
    pc.InstanceInsert? || pc.InstanceStart? || pc.RollbackDrop? || pc.RollbackRow?
  }

  lemma InstanceMakes(a: Db, b: Db, r: Request, pc: Pc)
    requires OnInstance(r.verb) && Makes(pc)
    ensures Framed(a, r, InstanceStep(a, r, pc))
    ensures AgreeOn(a, b, r.key) ==> Local(r, InstanceStep(a, r, pc), InstanceStep(b, r, pc))
  {
    hide AgreeOn, AgreeOff, PlacementError, AnotherHasType, DropEndpoint;
    hide NewInstance, ApplyInstanceUpdates, RequestedType, EndpointKey, DropOf, InstanceName;
    hide EndpointPrefix, InstancePrefix, UserPrefix, UserName, ClusterName;
    var k, name, e := r.key, InstanceTarget(r), EndpointKey(r.key, r.verb.instanceId);
    OwnPrefixes(k, r.verb.instanceId);
    if AgreeOn(a, b, k) { SameTargets(a, b, k, r.verb.instanceId); }
    if pc.InstanceInsert? || pc.RollbackRow? {
      PutInstance(a, b, k, name, NewInstance(r.body, r.env.uid, r.env.now));
      SelfOff(a, k);
    } else if pc.InstanceStart? {
      PutEndpoint(a, b, k, e);
    } else {
      DropFrame(a, b, k, e, DropOf(r.env, e));
    }
  }

  lemma InstanceChanges(a: Db, b: Db, r: Request, pc: Pc)
    requires OnInstance(r.verb) && !Looks(pc) && !Makes(pc) && !pc.CascadeDrops?
    ensures Framed(a, r, InstanceStep(a, r, pc))
    ensures AgreeOn(a, b, r.key) ==> Local(r, InstanceStep(a, r, pc), InstanceStep(b, r, pc))
  {
    hide AgreeOn, AgreeOff, PlacementError, AnotherHasType, DropEndpoint;
    hide NewInstance, ApplyInstanceUpdates, RequestedType, EndpointKey, DropOf, InstanceName;
    hide EndpointPrefix, InstancePrefix, UserPrefix, UserName, ClusterName;
    var k, name, e := r.key, InstanceTarget(r), EndpointKey(r.key, r.verb.instanceId);
    OwnPrefixes(k, r.verb.instanceId);
    SelfOff(a, k);
    if AgreeOn(a, b, k) { SameTargets(a, b, k, r.verb.instanceId); }
    if pc.InstanceWrite? && name in a.instances {
      PutInstance(a, b, k, name, ApplyInstanceUpdates(a.instances[name], pc.instanceUpdates));
    } else if pc.InstanceDrop? {
      DropFrame(a, b, k, e, DropOf(r.env, e));
    } else if pc.InstanceDelete? {
      PutInstance(a, b, k, name, NewInstance(r.body, r.env.uid, r.env.now));
    }
  }

  lemma InstanceFrame(a: Db, b: Db, r: Request, pc: Pc)
    requires OnInstance(r.verb) && !pc.CascadeDrops?
    ensures Framed(a, r, InstanceStep(a, r, pc))
    ensures AgreeOn(a, b, r.key) ==> Local(r, InstanceStep(a, r, pc), InstanceStep(b, r, pc))
  {
    hide AgreeOn, AgreeOff, InstanceStep;
    if Looks(pc) {
      InstanceLooks(a, b, r, pc);
      InstanceLooks(b, b, r, pc);
      SelfOff(a, r.key);
    } else if Makes(pc) {
      InstanceMakes(a, b, r, pc);
    } else {
      InstanceChanges(a, b, r, pc);
    }
  }

  lemma SelfOff(a: Db, k: Key)
    ensures AgreeOff(a, a, k) && AgreeOn(a, a, k)
  {}

  lemma CascadeFrame(a: Db, b: Db, r: Request, pc: Pc)
    requires ValidKey(r.key) && OwnNames(r.key, pc) && pc.CascadeDrops?
    ensures Framed(a, r, ClusterStep(a, r, pc))
    ensures AgreeOn(a, b, r.key) ==> Local(r, ClusterStep(a, r, pc), ClusterStep(b, r, pc))
  {
    SelfOff(a, r.key);
    if pc.names == [] { return; }
    assert pc.names[0] in pc.names;
    if CascadeEndpoint(r.key, pc.names[0]).Some? {
      CascadeEndpointOwned(r.key, pc.names[0]);
      var e := CascadeEndpoint(r.key, pc.names[0]).value;
      DropFrame(a, b, r.key, e, DropOf(r.env, e));
    }
    assert forall n :: n in pc.names[1..] ==> n in pc.names;
    hide AgreeOn, AgreeOff, DropEndpoint, CascadeEndpoint, DropOf, InstancePrefix, EndpointPrefix;
  }

  lemma UnderPrefix(db: Db, k: Key)
    ensures forall n :: n in InstancesUnder(db, k) ==> InstancePrefix(k) <= n
  {}

  lemma ClusterLooks(a: Db, b: Db, r: Request, pc: Pc)
    requires Looks(pc)
    ensures ClusterStep(a, r, pc).0 == a && OwnNames(r.key, ClusterStep(a, r, pc).1)
    ensures AgreeOn(a, b, r.key) ==> ClusterStep(a, r, pc).1 == ClusterStep(b, r, pc).1
  {
    hide AgreeOn, InstancesUnder, Sorted, ClusterName, InstancePrefix, UserPrefix, DropEndpoint, CascadeEndpoint;
    hide NewCluster, ApplyClusterUpdates, ClusterBody, Sources, DeleteUnder, InitialUserTarget;
    UnderPrefix(a, r.key);
    if AgreeOn(a, b, r.key) {
      SameTargets(a, b, r.key, "");
      SameUnder(a, b, r.key);
    }
  }

  predicate Cascades(pc: Pc) { pc.CascadeInstances? || pc.CascadeUsers? || pc.CascadeCluster? }

  lemma ClusterCascades(a: Db, b: Db, r: Request, pc: Pc)
    requires Cascades(pc)
    ensures Framed(a, r, ClusterStep(a, r, pc))
    ensures AgreeOn(a, b, r.key) ==> Local(r, ClusterStep(a, r, pc), ClusterStep(b, r, pc))
  {
    hide AgreeOn, AgreeOff, DeleteUnder, InstancesUnder, Sorted, ClusterBody, Sources, NewCluster;
    hide ClusterName, InstancePrefix, UserPrefix, EndpointPrefix, InitialUserTarget, ApplyClusterUpdates;
    ClearSubtree(a, b, r.key);
    PutCluster(a, b, r.key, NewCluster(r.body, map[], "", ""));
  }

  lemma ClusterWrites(a: Db, b: Db, r: Request, pc: Pc)
    requires !Looks(pc) && !pc.CascadeDrops? && !Cascades(pc)
    ensures Framed(a, r, ClusterStep(a, r, pc))
    ensures AgreeOn(a, b, r.key) ==> Local(r, ClusterStep(a, r, pc), ClusterStep(b, r, pc))
  {
    hide AgreeOn, AgreeOff, DeleteUnder, InstancesUnder, Sorted;
    hide NewCluster, ApplyClusterUpdates, ResolvedPassword, ResolvedUserName, ClusterBody, Sources;
    hide ClusterName, UserName, InstancePrefix, UserPrefix, EndpointPrefix;
    var k, name, user := r.key, ClusterName(r.key), InitialUserTarget(r);
    OwnPrefixes(k, ResolvedUserName(ClusterBody(r)));
    SelfOff(a, k);
    if AgreeOn(a, b, k) { SameTargets(a, b, k, ResolvedUserName(ClusterBody(r))); }
    if pc.ClusterInsert? {
      PutCluster(a, b, k, NewCluster(ClusterBody(r), Sources(r), r.env.uid, r.env.now));
    } else if pc.ClusterWrite? && name in a.clusters {
      PutCluster(a, b, k, ApplyClusterUpdates(a.clusters[name], pc.clusterUpdates));
    } else if pc.ClusterUser? {
      PutUser(a, b, k, user, UserRow(BUILT_IN, ResolvedPassword(ClusterBody(r)), map[]));
    }
  }

  lemma ClusterFrame(a: Db, b: Db, r: Request, pc: Pc)
    requires ValidKey(r.key) && OwnNames(r.key, pc)
    ensures Framed(a, r, ClusterStep(a, r, pc))
    ensures AgreeOn(a, b, r.key) ==> Local(r, ClusterStep(a, r, pc), ClusterStep(b, r, pc))
  {
    hide AgreeOn, AgreeOff, ClusterStep;
    if pc.CascadeDrops? {
      CascadeFrame(a, b, r, pc);
    } else if Looks(pc) {
      ClusterLooks(a, b, r, pc);
      ClusterLooks(b, b, r, pc);
      SelfOff(a, r.key);
    } else if Cascades(pc) {
      ClusterCascades(a, b, r, pc);
    } else {
      ClusterWrites(a, b, r, pc);
    }
  }

  lemma UserFrame(a: Db, b: Db, r: Request, pc: Pc)
    requires OnUser(r.verb) && !pc.CascadeDrops?
    ensures Framed(a, r, UserStep(a, r, pc))
    ensures AgreeOn(a, b, r.key) ==> Local(r, UserStep(a, r, pc), UserStep(b, r, pc))
  {
    hide AgreeOn, AgreeOff, NewUser, ApplyUserUpdates, UserName, InstanceName;
    hide ClusterName, UserPrefix, InstancePrefix, EndpointPrefix;
    var k, name := r.key, UserTarget(r);
    OwnPrefixes(k, r.verb.userId);
    SelfOff(a, k);
    if AgreeOn(a, b, k) { SameTargets(a, b, k, r.verb.userId); }
    if pc.UserWrite? && name in a.users {
      PutUser(a, b, k, name, ApplyUserUpdates(a.users[name], pc.userUpdates));
    } else if pc.UserInsert? || pc.UserDelete? {
      PutUser(a, b, k, name, NewUser(r.body));
    }
  }

  lemma StepFrame(a: Db, b: Db, r: Request, pc: Pc)
    requires ValidKey(r.key) && Fits(r, pc) && OwnNames(r.key, pc)
    ensures Framed(a, r, Step(a, r, pc))
    ensures AgreeOn(a, b, r.key) ==> Local(r, Step(a, r, pc), Step(b, r, pc))
  {
    hide AgreeOn, AgreeOff, InstanceStep, ClusterStep, UserStep, StartStep, Logged;
    SelfOff(a, r.key);
    if pc.Start? {
      StartFrame(a, a, r);
      if AgreeOn(a, b, r.key) { StartFrame(a, b, r); }
    } else if pc.RecordOperation? {
      LogFrame(a, b, r, pc.verb, pc.failed);
    } else if OnInstance(r.verb) {
      InstanceFrame(a, b, r, pc);
    } else if OnUser(r.verb) {
      UserFrame(a, b, r, pc);
    } else {
      ClusterFrame(a, b, r, pc);
    }
  }

  /** A whole section stays inside its cluster's subtree, and only that subtree decides what it does. */
  lemma {:induction false} CompleteFrame(a: Db, b: Db, r: Request, pc: Pc)
    requires ValidKey(r.key) && Fits(r, pc) && OwnNames(r.key, pc)
    ensures AgreeOff(a, Complete(a, r, pc).0, r.key)
    ensures AgreeOn(a, b, r.key) ==>
      && Complete(a, r, pc).1 == Complete(b, r, pc).1
      && AgreeOn(Complete(a, r, pc).0, Complete(b, r, pc).0, r.key)
    decreases Stage(pc), Remaining(pc)
  {
    hide AgreeOn, AgreeOff, Step;
    if pc.Finished? {
      SelfOff(a, r.key);
    } else {
      StepFits(a, r, pc);
      StepFrame(a, b, r, pc);
      var (a1, next) := Step(a, r, pc);
      var (b1, _) := Step(b, r, pc);
      CompleteFrame(a1, b1, r, next);
      AgreeOffTransitive(a, a1, Complete(a, r, pc).0, r.key);
    }
  }
}
