/**
 * The critical sections of the three AlloyDB services, one storage or data-plane call per step.
 *
 * A section runs while its request holds the cluster's key. Clocks, generated ids and what the data
 * plane does are inputs of the request.
 */
module AlloySections {
  import opened Options
  import opened Json
  import opened StringOrder
  import opened AlloyNames
  import opened AlloyTypes

  // ── State ──

  /** One row of the operations table. */
  datatype Operation = Operation(owner: Key, id: string, target: string, verb: string, failed: bool)

  datatype Db = Db(
    clusters: map<string, ClusterRow>,
    instances: map<string, InstanceRow>,
    users: map<string, UserRow>,
    endpoints: set<string>,
    operations: multiset<Operation>)

  // ── Requests ──

  /** A drop either works, or throws before or after the endpoint stopped listening. */
  datatype DropOutcome = Dropped | Threw(stillListening: bool)

  datatype Env = Env(
    uid: string, now: string, operationId: string, nodeCount: Option<int>,
    startSucceeds: bool, drops: map<string, DropOutcome>)

  datatype Verb =
    | CreateCluster
    | RestoreCluster
    | UpdateCluster(clusterMask: Option<string>, clusterMissing: bool)
    | DeleteCluster(force: bool)
    | CreateInstance(instanceId: string)
    | UpdateInstance(instanceId: string, instanceMask: Option<string>, instanceMissing: bool)
    | DeleteInstance(instanceId: string)
    | CreateUser(userId: string)
    | UpdateUser(userId: string, userMask: Option<string>, userMissing: bool)
    | DeleteUser(userId: string)

  datatype Request = Request(key: Key, verb: Verb, body: Object, validateOnly: bool, env: Env)

  predicate OnInstance(v: Verb) { v.CreateInstance? || v.UpdateInstance? || v.DeleteInstance? }

  predicate OnUser(v: Verb) { v.CreateUser? || v.UpdateUser? || v.DeleteUser? }

  /** Ids taken from the path are non-empty and slash-free, as the route pattern guarantees. */
  predicate ValidRequest(r: Request) {
    && ValidKey(r.key)
    && (r.verb.UpdateInstance? || r.verb.DeleteInstance? ==> Segment(r.verb.instanceId))
    && (r.verb.UpdateUser? || r.verb.DeleteUser? ==> Segment(r.verb.userId))
  }

  function ClusterBody(r: Request): Object {
    if r.verb.RestoreCluster? then RestoredCluster(r.body) else r.body
  }

  function Sources(r: Request): Object {
    if r.verb.RestoreCluster? then RestoreSources(r.body) else map[]
  }

  function InstanceTarget(r: Request): string
    requires OnInstance(r.verb)
  {
    InstanceName(r.key, r.verb.instanceId)
  }

  function UserTarget(r: Request): string
    requires OnUser(r.verb)
  {
    UserName(r.key, r.verb.userId)
  }

  function InitialUserTarget(r: Request): string { UserName(r.key, ResolvedUserName(ClusterBody(r))) }

  function DropOf(env: Env, endpoint: string): DropOutcome {
    if endpoint in env.drops then env.drops[endpoint] else Dropped
  }

  // ── Program points ──

  datatype Outcome = Accepted(failedOperation: bool) | Rejected(error: ErrorCode)

  datatype Pc =
    | Start
    | InstanceParent | InstanceAbsent | InstancePlacement | InstanceInsert | InstanceStart
    | RollbackDrop | RollbackRow
    | InstanceRetype(instanceUpdates: InstanceUpdates) | InstanceWrite(instanceUpdates: InstanceUpdates)
    | InstancePools | InstanceDrop | InstanceDelete
    | ClusterAbsent | ClusterInsert | ClusterUser
    | ClusterWrite(clusterUpdates: ClusterUpdates)
    | ClusterCount | ClusterList | CascadeDrops(names: seq<string>)
    | CascadeInstances | CascadeUsers | CascadeCluster
    | UserParent | UserAbsent | UserInsert
    | UserWrite(userUpdates: UserUpdates) | UserDelete
    | RecordOperation(verb: string, failed: bool)
    | Finished(outcome: Outcome)

  function Fail(e: ErrorCode): Pc { Finished(Rejected(e)) }

  function Succeed(): Pc { Finished(Accepted(false)) }

  /** Where a request goes once everything it checks has passed. */
  function UnlessDry(r: Request, next: Pc): Pc {
    if r.validateOnly then Succeed() else next
  }

  // ── Reads ──

  function InstancesUnder(db: Db, k: Key): set<string> {
    set n | n in db.instances && InstancePrefix(k) <= n
  }

  predicate AnotherHasType(db: Db, k: Key, name: string, instanceType: string) {
    exists n :: n in InstancesUnder(db, k) && n != name && db.instances[n].instanceType == instanceType
  }

  /** The placement rule of a cluster: one PRIMARY, and read pools only beside it. */
  function PlacementError(db: Db, k: Key, name: string, instanceType: string): Option<ErrorCode> {
    if instanceType == SECONDARY then Some(InvalidArgument)
    else if instanceType == PRIMARY && AnotherHasType(db, k, name, PRIMARY) then Some(FailedPrecondition)
    else if instanceType == READ_POOL && !AnotherHasType(db, k, name, PRIMARY) then Some(FailedPrecondition)
    else None
  }

  // ── Writes ──

  function DropEndpoint(db: Db, endpoint: string, outcome: DropOutcome): Db {
    if outcome == Threw(true) then db else db.(endpoints := db.endpoints - {endpoint})
  }

  function DeleteUnder<V>(table: map<string, V>, prefix: string): map<string, V> {
    map n | n in table && !(prefix <= n) :: table[n]
  }

  function Logged(db: Db, r: Request, verb: string, failed: bool): Db {
    var target :=
      if OnInstance(r.verb) then InstanceTarget(r) else ClusterName(r.key);
    db.(operations := db.operations + multiset{Operation(r.key, r.env.operationId, target, verb, failed)})
  }

  // ── One step ──

  function StartInstanceUpdate(db: Db, r: Request): Pc
    requires r.verb.UpdateInstance?
  {
    var name := InstanceTarget(r);
    if name !in db.instances then
      if !r.verb.instanceMissing then Fail(NotFound)
      else if !InstanceRequestOk(r.verb.instanceId, r.body, r.env.nodeCount) then Fail(InvalidArgument)
      else InstanceParent
    else
      var u := BuildInstanceUpdates(db.instances[name], r.body, r.verb.instanceMask, r.env.now);
      if u.None? then Fail(InvalidArgument)
      else if u.value.instanceType.Some? then InstanceRetype(u.value)
      else UnlessDry(r, InstanceWrite(u.value))
  }

  function StartClusterUpdate(db: Db, r: Request): Pc
    requires r.verb.UpdateCluster?
  {
    var name := ClusterName(r.key);
    if name !in db.clusters then
      if !r.verb.clusterMissing then Fail(NotFound)
      else if !ClusterRequestOk(r.key.cluster, r.body) then Fail(InvalidArgument)
      else ClusterAbsent
    else
      var u := BuildClusterUpdates(db.clusters[name], r.body, r.verb.clusterMask, r.env.now);
      if u.None? then Fail(InvalidArgument) else UnlessDry(r, ClusterWrite(u.value))
  }

  function StartUserUpdate(db: Db, r: Request): Pc
    requires r.verb.UpdateUser?
  {
    var name := UserTarget(r);
    if name !in db.users then
      if !r.verb.userMissing then Fail(NotFound)
      else if !(IsValidUserId(r.verb.userId) && UserTypeOk(r.body)) then Fail(InvalidArgument)
      else UserParent
    else
      var u := BuildUserUpdates(db.users[name], r.body, r.verb.userMask);
      if u.None? then Fail(InvalidArgument) else UnlessDry(r, UserWrite(u.value))
  }

  /** Where a section goes from its first read. */
  function StartStep(db: Db, r: Request): Pc {
    match r.verb
    case CreateCluster =>
      if ClusterRequestOk(r.key.cluster, r.body) then ClusterAbsent else Fail(InvalidArgument)
    case RestoreCluster =>
      if ClusterRequestOk(r.key.cluster, ClusterBody(r)) then ClusterAbsent else Fail(InvalidArgument)
    case UpdateCluster(_, _) => StartClusterUpdate(db, r)
    case DeleteCluster(force) =>
      if ClusterName(r.key) !in db.clusters then Fail(NotFound)
      else if force then UnlessDry(r, ClusterList) else ClusterCount
    case CreateInstance(id) =>
      if InstanceRequestOk(id, r.body, r.env.nodeCount) then InstanceParent else Fail(InvalidArgument)
    case UpdateInstance(_, _, _) => StartInstanceUpdate(db, r)
    case DeleteInstance(_) =>
      if InstanceTarget(r) !in db.instances then Fail(NotFound)
      else if db.instances[InstanceTarget(r)].instanceType == PRIMARY then InstancePools
      else UnlessDry(r, InstanceDrop)
    case CreateUser(id) =>
      if IsValidUserId(id) && UserTypeOk(r.body) then UserParent else Fail(InvalidArgument)
    case UpdateUser(_, _, _) => StartUserUpdate(db, r)
    case DeleteUser(_) =>
      if UserTarget(r) !in db.users then Fail(NotFound) else UnlessDry(r, UserDelete)
  }

  function InstanceStep(db: Db, r: Request, pc: Pc): (Db, Pc)
    requires OnInstance(r.verb)
  {
    var name := InstanceTarget(r);
    var endpoint := EndpointKey(r.key, r.verb.instanceId);
    match pc
    case InstanceParent =>
      (db, if ClusterName(r.key) in db.clusters then InstanceAbsent else Fail(NotFound))
    case InstanceAbsent =>
      (db, if name in db.instances then Fail(AlreadyExists) else InstancePlacement)
    case InstancePlacement =>
      var e := PlacementError(db, r.key, name, RequestedType(r.body));
      (db, if e.Some? then Fail(e.value) else UnlessDry(r, InstanceInsert))
    case InstanceInsert =>
      if name in db.instances then (db, Fail(Internal))
      else (db.(instances := db.instances[name := NewInstance(r.body, r.env.uid, r.env.now)]), InstanceStart)
    case InstanceStart =>
      if r.env.startSucceeds
      then (db.(endpoints := db.endpoints + {endpoint}), RecordOperation("create", false))
      else (db.(endpoints := db.endpoints - {endpoint}), RollbackDrop)
    case RollbackDrop => (DropEndpoint(db, endpoint, DropOf(r.env, endpoint)), RollbackRow)
    case RollbackRow => (db.(instances := db.instances - {name}), RecordOperation("create", true))
    case InstanceRetype(u) =>
      var e := if u.instanceType.Some? then PlacementError(db, r.key, name, u.instanceType.value) else None;
      (db, if e.Some? then Fail(e.value) else UnlessDry(r, InstanceWrite(u)))
    case InstanceWrite(u) =>
      if name !in db.instances then (db, Fail(NotFound))
      else (db.(instances := db.instances[name := ApplyInstanceUpdates(db.instances[name], u)]),
            RecordOperation("update", false))
    case InstancePools =>
      (db, if AnotherHasType(db, r.key, name, READ_POOL) then Fail(FailedPrecondition)
           else UnlessDry(r, InstanceDrop))
    case InstanceDrop =>
      var outcome := DropOf(r.env, endpoint);
      (DropEndpoint(db, endpoint, outcome), if outcome.Dropped? then InstanceDelete else Fail(Internal))
    case InstanceDelete => (db.(instances := db.instances - {name}), RecordOperation("delete", false))
    case _ => (db, pc)
  }

  /** The endpoint a cascade drops for one of its children, if the child's name parses. */
  function CascadeEndpoint(k: Key, name: string): Option<string> {
    var parsed := ParseInstanceName(name);
    if parsed.None? then None
    else Some(EndpointKey(parsed.value.0.(project := k.project), parsed.value.1))
  }

  function ClusterStep(db: Db, r: Request, pc: Pc): (Db, Pc) {
    var name := ClusterName(r.key);
    match pc
    case ClusterAbsent =>
      (db, if name in db.clusters then Fail(AlreadyExists) else UnlessDry(r, ClusterInsert))
    case ClusterInsert =>
      if name in db.clusters then (db, Fail(Internal))
      else
        var row := NewCluster(ClusterBody(r), Sources(r), r.env.uid, r.env.now);
        (db.(clusters := db.clusters[name := row]), ClusterUser)
    case ClusterUser =>
      var user := InitialUserTarget(r);
      if user in db.users then (db, Fail(Internal))
      else
        (db.(users := db.users[user := UserRow(BUILT_IN, ResolvedPassword(ClusterBody(r)), map[])]),
         RecordOperation(if r.verb.RestoreCluster? then "restore" else "create", false))
    case ClusterWrite(u) =>
      if name !in db.clusters then (db, Fail(NotFound))
      else (db.(clusters := db.clusters[name := ApplyClusterUpdates(db.clusters[name], u)]),
            RecordOperation("update", false))
    case ClusterCount =>
      (db, if InstancesUnder(db, r.key) != {} then Fail(FailedPrecondition) else UnlessDry(r, ClusterList))
    case ClusterList => (db, CascadeDrops(Sorted(InstancesUnder(db, r.key))))
    case CascadeDrops(names) =>
      if names == [] then (db, CascadeInstances)
      else
        var endpoint := CascadeEndpoint(r.key, names[0]);
        (if endpoint.None? then db else DropEndpoint(db, endpoint.value, DropOf(r.env, endpoint.value)),
         CascadeDrops(names[1..]))
    case CascadeInstances =>
      (db.(instances := DeleteUnder(db.instances, InstancePrefix(r.key))), CascadeUsers)
    case CascadeUsers => (db.(users := DeleteUnder(db.users, UserPrefix(r.key))), CascadeCluster)
    case CascadeCluster => (db.(clusters := db.clusters - {name}), RecordOperation("delete", false))
    case _ => (db, pc)
  }

  function UserStep(db: Db, r: Request, pc: Pc): (Db, Pc)
    requires OnUser(r.verb)
  {
    var name := UserTarget(r);
    match pc
    case UserParent => (db, if ClusterName(r.key) in db.clusters then UserAbsent else Fail(NotFound))
    case UserAbsent => (db, if name in db.users then Fail(AlreadyExists) else UnlessDry(r, UserInsert))
    case UserInsert =>
      if name in db.users then (db, Fail(Internal))
      else (db.(users := db.users[name := NewUser(r.body)]), Succeed())
    case UserWrite(u) =>
      if name !in db.users then (db, Fail(NotFound))
      else (db.(users := db.users[name := ApplyUserUpdates(db.users[name], u)]), Succeed())
    case UserDelete => (db.(users := db.users - {name}), Succeed())
    case _ => (db, pc)
  }

  function Step(db: Db, r: Request, pc: Pc): (Db, Pc) {
    if pc.Start? then (db, StartStep(db, r))
    else if pc.RecordOperation? then (Logged(db, r, pc.verb, pc.failed), Finished(Accepted(pc.failed)))
    else if OnInstance(r.verb) then InstanceStep(db, r, pc)
    else if OnUser(r.verb) then UserStep(db, r, pc)
    else ClusterStep(db, r, pc)
  }

  // ── A whole section ──

  /** How many kinds of step can still follow. */
  function Stage(pc: Pc): nat {
    match pc
    case Start => 10
    case InstanceParent | UserParent => 9
    case InstanceAbsent | UserAbsent | ClusterAbsent | ClusterCount => 8
    case InstancePlacement | InstanceRetype(_) | InstancePools | ClusterList => 7
    case InstanceInsert | ClusterInsert | InstanceDrop | CascadeDrops(_) => 6
    case InstanceStart | CascadeInstances => 5
    case RollbackDrop | CascadeUsers => 4
    case RollbackRow | CascadeCluster => 3
    case InstanceWrite(_) | InstanceDelete | ClusterUser | ClusterWrite(_) => 2
    case UserInsert | UserWrite(_) | UserDelete => 2
    case RecordOperation(_, _) => 1
    case Finished(_) => 0
  }

  function Remaining(pc: Pc): nat { if pc.CascadeDrops? then |pc.names| else 0 }

  /** Every program point a request can stand at. */
  predicate Fits(r: Request, pc: Pc) {
    match pc
    case Start | Finished(_) | RecordOperation(_, _) => true
    case InstanceParent | InstanceAbsent | InstancePlacement | InstanceInsert | InstanceStart =>
      r.verb.CreateInstance? || r.verb.UpdateInstance?
    case RollbackDrop | RollbackRow => r.verb.CreateInstance? || r.verb.UpdateInstance?
    case InstanceRetype(_) | InstanceWrite(_) => r.verb.UpdateInstance?
    case InstancePools | InstanceDrop | InstanceDelete => r.verb.DeleteInstance?
    case ClusterAbsent | ClusterInsert | ClusterUser =>
      r.verb.CreateCluster? || r.verb.RestoreCluster? || r.verb.UpdateCluster?
    case ClusterWrite(_) => r.verb.UpdateCluster?
    case ClusterCount | ClusterList | CascadeDrops(_) => r.verb.DeleteCluster?
    case CascadeInstances | CascadeUsers | CascadeCluster => r.verb.DeleteCluster?
    case UserParent | UserAbsent | UserInsert => r.verb.CreateUser? || r.verb.UpdateUser?
    case UserWrite(_) => r.verb.UpdateUser?
    case UserDelete => r.verb.DeleteUser?
  }

  ghost predicate Descends(r: Request, pc: Pc, next: Pc) {
    && Fits(r, next)
    && (Stage(next) < Stage(pc) || (Stage(next) == Stage(pc) && Remaining(next) < Remaining(pc)))
  }

  lemma StartFits(db: Db, r: Request)
    ensures Descends(r, Start, StartStep(db, r))
  {
    hide BuildInstanceUpdates, BuildClusterUpdates, BuildUserUpdates, RestoredCluster;
    hide InstanceRequestOk, ClusterRequestOk, UserTypeOk, IsValidUserId, ClusterName, InstanceName, UserName;
    match r.verb
    case UpdateInstance(_, _, _) => assert Descends(r, Start, StartInstanceUpdate(db, r));
    case UpdateCluster(_, _) => assert Descends(r, Start, StartClusterUpdate(db, r));
    case UpdateUser(_, _, _) => assert Descends(r, Start, StartUserUpdate(db, r));
    case _ =>
  }

  lemma InstanceFits(db: Db, r: Request, pc: Pc)
    requires OnInstance(r.verb) && Fits(r, pc)
    requires !pc.Finished? && !pc.Start? && !pc.RecordOperation?
    ensures Descends(r, pc, InstanceStep(db, r, pc).1)
  {
    hide NewInstance, ApplyInstanceUpdates, PlacementError, AnotherHasType, DropEndpoint, DropOf;
    hide ClusterName, InstanceName, EndpointKey, RequestedType;
    if r.verb.DeleteInstance? {
      assert Descends(r, pc, InstanceStep(db, r, pc).1);
    } else if pc.InstanceRetype? || pc.InstanceWrite? {
      assert Descends(r, pc, InstanceStep(db, r, pc).1);
    }
  }

  lemma CascadeFits(db: Db, r: Request, pc: Pc)
    requires r.verb.DeleteCluster? && Fits(r, pc)
    requires !pc.Finished? && !pc.Start? && !pc.RecordOperation?
    ensures Descends(r, pc, ClusterStep(db, r, pc).1)
  {
    hide NewCluster, ApplyClusterUpdates, InstancesUnder, DropEndpoint, CascadeEndpoint, DeleteUnder, DropOf;
    hide ClusterName, UserName, InstancePrefix, UserPrefix, ClusterBody, Sources, InitialUserTarget, Sorted;
  }

  lemma ClusterFits(db: Db, r: Request, pc: Pc)
    requires !OnInstance(r.verb) && !OnUser(r.verb) && !r.verb.DeleteCluster? && Fits(r, pc)
    requires !pc.Finished? && !pc.Start? && !pc.RecordOperation?
    ensures Descends(r, pc, ClusterStep(db, r, pc).1)
  {
    hide NewCluster, ApplyClusterUpdates, InstancesUnder, DropEndpoint, CascadeEndpoint, DeleteUnder, DropOf;
    hide ClusterName, UserName, InstancePrefix, UserPrefix, ClusterBody, Sources, InitialUserTarget, Sorted;
    hide ResolvedPassword;
  }

  lemma UserFits(db: Db, r: Request, pc: Pc)
    requires OnUser(r.verb) && Fits(r, pc)
    requires !pc.Finished? && !pc.Start? && !pc.RecordOperation?
    ensures Descends(r, pc, UserStep(db, r, pc).1)
  {
    hide NewUser, ApplyUserUpdates, ClusterName, UserName;
  }

  lemma StepFits(db: Db, r: Request, pc: Pc)
    requires Fits(r, pc) && !pc.Finished?
    ensures Descends(r, pc, Step(db, r, pc).1)
  {
    hide StartStep, InstanceStep, ClusterStep, UserStep, Logged;
    if pc.Start? {
      StartFits(db, r);
    } else if pc.RecordOperation? {
    } else if OnInstance(r.verb) {
      InstanceFits(db, r, pc);
    } else if OnUser(r.verb) {
      UserFits(db, r, pc);
    } else if r.verb.DeleteCluster? {
      CascadeFits(db, r, pc);
    } else {
      ClusterFits(db, r, pc);
    }
  }

  /** Runs a section alone from one of its program points to its end. */
  function Complete(db: Db, r: Request, pc: Pc): (result: (Db, Outcome))
    requires Fits(r, pc)
    decreases Stage(pc), Remaining(pc)
  {
    if pc.Finished? then (db, pc.outcome)
    else
      StepFits(db, r, pc);
      var (db', pc') := Step(db, r, pc);
      Complete(db', r, pc')
  }

  lemma CompleteStep(db: Db, r: Request, pc: Pc)
    requires Fits(r, pc) && !pc.Finished?
    ensures Fits(r, Step(db, r, pc).1)
    ensures Complete(db, r, pc) == Complete(Step(db, r, pc).0, r, Step(db, r, pc).1)
  {
    StepFits(db, r, pc);
    hide Step;
  }

  lemma CompleteEnd(db: Db, r: Request, o: Outcome)
    ensures Complete(db, r, Finished(o)) == (db, o)
  {}

  /** One request run with nothing beside it. */
  function Section(db: Db, r: Request): (Db, Outcome) { Complete(db, r, Start) }
}
