/** What a PATCH may change, and the networking every stored cluster keeps. */
module AlloyPatch {
  import opened Text
  import opened Options
  import opened Json
  import opened StringOrder
  import opened AlloyNames
  import opened AlloyTypes
  import opened AlloySections
  import opened AlloyProtocol

  // ── Field masks ──

  ghost function Elements(fields: seq<string>): set<string> { set f | f in fields }

  /** A mask never names anything but a writable field. */
  lemma MaskIsWritable(body: Object, mutableFields: set<string>, mask: Option<string>)
    ensures var m := MaskedFields(body, mutableFields, mask); m.Some? ==> m.value <= mutableFields
  {}

  lemma Push(roots: seq<string>, x: string)
    ensures Elements(roots + [x]) == Elements(roots) + {x}
    ensures Distinct(roots) && x !in roots ==> Distinct(roots + [x])
  {
    var longer := roots + [x];
    assert longer[|roots|] == x;
    assert forall f :: f in longer <==> f in roots || f == x;
  }

  /** The writable fields a body carries. */
  method WritableKeys(body: Object, mutableFields: set<string>) returns (fields: seq<string>)
    ensures Elements(fields) == (set f | f in body && f in mutableFields) && Distinct(fields)
  {
    fields := [];
    var keys := body.Keys;
    while keys != {}
      invariant keys <= body.Keys
      invariant Elements(fields) == (set f | f in body && f in mutableFields && f !in keys)
      invariant Distinct(fields)
      decreases |keys|
    {
      var key :| key in keys;
      Push(fields, key);
      assert key !in Elements(fields);
      if key in mutableFields { fields := fields + [key]; }
      keys := keys - {key};
    }
  }

  /** The roots of the first `i` paths of a mask. */
  ghost function Roots(mask: string, i: nat): set<string>
    requires i <= |MaskPaths(mask)|
  {
    set j | 0 <= j < i :: RootField(MaskPaths(mask)[j])
  }

  lemma AllRoots(mask: string)
    ensures Roots(mask, |MaskPaths(mask)|) == set path | path in MaskPaths(mask) :: RootField(path)
  {
    hide RootField, MaskPaths;
    var paths := MaskPaths(mask);
    forall path | path in paths ensures RootField(path) in Roots(mask, |paths|) {
      var j :| 0 <= j < |paths| && paths[j] == path;
    }
  }

  /** The roots a mask names, or None as soon as one path is `*` or not writable. */
  method MaskRoots(mutableFields: set<string>, mask: string) returns (fields: Option<seq<string>>)
    ensures fields.None? <==> exists path :: path in MaskPaths(mask) && RejectedPath(path, mutableFields)
    ensures fields.Some? ==> Elements(fields.value) == Roots(mask, |MaskPaths(mask)|) && Distinct(fields.value)
  {
    hide Split, Trim;
    var roots: seq<string> := [];
    var rawPaths := Split(mask, ',');
    for i := 0 to |rawPaths|
      invariant forall j :: 0 <= j < i ==> !RejectedPath(MaskPaths(mask)[j], mutableFields)
      invariant Elements(roots) == Roots(mask, i)
      invariant Distinct(roots)
    {
      var path := Trim(rawPaths[i]);
      assert path == MaskPaths(mask)[i] && path in MaskPaths(mask);
      if path == "*" { return None; }
      var rootField := Split(path, '.')[0];
      if rootField !in mutableFields { return None; }
      Push(roots, rootField);
      assert Roots(mask, i + 1) == Roots(mask, i) + {rootField};
      assert rootField in roots ==> rootField in Elements(roots);
      if rootField !in roots { roots := roots + [rootField]; }
    }
    return Some(roots);
  }

  /** Without a mask the writable fields of the body count; with one, the roots of its paths. */
  method ResolveMaskedFields(body: Object, mutableFields: set<string>, mask: Option<string>)
    returns (fields: Option<seq<string>>)
    ensures fields.Some? <==> MaskedFields(body, mutableFields, mask).Some?
    ensures fields.Some? ==>
              && Elements(fields.value) == MaskedFields(body, mutableFields, mask).value
              && Distinct(fields.value)
  {
    if mask.None? || Trim(mask.value) == "" {
      var keys := WritableKeys(body, mutableFields);
      return Some(keys);
    }
    AllRoots(mask.value);
    fields := MaskRoots(mutableFields, mask.value);
  }

  lemma PatchOneMore(
    existing: Object, body: Object, fields: set<string>, field: string, enums: map<string, EnumNumbers>)
    ensures var before := PatchSpec(existing, body, fields, enums);
            PatchSpec(existing, body, fields + {field}, enums) ==
              if field in body then before[field := NormalizeSpecField(field, body[field], enums)]
              else before - {field}
  {
    hide NormalizeSpecField;
  }

  /** The merge loop of a PATCH: each masked field is set from the body, or deleted when absent. */
  method MergeSpec(existing: Object, body: Object, fields: seq<string>, enums: map<string, EnumNumbers>)
    returns (spec: Object)
    ensures spec == PatchSpec(existing, body, Elements(fields), enums)
  {
    hide NormalizeSpecField;
    spec := existing;
    for i := 0 to |fields|
      invariant spec == PatchSpec(existing, body, Elements(fields[..i]), enums)
    {
      var field := fields[i];
      assert fields[..i + 1] == fields[..i] + [field];
      Push(fields[..i], field);
      PatchOneMore(existing, body, Elements(fields[..i]), field, enums);
      if field in body {
        spec := spec[field := NormalizeSpecField(field, body[field], enums)];
      } else {
        spec := spec - {field};
      }
    }
    assert fields[..|fields|] == fields;
  }

  /** The allowlist loop behind every create: writable fields without a column of their own. */
  method PickFields(body: Object, mutableFields: set<string>, columned: set<string>, enums: map<string, EnumNumbers>)
    returns (spec: Object)
    ensures spec == PickSpecFields(body, mutableFields, columned, enums)
  {
    spec := map[];
    var fields := body.Keys;
    while fields != {}
      invariant fields <= body.Keys
      invariant spec == map f | f in body && f in mutableFields && f !in columned && f !in fields ::
                          NormalizeSpecField(f, body[f], enums)
      decreases |fields|
    {
      var field :| field in fields;
      fields := fields - {field};
      if field in mutableFields && field !in columned {
        spec := spec[field := NormalizeSpecField(field, body[field], enums)];
      }
    }
  }

  /** Masked fields come from the body, the others stay, and nothing else appears. */
  ghost predicate PatchedFrom(
    before: Object, after: Object, body: Object, fields: set<string>, enums: map<string, EnumNumbers>)
  {
    forall f: string :: Get(after, f) ==
      if f in fields
      then (if f in body then Some(NormalizeSpecField(f, body[f], enums)) else None)
      else Get(before, f)
  }

  /** PATCHing is exactly pointwise replacement of the masked fields. */
  lemma PatchIsPointwise(
    before: Object, after: Object, body: Object, fields: set<string>, enums: map<string, EnumNumbers>)
    ensures PatchedFrom(before, after, body, fields, enums) <==> after == PatchSpec(before, body, fields, enums)
  {
    hide NormalizeSpecField;
    var patched := PatchSpec(before, body, fields, enums);
    assert PatchedFrom(before, patched, body, fields, enums);
    if PatchedFrom(before, after, body, fields, enums) {
      forall f ensures (f in after <==> f in patched) && (f in after ==> after[f] == patched[f]) {
        assert Get(after, f) == Get(patched, f);
      }
    }
  }

  lemma PatchTwice(before: Object, body: Object, fields: set<string>, enums: map<string, EnumNumbers>)
    ensures PatchSpec(PatchSpec(before, body, fields, enums), body, fields, enums)
         == PatchSpec(before, body, fields, enums)
  {
    hide NormalizeSpecField;
    var once := PatchSpec(before, body, fields, enums);
    PatchIsPointwise(before, once, body, fields, enums);
    PatchIsPointwise(once, once, body, fields, enums);
    assert PatchedFrom(once, once, body, fields, enums) by {
      forall f ensures f in fields ==>
        Get(once, f) == if f in body then Some(NormalizeSpecField(f, body[f], enums)) else None
      {}
    }
  }

  // ── One resource at a time ──

  /**
   * A cluster PATCH rewrites only the masked fields; what the server owns stays; and sent a second
   * time, at any later moment, it is accepted again and changes nothing but `updateTime`.
   */
  lemma ClusterPatch(row: ClusterRow, body: Object, mask: Option<string>, now: string, later: string)
    requires BuildClusterUpdates(row, body, mask, now).Some?
    ensures var masked := MaskedFields(body, MUTABLE_CLUSTER_FIELDS, mask).value;
            var after := ApplyClusterUpdates(row, BuildClusterUpdates(row, body, mask, now).value);
            && masked <= MUTABLE_CLUSTER_FIELDS
            && PatchedFrom(row.spec, after.spec, body, masked - {"initialUser"}, CLUSTER_ENUM_FIELDS)
            && (after.initialUserName ==
                  if "initialUser" in masked then InitialUserName(body) else row.initialUserName)
            && after.uid == row.uid && after.createTime == row.createTime && after.updateTime == now
            && NetworkConfigured(after.spec)
            && var again := BuildClusterUpdates(after, body, mask, later);
               again.Some? && ApplyClusterUpdates(after, again.value) == after.(updateTime := later)
  {
    MaskIsWritable(body, MUTABLE_CLUSTER_FIELDS, mask);
    hide MaskedFields, PatchSpec, NetworkConfigured, InitialUserName;
    var fields := MaskedFields(body, MUTABLE_CLUSTER_FIELDS, mask).value - {"initialUser"};
    var after := PatchSpec(row.spec, body, fields, CLUSTER_ENUM_FIELDS);
    PatchIsPointwise(row.spec, after, body, fields, CLUSTER_ENUM_FIELDS);
    PatchTwice(row.spec, body, fields, CLUSTER_ENUM_FIELDS);
  }

  /** The same of an instance, whose type an absent value preserves. */
  lemma InstancePatch(row: InstanceRow, body: Object, mask: Option<string>, now: string, later: string)
    requires BuildInstanceUpdates(row, body, mask, now).Some?
    ensures var masked := MaskedFields(body, MUTABLE_INSTANCE_FIELDS, mask).value;
            var after := ApplyInstanceUpdates(row, BuildInstanceUpdates(row, body, mask, now).value);
            && masked <= MUTABLE_INSTANCE_FIELDS
            && PatchedFrom(row.spec, after.spec, body, masked - {"instanceType"}, INSTANCE_ENUM_FIELDS)
            && (after.instanceType ==
                  if "instanceType" in masked && "instanceType" in body
                     && NormalizeEnum(body["instanceType"], INSTANCE_TYPE_ENUM).Str?
                  then NormalizeEnum(body["instanceType"], INSTANCE_TYPE_ENUM).s
                  else row.instanceType)
            && after.uid == row.uid && after.createTime == row.createTime && after.updateTime == now
            && var again := BuildInstanceUpdates(after, body, mask, later);
               again.Some? && ApplyInstanceUpdates(after, again.value) == after.(updateTime := later)
  {
    MaskIsWritable(body, MUTABLE_INSTANCE_FIELDS, mask);
    hide MaskedFields, PatchSpec, InstanceTypeOk, NormalizeEnum;
    var fields := MaskedFields(body, MUTABLE_INSTANCE_FIELDS, mask).value - {"instanceType"};
    var after := PatchSpec(row.spec, body, fields, INSTANCE_ENUM_FIELDS);
    PatchIsPointwise(row.spec, after, body, fields, INSTANCE_ENUM_FIELDS);
    PatchTwice(row.spec, body, fields, INSTANCE_ENUM_FIELDS);
  }

  /** And of a user, whose stored password no PATCH without a password string can touch. */
  lemma UserPatch(row: UserRow, body: Object, mask: Option<string>)
    requires BuildUserUpdates(row, body, mask).Some?
    ensures var masked := MaskedFields(body, MUTABLE_USER_FIELDS, mask).value;
            var after := ApplyUserUpdates(row, BuildUserUpdates(row, body, mask).value);
            && masked <= MUTABLE_USER_FIELDS
            && PatchedFrom(row.spec, after.spec, body, masked - COLUMNED_USER_FIELDS, USER_ENUM_FIELDS)
            && (after.password ==
                  if "password" in masked && "password" in body && body["password"].Str?
                  then body["password"].s
                  else row.password)
            && (after.userType ==
                  if "userType" in masked && "userType" in body
                     && NormalizeEnum(body["userType"], USER_TYPE_ENUM).Str?
                  then NormalizeEnum(body["userType"], USER_TYPE_ENUM).s
                  else row.userType)
            && var again := BuildUserUpdates(after, body, mask);
               again.Some? && ApplyUserUpdates(after, again.value) == after
  {
    MaskIsWritable(body, MUTABLE_USER_FIELDS, mask);
    hide MaskedFields, PatchSpec, UserTypeOk, NormalizeEnum;
    var fields := MaskedFields(body, MUTABLE_USER_FIELDS, mask).value - COLUMNED_USER_FIELDS;
    var after := PatchSpec(row.spec, body, fields, USER_ENUM_FIELDS);
    PatchIsPointwise(row.spec, after, body, fields, USER_ENUM_FIELDS);
    PatchTwice(row.spec, body, fields, USER_ENUM_FIELDS);
  }

  // ── Networking across runs ──

  lemma NetworkReadsThree(a: Object, b: Object)
    requires Get(a, "network") == Get(b, "network")
    requires Get(a, "networkConfig") == Get(b, "networkConfig")
    requires Get(a, "pscConfig") == Get(b, "pscConfig")
    ensures NetworkConfigured(a) == NetworkConfigured(b)
  {}

  lemma SourceKeys(body: Object)
    ensures RestoreSources(body).Keys
         <= {"backupSource", "continuousBackupSource", "backupdrBackupSource", "backupdrPitrSource"}
  {
    hide FirstRecord, FirstString, StringField;
  }

  lemma DefaultElsewhere(spec: Object, field: string, value: Value, other: string)
    requires other != field
    ensures Get(OrDefault(spec, field, value), other) == Get(spec, other)
  {}

  /** A writable field with no column, no enum and no default is stored as it came. */
  predicate StoredAsIs(f: string) {
    && f in MUTABLE_CLUSTER_FIELDS && f !in COLUMNED_CLUSTER_FIELDS && f !in CLUSTER_ENUM_FIELDS
    && f != "databaseVersion" && f != "continuousBackupConfig"
  }

  lemma NetworkStoredAsIs()
    ensures StoredAsIs("network")
  {}

  lemma NetworkConfigStoredAsIs()
    ensures StoredAsIs("networkConfig")
  {}

  lemma PscConfigStoredAsIs()
    ensures StoredAsIs("pscConfig")
  {}

  lemma PickedAsIs(body: Object, sources: Object, uid: string, now: string, f: string)
    requires StoredAsIs(f) && f !in sources
    ensures Get(NewCluster(body, sources, uid, now).spec, f) == Get(body, f)
  {
    hide NormalizeEnum, ResolvedUserName, DefaultContinuousBackupConfig;
    var picked := PickSpecFields(body, MUTABLE_CLUSTER_FIELDS, COLUMNED_CLUSTER_FIELDS, CLUSTER_ENUM_FIELDS);
    assert Get(picked, f) == Get(body, f);
    hide PickSpecFields, OrDefault;
    var versioned := OrDefault(picked, "databaseVersion", Str(DEFAULT_DATABASE_VERSION));
    DefaultElsewhere(picked, "databaseVersion", Str(DEFAULT_DATABASE_VERSION), f);
    DefaultElsewhere(versioned, "continuousBackupConfig", DefaultContinuousBackupConfig(), f);
  }

  /** A stored cluster has the networking its request had. */
  lemma NewClusterNetworked(body: Object, sources: Object, uid: string, now: string)
    requires "network" !in sources && "networkConfig" !in sources && "pscConfig" !in sources
    ensures NetworkConfigured(NewCluster(body, sources, uid, now).spec) == NetworkConfigured(body)
  {
    hide NetworkConfigured, NewCluster, StoredAsIs;
    NetworkStoredAsIs();
    NetworkConfigStoredAsIs();
    PscConfigStoredAsIs();
    PickedAsIs(body, sources, uid, now, "network");
    PickedAsIs(body, sources, uid, now, "networkConfig");
    PickedAsIs(body, sources, uid, now, "pscConfig");
    NetworkReadsThree(body, NewCluster(body, sources, uid, now).spec);
  }

  ghost predicate Networked(db: Db) {
    forall n :: n in db.clusters ==> NetworkConfigured(db.clusters[n].spec)
  }

  ghost predicate PcNetworked(r: Request, pc: Pc) {
    match pc
    case ClusterAbsent | ClusterInsert => NetworkConfigured(ClusterBody(r))
    case ClusterWrite(u) => NetworkConfigured(u.spec)
    case _ => true
  }

  lemma StartNetworked(db: Db, r: Request)
    ensures PcNetworked(r, StartStep(db, r))
  {
    hide BuildInstanceUpdates, BuildUserUpdates, RestoredCluster, NetworkConfigured, MaskedFields, PatchSpec;
    hide InstanceRequestOk, UserTypeOk, IsValidUserId, IsValidClusterId, ClusterName, InstanceName, UserName;
    hide InitialUserName, ResolvedUserName;
  }

  lemma ClusterStepNetworked(db: Db, r: Request, pc: Pc)
    requires !OnInstance(r.verb) && !OnUser(r.verb) && Fits(r, pc) && Networked(db) && PcNetworked(r, pc)
    requires !pc.Start? && !pc.RecordOperation?
    ensures Networked(ClusterStep(db, r, pc).0) && PcNetworked(r, ClusterStep(db, r, pc).1)
  {
    hide ClusterName, UserName, ResolvedUserName, ResolvedPassword, RestoredCluster, RestoreSources;
    hide NewCluster, Sorted, DropEndpoint, CascadeEndpoint, DropOf, NetworkConfigured, InstancesUnder;
    hide InstancePrefix, UserPrefix;
    if pc.ClusterInsert? {
      if r.verb.RestoreCluster? { SourceKeys(r.body); }
      NewClusterNetworked(ClusterBody(r), Sources(r), r.env.uid, r.env.now);
    } else if pc.CascadeDrops? {
      DropKeepsClusters(db, r);
    }
  }

  lemma DropKeepsClusters(db: Db, r: Request)
    ensures forall e, o :: DropEndpoint(db, e, o).clusters == db.clusters
  {}

  lemma OthersKeepClusters(db: Db, r: Request, pc: Pc)
    requires Fits(r, pc) && !pc.Start? && !pc.RecordOperation?
    ensures OnInstance(r.verb) ==> InstanceStep(db, r, pc).0.clusters == db.clusters
    ensures OnInstance(r.verb) ==> PcNetworked(r, InstanceStep(db, r, pc).1)
    ensures OnUser(r.verb) ==> UserStep(db, r, pc).0.clusters == db.clusters
    ensures OnUser(r.verb) ==> PcNetworked(r, UserStep(db, r, pc).1)
  {
    hide InstanceName, UserName, ClusterName, EndpointKey, DropOf, NewInstance, PlacementError, NewUser;
    hide RequestedType, AnotherHasType, ApplyInstanceUpdates, ApplyUserUpdates;
  }

  lemma StepNetworked(db: Db, r: Request, pc: Pc)
    requires Fits(r, pc) && Networked(db) && PcNetworked(r, pc)
    ensures Networked(Step(db, r, pc).0) && PcNetworked(r, Step(db, r, pc).1)
  {
    hide InstanceStep, ClusterStep, UserStep, StartStep, NetworkConfigured, InstanceTarget;
    if pc.Start? {
      StartNetworked(db, r);
    } else if !pc.RecordOperation? {
      OthersKeepClusters(db, r, pc);
      if !OnInstance(r.verb) && !OnUser(r.verb) { ClusterStepNetworked(db, r, pc); }
    }
  }

  ghost predicate SystemNetworked(s: System, reqs: seq<Request>)
    requires |s.phases| == |reqs|
  {
    && Networked(s.db)
    && forall t :: 0 <= t < |reqs| && s.phases[t].Running? ==>
         Fits(reqs[t], s.phases[t].pc) && PcNetworked(reqs[t], s.phases[t].pc)
  }

  /** In every state any schedule reaches, each stored cluster has a network or PSC switched on. */
  lemma {:induction false} AlwaysNetworked(db: Db, reqs: seq<Request>, acts: seq<Action>)
    requires Networked(db) && Possible(db, reqs, acts)
    ensures SystemNetworked(Run(db, reqs, acts), reqs)
    decreases |acts|
  {
    hide Networked, PcNetworked, Fits, Step;
    if acts != [] {
      var s, last := Run(db, reqs, acts[..|acts| - 1]), acts[|acts| - 1];
      AlwaysNetworked(db, reqs, acts[..|acts| - 1]);
      StartPlain(reqs);
      if last.Advance? {
        StepFits(s.db, reqs[last.t], s.phases[last.t].pc);
        StepNetworked(s.db, reqs[last.t], s.phases[last.t].pc);
      }
    }
  }

  lemma StartPlain(reqs: seq<Request>)
    ensures forall t :: 0 <= t < |reqs| ==> Fits(reqs[t], Start) && PcNetworked(reqs[t], Start)
  {}
}
