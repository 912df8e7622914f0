/** Which bodies are accepted and what is stored for them, field by field. */
module AlloyRequests {
  import opened Options
  import opened Text
  import opened Json
  import opened AlloyNames
  import opened AlloyTypes
  import opened AlloyEnums

  // ── Enum values ──

  /** A wire number and its decimal text both stand for the name with that number. */
  lemma NumbersBecomeNames(n: nat, e: EnumNumbers)
    requires n in e
    ensures NormalizeEnum(Num(n as real), e) == Str(e[n])
    ensures NormalizeEnum(Str(FromNat(n)), e) == Str(e[n])
  {
    ToNatFromNat(n);
    hide ToNat, FromNat;
    assert (n as real).Floor == n;
  }

  /** Whatever stands for no number of the enumeration is left as it is. */
  lemma OthersStay(v: Value, e: EnumNumbers)
    requires v.Num? ==> forall n :: n in e ==> v.n != n as real
    requires v.Str? && AllDigits(v.s) ==> ToNat(v.s) !in e
    ensures NormalizeEnum(v, e) == v
  {
    hide ToNat;
  }

  /** The numbers the wire format gives the types, and that no name has two of them. */
  lemma TypesByNumber()
    ensures NormalizeEnum(Num(1.0), INSTANCE_TYPE_ENUM) == Str("PRIMARY")
    ensures NormalizeEnum(Num(2.0), INSTANCE_TYPE_ENUM) == Str("READ_POOL")
    ensures NormalizeEnum(Num(3.0), INSTANCE_TYPE_ENUM) == Str("SECONDARY")
    ensures NormalizeEnum(Num(1.0), USER_TYPE_ENUM) == Str("ALLOYDB_BUILT_IN")
    ensures NormalizeEnum(Num(2.0), USER_TYPE_ENUM) == Str("ALLOYDB_IAM_USER")
    ensures INSTANCE_TYPES == set n | n in INSTANCE_TYPE_ENUM && n > 0 :: INSTANCE_TYPE_ENUM[n]
    ensures USER_TYPES == set n | n in USER_TYPE_ENUM && n > 0 :: USER_TYPE_ENUM[n]
  {
    NumbersBecomeNames(1, INSTANCE_TYPE_ENUM);
    NumbersBecomeNames(2, INSTANCE_TYPE_ENUM);
    NumbersBecomeNames(3, INSTANCE_TYPE_ENUM);
    NumbersBecomeNames(1, USER_TYPE_ENUM);
    NumbersBecomeNames(2, USER_TYPE_ENUM);
    hide NormalizeEnum;
    assert 1 in INSTANCE_TYPE_ENUM && 2 in INSTANCE_TYPE_ENUM && 3 in INSTANCE_TYPE_ENUM;
    assert 1 in USER_TYPE_ENUM && 2 in USER_TYPE_ENUM;
  }

  // ── Admission ──

  /** A DNS label: a letter first, then letters, digits and dashes, no dash at the end, 63 characters at most. */
  ghost predicate DnsLabel(id: string) {
    && 1 <= |id| <= 63 && 'a' <= id[0] <= 'z' && id[|id| - 1] != '-'
    && forall i :: 0 <= i < |id| ==> 'a' <= id[i] <= 'z' || '0' <= id[i] <= '9' || id[i] == '-'
  }

  /** An instance create is well formed exactly if its id is a label, it prints a type, and a read pool has a node. */
  lemma InstanceRequestExactly(id: string, body: Object, nodeCount: Option<int>)
    ensures InstanceRequestOk(id, body, nodeCount) <==>
      && DnsLabel(id)
      && "instanceType" in body
      && Admitted(body, "instanceType", INSTANCE_TYPE_ENUM).Some?
      && Admitted(body, "instanceType", INSTANCE_TYPE_ENUM).value in {"PRIMARY", "READ_POOL", "SECONDARY"}
      && (NormalizeEnum(body["instanceType"], INSTANCE_TYPE_ENUM) == Str("READ_POOL") ==>
            nodeCount.Some? && nodeCount.value >= 1)
  {
    hide NormalizeEnum, PrintsAsOneOf, PrintedName;
    if "instanceType" in body { PrintsByName(NormalizeEnum(body["instanceType"], INSTANCE_TYPE_ENUM), INSTANCE_TYPES); }
  }

  /** The initial user: the one named, or postgres; and the password given, or an empty one. */
  lemma InitialUserExactly(body: Object)
    ensures var given :=
              if "initialUser" in body && body["initialUser"].Obj? then body["initialUser"].fields else map[];
            && ResolvedUserName(body) ==
                 (if "user" in given && given["user"].Str? && given["user"].s != "" then given["user"].s
                  else "postgres")
            && ResolvedPassword(body) ==
                 (if "password" in given && given["password"].Str? then given["password"].s else "")
            && (InitialUserName(body).Some? <==> "user" in given && given["user"].Str? && given["user"].s != "")
  {}

  /** A cluster needs a network, named in either of two places, or private service connect switched on. */
  lemma NetworkConfiguredExactly(body: Object)
    ensures NetworkConfigured(body) <==>
      || (exists s :: s != "" && Get(body, "network") == Some(Str(s)))
      || (exists f, s :: s != "" && Get(body, "networkConfig") == Some(Obj(f)) && Get(f, "network") == Some(Str(s)))
      || (exists f :: Get(body, "pscConfig") == Some(Obj(f)) && Get(f, "pscEnabled") == Some(Bool(true)))
  {
    if NonEmptyString(body, "network").Some? { assert Get(body, "network") == Some(Str(body["network"].s)); }
    if "networkConfig" in body && NonEmptyString(Fields(body["networkConfig"]), "network").Some? {
      var f := body["networkConfig"].fields;
      assert Get(body, "networkConfig") == Some(Obj(f)) && Get(f, "network") == Some(Str(f["network"].s));
    }
    if HasEnabledPsc(body) {
      assert Get(body, "pscConfig") == Some(Obj(body["pscConfig"].fields));
    }
  }

  /** A cluster create is well formed exactly if its id is of label characters, and names a user and a network. */
  lemma ClusterRequestExactly(id: string, body: Object)
    ensures ClusterRequestOk(id, body) <==>
      && 1 <= |id| <= 63
      && (forall i :: 0 <= i < |id| ==> 'a' <= id[i] <= 'z' || '0' <= id[i] <= '9' || id[i] == '-')
      && '/' !in ResolvedUserName(body)
      && NetworkConfigured(body)
  {
    hide NetworkConfigured;
    assert ResolvedUserName(body) != "";
  }

  /** A user's type is one of two, or left out. */
  lemma UserRequestExactly(body: Object)
    ensures UserTypeOk(body) <==>
      ("userType" in body ==>
         Admitted(body, "userType", USER_TYPE_ENUM).Some?
         && Admitted(body, "userType", USER_TYPE_ENUM).value in {"ALLOYDB_BUILT_IN", "ALLOYDB_IAM_USER"})
  {
    hide NormalizeEnum, PrintsAsOneOf, PrintedName;
    if "userType" in body { PrintsByName(NormalizeEnum(body["userType"], USER_TYPE_ENUM), USER_TYPES); }
  }

  // ── Masks ──

  predicate MaskPath(path: string) { path != "" && forall c :: c in path ==> c != ',' && !IsSpace(c) }

  lemma {:induction false} TrimStays(s: string)
    requires s != "" && !IsSpace(s[0]) && !IsSpace(s[|s| - 1])
    ensures Trim(s) == s
  {
    assert TrimStart(s) == s && TrimEnd(s) == s;
  }

  lemma {:induction false} JoinedEnds(paths: seq<string>)
    requires |paths| > 0 && forall i :: 0 <= i < |paths| ==> MaskPath(paths[i])
    ensures var s := Join(paths, ','); s != "" && !IsSpace(s[0]) && !IsSpace(s[|s| - 1])
  {
    if |paths| > 1 { JoinedEnds(paths[1..]); }
    assert paths[0][0] in paths[0] && paths[0][|paths[0]| - 1] in paths[0];
  }

  /** The field a path is about: the path itself, or what stands before its first dot. */
  lemma RootExactly(root: string, rest: string)
    requires '.' !in root
    ensures RootField(root) == root && RootField(root + "." + rest) == root
  {
    SplitWhole(root, '.');
    SplitFirst(root, rest, '.');
  }

  /** A mask names the fields of its paths; it is refused whole if one is `*` or not writable. */
  lemma MaskExactly(body: Object, mutableFields: set<string>, paths: seq<string>)
    requires |paths| > 0 && forall i :: 0 <= i < |paths| ==> MaskPath(paths[i])
    ensures MaskedFields(body, mutableFields, Some(Join(paths, ','))) ==
      if exists p :: p in paths && (p == "*" || RootField(p) !in mutableFields) then None
      else Some(set p | p in paths :: RootField(p))
  {
    hide RootField, IsSpace;
    var mask := Join(paths, ',');
    JoinedEnds(paths);
    TrimStays(mask);
    SplitJoin(paths, ',');
    forall i | 0 <= i < |paths|
      ensures Trim(paths[i]) == paths[i]
    {
      assert paths[i][0] in paths[i] && paths[i][|paths[i]| - 1] in paths[i];
      TrimStays(paths[i]);
    }
    assert MaskPaths(mask) == paths;
  }

  /** Without a mask the fields named are the writable ones of the body. */
  lemma NoMaskExactly(body: Object, mutableFields: set<string>, f: string)
    ensures MaskedFields(body, mutableFields, None).Some? && MaskedFields(body, mutableFields, Some("")).Some?
    ensures f in MaskedFields(body, mutableFields, None).value <==> f in body && f in mutableFields
    ensures f in MaskedFields(body, mutableFields, Some("")).value <==> f in body && f in mutableFields
  {}

  ghost predicate Retyped(body: Object, masked: set<string>, field: string) { field in masked && field in body }

  /** A PATCH is turned down exactly for its mask, or for a type it sets that is none. */
  lemma InstancePatchAccepted(row: InstanceRow, body: Object, mask: Option<string>, now: string)
    ensures var masked := MaskedFields(body, MUTABLE_INSTANCE_FIELDS, mask);
            BuildInstanceUpdates(row, body, mask, now).Some? <==>
              && masked.Some?
              && (Retyped(body, masked.value, "instanceType") ==>
                    var t := Admitted(body, "instanceType", INSTANCE_TYPE_ENUM);
                    t.Some? && t.value in {"PRIMARY", "READ_POOL", "SECONDARY"})
  {
    hide NormalizeEnum, PrintsAsOneOf, PrintedName, MaskedFields, PatchSpec;
    if "instanceType" in body { PrintsByName(NormalizeEnum(body["instanceType"], INSTANCE_TYPE_ENUM), INSTANCE_TYPES); }
  }

  lemma UserPatchAccepted(row: UserRow, body: Object, mask: Option<string>)
    ensures var masked := MaskedFields(body, MUTABLE_USER_FIELDS, mask);
            BuildUserUpdates(row, body, mask).Some? <==>
              && masked.Some?
              && (Retyped(body, masked.value, "userType") ==>
                    var t := Admitted(body, "userType", USER_TYPE_ENUM);
                    t.Some? && t.value in {"ALLOYDB_BUILT_IN", "ALLOYDB_IAM_USER"})
  {
    hide NormalizeEnum, PrintsAsOneOf, PrintedName, MaskedFields, PatchSpec;
    if "userType" in body { PrintsByName(NormalizeEnum(body["userType"], USER_TYPE_ENUM), USER_TYPES); }
  }

  /** A cluster's exactly for its mask, or for leaving the cluster without networking. */
  lemma ClusterPatchAccepted(row: ClusterRow, body: Object, mask: Option<string>, now: string)
    ensures var masked := MaskedFields(body, MUTABLE_CLUSTER_FIELDS, mask);
            BuildClusterUpdates(row, body, mask, now).Some? <==>
              && masked.Some?
              && NetworkConfigured(PatchSpec(row.spec, body, masked.value - {"initialUser"}, CLUSTER_ENUM_FIELDS))
  {
    hide MaskedFields, PatchSpec, NetworkConfigured;
  }

  /** The key a data plane knows an instance by. */
  lemma EndpointExactly(k: Key, id: string)
    ensures EndpointKey(k, id) == k.project + "/" + k.location + "/" + k.cluster + "/" + id
  {
    var parts := [k.project, k.location, k.cluster];
    assert parts[1..] == [k.location, k.cluster] && parts[1..][1..] == [k.cluster];
    assert Join(parts[1..], '/') == k.location + "/" + k.cluster;
    assert k.project + "/" + (k.location + "/" + k.cluster) == k.project + "/" + k.location + "/" + k.cluster;
  }

  // ── Rows ──

  /** What a writable field without a column is stored as. */
  function Stored(body: Object, f: string, mutableFields: set<string>, columned: set<string>,
    enums: map<string, EnumNumbers>): Option<Value>
  {
    if f in body && f in mutableFields && f !in columned
    then Some(if f in enums then NormalizeEnum(body[f], enums[f]) else body[f])
    else None
  }

  ghost predicate GivenOr(v: Option<Value>, given: Option<Value>, otherwise: Value) {
    v == if given.None? || given.value.Null? then Some(otherwise) else given
  }

  lemma NewInstanceStores(body: Object, uid: string, now: string, f: string)
    ensures var stored := Stored(body, f, MUTABLE_INSTANCE_FIELDS, {"instanceType"}, INSTANCE_ENUM_FIELDS);
            var spec := NewInstance(body, uid, now).spec;
            if f == "connectionPoolConfig" then GivenOr(Get(spec, f), stored, Obj(map["enabled" := Bool(false)]))
            else if f == "observabilityConfig" && stored.Some? && stored.value.Obj? then
              && Get(spec, f).Some? && Get(spec, f).value.Obj?
              && var was, kept := stored.value.fields, Get(spec, f).value.fields;
                 && (forall g :: g != "trackWaitEventTypes" ==> Get(kept, g) == Get(was, g))
                 && GivenOr(Get(kept, "trackWaitEventTypes"), Get(was, "trackWaitEventTypes"), Bool(true))
            else Get(spec, f) == stored
  {
    var picked := PickSpecFields(body, MUTABLE_INSTANCE_FIELDS, COLUMNED_INSTANCE_FIELDS, INSTANCE_ENUM_FIELDS);
    InstancePicks(body, f);
    hide NormalizeEnum, PickSpecFields, Stored;
    ResponseDefaults(picked, f);
    hide WithResponseDefaults;
  }

  lemma InstancePicks(body: Object, f: string)
    ensures Get(PickSpecFields(body, MUTABLE_INSTANCE_FIELDS, COLUMNED_INSTANCE_FIELDS, INSTANCE_ENUM_FIELDS), f)
         == Stored(body, f, MUTABLE_INSTANCE_FIELDS, {"instanceType"}, INSTANCE_ENUM_FIELDS)
  {
    hide NormalizeEnum;
  }

  /** Connection pooling is off and wait events are tracked, unless the stored spec says otherwise. */
  lemma ResponseDefaults(picked: Object, f: string)
    ensures var was, spec := Get(picked, f), WithResponseDefaults(picked);
            if f == "connectionPoolConfig" then GivenOr(Get(spec, f), was, Obj(map["enabled" := Bool(false)]))
            else if f == "observabilityConfig" && was.Some? && was.value.Obj? then
              && Get(spec, f).Some? && Get(spec, f).value.Obj?
              && var kept := Get(spec, f).value.fields;
                 && (forall g :: g != "trackWaitEventTypes" ==> Get(kept, g) == Get(was.value.fields, g))
                 && GivenOr(Get(kept, "trackWaitEventTypes"), Get(was.value.fields, "trackWaitEventTypes"), Bool(true))
            else Get(spec, f) == was
  {}

  lemma NewClusterStores(body: Object, sources: Object, uid: string, now: string, f: string)
    ensures var stored := Stored(body, f, MUTABLE_CLUSTER_FIELDS, {"initialUser"}, CLUSTER_ENUM_FIELDS);
            var spec := NewCluster(body, sources, uid, now).spec;
            if f in sources then Get(spec, f) == Some(sources[f])
            else if f == "databaseVersion" then GivenOr(Get(spec, f), stored, Str("POSTGRES_15"))
            else if f == "continuousBackupConfig" then
              GivenOr(Get(spec, f), stored, Obj(map["enabled" := Bool(true), "recoveryWindowDays" := Num(14.0)]))
            else Get(spec, f) == stored
  {
    hide NormalizeEnum, ResolvedUserName;
  }

  lemma NewUserStores(body: Object, f: string)
    ensures Get(NewUser(body).spec, f) ==
      Stored(body, f, MUTABLE_USER_FIELDS, {"userType", "password", "keepExtraRoles"}, USER_ENUM_FIELDS)
    ensures NewUser(body).password ==
      if Get(body, "password").Some? && body["password"].Str? then body["password"].s else ""
  {
    hide NormalizeEnum;
  }

  // ── Restores ──

  /** Of these spellings of a key the body uses this one only. */
  ghost predicate OnlyOne(body: Object, spellings: set<string>, key: string) {
    && key in spellings && key in body && (body[key].Obj? || body[key].Arr?)
    && forall k :: k in spellings && k != key ==> !(k in body && (body[k].Obj? || body[k].Arr?))
  }

  ghost predicate OnlyString(o: Object, spellings: set<string>, key: string, s: string) {
    && key in spellings && s != "" && Get(o, key) == Some(Str(s))
    && forall k :: k in spellings && k != key ==> NonEmptyString(o, k).None?
  }

  ghost predicate NoneOf(body: Object, spellings: set<string>) {
    forall k :: k in spellings ==> !(k in body && (body[k].Obj? || body[k].Arr?))
  }

  function AllOf(keys: seq<string>): set<string> { set k | k in keys }

  lemma AllOfFew(a: string, b: string, c: string)
    ensures AllOf([a]) == {a} && AllOf([a, b]) == {a, b} && AllOf([a, b, c]) == {a, b, c}
  {}

  lemma AllOfFour(a: string, b: string, c: string, d: string)
    ensures AllOf([a, b, c, d]) == {a, b, c, d}
  {}

  lemma AllOfFive(a: string, b: string, c: string, d: string, e: string)
    ensures AllOf([a, b, c, d, e]) == {a, b, c, d, e}
  {}

  lemma {:induction false} OnlyRecordIsFirst(body: Object, keys: seq<string>, key: string)
    requires OnlyOne(body, AllOf(keys), key)
    ensures FirstRecord(body, keys) == Some(Fields(body[key]))
  {
    if keys[0] != key {
      assert keys[0] in AllOf(keys) && key in keys[1..];
      assert forall k :: k in keys[1..] ==> k in keys;
      OnlyRecordIsFirst(body, keys[1..], key);
    }
  }

  lemma {:induction false} NoRecordIsFirst(body: Object, keys: seq<string>)
    requires NoneOf(body, AllOf(keys))
    ensures FirstRecord(body, keys) == None
  {
    if keys != [] {
      assert keys[0] in AllOf(keys) && forall k :: k in keys[1..] ==> k in keys;
      NoRecordIsFirst(body, keys[1..]);
    }
  }

  lemma {:induction false} OnlyStringIsFirst(o: Object, keys: seq<string>, key: string, s: string)
    requires OnlyString(o, AllOf(keys), key, s)
    ensures FirstString(o, keys) == Some(s)
  {
    if keys[0] != key {
      assert keys[0] in AllOf(keys) && key in keys[1..];
      assert forall k :: k in keys[1..] ==> k in keys;
      OnlyStringIsFirst(o, keys[1..], key, s);
    }
  }

  function AsValue(o: Option<Object>): Option<Value> { if o.Some? then Some(Obj(o.value)) else None }

  lemma SourcesApart(body: Object)
    ensures Get(RestoreSources(body), "backupSource") == AsValue(BackupSource(body))
    ensures Get(RestoreSources(body), "continuousBackupSource") == AsValue(ContinuousBackupSource(body))
    ensures Get(RestoreSources(body), "backupdrBackupSource") == AsValue(BackupDrSource(body))
    ensures Get(RestoreSources(body), "backupdrPitrSource") == AsValue(BackupDrPitrSource(body))
  {
    hide BackupSource, ContinuousBackupSource, BackupDrSource, BackupDrPitrSource;
  }

  lemma OneField(a: string, s: string)
    ensures StringField(a, Some(s)) == map[a := Str(s)]
  {}

  lemma TwoFields(a: string, b: string, s: string, t: string)
    requires a != b
    ensures StringField(a, Some(s)) + StringField(b, Some(t)) == map[a := Str(s), b := Str(t)]
  {}

  /** A backup source is read under any of its spellings and kept under one. */
  lemma BackupSourceStored(body: Object, key: string, field: string, s: string)
    ensures var spellings := {"backupSource", "backup_source", "restoreBackupSource", "restore_backup_source"};
            && (NoneOf(body, spellings) ==> Get(RestoreSources(body), "backupSource") == None)
            && (OnlyOne(body, spellings, key)
                && OnlyString(Fields(body[key]), {"backupName", "backup_name"}, field, s) ==>
                  Get(RestoreSources(body), "backupSource") == Some(Obj(map["backupName" := Str(s)])))
  {
    hide FirstRecord, FirstString, RestoreSources, StringField, OnlyString, NoneOf, AllOf;
    SourcesApart(body);
    var keys := ["backupSource", "backup_source", "restoreBackupSource", "restore_backup_source"];
    var fields := ["backupName", "backup_name"];
    AllOfFour(keys[0], keys[1], keys[2], keys[3]);
    AllOfFew(fields[0], fields[1], "");
    if OnlyOne(body, AllOf(keys), key) {
      OnlyRecordIsFirst(body, keys, key);
      if OnlyString(Fields(body[key]), AllOf(fields), field, s) {
        OnlyStringIsFirst(Fields(body[key]), fields, field, s);
        OneField("backupName", s);
      }
    }
    if NoneOf(body, AllOf(keys)) { NoRecordIsFirst(body, keys); }
  }

  /** A point in time is read and kept with its cluster. */
  lemma ContinuousSourceStored(body: Object, key: string, field: string, s: string, time: string, at: string)
    ensures var spellings := {"continuousBackupSource", "continuous_backup_source", "restoreContinuousBackupSource",
              "restore_continuous_backup_source"};
            && (NoneOf(body, spellings) ==> Get(RestoreSources(body), "continuousBackupSource") == None)
            && (OnlyOne(body, spellings, key)
                && OnlyString(Fields(body[key]), {"cluster", "clusterName", "cluster_name"}, field, s)
                && OnlyString(Fields(body[key]), {"pointInTime", "point_in_time"}, time, at) ==>
                  Get(RestoreSources(body), "continuousBackupSource")
                    == Some(Obj(map["cluster" := Str(s), "pointInTime" := Str(at)])))
  {
    hide FirstRecord, FirstString, RestoreSources, StringField, OnlyString, NoneOf, AllOf;
    SourcesApart(body);
    var keys := ["continuousBackupSource", "continuous_backup_source", "restoreContinuousBackupSource",
      "restore_continuous_backup_source"];
    var fields, times := ["cluster", "clusterName", "cluster_name"], ["pointInTime", "point_in_time"];
    AllOfFour(keys[0], keys[1], keys[2], keys[3]);
    AllOfFew(fields[0], fields[1], fields[2]);
    AllOfFew(times[0], times[1], "");
    if OnlyOne(body, AllOf(keys), key) {
      OnlyRecordIsFirst(body, keys, key);
      var o := Fields(body[key]);
      if OnlyString(o, AllOf(fields), field, s) && OnlyString(o, AllOf(times), time, at) {
        OnlyStringIsFirst(o, fields, field, s);
        OnlyStringIsFirst(o, times, time, at);
        TwoFields("cluster", "pointInTime", s, at);
      }
    }
    if NoneOf(body, AllOf(keys)) { NoRecordIsFirst(body, keys); }
  }

  lemma BackupDrSourceStored(body: Object, key: string, s: string)
    ensures var spellings := {"backupdrBackupSource", "backupdr_backup_source", "restoreBackupdrBackupSource",
              "restore_backupdr_backup_source", "restore_backupdr_backup"};
            && (NoneOf(body, spellings) ==> Get(RestoreSources(body), "backupdrBackupSource") == None)
            && (OnlyOne(body, spellings, key) && OnlyString(Fields(body[key]), {"backup"}, "backup", s) ==>
                  Get(RestoreSources(body), "backupdrBackupSource") == Some(Obj(map["backup" := Str(s)])))
  {
    hide FirstRecord, FirstString, RestoreSources, StringField, OnlyString, NoneOf, AllOf;
    SourcesApart(body);
    var keys := ["backupdrBackupSource", "backupdr_backup_source", "restoreBackupdrBackupSource",
      "restore_backupdr_backup_source", "restore_backupdr_backup"];
    var fields := ["backup"];
    AllOfFive(keys[0], keys[1], keys[2], keys[3], keys[4]);
    AllOfFew(fields[0], "", "");
    if OnlyOne(body, AllOf(keys), key) {
      OnlyRecordIsFirst(body, keys, key);
      if OnlyString(Fields(body[key]), AllOf(fields), "backup", s) {
        OnlyStringIsFirst(Fields(body[key]), fields, "backup", s);
        OneField("backup", s);
      }
    }
    if NoneOf(body, AllOf(keys)) { NoRecordIsFirst(body, keys); }
  }

  lemma BackupDrPitrSourceStored(body: Object, key: string, field: string, s: string, time: string, at: string)
    ensures var spellings := {"backupdrPitrSource", "backupdr_pitr_source", "restoreBackupdrPitrSource",
              "restore_backupdr_pitr_source"};
            && (NoneOf(body, spellings) ==> Get(RestoreSources(body), "backupdrPitrSource") == None)
            && (OnlyOne(body, spellings, key)
                && OnlyString(Fields(body[key]), {"dataSource", "data_source"}, field, s)
                && OnlyString(Fields(body[key]), {"pointInTime", "point_in_time"}, time, at) ==>
                  Get(RestoreSources(body), "backupdrPitrSource")
                    == Some(Obj(map["dataSource" := Str(s), "pointInTime" := Str(at)])))
  {
    hide FirstRecord, FirstString, RestoreSources, StringField, OnlyString, NoneOf, AllOf;
    SourcesApart(body);
    var keys := ["backupdrPitrSource", "backupdr_pitr_source", "restoreBackupdrPitrSource",
      "restore_backupdr_pitr_source"];
    var fields, times := ["dataSource", "data_source"], ["pointInTime", "point_in_time"];
    AllOfFour(keys[0], keys[1], keys[2], keys[3]);
    AllOfFew(fields[0], fields[1], "");
    AllOfFew(times[0], times[1], "");
    if OnlyOne(body, AllOf(keys), key) {
      OnlyRecordIsFirst(body, keys, key);
      var o := Fields(body[key]);
      if OnlyString(o, AllOf(fields), field, s) && OnlyString(o, AllOf(times), time, at) {
        OnlyStringIsFirst(o, fields, field, s);
        OnlyStringIsFirst(o, times, time, at);
        TwoFields("dataSource", "pointInTime", s, at);
      }
    }
    if NoneOf(body, AllOf(keys)) { NoRecordIsFirst(body, keys); }
  }

  /** The body of a restore is its `cluster`, if that is an object, and otherwise the request itself. */
  lemma RestoredClusterExactly(body: Object)
    ensures RestoredCluster(body) ==
      if "cluster" in body && (body["cluster"].Obj? || body["cluster"].Arr?) then Fields(body["cluster"]) else body
  {
    var keys := ["cluster"];
    assert FirstRecord(body, keys[1..]) == None;
  }
}
