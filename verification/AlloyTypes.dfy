/** AlloyDB rows, the requests that write them, and the pure rules that turn one into the other. */
module AlloyTypes {
  import opened Text
  import opened Options
  import opened Json
  import opened AlloyNames

  datatype ErrorCode = NotFound | AlreadyExists | InvalidArgument | FailedPrecondition | Internal

  // ── Rows. A row's name is its key in the table. ──

  datatype ClusterRow = ClusterRow(
    uid: string, initialUserName: Option<string>, createTime: string, updateTime: string, spec: Object)

  datatype InstanceRow = InstanceRow(
    uid: string, instanceType: string, createTime: string, updateTime: string, spec: Object)

  datatype UserRow = UserRow(userType: string, password: string, spec: Object)

  // ── Enumerations ──

  const PRIMARY := "PRIMARY"
  const READ_POOL := "READ_POOL"
  const SECONDARY := "SECONDARY"
  const BUILT_IN := "ALLOYDB_BUILT_IN"
  const IAM_USER := "ALLOYDB_IAM_USER"

  const INSTANCE_TYPES: set<string> := {PRIMARY, READ_POOL, SECONDARY}
  const USER_TYPES: set<string> := {BUILT_IN, IAM_USER}

  const INSTANCE_TYPE_ENUM: EnumNumbers :=
    map[0 := "INSTANCE_TYPE_UNSPECIFIED", 1 := "PRIMARY", 2 := "READ_POOL", 3 := "SECONDARY"]
  const USER_TYPE_ENUM: EnumNumbers :=
    map[0 := "USER_TYPE_UNSPECIFIED", 1 := "ALLOYDB_BUILT_IN", 2 := "ALLOYDB_IAM_USER"]
  const DATABASE_VERSION_ENUM: EnumNumbers :=
    map[0 := "DATABASE_VERSION_UNSPECIFIED", 1 := "POSTGRES_13", 2 := "POSTGRES_14",
        3 := "POSTGRES_15", 4 := "POSTGRES_16", 5 := "POSTGRES_17", 6 := "POSTGRES_18"]
  const SUBSCRIPTION_TYPE_ENUM: EnumNumbers :=
    map[0 := "SUBSCRIPTION_TYPE_UNSPECIFIED", 1 := "STANDARD", 2 := "TRIAL"]
  const AVAILABILITY_TYPE_ENUM: EnumNumbers :=
    map[0 := "AVAILABILITY_TYPE_UNSPECIFIED", 1 := "ZONAL", 2 := "REGIONAL"]
  const ACTIVATION_POLICY_ENUM: EnumNumbers :=
    map[0 := "ACTIVATION_POLICY_UNSPECIFIED", 1 := "ALWAYS", 2 := "NEVER"]
  const DATA_API_ACCESS_ENUM: EnumNumbers :=
    map[0 := "DEFAULT_DATA_API_ENABLED_FOR_GOOGLE_CLOUD_SERVICES", 1 := "DISABLED", 2 := "ENABLED"]
  const MAINTENANCE_POLICY_ENUM: EnumNumbers :=
    map[0 := "MAINTENANCE_VERSION_SELECTION_POLICY_UNSPECIFIED",
        1 := "MAINTENANCE_VERSION_SELECTION_POLICY_LATEST",
        2 := "MAINTENANCE_VERSION_SELECTION_POLICY_DEFAULT"]

  const CLUSTER_ENUM_FIELDS: map<string, EnumNumbers> :=
    map["databaseVersion" := DATABASE_VERSION_ENUM, "subscriptionType" := SUBSCRIPTION_TYPE_ENUM,
        "maintenanceVersionSelectionPolicy" := MAINTENANCE_POLICY_ENUM]
  const INSTANCE_ENUM_FIELDS: map<string, EnumNumbers> :=
    map["instanceType" := INSTANCE_TYPE_ENUM, "availabilityType" := AVAILABILITY_TYPE_ENUM,
        "activationPolicy" := ACTIVATION_POLICY_ENUM, "dataApiAccess" := DATA_API_ACCESS_ENUM]
  const USER_ENUM_FIELDS: map<string, EnumNumbers> := map["userType" := USER_TYPE_ENUM]

  // ── Writable fields ──

  const MUTABLE_CLUSTER_FIELDS: set<string> := {
    "annotations", "automatedBackupPolicy", "continuousBackupConfig", "databaseVersion",
    "dataplexConfig", "displayName", "encryptionConfig", "etag", "initialUser", "labels",
    "maintenanceUpdatePolicy", "maintenanceVersionSelectionPolicy", "network", "networkConfig",
    "pscConfig", "secondaryConfig", "sslConfig", "subscriptionType", "tags"
  }
  const MUTABLE_INSTANCE_FIELDS: set<string> := {
    "activationPolicy", "annotations", "availabilityType", "clientConnectionConfig",
    "connectionPoolConfig", "dataApiAccess", "databaseFlags", "displayName", "etag", "gceZone",
    "instanceType", "labels", "machineConfig", "networkConfig", "observabilityConfig",
    "pscInstanceConfig", "queryInsightsConfig", "readPoolConfig"
  }
  const MUTABLE_USER_FIELDS: set<string> := {"databaseRoles", "keepExtraRoles", "password", "userType"}

  const COLUMNED_CLUSTER_FIELDS: set<string> := {"initialUser"}
  const COLUMNED_INSTANCE_FIELDS: set<string> := {"instanceType"}
  const COLUMNED_USER_FIELDS: set<string> := {"userType", "password", "keepExtraRoles"}

  // ── Field masks ──

  function MaskPaths(mask: string): seq<string> {
    var parts := Split(mask, ',');
    seq(|parts|, i requires 0 <= i < |parts| => Trim(parts[i]))
  }

  function RootField(path: string): string { Split(path, '.')[0] }

  predicate RejectedPath(path: string, mutableFields: set<string>) {
    path == "*" || RootField(path) !in mutableFields
  }

  predicate NoMask(mask: Option<string>) { mask.None? || Trim(mask.value) == "" }

  /** The fields a PATCH writes, or None when the mask is an INVALID_ARGUMENT. */
  function MaskedFields(body: Object, mutableFields: set<string>, mask: Option<string>): Option<set<string>> {
    if NoMask(mask) then Some(set f | f in body && f in mutableFields)
    else if exists path :: path in MaskPaths(mask.value) && RejectedPath(path, mutableFields) then None
    else Some(set path | path in MaskPaths(mask.value) :: RootField(path))
  }

  /** A PATCH of `fields`: set when the body has the field, cleared when it does not. */
  function PatchSpec(spec: Object, body: Object, fields: set<string>, enums: map<string, EnumNumbers>): Object {
    map f | f in spec.Keys + fields && (if f in fields then f in body else true) ::
      if f in fields then NormalizeSpecField(f, body[f], enums) else spec[f]
  }

  function PickSpecFields(
    body: Object, mutableFields: set<string>, columned: set<string>, enums: map<string, EnumNumbers>): Object
  {
    map f | f in body && f in mutableFields && f !in columned :: NormalizeSpecField(f, body[f], enums)
  }

  // ── Clusters ──

  const DEFAULT_INITIAL_USERNAME := "postgres"
  const DEFAULT_DATABASE_VERSION := "POSTGRES_15"

  function DefaultContinuousBackupConfig(): Value {
    Obj(map["enabled" := Bool(true), "recoveryWindowDays" := Num(14.0)])
  }

  predicate HasNetwork(body: Object) {
    || NonEmptyString(body, "network").Some?
    || ("networkConfig" in body && NonEmptyString(Fields(body["networkConfig"]), "network").Some?)
  }

  predicate HasEnabledPsc(body: Object) {
    "pscConfig" in body && Get(Fields(body["pscConfig"]), "pscEnabled") == Some(Bool(true))
  }

  /** What create, restore and PATCH all demand: a network, or private service connect switched on. */
  predicate NetworkConfigured(body: Object) { HasNetwork(body) || HasEnabledPsc(body) }

  function InitialUserName(body: Object): Option<string> {
    if "initialUser" in body then NonEmptyString(Fields(body["initialUser"]), "user") else None
  }

  function ResolvedUserName(body: Object): string {
    if InitialUserName(body).Some? then InitialUserName(body).value else DEFAULT_INITIAL_USERNAME
  }

  function ResolvedPassword(body: Object): string {
    if "initialUser" in body
    then
      var user := Fields(body["initialUser"]);
      if "password" in user && user["password"].Str? then user["password"].s else ""
    else ""
  }

  predicate ClusterRequestOk(id: string, body: Object) {
    IsValidClusterId(id) && IsValidUserId(ResolvedUserName(body)) && NetworkConfigured(body)
  }

  /** `spec[field] ??= value` */
  function OrDefault(spec: Object, field: string, value: Value): Object {
    if field in spec && !spec[field].Null? then spec else spec[field := value]
  }

  function NewCluster(body: Object, sources: Object, uid: string, now: string): ClusterRow {
    var picked := PickSpecFields(body, MUTABLE_CLUSTER_FIELDS, COLUMNED_CLUSTER_FIELDS, CLUSTER_ENUM_FIELDS);
    var versioned := OrDefault(picked, "databaseVersion", Str(DEFAULT_DATABASE_VERSION));
    var backed := OrDefault(versioned, "continuousBackupConfig", DefaultContinuousBackupConfig());
    ClusterRow(uid, Some(ResolvedUserName(body)), now, now, backed + sources)
  }

  datatype ClusterUpdates = ClusterUpdates(
    initialUserName: Option<Option<string>>, updateTime: string, spec: Object)

  /** The columns a cluster PATCH writes, or None when it is an INVALID_ARGUMENT. */
  function BuildClusterUpdates(
    existing: ClusterRow, body: Object, mask: Option<string>, now: string): Option<ClusterUpdates>
  {
    var masked := MaskedFields(body, MUTABLE_CLUSTER_FIELDS, mask);
    if masked.None? then None
    else
      var spec := PatchSpec(existing.spec, body, masked.value - {"initialUser"}, CLUSTER_ENUM_FIELDS);
      var user := if "initialUser" in masked.value then Some(InitialUserName(body)) else None;
      if NetworkConfigured(spec) then Some(ClusterUpdates(user, now, spec)) else None
  }

  function ApplyClusterUpdates(row: ClusterRow, u: ClusterUpdates): ClusterRow {
    row.(
      initialUserName := if u.initialUserName.Some? then u.initialUserName.value else row.initialUserName,
      updateTime := u.updateTime,
      spec := u.spec)
  }

  // ── Restores ──

  function FirstRecord(body: Object, keys: seq<string>): Option<Object> {
    if keys == [] then None
    else if keys[0] in body && IsObject(body[keys[0]]) then Some(Fields(body[keys[0]]))
    else FirstRecord(body, keys[1..])
  }

  function FirstString(o: Object, keys: seq<string>): Option<string> {
    if keys == [] then None
    else if NonEmptyString(o, keys[0]).Some? then NonEmptyString(o, keys[0])
    else FirstString(o, keys[1..])
  }

  function StringField(field: string, value: Option<string>): Object {
    if value.Some? then map[field := Str(value.value)] else map[]
  }

  function Source(field: string, content: Option<Object>): Object {
    if content.Some? then map[field := Obj(content.value)] else map[]
  }

  function RestoredCluster(body: Object): Object {
    var cluster := FirstRecord(body, ["cluster"]);
    if cluster.Some? then cluster.value else body
  }

  function BackupSource(body: Object): Option<Object> {
    var o := FirstRecord(body, ["backupSource", "backup_source", "restoreBackupSource", "restore_backup_source"]);
    if o.None? then None
    else Some(StringField("backupName", FirstString(o.value, ["backupName", "backup_name"])))
  }

  function ContinuousBackupSource(body: Object): Option<Object> {
    var o := FirstRecord(body,
      ["continuousBackupSource", "continuous_backup_source",
       "restoreContinuousBackupSource", "restore_continuous_backup_source"]);
    if o.None? then None
    else
      Some(StringField("cluster", FirstString(o.value, ["cluster", "clusterName", "cluster_name"]))
           + StringField("pointInTime", FirstString(o.value, ["pointInTime", "point_in_time"])))
  }

  function BackupDrSource(body: Object): Option<Object> {
    var o := FirstRecord(body,
      ["backupdrBackupSource", "backupdr_backup_source", "restoreBackupdrBackupSource",
       "restore_backupdr_backup_source", "restore_backupdr_backup"]);
    if o.None? then None else Some(StringField("backup", FirstString(o.value, ["backup"])))
  }

  function BackupDrPitrSource(body: Object): Option<Object> {
    var o := FirstRecord(body,
      ["backupdrPitrSource", "backupdr_pitr_source",
       "restoreBackupdrPitrSource", "restore_backupdr_pitr_source"]);
    if o.None? then None
    else
      Some(StringField("dataSource", FirstString(o.value, ["dataSource", "data_source"]))
           + StringField("pointInTime", FirstString(o.value, ["pointInTime", "point_in_time"])))
  }

  /** The wrapper keys of a restore request, read in either spelling and stored in camelCase. */
  function RestoreSources(body: Object): Object {
    Source("backupSource", BackupSource(body))
    + Source("continuousBackupSource", ContinuousBackupSource(body))
    + Source("backupdrBackupSource", BackupDrSource(body))
    + Source("backupdrPitrSource", BackupDrPitrSource(body))
  }

  // ── Instances ──

  predicate InstanceTypeOk(body: Object) {
    "instanceType" in body ==>
      PrintsAsOneOf(NormalizeEnum(body["instanceType"], INSTANCE_TYPE_ENUM), INSTANCE_TYPES)
  }

  /** A read pool declares at least one node; `nodeCount` is `Number(readPoolConfig?.nodeCount)` when integral. */
  predicate NodeCountOk(body: Object, nodeCount: Option<int>) {
    ("instanceType" in body && NormalizeEnum(body["instanceType"], INSTANCE_TYPE_ENUM) == Str(READ_POOL))
    ==> (nodeCount.Some? && nodeCount.value >= 1)
  }

  predicate InstanceRequestOk(id: string, body: Object, nodeCount: Option<int>) {
    && IsValidInstanceId(id)
    && "instanceType" in body
    && InstanceTypeOk(body)
    && NodeCountOk(body, nodeCount)
  }

  function RequestedType(body: Object): string {
    if "instanceType" in body
    then
      var t := NormalizeEnum(body["instanceType"], INSTANCE_TYPE_ENUM);
      if t.Str? then t.s else PRIMARY
    else PRIMARY
  }

  function WithResponseDefaults(spec: Object): Object {
    var pooled := OrDefault(spec, "connectionPoolConfig", Obj(map["enabled" := Bool(false)]));
    if "observabilityConfig" in pooled && pooled["observabilityConfig"].Obj?
    then
      pooled["observabilityConfig" :=
        Obj(OrDefault(pooled["observabilityConfig"].fields, "trackWaitEventTypes", Bool(true)))]
    else pooled
  }

  function NewInstance(body: Object, uid: string, now: string): InstanceRow {
    InstanceRow(uid, RequestedType(body), now, now,
      WithResponseDefaults(
        PickSpecFields(body, MUTABLE_INSTANCE_FIELDS, COLUMNED_INSTANCE_FIELDS, INSTANCE_ENUM_FIELDS)))
  }

  datatype InstanceUpdates = InstanceUpdates(
    instanceType: Option<string>, updateTime: string, spec: Object)

  function BuildInstanceUpdates(
    existing: InstanceRow, body: Object, mask: Option<string>, now: string): Option<InstanceUpdates>
  {
    var masked := MaskedFields(body, MUTABLE_INSTANCE_FIELDS, mask);
    if masked.None? then None
    else
      var retyped := "instanceType" in masked.value && "instanceType" in body;
      if retyped && !InstanceTypeOk(body) then None
      else
        var spec := PatchSpec(existing.spec, body, masked.value - {"instanceType"}, INSTANCE_ENUM_FIELDS);
        var newType :=
          if retyped
          then
            var t := NormalizeEnum(body["instanceType"], INSTANCE_TYPE_ENUM);
            Some(if t.Str? then t.s else existing.instanceType)
          else None;
        Some(InstanceUpdates(newType, now, spec))
  }

  function ApplyInstanceUpdates(row: InstanceRow, u: InstanceUpdates): InstanceRow {
    row.(
      instanceType := if u.instanceType.Some? then u.instanceType.value else row.instanceType,
      updateTime := u.updateTime,
      spec := u.spec)
  }

  // ── Users ──

  predicate UserTypeOk(body: Object) {
    "userType" in body ==> PrintsAsOneOf(NormalizeEnum(body["userType"], USER_TYPE_ENUM), USER_TYPES)
  }

  function NewUser(body: Object): UserRow {
    var t := if "userType" in body then NormalizeEnum(body["userType"], USER_TYPE_ENUM) else Null;
    UserRow(
      if t.Str? then t.s else BUILT_IN,
      if "password" in body && body["password"].Str? then body["password"].s else "",
      PickSpecFields(body, MUTABLE_USER_FIELDS, COLUMNED_USER_FIELDS, USER_ENUM_FIELDS))
  }

  datatype UserUpdates = UserUpdates(userType: Option<string>, password: Option<string>, spec: Object)

  function BuildUserUpdates(existing: UserRow, body: Object, mask: Option<string>): Option<UserUpdates> {
    var masked := MaskedFields(body, MUTABLE_USER_FIELDS, mask);
    if masked.None? then None
    else
      var retyped := "userType" in masked.value && "userType" in body;
      if retyped && !UserTypeOk(body) then None
      else
        var newType :=
          if retyped
          then
            var t := NormalizeEnum(body["userType"], USER_TYPE_ENUM);
            Some(if t.Str? then t.s else existing.userType)
          else None;
        var password :=
          if "password" in masked.value && "password" in body && body["password"].Str?
          then Some(body["password"].s) else None;
        Some(UserUpdates(newType, password,
          PatchSpec(existing.spec, body, masked.value - COLUMNED_USER_FIELDS, USER_ENUM_FIELDS)))
  }

  function ApplyUserUpdates(row: UserRow, u: UserUpdates): UserRow {
    UserRow(
      if u.userType.Some? then u.userType.value else row.userType,
      if u.password.Some? then u.password.value else row.password,
      u.spec)
  }
}
