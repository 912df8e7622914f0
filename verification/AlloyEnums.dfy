/** Which type a create stores: the check looks at how the value prints, the row at what it is. */
module AlloyEnums {
  import opened Options
  import opened Json
  import opened AlloyNames
  import opened AlloyTypes

  /** What an enum value prints as, where it prints as a name: a string, however deep in one-element arrays. */
  function PrintedName(v: Value): Option<string> {
    match v
    case Str(s) => Some(s)
    case Arr(items) => if |items| == 1 then PrintedName(items[0]) else None
    case _ => None
  }

  lemma {:induction false} PrintsByName(v: Value, names: set<string>)
    ensures PrintsAsOneOf(v, names) <==> PrintedName(v).Some? && PrintedName(v).value in names
  {
    if v.Arr? && |v.items| == 1 { PrintsByName(v.items[0], names); }
  }

  lemma ArraysStay(v: Value, numbers: EnumNumbers)
    ensures v.Arr? ==> NormalizeEnum(v, numbers) == v
    ensures !v.Arr? ==> !NormalizeEnum(v, numbers).Arr?
  {}

  /** The name the type check of a request admitted. */
  function Admitted(body: Object, field: string, e: EnumNumbers): Option<string>
    requires field in body
  {
    PrintedName(NormalizeEnum(body[field], e))
  }

  /**
   * An instance is stored under the type its check admitted, unless the type came in an array and is not
   * PRIMARY: then it is stored as PRIMARY.
   */
  lemma StoredTypeIsAdmitted(body: Object, uid: string, now: string)
    requires "instanceType" in body && InstanceTypeOk(body)
    ensures var admitted := Admitted(body, "instanceType", INSTANCE_TYPE_ENUM);
            && admitted.Some? && admitted.value in INSTANCE_TYPES
            && (NewInstance(body, uid, now).instanceType == admitted.value <==>
                  !body["instanceType"].Arr? || admitted.value == PRIMARY)
  {
    hide NormalizeEnum, PickSpecFields, WithResponseDefaults;
    var v := NormalizeEnum(body["instanceType"], INSTANCE_TYPE_ENUM);
    PrintsByName(v, INSTANCE_TYPES);
    ArraysStay(body["instanceType"], INSTANCE_TYPE_ENUM);
  }

  /** Users likewise, with built-in in place of PRIMARY. */
  lemma StoredUserTypeIsAdmitted(body: Object)
    requires "userType" in body && UserTypeOk(body)
    ensures var admitted := Admitted(body, "userType", USER_TYPE_ENUM);
            && admitted.Some? && admitted.value in USER_TYPES
            && (NewUser(body).userType == admitted.value <==>
                  !body["userType"].Arr? || admitted.value == BUILT_IN)
  {
    hide NormalizeEnum, PickSpecFields;
    var v := NormalizeEnum(body["userType"], USER_TYPE_ENUM);
    PrintsByName(v, USER_TYPES);
    ArraysStay(body["userType"], USER_TYPE_ENUM);
  }

  /** A read pool asked for in an array passes every check of the request and is stored as a PRIMARY. */
  lemma ArrayPoolIsPrimary(id: string, uid: string, now: string)
    requires IsValidInstanceId(id)
    ensures var body := map["instanceType" := Arr([Str(READ_POOL)])];
            && InstanceRequestOk(id, body, None)
            && Admitted(body, "instanceType", INSTANCE_TYPE_ENUM) == Some(READ_POOL)
            && NewInstance(body, uid, now).instanceType == PRIMARY
  {
    hide PickSpecFields, WithResponseDefaults;
    var v := Arr([Str(READ_POOL)]);
    ArraysStay(v, INSTANCE_TYPE_ENUM);
    assert v.items[0] == Str(READ_POOL) && PrintedName(v) == Some(READ_POOL);
    PrintsByName(v, INSTANCE_TYPES);
  }
}
