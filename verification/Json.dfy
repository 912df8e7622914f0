/** JSON request bodies, and the enum normalisation every AlloyDB field goes through. */
module Json {
  import opened Options
  import opened Text

  datatype Value =
    | Null
    | Bool(b: bool)
    | Num(n: real)
    | Str(s: string)
    | Arr(items: seq<Value>)
    | Obj(fields: map<string, Value>)

  type Object = map<string, Value>

  type EnumNumbers = map<int, string>

  /** `typeof v === 'object'` for a value that is not null. */
  predicate IsObject(v: Value) { v.Obj? || v.Arr? }

  /** The named fields of an object; an array has none. */
  function Fields(v: Value): Object {
    if v.Obj? then v.fields else map[]
  }

  function Get(o: Object, field: string): Option<Value> {
    if field in o then Some(o[field]) else None
  }

  /** A field that holds a non-empty string. */
  function NonEmptyString(o: Object, field: string): Option<string> {
    if field in o && o[field].Str? && o[field].s != "" then Some(o[field].s) else None
  }

  function NameOfNumber(byNumber: EnumNumbers, n: real, otherwise: Value): Value {
    if n.Floor as real == n && n.Floor in byNumber then Str(byNumber[n.Floor]) else otherwise
  }

  /** An enum given by name, by wire number or by numeric string; anything unknown is left alone. */
  function NormalizeEnum(v: Value, byNumber: EnumNumbers): Value {
    match v
    case Num(n) => NameOfNumber(byNumber, n, v)
    case Str(s) => if AllDigits(s) then NameOfNumber(byNumber, ToNat(s) as real, v) else v
    case _ => v
  }

  /**
   * `names.has(String(v))`. An array prints as its items joined by commas, so a one-element array
   * passes whenever its element does; no other non-string prints as an enum name.
   */
  predicate PrintsAsOneOf(v: Value, names: set<string>) {
    match v
    case Str(s) => s in names
    case Arr(items) => |items| == 1 && PrintsAsOneOf(items[0], names)
    case _ => false
  }

  function NormalizeSpecField(field: string, v: Value, enums: map<string, EnumNumbers>): Value {
    if field in enums then NormalizeEnum(v, enums[field]) else v
  }
}
