/**
 * Document-store field values as the app receives them (`[String: Any]`), and the Swift
 * `as?` casts the app applies to them. Numbers follow Swift's NSNumber bridging: an integer
 * reads `as? Double`, and a whole-valued double reads `as? Int`.
 */
module Document {
  import opened Wrappers

  datatype Value =
    | VString(s: string)
    | VInt(i: int)
    | VDouble(d: real)
    | VBool(b: bool)
    | VTimestamp(seconds: real)
    | VArray(items: seq<Value>)
    | VMap(fields: map<string, Value>)
    | VNull

  /** The data of one document, or one nested dictionary. */
  type Fields = map<string, Value>

  /** `data[key]`. */
  function Get(data: Fields, key: string): Option<Value>
  {
    if key in data then Some(data[key]) else None
  }

  /** `as? String`. */
  function AsString(v: Option<Value>): Option<string>
  {
    match v
    case Some(VString(s)) => Some(s)
    case _ => None
  }

  /** `as? Int`: an integer, or a double with no fractional part. */
  function AsInt(v: Option<Value>): Option<int>
  {
    match v
    case Some(VInt(i)) => Some(i)
    case Some(VDouble(d)) => if d.Floor as real == d then Some(d.Floor) else None
    case _ => None
  }

  /** `as? Double`: a double, or an integer widened. */
  function AsDouble(v: Option<Value>): Option<real>
  {
    match v
    case Some(VDouble(d)) => Some(d)
    case Some(VInt(i)) => Some(i as real)
    case _ => None
  }

  /** `as? Bool`. */
  function AsBool(v: Option<Value>): Option<bool>
  {
    match v
    case Some(VBool(b)) => Some(b)
    case _ => None
  }

  /** `as? Timestamp`, read through `dateValue()` as seconds. */
  function AsTimestamp(v: Option<Value>): Option<real>
  {
    match v
    case Some(VTimestamp(t)) => Some(t)
    case _ => None
  }

  /** `as? [[String: Any]]`: an array all of whose elements are dictionaries. */
  function AsRecords(v: Option<Value>): (r: Option<seq<Fields>>)
    ensures r.Some? ==> v.Some? && v.value.VArray? && |r.value| == |v.value.items|
  {
    match v
    case Some(VArray(items)) =>
      if forall i | 0 <= i < |items| :: items[i].VMap? then
        Some(seq(|items|, i requires 0 <= i < |items| && items[i].VMap? => items[i].fields))
      else None
    case _ => None
  }

  /** `as? [String: Int]`: a dictionary all of whose values read as Int. */
  function AsIntMap(v: Option<Value>): Option<map<string, int>>
  {
    match v
    case Some(VMap(fields)) =>
      if forall k | k in fields :: AsInt(Some(fields[k])).Some? then
        Some(map k | k in fields :: AsInt(Some(fields[k])).value)
      else None
    case _ => None
  }

  /** The store's `FieldValue.arrayUnion([v])`: append `v` unless an equal element is already there. */
  function ArrayUnion(items: seq<Value>, v: Value): (r: seq<Value>)
    ensures v in r
    ensures v !in items ==> r == items + [v]
    ensures v in items ==> r == items
  {
    if v in items then items else items + [v]
  }
}
