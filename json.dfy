/** Decoded JSON values and the few Python operations the core applies to them:
    `dict.get`, truthiness, hashability and `str()`.  JSON numbers are integers here. */
module Json {
  import opened Outcome
  import opened Text

  datatype Json =
    | JNull
    | JBool(b: bool)
    | JInt(i: int)
    | JStr(s: string)
    | JArr(items: seq<Json>)
    | JObj(fields: map<string, Json>)

  /** `d.get(key, default)` on a dict. */
  function GetOr(obj: Json, key: string, default: Json): (v: Json)
    requires obj.JObj?
    ensures key in obj.fields ==> v == obj.fields[key]
    ensures key !in obj.fields ==> v == default
  {
    if key in obj.fields then obj.fields[key] else default
  }

  /** `d.get(key)`: a missing key and an explicit null both read as None. */
  function Get(obj: Json, key: string): Json
    requires obj.JObj?
  {
    GetOr(obj, key, JNull)
  }

  /** Python truthiness: None, False, 0 and empty strings, lists and dicts are false. */
  predicate Truthy(j: Json)
  {
    match j
    case JNull => false
    case JBool(b) => b
    case JInt(i) => i != 0
    case JStr(s) => s != []
    case JArr(items) => items != []
    case JObj(fields) => fields != map[]
  }

  /** Lists and dicts cannot be hashed, so they cannot be dict keys or set members. */
  predicate Hashable(j: Json)
  {
    !j.JArr? && !j.JObj?
  }

  /** `str(v)`.  Exact for strings, None, booleans and integers; a list or a dict
      is rendered as a bracketed placeholder, which keeps the one property the
      core relies on: the text has no '.' in it. */
  function PyStr(j: Json): (r: string)
    ensures j.JStr? ==> r == j.s
    ensures !j.JStr? ==> r != [] && '.' !in r
  {
    match j
    case JStr(s) => s
    case JNull => "None"
    case JBool(b) => if b then "True" else "False"
    case JInt(i) => IntToString(i)
    case JArr(_) => "[…]"
    case JObj(_) => "{…}"
  }
}
