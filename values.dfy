/** The loosely typed payloads both core files walk: a JSON/YAML-like value and
    the Python operations applied to it (`d[k]`, `d.get(k, default)`, `xs[0]`,
    truthiness). A Python exception raised by one of these becomes a `Fault`. */
module Values {
  import opened Wrappers

  datatype Json =
    | JNull
    | JBool(b: bool)
    | JNum(n: int)
    | JStr(s: string)
    | JList(items: seq<Json>)
    | JDict(fields: map<string, Json>)

  /** KeyError, TypeError/AttributeError and IndexError. */
  datatype Fault = MissingKey(key: string) | WrongType | OutOfRange

  /** Python's truth value of a payload value. */
  predicate Truthy(j: Json) {
    match j
    case JNull => false
    case JBool(b) => b
    case JNum(n) => n != 0
    case JStr(s) => s != ""
    case JList(xs) => xs != []
    case JDict(m) => m != map[]
  }

  /** `j[key]`: a KeyError for a missing key, a TypeError on anything but a dict. */
  function Sub(j: Json, key: string): (r: Result<Json, Fault>)
    ensures r.Ok? <==> j.JDict? && key in j.fields
    ensures r.Ok? ==> r.value == j.fields[key]
    ensures j.JDict? && key !in j.fields ==> r == Err(MissingKey(key))
  {
    match j
    case JDict(m) => if key in m then Ok(m[key]) else Err(MissingKey(key))
    case _ => Err(WrongType)
  }

  /** `j.get(key, default)`: an AttributeError on anything but a dict. */
  function Get(j: Json, key: string, default: Json): (r: Result<Json, Fault>)
    ensures r.Ok? <==> j.JDict?
    ensures r.Ok? ==> r.value == if key in j.fields then j.fields[key] else default
  {
    match j
    case JDict(m) => Ok(if key in m then m[key] else default)
    case _ => Err(WrongType)
  }

  /** `j[0]` on a list: an IndexError when it is empty. */
  function First(j: Json): (r: Result<Json, Fault>)
    ensures r.Ok? <==> j.JList? && |j.items| > 0
    ensures r.Ok? ==> r.value == j.items[0]
  {
    match j
    case JList(xs) => if |xs| > 0 then Ok(xs[0]) else Err(OutOfRange)
    case _ => Err(WrongType)
  }

  function AsStr(j: Json): Result<string, Fault> {
    if j.JStr? then Ok(j.s) else Err(WrongType)
  }

  function AsList(j: Json): Result<seq<Json>, Fault> {
    if j.JList? then Ok(j.items) else Err(WrongType)
  }

  const EmptyDict := JDict(map[])
  const EmptyList := JList([])
}
