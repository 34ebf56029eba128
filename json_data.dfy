/** The value `json.load` produces from a package descriptor, and the few
    Python operations the package manager applies to it. */
module JsonData {
  import opened Common

  datatype Json =
    | Null
    | Bool(b: bool)
    | Num(n: int)
    | Str(s: string)
    | Arr(items: seq<Json>)
    | Obj(fields: map<string, Json>)

  /** Python's `d.get(key, default)`; `d.get(key)` is `Get(d, key, Null)` since
      JSON null and Python's None are the same value. */
  function Get(d: map<string, Json>, key: string, default: Json): Json
  {
    if key in d then d[key] else default
  }

  /** Python's `bool(value)`. */
  predicate Truthy(j: Json)
  {
    match j
    case Null => false
    case Bool(b) => b
    case Num(n) => n != 0
    case Str(s) => s != ""
    case Arr(items) => items != []
    case Obj(fields) => fields != map[]
  }

  /** Python's `key in value` for a string key: a key of an object, an element of
      a list, a substring of a string; `None` where Python raises `TypeError`. */
  function Contains(j: Json, key: string): Option<bool>
  {
    match j
    case Obj(fields) => Some(key in fields)
    case Arr(items) => Some(Str(key) in items)
    case Str(s) => Some(IsInfix(key, s))
    case _ => None
  }

  /** Python's `str(value)` as an f-string renders it; lists and objects are
      rendered by a placeholder, not by Python's `repr`. */
  function Show(j: Json): string
  {
    match j
    case Null => "None"
    case Bool(b) => if b then "True" else "False"
    case Num(n) => if n < 0 then "-" + NatToString(-n) else NatToString(n)
    case Str(s) => s
    case Arr(_) => "[...]"
    case Obj(_) => "{...}"
  }
}
