/**
 * A parsed JSON document, as Python's `json.loads` returns it, together with
 * Python truthiness and `dict.get`.
 */
module Json {
  import opened Wrappers
  import PyStr

  datatype Value =
    | Null
    | Bool(b: bool)
    | Num(n: real)
    | Str(s: string)
    | Arr(items: seq<Value>)
    | Obj(fields: map<string, Value>)

  /** Python's `bool(v)`: None, False, zero and empty containers are false. */
  predicate Truthy(v: Value) {
    match v
    case Null => false
    case Bool(b) => b
    case Num(n) => n != 0.0
    case Str(s) => s != []
    case Arr(items) => items != []
    case Obj(fields) => fields != map[]
  }

  /** `v.get(key)` on an object; a missing key and a non-object both give None. */
  function Get(v: Value, key: string): (r: Option<Value>)
    ensures r.Some? <==> v.Obj? && key in v.fields
    ensures r.Some? ==> r.value == v.fields[key]
  {
    if v.Obj? && key in v.fields then Some(v.fields[key]) else None
  }

  /** `v.get(key)` seen from Python: a missing key reads as None. */
  function GetOrNull(v: Value, key: string): Value {
    match Get(v, key)
    case Some(x) => x
    case None => Null
  }

  predicate Has(v: Value, key: string) {
    v.Obj? && key in v.fields
  }

  /** Python's `key in v` for a string key; None where Python raises
      TypeError (None, booleans and numbers support no `in`). */
  function Contains(v: Value, key: string): (r: Option<bool>)
    ensures r.Some? <==> v.Obj? || v.Arr? || v.Str?
    ensures v.Obj? ==> r == Some(key in v.fields)
    ensures v.Arr? ==> r == Some(Str(key) in v.items)
    ensures v.Str? ==> r == Some(PyStr.Occurs(key, v.s))
  {
    match v
    case Obj(fields) => Some(key in fields)
    case Arr(items) => Some(Str(key) in items)
    case Str(s) => Some(PyStr.Occurs(key, s))
    case _ => None
  }
}
