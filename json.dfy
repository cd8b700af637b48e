/**
 * The JSON values `json.loads` produces, as far as the action bridge inspects them.
 * Objects are maps (a repeated key keeps its last value, as `json.loads` does);
 * numbers are integers only. The parser itself is not modelled: operations that
 * decode JSON take it as a parameter `parse: string -> Option<Value>`, `None`
 * standing for `json.JSONDecodeError`.
 */
module Json {
  import opened Wrappers

  datatype Value =
    | Null
    | Bool(b: bool)
    | Number(n: int)
    | Str(s: string)
    | Array(items: seq<Value>)
    | Object(fields: map<string, Value>)

  /** Python's truth value of the decoded object (`if not x:`). */
  predicate Truthy(v: Value) {
    match v
    case Null => false
    case Bool(b) => b
    case Number(n) => n != 0
    case Str(s) => s != ""
    case Array(items) => items != []
    case Object(fields) => fields != map[]
  }

  /** `d.get(key)`: `None` when the key is absent. */
  function Get(d: map<string, Value>, key: string): (r: Option<Value>)
    ensures r.Some? <==> key in d
    ensures r.Some? ==> r.value == d[key]
  {
    if key in d then Some(d[key]) else None
  }

  /** `d.get(key, default)`. */
  function GetOr(d: map<string, Value>, key: string, default: Value): (r: Value)
    ensures key in d ==> r == d[key]
    ensures key !in d ==> r == default
  {
    Get(d, key).GetOr(default)
  }
}
