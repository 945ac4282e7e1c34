/**
 * Decoded JSON values, as `json.loads` hands them to the pipeline, and
 * Python's truthiness on them. Numbers are integers here: the pipeline
 * never does arithmetic on the JSON numbers it stores or passes on.
 */
module Json {

  datatype Json =
    | JNull
    | JBool(b: bool)
    | JNum(n: int)
    | JStr(s: string)
    | JArr(items: seq<Json>)
    | JObj(fields: map<string, Json>)

  /** Python's `bool(v)` for a decoded JSON value. */
  predicate Truthy(v: Json) {
    match v
    case JNull => false
    case JBool(b) => b
    case JNum(n) => n != 0
    case JStr(s) => s != ""
    case JArr(items) => |items| > 0
    case JObj(fields) => |fields| > 0
  }

  /** `d.get(key, default)` on a dict. */
  function Get(d: map<string, Json>, key: string, default: Json): (r: Json)
    ensures key in d ==> r == d[key]
    ensures key !in d ==> r == default
  {
    if key in d then d[key] else default
  }

  /** `str(v)`: a string is itself; `repr` renders any other value. */
  function Str(v: Json, repr: Json -> string): string {
    if v.JStr? then v.s else repr(v)
  }

  /** A JSON list of strings. */
  predicate IsStringList(j: Json) {
    j.JArr? && forall i :: 0 <= i < |j.items| ==> j.items[i].JStr?
  }

  function Strings(j: Json): (r: seq<string>)
    requires IsStringList(j)
    ensures |r| == |j.items| && forall i :: 0 <= i < |r| ==> j.items[i] == JStr(r[i])
  {
    seq(|j.items|, i requires 0 <= i < |j.items| => j.items[i].s)
  }
}
