/** The JSON values that the pipeline's dictionaries hold (the decoded form of `json.loads`). */
module Json {

  /** A JSON value. Numbers are integers only; floating-point members are not modelled. */
  datatype Json =
    | JNull
    | JBool(b: bool)
    | JNum(n: int)
    | JStr(s: string)
    | JArr(items: seq<Json>)
    | JObj(fields: map<string, Json>)

  /** A Python `dict` whose keys are strings. */
  type Dict = map<string, Json>

  /** Python truthiness of a decoded JSON value. */
  predicate Truthy(j: Json)
  {
    match j
    case JNull => false
    case JBool(b) => b
    case JNum(n) => n != 0
    case JStr(s) => s != []
    case JArr(items) => items != []
    case JObj(fields) => fields != map[]
  }

  /** `d.get(key, default)`. */
  function Get(d: Dict, key: string, default: Json): Json
  {
    if key in d then d[key] else default
  }
}
