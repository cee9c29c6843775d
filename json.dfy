/**
 * Decoded JSON as Python's `json.loads` hands it over, plus the three library
 * calls the relay makes on it. Decoding and rendering are not modelled: they are
 * supplied as functions (`JsonLib`), so every result below holds for any decoder.
 */
module JsonValue {

  /** A decoded value. Objects are Python dicts: a later duplicate key has already replaced an earlier one. */
  datatype Json =
    | JNull
    | JBool(b: bool)
    | JInt(i: int)
    | JFloat(f: real)
    | JString(s: string)
    | JArray(items: seq<Json>)
    | JObject(fields: map<string, Json>)

  /** What `json.loads` does with one text: a decode error with its message, or a value. */
  datatype Decoded = DecodeError(detail: string) | Value(value: Json)

  /**
   * The library calls: `json.loads`, Python's `str()` of a decoded non-string value,
   * and `json.dumps(v, ensure_ascii=False)`.
   */
  datatype JsonLib = JsonLib(loads: string -> Decoded, show: Json -> string, dumps: Json -> string)

  /** `d.get(key)` on a decoded dict: a missing key reads as `None`, the same value `null` decodes to. */
  function Get(fields: map<string, Json>, key: string): Json
  {
    if key in fields then fields[key] else JNull
  }

  /** Python truthiness of a decoded value (`if v:`, `v or w`). */
  predicate Truthy(j: Json)
  {
    match j
    case JNull => false
    case JBool(b) => b
    case JInt(i) => i != 0
    case JFloat(f) => f != 0.0
    case JString(s) => s != []
    case JArray(items) => items != []
    case JObject(fields) => |fields| != 0
  }

  /**
   * `v in (0, "0", None)`. Python compares with `==`, so `False` and `0.0` count
   * as `0`, while `"00"`, `1` and `True` do not.
   */
  predicate IsSuccessCode(j: Json)
  {
    match j
    case JNull => true
    case JBool(b) => !b
    case JInt(i) => i == 0
    case JFloat(f) => f == 0.0
    case JString(s) => s == "0"
    case _ => false
  }

  /** Python's `str(v)` (what an f-string inserts): a string is itself, anything else is rendered. */
  function Str(j: Json, lib: JsonLib): string
  {
    if j.JString? then j.s else lib.show(j)
  }
}
