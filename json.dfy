/**
 * JSON documents as trees, and the org.json accessors the store uses.
 * Text parsing and printing are not modelled: a document is a value.
 */
module Json {
  import opened Wrappers

  datatype Json =
    | JNull
    | JBool(b: bool)
    | JInt(n: int)
    | JStr(s: string)
    | JArr(items: seq<Json>)
    | JObj(fields: map<string, Json>)

  /** A JSONObject: its key/value pairs. */
  type Doc = map<string, Json>

  /** JSONObject.has: the key is present, whatever its value. */
  predicate Has(o: Doc, key: string) {
    key in o
  }

  /** JSONObject.optString(key): the string stored there, else "". */
  function OptString(o: Doc, key: string): string {
    if key in o && o[key].JStr? then o[key].s else ""
  }

  /** JSONObject.optBoolean(key): the boolean stored there, else false. */
  function OptBoolean(o: Doc, key: string): bool {
    if key in o && o[key].JBool? then o[key].b else false
  }

  /** JSONObject.optLong(key): the number stored there, else 0. */
  function OptLong(o: Doc, key: string): int {
    if key in o && o[key].JInt? then o[key].n else 0
  }

  /**
   * JSONObject.optJSONObject(key), which yields null unless an object is
   * stored there; getJSONObject(key) throws exactly where this is None.
   */
  function OptObject(o: Doc, key: string): Option<Doc> {
    if key in o && o[key].JObj? then Some(o[key].fields) else None
  }

  /** JSONObject.optJSONArray(key): null unless an array is stored there. */
  function OptArray(o: Doc, key: string): Option<seq<Json>> {
    if key in o && o[key].JArr? then Some(o[key].items) else None
  }
}
