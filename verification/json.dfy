/**
 * Decoded JSON values as the Python code sees them after `json.loads` or
 * Flask's `request.json`, with the two dictionary operations the core uses:
 * subscripting (`d[key]`) and the membership test (`key in d`).
 */
module Json {
  import opened Wrappers

  datatype Json =
    | JNull
    | JBool(b: bool)
    | JNum(n: real)
    | JStr(s: string)
    | JArr(items: seq<Json>)
    | JObj(fields: map<string, Json>)

  /**
   * `value[key]` for a string key: a dictionary yields the entry, a missing
   * key raises KeyError and any other value raises TypeError; both
   * exceptions are `None` here.
   */
  function Subscript(value: Json, key: string): (r: Option<Json>)
    ensures r.Some? <==> value.JObj? && key in value.fields
    ensures r.Some? ==> r.value == value.fields[key]
  {
    match value
    case JObj(fields) => if key in fields then Some(fields[key]) else None
    case _ => None
  }

  /** `key` occurs as a contiguous slice of `s` (Python's `key in s` on strings). */
  predicate IsSubstring(key: string, s: string)
    decreases |s|
  {
    key <= s || (|s| > 0 && IsSubstring(key, s[1..]))
  }

  /**
   * Python's `key in value` for a string key: dictionary key lookup, list
   * membership, substring search on a string; on null, booleans and
   * numbers the operator raises TypeError, which is `None` here.
   */
  function Contains(value: Json, key: string): (r: Option<bool>)
    ensures r.None? <==> value.JNull? || value.JBool? || value.JNum?
  {
    match value
    case JObj(fields) => Some(key in fields)
    case JArr(items) => Some(JStr(key) in items)
    case JStr(s) => Some(IsSubstring(key, s))
    case _ => None
  }
}
