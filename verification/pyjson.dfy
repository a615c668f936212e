/**
  The Python values a JSON request body decodes to, and the handful of
  Python operations the auth handlers apply to them: truthiness, `key in v`,
  `v[key]` and `v.get(key, None)`. Each operation that can raise a Python
  exception returns a `Py` value, so the handlers can model the uncaught
  exception paths explicitly.
*/
module PyJson {

  datatype Option<T> = None | Some(value: T)

  /** A decoded JSON document. JSON numbers are kept as reals: the handlers
      only ever ask whether a number is zero. */
  datatype Json =
    | JNull
    | JBool(b: bool)
    | JNum(n: real)
    | JStr(s: string)
    | JArr(items: seq<Json>)
    | JObj(fields: map<string, Json>)

  /** The outcome of evaluating a Python expression that may raise. */
  datatype Py<T> = Value(value: T) | Raised

  /** Python's `bool(v)`: `None`, `False`, zero, and empty strings, lists and
      dicts are falsy; everything else is truthy. */
  predicate Truthy(v: Json) {
    match v
    case JNull => false
    case JBool(b) => b
    case JNum(n) => n != 0.0
    case JStr(s) => |s| > 0
    case JArr(xs) => |xs| > 0
    case JObj(m) => |m| > 0
  }

  /** `needle` starts at position `i` of `hay`. */
  predicate OccursAt(needle: string, hay: string, i: int) {
    0 <= i <= |hay| - |needle| && hay[i..i + |needle|] == needle
  }

  /** `needle` occurs as a contiguous piece of `hay` (Python's `in` on str). */
  predicate IsSubstring(needle: string, hay: string) {
    exists i | 0 <= i <= |hay| :: OccursAt(needle, hay, i)
  }

  /** `key in v`: membership of a dict's keys, of a list's elements, or of a
      string's substrings; on null, bool and numbers Python raises TypeError. */
  function Contains(v: Json, key: string): (r: Py<bool>)
    ensures r.Raised? <==> v.JNull? || v.JBool? || v.JNum?
    ensures v.JObj? ==> r == Value(key in v.fields)
  {
    match v
    case JObj(m) => Value(key in m)
    case JArr(xs) => Value(JStr(key) in xs)
    case JStr(s) => Value(IsSubstring(key, s))
    case _ => Raised
  }

  /** `v[key]` with a string key: only a dict holding the key yields a value;
      a missing key raises KeyError and every other value TypeError. */
  function Subscript(v: Json, key: string): (r: Py<Json>)
    ensures r.Value? <==> v.JObj? && key in v.fields
    ensures r.Value? ==> r.value == v.fields[key]
  {
    match v
    case JObj(m) => if key in m then Value(m[key]) else Raised
    case _ => Raised
  }

  /** `v.get(key, None)`: only dicts have `get`; on any other value Python
      raises AttributeError. */
  function GetOrNone(v: Json, key: string): (r: Py<Json>)
    ensures r.Value? <==> v.JObj?
    ensures v.JObj? && key in v.fields ==> r == Value(v.fields[key])
    ensures v.JObj? && key !in v.fields ==> r == Value(JNull)
  {
    match v
    case JObj(m) => Value(if key in m then m[key] else JNull)
    case _ => Raised
  }
}
