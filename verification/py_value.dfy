/** The Python values a decoded JSON notification is made of, and the few
    Python operations on them that the message parsers use: subscripting by a
    string key, `len`, indexing by 0, the `in` operator and comparison with 0.
    Each operation reports the exception Python would raise instead of a value. */
module PyValue {
  import opened Wrappers

  /** A value produced by `json.loads` (floating-point numbers are not modelled). */
  datatype Json =
    | JNull
    | JBool(b: bool)
    | JNum(n: int)
    | JStr(s: string)
    | JArray(items: seq<Json>)
    | JObject(fields: map<string, Json>)

  /** The Python exceptions the parsers can raise. */
  datatype PyError =
    | KeyError(key: Json)
    | IndexError
    | TypeError
    | AttributeError

  /** `v[k]` for a string key `k`: only a dict can be subscripted by a string. */
  function Subscript(v: Json, k: string): (r: Result<Json, PyError>)
    ensures r.Success? <==> v.JObject? && k in v.fields
    ensures r.Success? ==> r.value == v.fields[k]
    ensures r.Failure? ==> r.error == (if v.JObject? then KeyError(JStr(k)) else TypeError)
  {
    match v
    case JObject(m) => if k in m then Success(m[k]) else Failure(KeyError(JStr(k)))
    case _ => Failure(TypeError)
  }

  /** `len(v)`: defined on lists, dicts and strings only. */
  function Len(v: Json): (r: Result<nat, PyError>)
    ensures r.Success? <==> v.JArray? || v.JObject? || v.JStr?
    ensures v.JArray? ==> r == Success(|v.items|)
    ensures v.JObject? ==> r == Success(|v.fields|)
    ensures v.JStr? ==> r == Success(|v.s|)
  {
    match v
    case JArray(s) => Success(|s|)
    case JObject(m) => Success(|m|)
    case JStr(s) => Success(|s|)
    case _ => Failure(TypeError)
  }

  /** `v[0]`. A dict decoded from JSON has only string keys, so the integer key
      0 is never found in it. */
  function IndexZero(v: Json): Result<Json, PyError>
  {
    match v
    case JArray(s) => if |s| > 0 then Success(s[0]) else Failure(IndexError)
    case JStr(s) => if |s| > 0 then Success(JStr([s[0]])) else Failure(IndexError)
    case JObject(_) => Failure(KeyError(JNum(0)))
    case _ => Failure(TypeError)
  }

  /** `needle` occurs in `hay` starting at position `i`. */
  predicate OccursAt(needle: string, hay: string, i: int)
  {
    0 <= i <= |hay| - |needle| && hay[i..i + |needle|] == needle
  }

  /** `needle` occurs as a contiguous slice of `hay`. */
  predicate IsSubstring(needle: string, hay: string)
  {
    exists i :: 0 <= i <= |hay| && OccursAt(needle, hay, i)
  }

  /** `needle in v` for a string `needle`: a key of a dict, an element of a
      list (only a string compares equal to a string), a substring of a string;
      any other value is not a container. */
  function Contains(v: Json, needle: string): (r: Result<bool, PyError>)
    ensures r.Success? <==> v.JObject? || v.JArray? || v.JStr?
    ensures v.JObject? ==> r == Success(needle in v.fields)
    ensures v.JArray? ==> r == Success(JStr(needle) in v.items)
  {
    match v
    case JObject(m) => Success(needle in m)
    case JArray(s) => Success(JStr(needle) in s)
    case JStr(s) => Success(IsSubstring(needle, s))
    case _ => Failure(TypeError)
  }

  /** `v == 0` in Python: true for the integer 0 and for `False`, whose
      integer value is 0; no string, list, dict or None equals 0. */
  predicate EqualsZero(v: Json)
  {
    v == JNum(0) || v == JBool(false)
  }
}
