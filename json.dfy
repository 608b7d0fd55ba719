/**
 * JSON values as `response.json()` produces them, each number held as an
 * exact real. A numeric literal beyond the double range, which `JSON.parse`
 * turns into `Infinity`, is not represented; for every other number the
 * source's `Number.isFinite` test on a JSON value is the test `Num?`.
 */
module Json {
  import opened Wrappers

  datatype Json =
    | Null
    | Bool(b: bool)
    | Num(n: real)
    | Str(s: string)
    | Arr(elems: seq<Json>)
    | Obj(members: seq<Member>)

  /** One own enumerable property of an object, in `Object.entries` order. */
  datatype Member = Member(key: string, value: Json)

  /** JavaScript truthiness of a JSON value (`!!value`). */
  predicate Truthy(v: Json) {
    match v
    case Null => false
    case Bool(b) => b
    case Num(n) => n != 0.0
    case Str(s) => s != ""
    case _ => true
  }

  /** `typeof v === 'object' && v !== null`: objects and arrays alike. */
  predicate IsObjectLike(v: Json) {
    v.Obj? || v.Arr?
  }

  /**
   * Property read `v?.[key]`; `None` is `undefined`. Reading a named property of
   * anything but an object (an array, a string, a number) gives `undefined` for
   * the property names this model reads.
   */
  function Get(v: Json, key: string): (r: Option<Json>)
    ensures r.Some? ==> v.Obj? && exists i :: 0 <= i < |v.members| && v.members[i] == Member(key, r.value)
    ensures r.None? && v.Obj? ==> forall i :: 0 <= i < |v.members| ==> v.members[i].key != key
  {
    if v.Obj? then Find(v.members, key) else None
  }

  function Find(ms: seq<Member>, key: string): (r: Option<Json>)
    ensures r.Some? ==> exists i :: 0 <= i < |ms| && ms[i] == Member(key, r.value)
    ensures r.None? ==> forall i :: 0 <= i < |ms| ==> ms[i].key != key
  {
    if ms == [] then None
    else if ms[0].key == key then Some(ms[0].value)
    else Find(ms[1..], key)
  }
}
