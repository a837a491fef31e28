/** Decoded JSON as the script sees it: untyped values, records as
    string-keyed dictionaries, and the `dict.get` / truthiness idioms. */
module Json {
  import opened Wrappers

  datatype Value =
    | Null                        // None
    | Bool(b: bool)
    | Num(n: real)                // int or float, unrounded
    | Str(s: string)
    | Arr(items: seq<Value>)
    | Obj(fields: map<string, Value>)

  /** A raw dictionary as downloaded. */
  type Record = map<string, Value>

  /** Python truthiness: `None`, `False`, zero and empty containers are false. */
  predicate Truthy(v: Value) {
    match v
    case Null => false
    case Bool(b) => b
    case Num(n) => n != 0.0
    case Str(s) => |s| > 0
    case Arr(items) => |items| > 0
    case Obj(fields) => |fields| > 0
  }

  /** `record.get(key)`: a missing key reads as `None`. */
  function Get<K>(r: map<K, Value>, key: K): Value {
    if key in r then r[key] else Null
  }

  /** `record.get(key, default)`: only a missing key reads as `default`; a
      key that is present with `None` stays `None`. */
  function GetOr<K>(r: map<K, Value>, key: K, default: Value): Value {
    if key in r then r[key] else default
  }

  /** No field of the record is `None`: what
      `{k: v for k, v in r.items() if v is not None}` guarantees. */
  predicate NoNulls<K>(r: map<K, Value>) {
    forall k :: k in r ==> r[k] != Null
  }

  /** The field is absent or a number, so `r.get(key, d)` can take part in
      arithmetic. */
  predicate NumOrAbsent<K>(r: map<K, Value>, key: K) {
    key !in r || r[key].Num?
  }

  /** The field is a number whenever it is truthy, so an expression guarded
      by `if r.get(key)` can do arithmetic with it. */
  predicate NumWhenTruthy<K>(r: map<K, Value>, key: K) {
    key !in r || r[key].Num? || !Truthy(r[key])
  }

  /** The field is absent or a string, so `r.get(key, "")` can be sliced. */
  predicate StrOrAbsent<K>(r: map<K, Value>, key: K) {
    key !in r || r[key].Str?
  }

  /** The field is a string whenever it is truthy, so the truthy values can
      be sorted together. */
  predicate StrWhenTruthy<K>(r: map<K, Value>, key: K) {
    key !in r || r[key].Str? || !Truthy(r[key])
  }

  /** `r.get(key, d)` for a numeric field. */
  function NumOr<K>(r: map<K, Value>, key: K, d: real): real
    requires NumOrAbsent(r, key)
  {
    if key in r then r[key].n else d
  }

  /** `r.get(key, "")` for a string field. */
  function StrOr<K>(r: map<K, Value>, key: K): string
    requires StrOrAbsent(r, key)
  {
    if key in r then r[key].s else ""
  }

  /** `f(r.get(key)) if r.get(key) else None` for a numeric field scaled by
      `factor` (`factor` 1 keeps the value). */
  function ScaledIfTruthy<K>(r: map<K, Value>, key: K, factor: real): (v: Value)
    requires NumWhenTruthy(r, key)
    ensures v == Null <==> !Truthy(Get(r, key))
    ensures v != Null ==> key in r && v == Num(r[key].n * factor)
  {
    if key in r && Truthy(r[key]) then Num(r[key].n * factor) else Null
  }

  /** `None` for a missing optional number, else the number. */
  function OptNum(v: Option<real>): (r: Value)
    ensures r == Null <==> v.None?
    ensures v.Some? ==> r == Num(v.value)
  {
    if v.Some? then Num(v.value) else Null
  }
}
