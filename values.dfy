/**
 * The Python values a decoded JSON response is made of, plus `datetime`,
 * with Python's truthiness and `dict.get`.
 */
module Values {
  import opened Wrappers

  /** A point in time. `UtcEpoch(s)` is what `datetime.fromtimestamp(s, timezone.utc)`
      gives; `Naive(micros)` stands for a time-zone-less datetime such as
      `datetime.strptime` yields. */
  datatype Instant = UtcEpoch(seconds: int) | Naive(micros: int)

  /** A Python value. A float is an IEEE-754 double given by its sign, biased
      exponent and fraction fields. */
  datatype Value =
    | Null
    | Bool(b: bool)
    | Int(i: int)
    | Float(negative: bool, exponent: nat, fraction: nat)
    | Str(s: string)
    | List(items: seq<Value>)
    | Dict(entries: map<string, Value>)
    | DateTime(t: Instant)

  /** A JSON object, the shape of one upstream record. */
  type Object = map<string, Value>

  /** Python truthiness: `None`, `False`, `0`, `0.0`, `-0.0`, `""`, `[]` and `{}` are falsy. */
  predicate Truthy(v: Value)
  {
    match v
    case Null => false
    case Bool(b) => b
    case Int(i) => i != 0
    case Float(_, exponent, fraction) => exponent != 0 || fraction != 0
    case Str(s) => s != ""
    case List(items) => items != []
    case Dict(entries) => entries != map[]
    case DateTime(_) => true
  }

  /** `obj.get(key, default)`. */
  function Get(obj: Object, key: string, default: Value): (r: Value)
    ensures key !in obj ==> r == default
    ensures key in obj ==> r == obj[key]
  {
    if key in obj then obj[key] else default
  }

  /** The result of `obj.get(key, {}) or {}`: a sub-object that is missing,
      null or otherwise falsy behaves as `{}`; a truthy value that is not an
      object makes the next `.get` on it raise, which is `None` here. */
  function SubObject(obj: Object, key: string): (r: Option<Object>)
    ensures !Truthy(Get(obj, key, Null)) ==> r == Some(map[])
    ensures r.Some? && r.value != map[] ==> key in obj && obj[key] == Dict(r.value)
    ensures r.None? <==> Truthy(Get(obj, key, Null)) && !Get(obj, key, Null).Dict?
    ensures Get(obj, key, Null).Dict? ==> r == Some(Get(obj, key, Null).entries)
  {
    var v := Get(obj, key, Dict(map[]));
    if !Truthy(v) then Some(map[])
    else if v.Dict? then Some(v.entries)
    else None
  }
}
