/**
 * The timestamp normaliser `convert_to_timestamp`, identical in
 * Oldtickets.py and Final-Atlas.py.
 */
module Timestamps {
  import opened Wrappers
  import opened Values

  /** The Python exception that escapes `convert_to_timestamp`. */
  datatype Raised = TypeError

  /** `datetime.strptime(s, "%Y-%m-%dT%H:%M:%S.%fZ")`, given to the model from
      outside: `None` where the library raises `ValueError`. */
  type IsoParser = string -> Option<Instant>

  /** The cases in source order: a datetime passes through; an int (and a bool,
      which Python counts as an int) is epoch seconds in UTC; any other falsy
      value is None; what is left goes to `strptime`, whose `ValueError` becomes
      None. `strptime` raises `TypeError` on anything but a string, and that
      is not caught. */
  function ConvertToTimestamp(v: Value, iso: IsoParser): (r: Result<Option<Instant>, Raised>)
    ensures r.Err? <==> Truthy(v) && (v.Float? || v.List? || v.Dict?)
    ensures v.Str? ==> r == Ok(iso(v.s)) || (v.s == "" && r == Ok(None))
    ensures r == Ok(None) ==> v.Null? || v.Float? || v.Str? || v.List? || v.Dict?
    ensures v.DateTime? ==> r == Ok(Some(v.t))
    ensures v.Int? ==> r == Ok(Some(UtcEpoch(v.i)))
    ensures v.Bool? ==> r == Ok(Some(UtcEpoch(if v.b then 1 else 0)))
    ensures !Truthy(v) && !v.Int? && !v.Bool? ==> r == Ok(None)
  {
    if v.DateTime? then Ok(Some(v.t))
    else if v.Int? then Ok(Some(UtcEpoch(v.i)))
    else if v.Bool? then Ok(Some(UtcEpoch(if v.b then 1 else 0)))
    else if !Truthy(v) then Ok(None)
    else if v.Str? then Ok(iso(v.s))
    else Err(TypeError)
  }

  /** Because the int test comes before the falsiness test, 0 and False are
      the epoch instant, not None. */
  lemma {:induction false} ZeroIsTheEpoch(iso: IsoParser)
    ensures ConvertToTimestamp(Int(0), iso) == Ok(Some(UtcEpoch(0)))
    ensures ConvertToTimestamp(Bool(false), iso) == Ok(Some(UtcEpoch(0)))
    ensures ConvertToTimestamp(Bool(true), iso) == Ok(Some(UtcEpoch(1)))
  {
  }

  /** Whatever JSON gives for a time field that is a string, a number without a
      fraction, a boolean or null, the normaliser returns and never raises;
      a string the parser rejects is None. */
  lemma JsonScalarsNeverRaise(v: Value, iso: IsoParser)
    requires v.Null? || v.Bool? || v.Int? || v.Str?
    ensures ConvertToTimestamp(v, iso).Ok?
    ensures v.Str? && iso(v.s).None? ==> ConvertToTimestamp(v, iso) == Ok(None)
  {
  }
}
