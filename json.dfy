/**
 * serde_json's `Value`, as an abstract tree. Only integral numbers are
 * represented; the text form (serialisation) is not part of this module.
 */
module Json {
  import opened Wrappers

  datatype Value =
    | Null
    | Bool(b: bool)
    | Number(n: int)
    | String(s: string)
    | Array(items: seq<Value>)
    | Object(fields: map<string, Value>)

  /** One more than the largest `u64`. */
  const U64_LIMIT: int := 0x1_0000_0000_0000_0000

  /** `Value::as_u64`: a number that fits in a `u64`, otherwise nothing. */
  function AsU64(v: Value): Option<nat>
  {
    if v.Number? && 0 <= v.n < U64_LIMIT then Some(v.n) else None
  }

  /** `Value::get(key)`: the field of an object; nothing for every other kind of value. */
  function Get(v: Value, key: string): Option<Value>
  {
    if v.Object? && key in v.fields then Some(v.fields[key]) else None
  }

  predicate Has(v: Value, key: string)
  {
    Get(v, key).Some?
  }
}
