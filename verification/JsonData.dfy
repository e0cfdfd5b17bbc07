/** Parsed JSON. Objects keep their keys in insertion order. */
module JsonData {
  import opened Wrappers

  /** A number too large for a double parses to an infinity. */
  datatype Number = Finite(value: real) | NonFinite

  datatype Json =
    | Null | Bool(b: bool) | Num(n: Number) | Str(s: string) | Arr(items: seq<Json>) | Obj(fields: Fields)

  type Fields = seq<(string, Json)>

  function Field(fields: Fields, key: string): Option<Json> {
    if fields == [] then None else if fields[0].0 == key then Some(fields[0].1) else Field(fields[1..], key)
  }

  predicate Scalar(v: Json) {
    v.Bool? || v.Str? || (v.Num? && v.n.Finite?)
  }
}
