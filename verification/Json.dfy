/** JSON values; objects are unordered, as in section 4 of RFC 8259. */
module JsonValues {
  datatype Json =
    | Null
    | Bool(b: bool)
    | Num(n: int)
    | Str(s: string)
    | Arr(items: seq<Json>)
    | Obj(fields: map<string, Json>)

  /** The values Python treats as false. */
  predicate Falsy(j: Json) {
    j == Null || j == Bool(false) || j == Num(0) || j == Str("") || j == Arr([]) || j == Obj(map[])
  }

  predicate Scalar(j: Json) {
    !j.Arr? && !j.Obj?
  }
}
