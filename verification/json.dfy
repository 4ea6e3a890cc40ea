/** The JSON value model used for the generic JSON layer (serde_json's `Value`). */
module Json {

  /** A JSON value. `JInt` stands for the integers serde_json keeps as
      integers (the range of `i64` and `u64` together); every other number
      is a `JFloat`. An object maps member names to values: serde_json's
      `Map` compares two objects member by member whatever the order they
      were written in, and so does `==` on a Dafny `map`. */
  datatype Json =
    | JNull
    | JBool(b: bool)
    | JInt(i: int)
    | JFloat(f: real)
    | JStr(s: string)
    | JArr(elems: seq<Json>)
    | JObj(members: map<string, Json>)

  const I64_MIN: int := -0x8000_0000_0000_0000
  const I64_MAX: int := 0x7FFF_FFFF_FFFF_FFFF
  const U64_LIMIT: int := 0x1_0000_0000_0000_0000
  const U32_LIMIT: int := 0x1_0000_0000

  /** `Value::is_object` */
  predicate IsObject(v: Json) {
    v.JObj?
  }

  /** `Value::is_array` */
  predicate IsArray(v: Json) {
    v.JArr?
  }

  /** `Value::as_u64` succeeds */
  predicate IsU64(v: Json) {
    v.JInt? && 0 <= v.i < U64_LIMIT
  }

  /** `Value::as_i64` succeeds */
  predicate IsI64(v: Json) {
    v.JInt? && I64_MIN <= v.i <= I64_MAX
  }
}
