/** JSON values as `JSON.parse` gives them: objects are maps from keys, numbers are reals. */
module Json {
  datatype Value<K> =
    | JNull
    | JBool(bool)
    | JNumber(number: real)
    | JString(text: string)
    | JArray(items: seq<Value<K>>)
    | JObject(fields: map<K, Value<K>>)

  type Json = Value<string>

  predicate IsInteger(x: real) {
    x.Floor as real == x
  }

  const MAX_SAFE_INTEGER: int := 9007199254740991

  predicate IsSafeInteger(x: real) {
    IsInteger(x) && -MAX_SAFE_INTEGER <= x.Floor <= MAX_SAFE_INTEGER
  }
}
