/** JSON values, the result of `json.loads`; parsing itself is an oracle wherever it is used. */
module Json {
  datatype JsonValue =
    | JNull
    | JBool(b: bool)
    | JNumber(n: int)
    | JString(s: string)
    | JArray(items: seq<JsonValue>)
    | JObject(members: seq<(string, JsonValue)>)

  /** `json.loads(text)`: the parsed value, or None when it raises. */
  type JsonParser = string -> Option<JsonValue>

  import opened Wrappers
}
