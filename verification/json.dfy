/** The JSON-shaped values a report is converted to before it is written out
    or returned by the web layer. Objects keep their keys in insertion order,
    as Python dictionaries do. */
module Json {
  datatype JsonValue =
    | JNull
    | JString(str: string)
    | JInt(num: int)
    | JArray(items: seq<JsonValue>)
    | JObject(fields: seq<(string, JsonValue)>)
}
