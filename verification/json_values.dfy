/** Decoded JSON values, as `JSON.parse` produces them. Numbers are
    integers: the scores the application reads are whole numbers. */
module JsonValues {

  datatype Json =
    | JNull
    | JBool(b: bool)
    | JNumber(n: int)
    | JString(s: string)
    | JArray(items: seq<Json>)
    | JObject(fields: map<string, Json>)
}
