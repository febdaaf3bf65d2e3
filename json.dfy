/** The JSON tree (RFC 8259) that the event codec reads and writes, as kotlinx.serialization's `JsonElement`. */
module Json {
  import opened Wrappers

  /** A JSON value. An object is a map from member names to values (member names are unique, as in a
      `JsonObject`); a number keeps the literal text it was written with. */
  datatype Json =
    | JObject(members: map<string, Json>)
    | JArray(elements: seq<Json>)
    | JString(text: string)
    | JNumber(literal: string)
    | JBool(b: bool)
    | JNull

  /** The opaque `JsonObject` extension payloads, carried uninterpreted. */
  type JsonObject = map<string, Json>

  /** The text content of a JSON primitive (`JsonElement.jsonPrimitive.content`): a string's characters, a
      number's literal, "true"/"false" for a boolean and "null" for null. Objects and arrays are not primitives. */
  function PrimitiveContent(j: Json): (r: Option<string>)
    ensures r.None? <==> j.JObject? || j.JArray?
    ensures j.JString? ==> r == Some(j.text)
    ensures j.JNumber? ==> r == Some(j.literal)
    ensures j.JBool? ==> r == Some(if j.b then "true" else "false")
    ensures j.JNull? ==> r == Some("null")
  {
    match j
    case JObject(_) => None
    case JArray(_) => None
    case JString(s) => Some(s)
    case JNumber(lit) => Some(lit)
    case JBool(b) => Some(if b then "true" else "false")
    case JNull => Some("null")
  }
}
