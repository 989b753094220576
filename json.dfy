/**
 * The JSON values the decoder handles (Gson's JsonElement tree). Numbers keep
 * their literal text, as Gson's lazily parsed numbers do, and object members
 * keep their order.
 */
module Json {

  datatype Json =
    | JNull
    | JBool(b: bool)
    | JNumber(text: string)
    | JString(str: string)
    | JArray(items: seq<Json>)
    | JObject(members: seq<(string, Json)>)
}
