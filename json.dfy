/** The wire values the serializers read and produce. */
module Json {
  import opened Base

  /** A UUID primary key is a value of its own kind, so that a bare id can be told apart from a nested record. */
  datatype Json =
    | JNull
    | JString(text: string)
    | JUuid(uuid: Uuid)
    | JArray(items: seq<Json>)
    | JObject(members: map<string, Json>)

  /** A nullable text column: None is rendered as null. */
  function OptionalString(s: Option<string>): (j: Json)
    ensures s.None? <==> j == JNull
    ensures s.Some? ==> j == JString(s.value)
  {
    match s
    case None => JNull
    case Some(t) => JString(t)
  }
}
