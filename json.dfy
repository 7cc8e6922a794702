/** The JSON values that a request body parses to and that a response body carries. */
module JsonValues {

  /**
   * A JSON value. Objects are maps from member names to values, as a parsed
   * Python dict is; numbers are exact reals.
   */
  datatype Json =
    | JNull
    | JBool(b: bool)
    | JNumber(n: real)
    | JString(s: string)
    | JArray(elems: seq<Json>)
    | JObject(members: map<string, Json>)
}
