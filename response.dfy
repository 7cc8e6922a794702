/** The response envelope the handler returns to the gateway (build_response). */
module Responses {
  import opened Wrappers
  import opened JsonValues

  /**
   * A response envelope. The body is kept as the structured value that
   * build_response serialises; the serialisation itself is not modelled.
   */
  datatype Response = Response(statusCode: int, headers: map<string, string>, body: Json)

  /** Every response declares a JSON body and nothing else in its headers. */
  function BuildResponse(statusCode: int, body: Json): (r: Response)
    ensures r.statusCode == statusCode
    ensures r.headers.Keys == {"Content-Type"}
    ensures r.headers["Content-Type"] == "application/json"
    ensures r.body == body
  {
    Response(statusCode, map["Content-Type" := "application/json"], body)
  }

  /** The body of every error response: a single "error" member. */
  function ErrorBody(message: string): Json {
    JObject(map["error" := JString(message)])
  }

  function ErrorResponse(statusCode: int, message: string): Response {
    BuildResponse(statusCode, ErrorBody(message))
  }

  /** ErrorMessage reads back exactly the message an error response was built with. */
  lemma ErrorMessageOfErrorResponse(statusCode: int, message: string)
    ensures ErrorResponse(statusCode, message).statusCode == statusCode
    ensures ErrorMessage(ErrorResponse(statusCode, message)) == Some(message)
  {
  }

  /** The message an error response carries, if its body has the shape of ErrorBody. */
  function ErrorMessage(r: Response): Option<string> {
    match r.body
    case JObject(m) =>
      if m.Keys == {"error"} && m["error"].JString? then Some(m["error"].s) else None
    case _ => None
  }
}
