/**
 * The request event as the gateway delivers it, reduced to the members the
 * handler reads. A member that is absent and a member set to null both read
 * as None through dict.get; where the handler tests presence with `in`
 * instead, the member is an Option of the value so that a present null
 * (Some(JNull)) stays distinct from an absent key (None).
 */
module Events {
  import opened Wrappers
  import opened JsonValues

  /** requestContext.http of an HTTP API (payload 2.0) event; `requestMethod` is its `method` member. */
  datatype HttpContext = HttpContext(requestMethod: Json)

  /** requestContext; `http` is None when the key is absent (REST API events). */
  datatype RequestContext = RequestContext(http: Option<HttpContext>)

  /** A body member that is present and not null: text json.loads rejects, or a JSON object. */
  datatype Body = Unparseable | Parsed(fields: map<string, Json>)

  /** The event; `localMethod` is the top-level `method` member used when invoking the function directly. */
  datatype Event = Event(
    rawPath: Option<string>,
    path: Option<string>,
    requestContext: Option<RequestContext>,
    httpMethod: Option<Json>,
    localMethod: Option<Json>,
    body: Option<Body>,
    queryStringParameters: Option<map<string, string>>
  )
}
