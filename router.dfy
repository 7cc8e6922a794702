/**
 * The entry point (lambda_handler): it works out the request's path and
 * method from whichever event shape it was given, then sends POST and GET on
 * the employee resource to their handlers and answers everything else with
 * 405 or 404.
 */
module Router {
  import opened Wrappers
  import opened JsonValues
  import opened Responses
  import opened Employees
  import opened Events
  import opened Table
  import opened Handlers

  const RESOURCE := "/employee"
  const METHOD_NOT_ALLOWED := "Method not allowed"
  const NOT_FOUND := "Not found"

  /** Truthiness of a string member read with dict.get: present, not null and not empty. */
  predicate Given(s: Option<string>) {
    s.Some? && s.value != ""
  }

  /** `rawPath or path or ""`: the first of the two path members that is given. */
  function ResolvePath(event: Event): (path: string)
    ensures Given(event.rawPath) ==> path == event.rawPath.value
    ensures !Given(event.rawPath) && Given(event.path) ==> path == event.path.value
    ensures path == "" <==> !Given(event.rawPath) && !Given(event.path)
  {
    if Given(event.rawPath) then event.rawPath.value
    else if Given(event.path) then event.path.value
    else ""
  }

  predicate HasHttpContext(event: Event) {
    event.requestContext.Some? && event.requestContext.value.http.Some?
  }

  /**
   * The request method: requestContext.http.method when requestContext has an
   * `http` member, else the `httpMethod` member when present, else the `method`
   * member when present, else none (JNull stands for Python's None). Presence,
   * not truthiness, decides: a present null is taken as it is.
   */
  function ResolveMethod(event: Event): (m: Json)
    ensures HasHttpContext(event) ==> m == event.requestContext.value.http.value.requestMethod
    ensures !HasHttpContext(event) && event.httpMethod.Some? ==> m == event.httpMethod.value
    ensures !HasHttpContext(event) && event.httpMethod.None? && event.localMethod.Some? ==>
      m == event.localMethod.value
    ensures !HasHttpContext(event) && event.httpMethod.None? && event.localMethod.None? ==> m == JNull
  {
    if HasHttpContext(event) then event.requestContext.value.http.value.requestMethod
    else if event.httpMethod.Some? then event.httpMethod.value
    else if event.localMethod.Some? then event.localMethod.value
    else JNull
  }

  predicate EndsWith(s: string, suffix: string) {
    |suffix| <= |s| && s[|s| - |suffix|..] == suffix
  }

  /** The path test of the handler, with its three alternatives as written. */
  predicate IsEmployeeRoute(path: string) {
    EndsWith(path, RESOURCE) || path == RESOURCE || path == ""
  }

  /**
   * The test `path == "/employee"` adds nothing to the suffix test: the
   * employee resource is any path ending in "/employee", or the empty path.
   */
  lemma EmployeeRouteBySuffix(path: string)
    ensures IsEmployeeRoute(path) <==> EndsWith(path, RESOURCE) || path == ""
    ensures IsEmployeeRoute(RESOURCE) && IsEmployeeRoute("/prod/employee")
    ensures !IsEmployeeRoute("/employees") && !IsEmployeeRoute("/employee/") && !IsEmployeeRoute("/")
  {
  }

  datatype Target = CreateEmployee | ReadEmployee | MethodNotAllowed | RouteNotFound

  /** Where a request goes: the employee resource dispatches on the method; other paths are not found. */
  function Route(event: Event): (t: Target)
    ensures t == RouteNotFound <==> !IsEmployeeRoute(ResolvePath(event))
    ensures t == CreateEmployee <==> IsEmployeeRoute(ResolvePath(event)) && ResolveMethod(event) == JString("POST")
    ensures t == ReadEmployee <==> IsEmployeeRoute(ResolvePath(event)) && ResolveMethod(event) == JString("GET")
    ensures t == MethodNotAllowed <==>
      && IsEmployeeRoute(ResolvePath(event))
      && ResolveMethod(event) != JString("POST")
      && ResolveMethod(event) != JString("GET")
  {
    if IsEmployeeRoute(ResolvePath(event)) then
      if ResolveMethod(event) == JString("POST") then CreateEmployee
      else if ResolveMethod(event) == JString("GET") then ReadEmployee
      else MethodNotAllowed
    else RouteNotFound
  }

  /** The response to any request and the table contents after it. */
  function HandleStep(store: Store, event: Event): Step {
    match Route(event)
    case CreateEmployee => CreateStep(store, event)
    case ReadEmployee => Step(ReadResponse(store, event), store)
    case MethodNotAllowed => Step(ErrorResponse(405, METHOD_NOT_ALLOWED), store)
    case RouteNotFound => Step(ErrorResponse(404, NOT_FOUND), store)
  }

  method LambdaHandler(table: EmployeeTable, event: Event) returns (r: Response)
    modifies table
    ensures r == HandleStep(old(table.items), event).response
    ensures table.items == HandleStep(old(table.items), event).store
    ensures old(table.Valid()) ==> table.Valid()
  {
    if WellFormedStore(table.items) {
      HandlePreservesWellFormed(table.items, event);
    }
    var requestMethod := JNull;
    var rawPath := if Given(event.rawPath) then event.rawPath.value
      else if Given(event.path) then event.path.value
      else "";
    if event.requestContext.Some? && event.requestContext.value.http.Some? {
      requestMethod := event.requestContext.value.http.value.requestMethod;
    } else if event.httpMethod.Some? {
      requestMethod := event.httpMethod.value;
    } else if event.localMethod.Some? {
      requestMethod := event.localMethod.value;
    }
    if EndsWith(rawPath, RESOURCE) || rawPath == RESOURCE || rawPath == "" {
      if requestMethod == JString("POST") {
        r := HandlePostEmployee(table, event);
      } else if requestMethod == JString("GET") {
        r := HandleGetEmployee(table, event);
      } else {
        r := ErrorResponse(405, METHOD_NOT_ALLOWED);
      }
    } else {
      r := ErrorResponse(404, NOT_FOUND);
    }
  }

  // ---------------------------------------------------------------------
  // Properties of the whole handler
  // ---------------------------------------------------------------------

  /** Every response carries one of the five status codes the handler uses. */
  lemma StatusCodes(store: Store, event: Event)
    ensures HandleStep(store, event).response.statusCode in {200, 201, 400, 404, 405}
  {
  }

  /**
   * Only an accepted create changes the table: every other response, error
   * or read, leaves it exactly as it was.
   */
  lemma OnlyAcceptedCreatesWrite(store: Store, event: Event)
    ensures HandleStep(store, event).response.statusCode != 201 ==> HandleStep(store, event).store == store
    ensures HandleStep(store, event).response.statusCode == 201 ==>
      && Route(event) == CreateEmployee
      && ValidateCreate(event.body).Success?
      && var item := ValidateCreate(event.body).value;
         HandleStep(store, event).store == store[item["Emp_Id"] := item]
  {
  }

  /** A path other than the employee resource is answered 404 "Not found", whatever the method. */
  lemma UnknownPathNotFound(store: Store, event: Event)
    requires !IsEmployeeRoute(ResolvePath(event))
    ensures HandleStep(store, event) == Step(ErrorResponse(404, NOT_FOUND), store)
  {
  }

  /** On the employee resource, a method other than POST or GET (none included) is answered 405. */
  lemma OtherMethodNotAllowed(store: Store, event: Event)
    requires IsEmployeeRoute(ResolvePath(event))
    requires ResolveMethod(event) != JString("POST") && ResolveMethod(event) != JString("GET")
    ensures HandleStep(store, event) == Step(ErrorResponse(405, METHOD_NOT_ALLOWED), store)
  {
  }

  /** No request breaks the table's invariant. */
  lemma HandlePreservesWellFormed(store: Store, event: Event)
    requires WellFormedStore(store)
    ensures WellFormedStore(HandleStep(store, event).store)
  {
  }

  /**
   * A POST that creates a record, followed by a GET for its Emp_Id on the
   * employee resource, answers 200 with the record that was created.
   */
  lemma PostThenGet(store: Store, post: Event, get: Event)
    requires Route(post) == CreateEmployee && Route(get) == ReadEmployee
    requires ValidateCreate(post.body).Success?
    requires EmpIdParam(get).Some?
    requires ValidateCreate(post.body).value["Emp_Id"] == JString(EmpIdParam(get).value)
    ensures HandleStep(HandleStep(store, post).store, get).response
         == BuildResponse(200, FoundBody(ValidateCreate(post.body).value))
  {
  }

  // ---------------------------------------------------------------------
  // A session against a fresh table, through the method contracts alone
  // ---------------------------------------------------------------------

  function EmployeeEvent(requestMethod: string, body: Option<Body>, query: Option<map<string, string>>): Event {
    Event(None, Some(RESOURCE), None, None, Some(JString(requestMethod)), body, query)
  }

  /** Requests that name the resource through `path` and the method through `method` reach the handler for that method. */
  lemma EmployeeEventRoute(requestMethod: string, body: Option<Body>, query: Option<map<string, string>>)
    ensures Route(EmployeeEvent(requestMethod, body, query)) ==
      if requestMethod == "POST" then CreateEmployee
      else if requestMethod == "GET" then ReadEmployee
      else MethodNotAllowed
  {
  }

  const EXAMPLE_RECORD: Item := map[
    "Emp_Id" := JString("E001"),
    "First_Name" := JString("Alice"),
    "Last_Name" := JString("Brown"),
    "Date_Of_Joining" := JString("2024-07-01")
  ]

  /** A body with the four fields and one more is accepted, and the extra member is dropped. */
  lemma ExampleBodyAccepted()
    ensures ValidateCreate(Some(Parsed(EXAMPLE_RECORD["Team" := JString("Payroll")]))) == Success(EXAMPLE_RECORD)
  {
  }

  const EXAMPLE_POST := EmployeeEvent("POST", Some(Parsed(EXAMPLE_RECORD["Team" := JString("Payroll")])), None)
  const EXAMPLE_GET := EmployeeEvent("GET", None, Some(map["emp_id" := "E001"]))
  const EXAMPLE_GET_UNKNOWN := EmployeeEvent("GET", None, Some(map["emp_id" := "E999"]))
  const EXAMPLE_DELETE := EmployeeEvent("DELETE", None, Some(map["emp_id" := "E001"]))

  const EXAMPLE_STORE: Store := map[JString("E001") := EXAMPLE_RECORD]

  lemma ExamplePost()
    ensures HandleStep(map[], EXAMPLE_POST) == Step(BuildResponse(201, CreatedBody(EXAMPLE_RECORD)), EXAMPLE_STORE)
  {
    EmployeeEventRoute("POST", Some(Parsed(EXAMPLE_RECORD["Team" := JString("Payroll")])), None);
    ExampleBodyAccepted();
  }

  lemma ExampleGet()
    ensures HandleStep(EXAMPLE_STORE, EXAMPLE_GET) == Step(BuildResponse(200, FoundBody(EXAMPLE_RECORD)), EXAMPLE_STORE)
  {
    EmployeeEventRoute("GET", None, Some(map["emp_id" := "E001"]));
    assert EmpIdParam(EXAMPLE_GET) == Some("E001");
    assert "Emp_Id" in EXAMPLE_RECORD;
  }

  lemma ExampleGetUnknown()
    ensures HandleStep(EXAMPLE_STORE, EXAMPLE_GET_UNKNOWN) == Step(ErrorResponse(404, EMPLOYEE_NOT_FOUND), EXAMPLE_STORE)
  {
    EmployeeEventRoute("GET", None, Some(map["emp_id" := "E999"]));
    assert EmpIdParam(EXAMPLE_GET_UNKNOWN) == Some("E999");
    assert JString("E999") != JString("E001");
  }

  lemma ExampleDelete()
    ensures HandleStep(EXAMPLE_STORE, EXAMPLE_DELETE) == Step(ErrorResponse(405, METHOD_NOT_ALLOWED), EXAMPLE_STORE)
  {
    EmployeeEventRoute("DELETE", None, Some(map["emp_id" := "E001"]));
  }

  /** The four steps of the example session, on the table contents alone. */
  lemma ExampleSteps()
    ensures HandleStep(map[], EXAMPLE_POST) == Step(BuildResponse(201, CreatedBody(EXAMPLE_RECORD)), EXAMPLE_STORE)
    ensures HandleStep(EXAMPLE_STORE, EXAMPLE_GET) == Step(BuildResponse(200, FoundBody(EXAMPLE_RECORD)), EXAMPLE_STORE)
    ensures HandleStep(EXAMPLE_STORE, EXAMPLE_GET_UNKNOWN) == Step(ErrorResponse(404, EMPLOYEE_NOT_FOUND), EXAMPLE_STORE)
    ensures HandleStep(EXAMPLE_STORE, EXAMPLE_DELETE) == Step(ErrorResponse(405, METHOD_NOT_ALLOWED), EXAMPLE_STORE)
  {
    ExamplePost();
    ExampleGet();
    ExampleGetUnknown();
    ExampleDelete();
  }

  /** Create E001, read it back, read an unknown id, then try DELETE. */
  method ExampleSession() {
    var table := new EmployeeTable();
    ExampleSteps();
    var r := LambdaHandler(table, EXAMPLE_POST);
    assert r == BuildResponse(201, CreatedBody(EXAMPLE_RECORD));
    r := LambdaHandler(table, EXAMPLE_GET);
    assert r == BuildResponse(200, FoundBody(EXAMPLE_RECORD));
    r := LambdaHandler(table, EXAMPLE_GET_UNKNOWN);
    assert r == ErrorResponse(404, EMPLOYEE_NOT_FOUND);
    r := LambdaHandler(table, EXAMPLE_DELETE);
    assert r == ErrorResponse(405, METHOD_NOT_ALLOWED);
    assert table.items == EXAMPLE_STORE && table.Valid();
  }
}
