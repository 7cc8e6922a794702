/**
 * The create handler (POST /employee) and the read handler (GET /employee).
 * Each is a method over the table, specified by a function of the table's
 * contents: CreateStep gives the response and the new contents of a create,
 * ReadResponse the response of a read, which changes nothing.
 */
module Handlers {
  import opened Wrappers
  import opened JsonValues
  import opened Responses
  import opened Employees
  import opened Events
  import opened Table

  /** A response together with the table contents after the request. */
  datatype Step = Step(response: Response, store: Store)

  const MISSING_BODY := "Missing request body"
  const INVALID_JSON := "Invalid JSON body"
  const EMP_ID_REQUIRED := "emp_id query parameter is required"
  const EMPLOYEE_NOT_FOUND := "Employee not found"

  function CreatedBody(item: Item): Json {
    JObject(map["message" := JString("Employee created"), "item" := JObject(item)])
  }

  function FoundBody(item: Item): Json {
    JObject(map["item" := JObject(item)])
  }

  // ---------------------------------------------------------------------
  // Create
  // ---------------------------------------------------------------------

  /**
   * The checks on a create request's body, in the handler's order: a body
   * must be present, must parse, and must carry every required field. The
   * record kept is the body restricted to the required fields.
   */
  function ValidateCreate(body: Option<Body>): (r: Result<Item, string>)
    ensures body.None? ==> r == Failure(MISSING_BODY)
    ensures body == Some(Unparseable) ==> r == Failure(INVALID_JSON)
    ensures r.Success? <==> body.Some? && body.value.Parsed? && HasRequiredFields(body.value.fields)
    ensures r.Success? ==>
      && (forall f :: f in r.value <==> f in REQUIRED_FIELDS)
      && (forall f :: f in r.value ==> r.value[f] == body.value.fields[f])
    ensures r.Failure? && body.Some? && body.value.Parsed? ==>
      && MissingFields(body.value.fields) != []
      && r.error == MissingFieldsMessage(MissingFields(body.value.fields))
  {
    match body
    case None => Failure(MISSING_BODY)
    case Some(Unparseable) => Failure(INVALID_JSON)
    case Some(Parsed(fields)) =>
      var missing := MissingFields(fields);
      if missing != [] then Failure(MissingFieldsMessage(missing)) else Success(MakeItem(fields))
  }

  /** The response to a create request and the table contents after it. */
  function CreateStep(store: Store, event: Event): Step {
    match ValidateCreate(event.body)
    case Failure(message) => Step(ErrorResponse(400, message), store)
    case Success(item) => Step(BuildResponse(201, CreatedBody(item)), store[item["Emp_Id"] := item])
  }

  method HandlePostEmployee(table: EmployeeTable, event: Event) returns (r: Response)
    modifies table
    ensures r == CreateStep(old(table.items), event).response
    ensures table.items == CreateStep(old(table.items), event).store
    ensures old(table.Valid()) ==> table.Valid()
  {
    if WellFormedStore(table.items) {
      CreatePreservesWellFormed(table.items, event);
    }
    if event.body.None? {
      return ErrorResponse(400, MISSING_BODY);
    }
    var body: map<string, Json>;
    match event.body.value {
      case Unparseable =>
        return ErrorResponse(400, INVALID_JSON);
      case Parsed(fields) =>
        body := fields;
    }
    var missing := MissingFields(body);
    if missing != [] {
      return ErrorResponse(400, MissingFieldsMessage(missing));
    }
    var item := MakeItem(body);
    table.PutItem(item);
    r := BuildResponse(201, CreatedBody(item));
  }

  /** A rejected create answers 400 with the reason and leaves the table as it was. */
  lemma CreateRejected(store: Store, event: Event)
    requires ValidateCreate(event.body).Failure?
    ensures CreateStep(store, event).response == ErrorResponse(400, ValidateCreate(event.body).error)
    ensures CreateStep(store, event).response.statusCode == 400
    ensures ErrorMessage(CreateStep(store, event).response) == Some(ValidateCreate(event.body).error)
    ensures CreateStep(store, event).store == store
  {
  }

  /**
   * An accepted create answers 201 with the record, stores it under its
   * Emp_Id whether or not a record was there, and touches no other key.
   */
  lemma CreateUpserts(store: Store, event: Event)
    requires event.body.Some? && event.body.value.Parsed?
    requires HasRequiredFields(event.body.value.fields)
    ensures var key := event.body.value.fields["Emp_Id"];
      && CreateStep(store, event).response == BuildResponse(201, CreatedBody(MakeItem(event.body.value.fields)))
      && CreateStep(store, event).store.Keys == store.Keys + {key}
      && CreateStep(store, event).store[key] == MakeItem(event.body.value.fields)
      && (forall k :: k in store && k != key ==> CreateStep(store, event).store[k] == store[k])
  {
  }

  /** Sending the same create twice gives the same response and the same table as sending it once. */
  lemma CreateIdempotent(store: Store, event: Event)
    ensures CreateStep(CreateStep(store, event).store, event) == CreateStep(store, event)
  {
  }

  /** Of two accepted creates for the same Emp_Id, the later one's record is what remains. */
  lemma CreateOverwrites(store: Store, first: Event, second: Event)
    requires ValidateCreate(first.body).Success? && ValidateCreate(second.body).Success?
    requires ValidateCreate(first.body).value["Emp_Id"] == ValidateCreate(second.body).value["Emp_Id"]
    ensures CreateStep(CreateStep(store, first).store, second).store == CreateStep(store, second).store
  {
  }

  /** Creates keep every stored record under its own Emp_Id with exactly the required fields. */
  lemma CreatePreservesWellFormed(store: Store, event: Event)
    requires WellFormedStore(store)
    ensures WellFormedStore(CreateStep(store, event).store)
  {
  }

  // ---------------------------------------------------------------------
  // Read
  // ---------------------------------------------------------------------

  /** The emp_id query parameter when it is present and not empty; a missing parameter map counts as empty. */
  function EmpIdParam(event: Event): (id: Option<string>)
    ensures id.Some? <==>
      && event.queryStringParameters.Some?
      && "emp_id" in event.queryStringParameters.value
      && event.queryStringParameters.value["emp_id"] != ""
    ensures id.Some? ==> id.value == event.queryStringParameters.value["emp_id"]
  {
    var params := match event.queryStringParameters
      case Some(q) => q
      case None => map[];
    if "emp_id" in params && params["emp_id"] != "" then Some(params["emp_id"]) else None
  }

  /** The response to a read request; a stored record that is empty counts as not found. */
  function ReadResponse(store: Store, event: Event): Response {
    match EmpIdParam(event)
    case None => ErrorResponse(400, EMP_ID_REQUIRED)
    case Some(id) =>
      if JString(id) !in store || store[JString(id)] == map[] then ErrorResponse(404, EMPLOYEE_NOT_FOUND)
      else BuildResponse(200, FoundBody(store[JString(id)]))
  }

  method HandleGetEmployee(table: EmployeeTable, event: Event) returns (r: Response)
    ensures r == ReadResponse(table.items, event)
  {
    var queryParams := if event.queryStringParameters.Some? then event.queryStringParameters.value else map[];
    var empId := if "emp_id" in queryParams then Some(queryParams["emp_id"]) else None;
    if empId.None? || empId.value == "" {
      return ErrorResponse(400, EMP_ID_REQUIRED);
    }
    var item := table.GetItem(JString(empId.value));
    if item.None? || item.value == map[] {
      return ErrorResponse(404, EMPLOYEE_NOT_FOUND);
    }
    r := BuildResponse(200, FoundBody(item.value));
  }

  /** The three outcomes of a read: 400 without an id, 404 for an unknown id, 200 with the stored record. */
  lemma ReadOutcomes(store: Store, event: Event)
    requires forall k :: k in store ==> store[k] != map[]
    ensures EmpIdParam(event).None? ==> ReadResponse(store, event) == ErrorResponse(400, EMP_ID_REQUIRED)
    ensures EmpIdParam(event).Some? && JString(EmpIdParam(event).value) !in store ==>
      ReadResponse(store, event) == ErrorResponse(404, EMPLOYEE_NOT_FOUND)
    ensures EmpIdParam(event).Some? && JString(EmpIdParam(event).value) in store ==>
      ReadResponse(store, event) == BuildResponse(200, FoundBody(store[JString(EmpIdParam(event).value)]))
  {
  }

  /** Creating a record with a non-empty string Emp_Id and then reading that id returns the record. */
  lemma CreateThenRead(store: Store, create: Event, read: Event)
    requires ValidateCreate(create.body).Success?
    requires EmpIdParam(read).Some?
    requires ValidateCreate(create.body).value["Emp_Id"] == JString(EmpIdParam(read).value)
    ensures ReadResponse(CreateStep(store, create).store, read)
         == BuildResponse(200, FoundBody(ValidateCreate(create.body).value))
  {
  }
}
