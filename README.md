# Employee API handler: a Dafny model

This project models the AWS Lambda handler for one HTTP resource, `/employee`. The handler is in `lambda-app/lambda_function.py`. It receives an API Gateway event, works out the request's path and method, and then does one of four things:

- a `POST` creates an employee record in a DynamoDB table;
- a `GET` reads one record back by its `emp_id` query parameter;
- any other method on the resource is refused with 405;
- any other path is answered with 404.

Every answer goes through `build_response`. It returns a status code, a single `Content-Type: application/json` header and the serialised body.

The model has one module per component:

- `Wrappers` (wrappers.dfy): `Option` and `Result`.
- `JsonValues` (json.dfy): JSON values, as `json.loads` produces them.
- `Responses` (response.dfy): the response envelope and `BuildResponse`.
- `Employees` (employee.dfy): the required fields, the missing-field list, the `", "` join, the four-field record and the table invariant.
- `Events` (events.dfy): the event members the handler reads.
- `Table` (table.dfy): the class `EmployeeTable`. It stands in for the DynamoDB table. Its `items` field is a map from the value of `Emp_Id` to the stored record. `PutItem` is an unconditional upsert and `GetItem` is a point lookup.
- `Handlers` (handlers.dfy): the create handler `HandlePostEmployee` and the read handler `HandleGetEmployee`.
- `Router` (router.dfy): the entry point `LambdaHandler`.

Each handler is an imperative method over an `EmployeeTable`. Its contract ties the response and the table's new contents to a pure function of the old contents: `CreateStep`, `ReadResponse` or `HandleStep`. The methods that write also keep the table invariant `EmployeeTable.Valid()` when it held before. The properties the code promises are lemmas about those functions. They cover:

- exact status codes and messages;
- error paths that leave the table unchanged;
- upsert and overwrite;
- idempotence of a repeated create;
- the create-then-read round trip;
- preservation of the table invariant.

`ExampleSession` walks through a sample session on a fresh table: create `E001` with an extra field, read it back, read an unknown id, then try `DELETE`. Its assertions about each response follow from the method contracts alone.

How event members are represented:

- A member read with `dict.get` is an `Option`. Here an absent key and an explicit `null` are the same `None`. This covers `rawPath`, `path`, `body` and `queryStringParameters`.
- A member whose presence is tested with `in` keeps the two cases apart. This covers `httpMethod` and the top-level `method` (called `localMethod` here). `None` means the key is absent. `Some(JNull)` means the key is present with the value null.
- `requestContext.http` is also tested with `in`, but it is an `Option<HttpContext>`: `None` means the key is absent, and a present `http` is an object with a `method` member. A present but null `http` has no representation (see "## Left out").
- The resolved method is a JSON value. `JNull` stands for Python's `None`.

The read handler answers 404 when `get_item` returns no record. Because the code tests `if not item` (line 69), it also answers 404 when the returned record is empty. `ReadResponse` keeps that test. `ReadOutcomes` states the three outcomes for any table whose stored records are all non-empty, which every table satisfying the invariant `WellFormedStore` is.

## Model

| member | source | states |
|---|---|---|
| `Responses.BuildResponse` | lambda-app/lambda_function.py:13-20 | the response carries the given status code and body, and exactly one header, `Content-Type: application/json` |
| `Responses.ErrorMessageOfErrorResponse` | lambda-app/lambda_function.py:13-20 | an error response keeps its status code, and its body is a single `error` member from which the message is read back unchanged |
| `Employees.MissingAmong` | lambda-app/lambda_function.py:38 | the comprehension's result contains exactly the listed names absent from the body, as a subsequence of the list (input order kept) |
| `Employees.MissingFields` | lambda-app/lambda_function.py:37-39 | the missing list contains exactly the required fields absent from the body, in the order `Emp_Id, First_Name, Last_Name, Date_Of_Joining`; it is empty iff all four are present |
| `Employees.MissingFieldsExact` | lambda-app/lambda_function.py:37-38 | any ordered selection of required fields naming exactly the absent ones equals the missing list, so the list is uniquely determined |
| `Employees.JoinInjective` | lambda-app/lambda_function.py:40 | `", ".join` of non-empty, comma-free names is injective: the joined text determines the list |
| `Employees.MissingMessageInjective` | lambda-app/lambda_function.py:37-40 | two bodies get the same "Missing fields: ..." message iff they lack the same required fields |
| `Employees.MakeItem` | lambda-app/lambda_function.py:42-47 | the record has exactly the four required fields, each copied from the body; extra body members are dropped |
| `Employees.WellFormedStoreNonEmpty` | lambda-app/lambda_function.py:42-47 | a table holding only records built as at lines 42-47 has no empty record, so the `if not item` test never hides a stored one |
| `Handlers.ValidateCreate` | lambda-app/lambda_function.py:28-47 | absent or null body gives "Missing request body"; unparseable gives "Invalid JSON body"; success iff the body is an object with all four fields, and then the record is the body restricted to them; otherwise the error is "Missing fields: " followed by the missing list joined with ", " |
| `Handlers.HandlePostEmployee` | lambda-app/lambda_function.py:23-53 | the response and the table's new contents are those of `CreateStep` on the old contents; a table that satisfied `Valid()` still does |
| `Handlers.CreateRejected` | lambda-app/lambda_function.py:28-40 | a rejected create answers 400 whose `error` member reads back as the validation message, and leaves the table unchanged |
| `Handlers.CreateUpserts` | lambda-app/lambda_function.py:42-53 | an accepted create answers 201 with `{"message": "Employee created", "item": record}`; it stores the record under its `Emp_Id`, whether or not one was there, and leaves every other key unchanged |
| `Handlers.CreateIdempotent` | lambda-app/lambda_function.py:50-53 | repeating a create gives the same response and the same table as doing it once |
| `Handlers.CreateOverwrites` | lambda-app/lambda_function.py:50 | after two accepted creates with the same `Emp_Id`, the table is what the second alone would have made it: the later record wins |
| `Handlers.CreatePreservesWellFormed` | lambda-app/lambda_function.py:42-50 | creates keep every stored record under its own `Emp_Id` with exactly the four required fields |
| `Handlers.EmpIdParam` | lambda-app/lambda_function.py:60-63 | an id is found iff the query map is present, holds `emp_id`, and its value is non-empty; the id is that value |
| `Handlers.HandleGetEmployee` | lambda-app/lambda_function.py:56-73 | changes nothing and answers `ReadResponse` of the table's contents |
| `Handlers.ReadOutcomes` | lambda-app/lambda_function.py:60-73 | on a table whose stored records are all non-empty (every well-formed table, and also records with extra fields written elsewhere): no id gives 400 "emp_id query parameter is required"; an unknown id gives 404 "Employee not found"; a stored id gives 200 with `{"item": record}` |
| `Handlers.CreateThenRead` | lambda-app/lambda_function.py:42-73 | after an accepted create with `Emp_Id` K (a non-empty string), a read of K answers 200 with the created record |
| `Table.EmployeeTable.PutItem` | lambda-app/lambda_function.py:50 | the table afterwards is the old one with the record stored under its `Emp_Id` |
| `Table.EmployeeTable.GetItem` | lambda-app/lambda_function.py:66-67 | finds a record iff the key is stored, and returns the stored record |
| `Router.ResolvePath` | lambda-app/lambda_function.py:82 | the path is `rawPath` if non-empty, else `path` if non-empty; it is empty iff neither is given |
| `Router.ResolveMethod` | lambda-app/lambda_function.py:81-92 | the method is `requestContext.http.method` when `http` is present, else `httpMethod` when present, else `method` when present, else none |
| `Router.EmployeeRouteBySuffix` | lambda-app/lambda_function.py:94 | the path test accepts exactly the paths ending in "/employee" and the empty path (the equality test is redundant) |
| `Router.Route` | lambda-app/lambda_function.py:94-102 | on the employee resource POST goes to create, GET to read, and any other method (none included) to 405; every other path is not found; each target is characterised in both directions |
| `Router.LambdaHandler` | lambda-app/lambda_function.py:76-102 | the response and the table's new contents are those of `HandleStep` on the old contents; a table that satisfied `Valid()` still does |
| `Router.StatusCodes` | lambda-app/lambda_function.py:76-102 | every response's status is one of 200, 201, 400, 404, 405 |
| `Router.OnlyAcceptedCreatesWrite` | lambda-app/lambda_function.py:94-102 | any response other than 201 leaves the table unchanged; a 201 comes only from an accepted create, which upserts its record |
| `Router.UnknownPathNotFound` | lambda-app/lambda_function.py:101-102 | a path other than the employee resource answers 404 "Not found" and leaves the table unchanged, whatever the method |
| `Router.OtherMethodNotAllowed` | lambda-app/lambda_function.py:99-100 | on the employee resource, a method other than POST and GET answers 405 "Method not allowed" and leaves the table unchanged |
| `Router.HandlePreservesWellFormed` | lambda-app/lambda_function.py:94-98 | no request breaks the table invariant |
| `Router.PostThenGet` | lambda-app/lambda_function.py:94-98 | an accepted POST for key K followed by a GET of K answers 200 with the created record |
| `Router.EmployeeEventRoute` | lambda-app/lambda_function.py:91-100 | a request naming `/employee` in `path` and its method in `method` is dispatched by that method |
| `Router.ExampleSteps` | lambda-app/lambda_function.py:76-102 | on an empty table: POST of E001 answers 201 and stores it; GET of E001 answers 200 with it; GET of E999 answers 404; DELETE answers 405; the last three leave the table unchanged |
| `Router.ExampleBodyAccepted` | lambda-app/lambda_function.py:42-47 | a body with the four fields plus one extra member is accepted as exactly the four-field record |

## Left out

- Client setup: the boto3 resource, the DynamoDB table handle and the `TABLE_NAME` lookup (lines 7-10) are foreign calls and configuration. The class `EmployeeTable` replaces them and is passed to the handlers.
- JSON text: parsing (`json.loads`) and serialisation (`json.dumps`) are not modelled. A body is either text that does not parse (`Unparseable`) or an already parsed JSON object. A response body is the structured value that would be serialised.
- Unusual bodies: a body that parses to something other than an object, or a `body` member that is not a string, is not modelled. For a list or string body, `in` at line 38 is a membership or substring test, so the handler still answers 400 "Missing fields: ..." when a test fails (the list `["Emp_Id"]` gives "Missing fields: First_Name, Last_Name, Date_Of_Joining"). A list or string body that passes all four tests raises `TypeError` at `body["Emp_Id"]` (line 43). A null, number or boolean body raises at the `in` test itself. A `body` member that is not a string makes `json.loads` raise `TypeError`.
- Unusual event shapes: event shapes that make the Python code raise are not modelled. These are a truthy path value that is not a string and becomes `raw_path` (`rawPath`, or `path` when `rawPath` is falsy), which raises `AttributeError` at `.endswith` (line 94); a `requestContext` that is null; an `http` member that is null (line 86 then indexes `None` and raises `TypeError`); and an `http` member without `method`. The event's types rule them out. Other path values that are not strings do no harm: a falsy one (`0`, `false`, `[]`, `{}`) is skipped by the `or` chain at line 82, as an absent member is, and the model's `None` covers it; and `path` is never read when `rawPath` is a non-empty string.
- Query parameter values that are not strings: the model's query map holds strings only. In the code, a value of `0`, `false`, `null`, `[]` or `{}` fails `if not emp_id` at line 63, and the handler answers 400 "emp_id query parameter is required", like the empty string does here. A truthy value that is not a string reaches `get_item` at line 66, where DynamoDB rejects the key; that is a store fault, as below.
- Store faults: exceptions from the table propagate and are not modelled. This includes DynamoDB rejecting an `Emp_Id` that is not a non-empty string. The model's table accepts any JSON value as key.
- Number conversion on read: the model reads back the same JSON values it stored. boto3 converts every number read from DynamoDB, at any depth of the record, to `Decimal`, and `json.dumps` cannot serialise a `Decimal`. So a GET of a stored record that holds a number anywhere raises `TypeError` at line 19 (reached from line 73) instead of answering 200. The model answers 200 for such a record. The 200 outcome of `Handlers.ReadOutcomes`, `Handlers.CreateThenRead` and `Router.PostThenGet` therefore matches the code only for records without numbers.
- Float numbers: JSON numbers are exact reals in the model. `json.loads` turns a number with a fraction or an exponent (`1.5`, `1e3`) and the literals `NaN`, `Infinity` and `-Infinity` into a Python `float`, which boto3 refuses at `put_item` (line 50) with a `TypeError`. So when a required field's value holds such a number, at any depth, the code raises instead of answering 201, while the model answers 201. A float in an extra body member does no harm: lines 42-47 drop it before `put_item`, and the code answers 201 as the model does.
- Logging: the `print` calls to CloudWatch (lines 51 and 72) are write-only and have no effect on the response or the table.
- The unused `context` argument is not modelled.
- The local test block (lines 106-119) is not modelled. It only prints one response.
- Concurrent invocations are not modelled. Each request is one atomic step on the table.
- Handlers.ReadOutcomes: the 200 outcome holds in the code only for a stored record without numbers; with a number it raises at `json.dumps` (see "Number conversion on read").
- Handlers.CreateThenRead: holds for the model's table, whose reads always see the latest write. `get_item` at line 66 does not ask for `ConsistentRead`, so DynamoDB's default eventually consistent read may still answer 404 right after a create. The 200 also needs a record without numbers: with a number, the read raises at `json.dumps` (see "Number conversion on read").
- Router.PostThenGet: the same two assumptions as `Handlers.CreateThenRead`: strongly consistent reads, and a created record without numbers.
