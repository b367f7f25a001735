# Webinar registration endpoint — Dafny model

This project models the registration endpoint of a webinar sign-up site. The
endpoint receives a registrant's name, email, phone, topic and consent flag. It
validates them and refuses a second sign-up of the same email for the same
webinar. Otherwise it stores a registration record built from the submission
and the static topic catalog.

- `registration.dfy`, module `RegistrationModel`, models the data module
  `src/models/registration.ts`. It holds the JSON field values and their
  JavaScript truthiness, the four-entry topic catalog, and the email shape as a
  hand-written predicate. It also holds the validator and the record builder.
  - The validator `Validate` is imperative, as in the source: an `if` chain
    that appends to a local error list.
  - `Validate` is proved against `ValidationErrors`. That function lists the
    message of every failing check, in the fixed check order.
  - `CreateRegistration` is a pure function.
- `route.dfy`, module `RegisterRoute`, models `src/app/api/register/route.ts`.
  - The `registrations` collection is the field `store: seq<Registration>` of
    class `RegistrationEndpoint`.
  - `Post` runs the handler's steps with early returns, in order: parse,
    validate, connect, duplicate query, build, insert.
  - `Post` is proved to agree with the pure function `Handle`. The lemmas
    about `Handle` state the response codes, which steps write to the store,
    and the uniqueness invariant on (email, webinar title).
  - `Get` and `Options` are constant responses.

How the source's inputs and side effects appear here:
- The parsed body is a `Body`. `Unparseable` means the JSON parse failed.
  `NullBody` is the JSON literal `null`: reading `null.name` throws, so the
  request takes the 500 path, not the 400 path. `Fields(data)` is any other JSON
  value; a non-object body reads every field as `Absent`.
- An infrastructure failure is the `Fault` parameter: the connection, the
  duplicate query or the insert fails. Each store call returns a
  `StoreResult`, which is `Done(value)` or `StoreError`, in place of an
  exception.
- The creation time is the parameter `now`.
- Name, email and phone keep the JSON value type (`Value`) in the stored record.
  The source copies them as they are, so a truthy number in `name` is stored as
  a number.

The required-field checks test JavaScript truthiness, so `""`, `0` and
`false` count as missing.

## Model

| member | source | states |
|---|---|---|
| `RegistrationModel.CatalogContents` | src/models/registration.ts:18-39 | the catalog has exactly the keys uk-education, finance, salesforce and fig-regime; finance is "Financial Planning for International Education" |
| `RegistrationModel.TitlesIdentifyTopics` | src/models/registration.ts:18-39 | two catalog topics have the same title only if they are the same topic, so (email, title) identifies (email, topic) |
| `RegistrationModel.IsCatalogKey` | src/models/registration.ts:58 | the topic lookup passes exactly for the strings uk-education, finance, salesforce and fig-regime (arrays and prototype keys: see Left out) |
| `RegistrationModel.Truthy` | src/models/registration.ts:46-60 | a value is falsy exactly when it is absent, `null`, `false`, `0` or `""`; the same test gives the consent flag's `!!` coercion at line 75 |
| `RegistrationModel.EmailShape` | src/models/registration.ts:52-53 | the hand-written email shape; any string it accepts holds an '@' and has at least five characters |
| `RegistrationModel.EmailShapeIsPattern` | src/models/registration.ts:52-53 | the hand-written shape (no whitespace, one '@', non-empty local part, a '.' inside the domain) accepts exactly the strings that split into three non-empty whitespace-free, '@'-free runs around an '@' and a later '.' |
| `RegistrationModel.EmailFormatOk` | src/models/registration.ts:53 | the format test passes exactly for a string that matches the anchored email pattern; every non-string value fails it (arrays: see Left out) |
| `RegistrationModel.Validate` | src/models/registration.ts:42-66 | the error list is the message of every failing check in the fixed check order; `valid` holds iff the list is empty |
| `RegistrationModel.ErrorReported` | src/models/registration.ts:46-60 | a message is in the error list iff its own check fails |
| `RegistrationModel.RequiredFieldsReported` | src/models/registration.ts:46-49 | each of name, email, phone, topic yields "X is required" iff it is falsy, independently of the other fields |
| `RegistrationModel.EmailFormatReported` | src/models/registration.ts:52-55 | "Invalid email format" is reported iff the email is truthy and fails the shape; a missing email never also yields it |
| `RegistrationModel.TopicSelectionReported` | src/models/registration.ts:58-60 | "Invalid topic selection" is reported iff the topic is truthy and not a catalog key; a missing topic never also yields it |
| `RegistrationModel.ErrorsInFixedOrder` | src/models/registration.ts:46-60 | the error list is a subsequence of Name, Email, Phone, Topic, format, topic-selection messages, in that order |
| `RegistrationModel.AtMostFourErrors` | src/models/registration.ts:46-60 | at most four messages are reported |
| `RegistrationModel.ValidIffAcceptable` | src/models/registration.ts:46-65 | the error list is empty iff all four fields are truthy, the email has the shape, and the topic is a catalog key |
| `RegistrationModel.CreateRegistration` | src/models/registration.ts:69-79 | the record's fields give back the payload, with consent coerced to `Truthy(consentGiven)`; its webinar details are the catalog entry for its topic; its status is `Registered`; its date is `now` |
| `RegistrationModel.RebuildRecord` | src/models/registration.ts:69-79 | a record the builder could make is rebuilt exactly from its own fields and date |
| `RegistrationModel.CreatedRecordAcceptable` | src/models/registration.ts:69-79 | building from an accepted payload gives a record whose fields again pass validation |
| `RegisterRoute.Options` | src/app/api/register/route.ts:16-18 | the preflight handler answers 200 with the empty JSON object `{}` |
| `RegisterRoute.Get` | src/app/api/register/route.ts:21-26 | the liveness handler answers 200 with status "ok" and message "API is running" |
| `RegisterRoute.UniqueCountAtMostOne` | src/app/api/register/route.ts:49-59 | in a store without duplicate (email, title) pairs, each pair is stored at most once |
| `RegisterRoute.InvalidInputRejected` | src/app/api/register/route.ts:35-41 | a payload that is not acceptable gets 400, "Validation failed" and the validator's non-empty list; the store is unchanged, whatever the fault |
| `RegisterRoute.UnknownTopicRejected` | src/app/api/register/route.ts:35-41 | topic "unknown" gets 400 with "Invalid topic selection" among the errors, and nothing is written |
| `RegisterRoute.TitleFor` | src/app/api/register/route.ts:48-51 | the title the duplicate query looks for is the webinar title of the record the builder would store |
| `RegisterRoute.DuplicateRejected` | src/app/api/register/route.ts:49-59 | an accepted payload whose email and catalog title are already stored gets 409 and the store is unchanged |
| `RegisterRoute.NewSignupStored` | src/app/api/register/route.ts:62-71 | an accepted new sign-up gets 200 with the catalog entry for its topic; exactly the built record is appended and earlier records are unchanged |
| `RegisterRoute.Handle` | src/app/api/register/route.ts:29-79 | the POST handler as a function of the store; every answer is 200, 400, 409 or 500, and the new store is the old one, or the old one with one record appended |
| `RegisterRoute.StoreFaultAnswers500` | src/app/api/register/route.ts:43-77 | on an accepted payload, a failing connection, a failing duplicate query, or a failing insert of a new sign-up answers 500 with "An error occurred during registration", and the store is unchanged |
| `RegisterRoute.HandleOutcomes` | src/app/api/register/route.ts:29-79 | the status is 200, 400, 409 or 500; any 500 is the generic message; an unparseable or null body gets 500; any fault leaves the store unchanged; the store changes only on 200, and then by one appended record |
| `RegisterRoute.HandlePreservesInvariants` | src/app/api/register/route.ts:49-65 | the handler keeps the store free of duplicate (email, title) pairs, and keeps every record a catalog entry built from an accepted payload |
| `RegisterRoute.ResubmissionConflicts` | src/app/api/register/route.ts:49-65 | the same accepted payload sent twice gets 409 the second time with nothing written; on a duplicate-free store exactly one matching record remains |
| `RegisterRoute.SamplePayloadAcceptable` | src/models/registration.ts:42-66 | the sample submission (A, a@b.com, 1, finance, true) passes validation |
| `RegisterRoute.FinanceSignupAccepted` | src/app/api/register/route.ts:62-71 | an accepted "finance" sign-up on an empty store gets 200 with title "Financial Planning for International Education" and stores one record |
| `RegisterRoute.RegistrationEndpoint.FindOne` | src/app/api/register/route.ts:49-52 | the duplicate query answers whether a stored record has this email and title, or `StoreError` when the store fails |
| `RegisterRoute.RegistrationEndpoint.InsertOne` | src/app/api/register/route.ts:65 | a successful insert appends exactly the record; a failed insert changes nothing |
| `RegisterRoute.RegistrationEndpoint.Post` | src/app/api/register/route.ts:29-79 | the response and the new store are those of `Handle` on the old store; the status is one of four codes; the store is unchanged except on 200, which appends one record; the duplicate-free, catalog-entry invariant is preserved |

## Left out

- The web framework's request and response objects are not modelled. The response is a plain `Response(status, body)` value.
- The cross-origin header table and the `FRONTEND_URL` environment lookup are infrastructure configuration. No header is modelled.
- The database client, connection promise, database and collection selection, and async/await are not modelled. The collection is an in-memory sequence, and a failure is the `Fault` parameter.
- The race between the duplicate query and the insert under concurrent requests is a concurrency effect. The model is sequential.
- Error logging is not modelled, and the clock read is the parameter `now`.
- The JavaScript regular-expression engine is replaced by the `EmailShape` predicate, which is proved equal to the pattern's meaning. Characters are Unicode scalar values, not UTF-16 code units.
- A topic such as "toString" is found on the catalog object's prototype, and counts as truthy in the source. The catalog is modelled as a map of exactly its four keys.
- The source converts arrays to strings for the email test and the catalog lookup. The string form joins the elements with commas, nested arrays included. So any array whose comma-joined string form matches the email pattern passes the email test. A one-element array, possibly nested, that holds a catalog key passes the lookup. The model treats every array and object (`Compound`) as a value that never passes either check. An object with its own non-callable `toString` member, such as `{"toString":0}`, or an array holding one, makes that string conversion throw. The source then answers 500 with the generic message, where the model answers 400 with "Invalid email format" or "Invalid topic selection".
- JSON numbers are modelled as `real`. Parsing turns an out-of-range literal such as `1e400` into `Infinity`. The model has no such `Num`; like every nonzero number, it would be truthy.
- The insert adds a generated `_id` field to the stored document. The record has no `_id`.
- The `attended` and `no-show` statuses exist in the type, but no code sets them.
- CreateRegistration: requires the topic to be a catalog key. On any other topic the source stores an undefined `webinarInfo`, but its only caller validates first, so in the model that case is never reached. In the source only the prototype keys admitted by the lookup, such as "toString" or "__proto__", reach it, and the record then stores the prototype's member as `webinarInfo`.
