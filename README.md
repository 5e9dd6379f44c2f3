# Task service core, in Dafny

This project models the core of a small task-tracking REST service. The
service has three endpoints:

- `POST /tasks` creates a task from a `titulo` and an optional `descripcion`.
- `GET /tasks` lists tasks newest first, one page at a time.
- `PATCH /tasks/:id` marks a task as completed or pending.

The model follows the request through each layer of the service:

- **Controller** (`TaskController`). It checks the shape of the request: an undefined `titulo` is refused, and so is an `estatus` that is not a boolean. It coerces the query string with `parseInt(...) || default`, and it picks the status code and message. Each handler either writes a response or forwards the error.
- **Use cases** (`CreateTask`, `MarkTaskAsCompleted`, `GetAllTasks`). These are ordered chains of checks in which the first failing check decides the error. After the checks comes one call to the repository.
- **Repository** (`TaskRepository`). The collection is a class, `TaskStore`, holding a sequence of documents:
  - `Create` appends a document to it.
  - `UpdateCompleted` replaces one document in place.
  - `FindById` and the paginated `FindAll` only read it.
- **Schema** (`TaskSchema`). It defines the stored document, the `trim`, `required` and `maxlength` constraints, and two middleware hooks that maintain `completedAt`. Both hooks change an object in place, so each is a method of a class:
  - `TaskDocument.PreSave` stands for `pre('save')`.
  - `UpdateDocument.PreFindOneAndUpdate` stands for `pre('findOneAndUpdate')`.
- **Error middleware** (`ErrorHandler`). It turns any forwarded error into the JSON error response.
- **JavaScript semantics** (`JsText`, `Json`). These are the parts of JavaScript the service depends on, written out:
  - the white space of ECMA-262;
  - `String.prototype.trim`;
  - the UTF-16 `length`;
  - `parseInt` without a radix (section 19.2.5 of ECMA-262);
  - `typeof`.

Time is a `now: nat` parameter. The id that the database would generate for a new document is a `newId` parameter. When that id is already stored, the repository fails with the driver's duplicate-key error. These operations change state and are methods:

- `TaskStore.Create`
- `TaskStore.UpdateCompleted`
- `TaskStore.Save`
- the two hooks
- the use cases' `Execute`
- the controller's `CreateTask` and `MarkAsCompleted`

Each of these methods is tied by its `ensures` to a specification function over the old collection (`Outcome`/`After`, `CreateOutcome`/`CreateAfter`, …). The properties are proved about those functions. The store invariant `TaskStore.Valid` is preserved by every method. It says:

- ids are unique;
- every document meets the schema;
- titles and descriptions are trimmed;
- `completedAt` is present exactly when `estatus` is true.

Two discrepancies between files are proved as properties of the code as written:

- The use case accepts a descripcion of up to 1000 code units, but the schema accepts only 500 after trimming. A request with a descripcion of 501 to 1000 letters therefore passes every check of the use case and ends as a 500 response (`EndToEnd.DescripcionBoundMismatch`).
- The update hook stamps `completedAt` on every update that sets estatus to true. The save hook keeps an existing stamp (`TaskSchema.CompletingTwiceRestamps`, `TaskSchema.SaveHookIdempotent`).

Files: `wrappers.dfy`, `jstext.dfy`, `json.dfy`, `errors.dfy`, `domain.dfy`,
`http.dfy`, `taskschema.dfy`, `taskrepository.dfy`, `createtask.dfy`,
`marktaskascompleted.dfy`, `getalltasks.dfy`, `errorhandler.dfy`,
`taskcontroller.dfy`, `endtoend.dfy`. They are verified together.

## Model

| member | source | states |
|---|---|---|
| JsText.Trim | src/application/use-cases/CreateTask.ts:21 | the trimmed string has no white space at either end and is no longer than the input |
| JsText.TrimInfix | src/application/use-cases/CreateTask.ts:21 | trim returns the infix of the input between its leading and its trailing white space, and only white space lies outside it |
| JsText.TrimEmptyIff | src/application/use-cases/CreateTask.ts:16 | trim gives the empty string exactly when the input is all white space |
| JsText.TrimPadded | src/application/use-cases/CreateTask.ts:21 | text without white space at its ends, padded with white space on both sides, trims back to itself |
| JsText.TrimIdempotent | src/infrastructure/database/schemas/TaskSchema.ts:20 | trimming an already trimmed value (the schema setter after the use case) changes nothing |
| JsText.TrimFixesTrimmed | src/infrastructure/database/schemas/TaskSchema.ts:25 | trim leaves a string unchanged exactly when it has no white space at either end |
| JsText.TrimStartPadded | src/interfaces/http/controllers/TaskController.ts:53 | leading white space is dropped before parseInt reads the text |
| JsText.Utf16LengthBounds | src/application/use-cases/CreateTask.ts:26 | the JavaScript length of a string lies between its number of code points and twice that |
| JsText.Utf16LengthBmp | src/application/use-cases/CreateTask.ts:26 | text of the Basic Multilingual Plane has one code unit per code point |
| JsText.TrimUtf16Length | src/application/use-cases/CreateTask.ts:26 | trimming never increases the JavaScript length, so a titulo that passes the untrimmed check also fits once trimmed |
| JsText.ParseIntDecimalPrefix | src/interfaces/http/controllers/TaskController.ts:53 | parseInt reads the decimal text of any natural number back and stops at the first non-digit; only "0x" after a lone 0 changes the radix |
| JsText.ParseIntNegativeDecimal | src/interfaces/http/controllers/TaskController.ts:53 | a leading minus sign negates the number read |
| JsText.ParseIntLeadingWhitespace | src/interfaces/http/controllers/TaskController.ts:53 | leading white space does not change what parseInt reads |
| JsText.ParseIntNotANumber | src/interfaces/http/controllers/TaskController.ts:53 | text whose first non-blank character is neither a sign nor a digit is NaN |
| Json.TypeOf | src/interfaces/http/controllers/TaskController.ts:74 | typeof is "boolean" exactly for booleans, "string" exactly for strings and "undefined" exactly for undefined |
| Json.Field | src/interfaces/http/controllers/TaskController.ts:24 | reading a key the body has yields its stored value, and a key it does not have yields undefined |
| Errors.StatusCode | src/shared/errors/BadRequestError.ts:7-8 | every kind has a status from 400 to 499, and the statuses separate the kinds: 400 exactly for bad request, and likewise 401 for unauthorized, 403 for forbidden and 404 for not found (the codes each error class passes to its base class) |
| Errors.DefaultMessage | src/shared/errors/NotFoundError.ts:7 | each kind has a non-empty default message |
| Errors.NewAppError | src/shared/errors/BadRequestError.ts:7-8 | an error takes the given message, or its kind's default when none is given, and is operational |
| Errors.Raise | src/application/use-cases/CreateTask.ts:12 | a thrown application error has the kind and the message it was raised with |
| Http.Reject | src/interfaces/http/controllers/TaskController.ts:28-31 | the controller's own refusals carry the given status and error, `success: false` and no extra fields |
| TaskSchema.ValidationErrorsIff | src/infrastructure/database/schemas/TaskSchema.ts:17-27 | the validators report nothing exactly when titulo is non-empty and at most 200 code units and descripcion, if present, at most 500; errors name only those two paths, at most two of them |
| TaskSchema.ValidationFailure | src/infrastructure/database/schemas/TaskSchema.ts:17-27 | validation throws exactly when the field constraints fail |
| TaskSchema.SaveHookConsistent | src/infrastructure/database/schemas/TaskSchema.ts:46-55 | once estatus was modified, the save hook leaves completedAt present exactly when estatus is true |
| TaskSchema.SaveHookIdempotent | src/infrastructure/database/schemas/TaskSchema.ts:48-49 | a second save keeps the completedAt of the first one |
| TaskSchema.TaskDocument.New | src/infrastructure/database/schemas/TaskSchema.ts:15-43 | a new document has trimmed titulo and descripcion, completedAt at its null default and both timestamps at the current time |
| TaskSchema.TaskDocument.PreSave | src/infrastructure/database/schemas/TaskSchema.ts:46-55 | the save hook acts only when estatus was modified: it stamps completedAt when estatus is true and none is present, and clears it when estatus is false |
| TaskSchema.UpdateDocument.constructor | src/infrastructure/database/repositories/TaskRepository.ts:57 | the update document carries only the estatus key |
| TaskSchema.UpdateDocument.PreFindOneAndUpdate | src/infrastructure/database/schemas/TaskSchema.ts:58-70 | an update setting estatus to true also sets completedAt to now, one setting it to false unsets completedAt, and any other update is left alone |
| TaskSchema.AfterStatusUpdate | src/infrastructure/database/repositories/TaskRepository.ts:55-59 | a status update writes estatus, completedAt (now when true, absent when false) and updatedAt, and no other field |
| TaskSchema.HookedUpdateCompletedAt | src/infrastructure/database/schemas/TaskSchema.ts:61-66 | applied, the hooked update stamps completedAt for true, removes it for false and leaves estatus and completedAt as stored without estatus |
| TaskSchema.StatusUpdateConsistent | src/infrastructure/database/schemas/TaskSchema.ts:58-70 | after any status update completedAt is present exactly when estatus is true |
| TaskSchema.StatusUpdatePreservesWellFormed | src/infrastructure/database/schemas/TaskSchema.ts:58-70 | a status update keeps a document that meets the schema meeting it |
| TaskSchema.CompletingTwiceRestamps | src/infrastructure/database/schemas/TaskSchema.ts:62-63 | setting estatus to true twice overwrites the first completedAt with the second time |
| TaskRepository.MapToEntity | src/infrastructure/database/repositories/TaskRepository.ts:69-80 | the entity's id is the document's id, and every field is copied unchanged (the document can be rebuilt from the entity) |
| TaskRepository.MapAll | src/infrastructure/database/repositories/TaskRepository.ts:44 | mapping a list maps each document in place, keeping the order and length |
| TaskRepository.InsertNewestFirst | src/infrastructure/database/repositories/TaskRepository.ts:38 | inserting adds exactly the one document |
| TaskRepository.InsertKeepsNewestFirst | src/infrastructure/database/repositories/TaskRepository.ts:38 | inserting into a newest-first list keeps it newest first |
| TaskRepository.SortNewestFirst | src/infrastructure/database/repositories/TaskRepository.ts:38 | the sorted list is a permutation of the documents ordered by createdAt descending |
| TaskRepository.Window | src/infrastructure/database/repositories/TaskRepository.ts:39-40 | skip then limit gives the elements at positions skip to skip + limit, min(limit, max(0, n - skip)) of them |
| TaskRepository.CeilDiv | src/infrastructure/database/repositories/TaskRepository.ts:49 | totalPages is the least page count of `limit` items that holds `total` items |
| TaskRepository.CeilingUnique | src/infrastructure/database/repositories/TaskRepository.ts:49 | only one page count has that property |
| TaskRepository.Skip | src/infrastructure/database/repositories/TaskRepository.ts:31 | skip is (page - 1) * limit |
| TaskRepository.PageOf | src/infrastructure/database/repositories/TaskRepository.ts:29 | a missing or zero page becomes 1, any other page is kept |
| TaskRepository.LimitOf | src/infrastructure/database/repositories/TaskRepository.ts:30 | a missing or zero limit becomes 10, any other limit is kept |
| TaskRepository.IndexOfId | src/infrastructure/database/repositories/TaskRepository.ts:19 | the lookup finds the first document with the id, or reports that none has it |
| TaskRepository.CreateRejection | src/infrastructure/database/repositories/TaskRepository.ts:9-13 | a failed create is a database error (a validation error or a duplicate key), never an application error |
| TaskRepository.CreateRejectionIff | src/infrastructure/database/repositories/TaskRepository.ts:9-13 | create succeeds exactly when the trimmed fields meet the schema and the id is not stored |
| TaskRepository.CreatedDocWellFormed | src/infrastructure/database/repositories/TaskRepository.ts:9-13 | the created document meets the schema and is incomplete, with no completedAt |
| TaskRepository.AppendedFound | src/infrastructure/database/repositories/TaskRepository.ts:8-15 | a fresh id, once appended, names the appended document |
| TaskRepository.TaskStore.FindById | src/infrastructure/database/repositories/TaskRepository.ts:18-26 | null exactly when no document has the id; otherwise the mapped document with that id |
| TaskRepository.TaskStore.FindAll | src/infrastructure/database/repositories/TaskRepository.ts:28-52 | the page and limit defaults, total as the count of all documents, totalPages as the ceiling of total / limit, and data as the mapped window [skip, skip + limit) of a newest-first ordering, of length min(limit, max(0, total - skip)) |
| TaskRepository.TaskStore.Save | src/infrastructure/database/repositories/TaskRepository.ts:9-13 | a save validates, then runs the save hook, then inserts; a validation error or a stored id leaves the collection as it was |
| TaskRepository.TaskStore.Create | src/infrastructure/database/repositories/TaskRepository.ts:8-16 | create either fails with the database error and leaves the collection unchanged, or appends the trimmed, incomplete task and returns it; the new task then reads back by its id |
| TaskRepository.TaskStore.UpdateCompleted | src/infrastructure/database/repositories/TaskRepository.ts:54-66 | only the document with the id changes, to its status-updated form, which is returned; with no such document the result is null and nothing changes |
| TaskRepository.FindAllTwentyFive | src/infrastructure/database/repositories/TaskRepository.ts:28-52 | with 25 tasks, page 2 of limit 5 holds 5 tasks out of 5 pages |
| TaskRepository.FindAllEmpty | src/infrastructure/database/repositories/TaskRepository.ts:49 | an empty collection gives no tasks, total 0 and totalPages 0 |
| CreateTask.Validate | src/application/use-cases/CreateTask.ts:10-39 | the checks in their order, the first failure deciding the error: titulo not a string, blank, outside the pattern, over 200 code units untrimmed; descripcion not a string, over 1000 code units; success exactly when all pass, with the trimmed fields; every error an operational bad request |
| CreateTask.Outcome | src/application/use-cases/CreateTask.ts:9-48 | a failed check is thrown as that application error; once the checks pass, a refused create throws the database's error, and an accepted one returns the created task (new id, trimmed fields, estatus false, no completedAt); success happens only that way |
| CreateTask.Execute | src/application/use-cases/CreateTask.ts:9-48 | the use case's result and new collection are those of the specification, and the store invariant is kept |
| CreateTask.RejectedLeavesStore | src/application/use-cases/CreateTask.ts:10-39 | a failed check leaves the collection unchanged and throws an application error |
| CreateTask.CreatedRecord | src/application/use-cases/CreateTask.ts:42-47 | on success exactly one document is appended, holding the new id, the trimmed titulo and descripcion, estatus false and no completedAt, and the returned task is that document |
| CreateTask.AcceptedTituloConforms | src/application/use-cases/CreateTask.ts:21-28 | an accepted titulo always meets the schema's titulo constraints |
| CreateTask.SchemaRejectsOnlyLongDescripcion | src/application/use-cases/CreateTask.ts:36 | when the schema refuses what the checks accepted, the cause is a trimmed descripcion of 501 to 1000 code units |
| CreateTask.PaddedTituloTooLong | src/application/use-cases/CreateTask.ts:26-28 | 200 or more spaces before a full stop trim to "." (which passes the pattern and the schema), yet the titulo is refused on length |
| CreateTask.LengthErrorReported | src/application/use-cases/CreateTask.ts:26-28 | a titulo in the pattern but over 200 code units untrimmed gets the length error |
| CreateTask.CharacterErrorReported | src/application/use-cases/CreateTask.ts:21-24 | a non-blank titulo outside the pattern gets the character error, whatever its length |
| CreateTask.ForeignCharacterRefused | src/application/use-cases/CreateTask.ts:21-24 | one character anywhere that is neither a letter, a number, white space nor a listed sign gets the character error |
| MarkTaskAsCompleted.CheckId | src/application/use-cases/MarkTaskAsCompleted.ts:12-19 | a blank id is a bad request, a non-blank id failing the ObjectId check is not found, and only a non-blank, valid id passes |
| MarkTaskAsCompleted.Outcome | src/application/use-cases/MarkTaskAsCompleted.ts:10-37 | success needs a valid, stored id and returns that task with the caller's estatus and the derived completedAt; every failure is an application error |
| MarkTaskAsCompleted.Execute | src/application/use-cases/MarkTaskAsCompleted.ts:10-37 | the use case's result and new collection are those of the specification, and the store invariant is kept |
| MarkTaskAsCompleted.FailureLeavesStore | src/application/use-cases/MarkTaskAsCompleted.ts:10-37 | every failure leaves the collection unchanged |
| MarkTaskAsCompleted.FailureCauses | src/application/use-cases/MarkTaskAsCompleted.ts:12-25 | a blank id gives 400; an id of the wrong format and a stored-nowhere id both give the same not-found error, 404 |
| MarkTaskAsCompleted.SuccessUpdatesOne | src/application/use-cases/MarkTaskAsCompleted.ts:28-36 | with a valid stored id exactly that document is updated with the caller's estatus, and the updated task is returned |
| GetAllTasks.Execute | src/application/use-cases/GetAllTasks.ts:8-23 | the arguments go to findAll unchanged (1 and 10 when omitted), and its data and pagination come back unchanged under tasks and pagination |
| GetAllTasks.DefaultArguments | src/application/use-cases/GetAllTasks.ts:8 | omitting both arguments equals passing 1 and 10, and equals the repository's own defaults |
| ErrorHandler.HandleError | src/infrastructure/middlewares/errorHandler.ts:13-59 | a JSON syntax error with a body gives 400 with the fixed message; otherwise the application error's status or 500, its message or the fixed internal one, and stack, statusCode and isOperational only in development; never a success body |
| ErrorHandler.StatusAndMessage | src/infrastructure/middlewares/errorHandler.ts:30-31 | the status is one of 400, 401, 403, 404 and 500, and it is 500 exactly for errors that are neither application errors nor JSON syntax errors; the message is never empty |
| ErrorHandler.EnvironmentOnlyAddsDetails | src/infrastructure/middlewares/errorHandler.ts:51-57 | the environment changes neither the status nor the message, and outside development no extra field is written |
| ErrorHandler.AppErrorPassesThrough | src/infrastructure/middlewares/errorHandler.ts:30-31 | an application error keeps its status code and its message |
| TaskController.QueryIntOr | src/interfaces/http/controllers/TaskController.ts:53-54 | NaN and 0 from parseInt give the default, and any other number parseInt reads is used as it is |
| TaskController.QueryDecimal | src/interfaces/http/controllers/TaskController.ts:53-54 | the decimal text of a positive number is read as that number |
| TaskController.QueryNotANumber | src/interfaces/http/controllers/TaskController.ts:53-54 | a value not starting with a sign or digit after white space falls back to the default |
| TaskController.QueryTextNotANumber | src/interfaces/http/controllers/TaskController.ts:53-54 | the same for repeated and nested query values, through their string form |
| TaskController.QueryAbsentOrNested | src/interfaces/http/controllers/TaskController.ts:53-54 | a missing parameter ("undefined") and a nested object ("[object Object]") fall back to the default |
| TaskController.QueryZero | src/interfaces/http/controllers/TaskController.ts:53-54 | "0" is falsy and falls back to the default |
| TaskController.QueryExamples | src/interfaces/http/controllers/TaskController.ts:53-54 | "2" and "5" give page 2 and limit 5; "invalid" and a missing limit give 1 and 10 |
| TaskController.CreateOutcome | src/interfaces/http/controllers/TaskController.ts:22-48 | an undefined titulo gives 400 with the fixed message; otherwise a use-case success becomes the 201 response with the creation message and the returned task as data, and a 201 happens only that way |
| TaskController.MarkOutcome | src/interfaces/http/controllers/TaskController.ts:68-92 | an estatus that is not a boolean gives 400 with the fixed message; otherwise a use-case success becomes the 200 response with the message for that estatus and the returned task as data, and a 200 happens only that way |
| TaskController.TaskController.constructor | src/interfaces/http/controllers/TaskController.ts:14-19 | the controller works on the shared collection it is given, whatever it already holds, and that collection meets the store invariant |
| TaskController.TaskController.CreateTask | src/interfaces/http/controllers/TaskController.ts:22-48 | the handler's outcome and the new collection are those of the specification, and the store invariant is kept |
| TaskController.TaskController.GetAllTasks | src/interfaces/http/controllers/TaskController.ts:51-65 | a 200 success response whose data is the listing for the coerced page and limit, which it reports back |
| TaskController.TaskController.MarkAsCompleted | src/interfaces/http/controllers/TaskController.ts:68-92 | the handler's outcome and the new collection are those of the specification, and the store invariant is kept |
| TaskController.ShapeChecksLeaveStore | src/interfaces/http/controllers/TaskController.ts:27-80 | an undefined titulo, or an estatus that is not a boolean, never reaches the use case, so nothing changes |
| TaskController.ErrorsForwarded | src/interfaces/http/controllers/TaskController.ts:45-47 | whatever a use case throws is forwarded unchanged and no response is written |
| TaskController.StatusMessageWords | src/interfaces/http/controllers/TaskController.ts:86 | the message says "completada" exactly when estatus is true and "pendiente" exactly when it is false |
| EndToEnd.NullTituloEndsIn400 | src/interfaces/http/controllers/TaskController.ts:27 | a null titulo passes the controller, is refused by the use case as not a string and ends as a 400 with that message, storing nothing |
| EndToEnd.SchemaRefusalIsPlain | src/infrastructure/database/schemas/TaskSchema.ts:26 | an accepted descripcion over 500 code units once trimmed makes create throw a database validation error and store nothing |
| EndToEnd.LongDescripcionEndsIn500 | src/infrastructure/middlewares/errorHandler.ts:30 | through the controller and the error middleware that error is a 500, and nothing is stored |
| EndToEnd.DescripcionBoundMismatch | src/application/use-cases/CreateTask.ts:36 | for every length from 501 to 1000, a descripcion of that many letters passes the use case's checks and still ends as a 500 |
| EndToEnd.MalformedIdEndsIn404 | src/application/use-cases/MarkTaskAsCompleted.ts:17-19 | an id failing the ObjectId check ends as the not-found error with 404, and nothing changes |
| EndToEnd.CreatedTaskReadsBack | src/interfaces/http/controllers/TaskController.ts:40-44 | after a 201 the new id names the appended document, and the response carries that task |

## Left out

- CreateTask.Validate: the Unicode categories `\p{L}` and `\p{N}` are a parameter (`UnicodeTables`), because the Unicode character database is not modelled. `\s` is the white space of ECMA-262.
- MarkTaskAsCompleted.CheckId: `ObjectId.isValid` is a parameter predicate, because it belongs to the database library.
- TaskRepository.TaskStore.FindById: ids are compared as strings. The database's cast of an id into an ObjectId, and the CastError it raises for some strings that pass `isValid`, are not modelled. The same comparison drives MarkTaskAsCompleted.Outcome, MarkTaskAsCompleted.Execute and TaskController.TaskController.MarkAsCompleted: an upper-case 24-digit hex id of a stored task is found by the service (and the response carries the lower-case `_id`), but is not found in the model.
- TaskRepository.TaskStore.FindAll: requires page and limit to be at least 0. A negative value from `parseInt` is not guarded by the code, and the database's behaviour for a negative skip or limit is not modelled.
- GetAllTasks.Execute: requires page and limit to be at least 0, for the same reason.
- TaskController.TaskController.GetAllTasks: requires the coerced page and limit to be at least 0, for the same reason. The maximum limit of 100 appears only in the API documentation, and neither the code nor the model enforces it.
- TaskRepository.SortNewestFirst: the order of documents with equal createdAt is unspecified. FindAll only promises some newest-first ordering.
- Errors.DuplicateKeyMessage: the database name is left out of the driver's message.
- TaskSchema.ValidationMessage: the layout of the database layer's validation message ("Task validation failed: path: message, …") is taken from the library's documented format.
- src/shared/errors/AppError.ts is not part of this model. Every error class is taken as operational, with the status code it passes to its base class.
- Stack traces are runtime data. Errors raised in the model carry no stack, and the error middleware copies whatever stack a fault has.
- A Dafny `char` is a Unicode scalar value, so a lone UTF-16 surrogate (which a JSON escape such as `"\uD800"` can put into a request string) cannot be represented; trim, `length` and the titulo pattern on such strings are not modelled.
- Numbers are unbounded integers. Precision loss past 2^53 in parseInt results is not modelled, and neither is the value of a fractional JSON number (only its type is inspected).
- A `completedAt` of null and one that is absent are not distinguished. Both are `None`.
- Timestamps are the `now` parameter. The schema version starts at 0 and no operation changes it.
- Logging, the Express application and its routes, the database connection, the seeding script, asynchronous execution and concurrent requests are not modelled.
- `delete` is declared by the repository port but never implemented, so it is not modelled.
