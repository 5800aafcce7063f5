# Soft-delete user record store — a Dafny model

This project models the core of a small CRUD backend for "user" records. Each
record is identified by a unique identification number. The backend has three
parts that carry logic:

- **The record store** (`UserService`). Records are soft-deleted and restored,
  never removed. Read, update and delete see Active records only (`deleted` is
  false). Restore sees Deleted records only. The duplicate check on create sees
  both.
- **The yup create route** (`createUserWithYup`). It validates the raw body
  against `newUserSchema`. On failure it answers BadRequest with the messages
  joined by ", ". Otherwise it strips unknown keys and calls create.
- **The header middleware.** A mutating request passes only when its
  `authorization` header strictly equals the configured secret. GET routes skip
  the middleware.

Layout, one module per source file or component:

| file | module | models |
|---|---|---|
| optional.dfy | `Optional` | a possibly absent value (`undefined`) |
| http.dfy | `Http` | HTTP methods and the typed failures (BadRequest, NotFound, Forbidden, InvalidDocument) |
| user_schema.dfy | `UserSchema` | the User document, its required fields and its creation defaults |
| user_store.dfy | `UserStore` | the collection as a value: one function per service operation, the soft-delete state machine, invariants over any sequence of operations |
| user_service.dfy | `Service` | class `UserService`, whose `users` map each method updates in place, proved equal to the `UserStore` functions |
| user_yup_schema.dfy | `UserYupSchema` | `newUserSchema`: validateSync and cast with stripUnknown |
| auth_middleware.dfy | `AuthMiddleware` | the header check and the GET exclusion |
| user_controller.dfy | `Controller` | the yup create route, as a function and as a method of class `UserController` |
| app.dfy | `App` | a request's full path (middleware, route, service) and the example session |

Modelling choices:

- The collection is `map<string, User>`, keyed by identification number.
  `UserStore.Unique` states that every record sits under its own id, so the
  table holds at most one record per id. `UserStore.FilterIsLookup` proves that,
  under this invariant, a keyed lookup answers the same as the collection's
  filter query `{identificationNumber, deleted}`.
- The clock is a parameter `now: int` wherever the code reads `Date.now()`.
- A record's `dateDeleted` is `Option<int>`. Restore stores `null`; the model
  writes `None` for both null and absent.
- `CreateDoc` is the payload given to the document constructor. Its
  bookkeeping fields (`deleted`, the dates) are optional, so the schema
  defaults can be stated for any payload. The yup route passes a payload
  without them (`Bare`), because its cast drops every undeclared key. For the
  plain `POST /users` route the model ASSUMES the same: its body is taken as
  already reduced to the identification number, the names and the history.
  The code shown does not establish this, since `CreateUserDto`
  (src/user/dto/user.dto.ts:1-11) is an interface that itself declares
  `deleted` and the dates. `UserStore.RunKeepsDeletionDated` rests on this
  assumption through its `BareCreates` precondition.
- The required checks of the document layer run on save. A required string is
  refused when it is empty. Such a refusal is the failure `InvalidDocument`
  with the refused paths. It is not an HttpException, so the framework answers
  it with a server error. The update query does not run these checks.
- yup's `validateSync` runs with its default options, so it stops at the first
  failing field. The object schema visits its fields in reverse order of
  declaration. The one message is therefore about the last declared required
  field that is missing or empty, e.g. "lastName is a required field".
- The middleware compares two possibly absent strings. When no secret is
  configured and the header is absent, both sides are `undefined`, the
  comparison finds no difference, and the request passes
  (`AuthMiddleware.UnsetSecretAdmitsMissingHeader`). The model keeps this.
- createUser does not drop caller-supplied `deleted` or date fields itself:
  src/user/user.service.ts:28 passes its payload straight to the document
  constructor. `UserStore.Create` therefore keeps any such field it is given
  (`UserSchema.NewDocument` states this). The stripUnknown cast of the yup
  route drops them; for the plain route their absence is the assumption
  stated above.

## Model

| member | source | states |
|---|---|---|
| `UserSchema.NewDocument` | src/user/schemas/user.schema.ts:11-35 | the id, names and history are taken from the payload; a supplied `deleted` or date is kept; an absent `deleted` defaults to false, absent dates default to the creation time, an absent `dateDeleted` stays absent |
| `UserSchema.MissingRequired` | src/user/schemas/user.schema.ts:12-19 | the save is refused exactly when one of identificationNumber, firstName, lastName is empty, and the refusal names exactly those fields |
| `UserSchema.FreshDocumentDefaults` | src/user/schemas/user.schema.ts:21-34 | a payload without bookkeeping fields gives a record that is not deleted, has no dateDeleted, has dateCreated = dateUpdated = now, and keeps the supplied names and history |
| `UserStore.FilterIsLookup` | src/user/user.service.ts:17-19 | with unique ids, a record matching the filter `{identificationNumber: id[, deleted: d]}` exists iff the record stored under id matches it, and it is the only match |
| `UserStore.Create` | src/user/user.service.ts:14-30 | a taken id, Active or Deleted, gives BadRequest "Identification number X is already taken"; a fresh id with an empty required field gives InvalidDocument naming exactly the empty fields; a fresh complete payload adds exactly one record under its id and leaves all other records as they were; every failure leaves the store unchanged; uniqueness is kept |
| `UserStore.ListActive` | src/user/user.service.ts:32-35 | a record is listed iff it is stored and not deleted |
| `UserStore.FindActive` | src/user/user.service.ts:37-50 | returns the stored record iff it is Active, and it carries the requested id; otherwise NotFound "User not found" |
| `UserStore.Patched` | src/user/user.service.ts:61 | the fields present in the payload replace the stored ones; absent ones are kept; dateUpdated becomes now; id, deleted, dateCreated and dateDeleted are kept |
| `UserStore.Update` | src/user/user.service.ts:52-70 | succeeds iff the record is Active, then stores and returns the patched record; a Deleted or missing id gives NotFound with the store unchanged; uniqueness is kept |
| `UserStore.Delete` | src/user/user.service.ts:72-89 | succeeds iff the record is Active, then marks it deleted with dateDeleted = now, changes nothing else, and returns `{deleted: true}`; otherwise NotFound with the store unchanged |
| `UserStore.Restore` | src/user/user.service.ts:91-108 | succeeds iff the record is Deleted, then clears deleted and dateDeleted and returns the restored record; an Active or missing id gives NotFound with the store unchanged |
| `UserStore.DeletedIsHidden` | src/user/user.service.ts:17-89 | a Deleted record is not found by read, not listed, refused by update and delete, and still blocks create for its id |
| `UserStore.DeleteThenRestore` | src/user/user.service.ts:72-108 | delete then restore gives back the record with only dateDeleted cleared, and read finds it again |
| `UserStore.RestoreTwiceFails` | src/user/user.service.ts:91-108 | a second consecutive restore gives NotFound and changes nothing |
| `UserStore.DeleteTwiceFails` | src/user/user.service.ts:72-89 | a second consecutive delete gives NotFound and changes nothing |
| `UserStore.Apply` | src/user/user.service.ts:14-108 | each mutating operation keeps uniqueness and keeps every record with its id and dateCreated |
| `UserStore.RunKeepsUnique` | src/user/schemas/user.schema.ts:12 | every sequence of creates, updates, deletes and restores keeps at most one record per identification number |
| `UserStore.RunPersists` | src/user/user.service.ts:56-102 | no sequence of operations removes a record or changes its identification number or dateCreated |
| `UserStore.RunKeepsDeletionDated` | src/user/user.service.ts:78-100 | when creates get payloads without bookkeeping fields, a record has a dateDeleted exactly while it is deleted, after any sequence of operations |
| `UserStore.RunKeepsComplete` | src/user/schemas/user.schema.ts:12-19 | when no update supplies an empty name, every sequence of operations keeps identificationNumber, firstName and lastName non-empty on every stored record |
| `UserStore.EmptyNameUpdateIsStored` | src/user/user.service.ts:56-63 | an update setting firstName to "" on an Active record succeeds and leaves a stored record without its required firstName |
| `Service.UserService.constructor` | src/user/user.service.ts:9-12 | the service starts on a given collection with unique ids |
| `Service.UserService.CreateUser` | src/user/user.service.ts:14-30 | the new collection and the result are those of `UserStore.Create`; uniqueness is kept |
| `Service.UserService.GetAllUsers` | src/user/user.service.ts:32-35 | returns `UserStore.ListActive` of the collection and never a deleted record; changes nothing |
| `Service.UserService.GetUserByIdentificationNumber` | src/user/user.service.ts:37-50 | returns `UserStore.FindActive`; a found record has the requested id and is not deleted; changes nothing |
| `Service.UserService.UpdateUserByIdentificationNumber` | src/user/user.service.ts:52-70 | the new collection and the result are those of `UserStore.Update` |
| `Service.UserService.DeleteUserByIdentificationNumber` | src/user/user.service.ts:72-89 | the new collection and the result are those of `UserStore.Delete` |
| `Service.UserService.RestoreDeletedUserByIdentificationNumber` | src/user/user.service.ts:91-108 | the new collection and the result are those of `UserStore.Restore` |
| `Service.UserService.ThrowUserNotFound` | src/user/user.service.ts:110-112 | the outcome is NotFound "User not found" |
| `UserYupSchema.ValidationErrors` | src/user/schemas/user.yup.schema.ts:3-8 | no message iff the three required fields are present and non-empty; at most one message, and it names a failing required field as "<field> is a required field" |
| `UserYupSchema.Cast` | src/user/user.controller.ts:84-86 | the normalised payload has exactly the declared keys the body had, with the body's values |
| `UserYupSchema.Validate` | src/user/user.controller.ts:69-86 | valid iff the body conforms; an invalid body yields exactly one message; a valid one yields the stripped cast |
| `UserYupSchema.RequiredFieldsEnforced` | src/user/schemas/user.yup.schema.ts:4-6 | a body missing, or leaving empty, identificationNumber, firstName or lastName fails validation |
| `UserYupSchema.HistoryOptional` | src/user/schemas/user.yup.schema.ts:7 | the three required fields without history validate, whatever other keys are present |
| `UserYupSchema.Join` | src/user/user.controller.ts:76 | joining no message gives "", joining one gives that message, joining more starts with the first |
| `Controller.ToDoc` | src/user/user.controller.ts:87-89 | the payload handed to create carries the normalised fields and no bookkeeping field |
| `Controller.CreateWithYup` | src/user/user.controller.ts:68-89 | a non-conforming body gives BadRequest with the joined messages and the store unchanged; a conforming one is exactly create of its stripped payload; the save is never refused; a created record has the body's fields, deleted=false, no dateDeleted and dateCreated = dateUpdated = now |
| `Controller.DeletedKeyIsStripped` | src/user/user.controller.ts:84-89 | a body with `deleted: true` and a fresh id creates a record that is not deleted |
| `Controller.UserController.constructor` | src/user/user.controller.ts:30-31 | the controller holds the given service |
| `Controller.UserController.CreateUserWithYup` | src/user/user.controller.ts:68-89 | the new collection and the result are those of `Controller.CreateWithYup` |
| `AuthMiddleware.Use` | src/auth/middleware/auth.middleware.ts:9-21 | the request proceeds iff the header equals the secret, both possibly absent; otherwise Forbidden "Access denied. Valid Authorization header required." |
| `AuthMiddleware.Admit` | src/app.module.ts:17-24 | a request proceeds iff it is a GET or its header equals the secret |
| `AuthMiddleware.MissingHeaderForbidden` | src/auth/middleware/auth.middleware.ts:14-18 | with a secret configured, a mutating request without the header is Forbidden |
| `AuthMiddleware.WrongHeaderForbidden` | src/auth/middleware/auth.middleware.ts:14-18 | a mutating request whose header differs from the secret is Forbidden |
| `AuthMiddleware.UnsetSecretAdmitsMissingHeader` | src/auth/middleware/auth.middleware.ts:10-14 | with no secret configured, a request without the header proceeds |
| `AuthMiddleware.ReadsAreExempt` | src/app.module.ts:20-23 | a GET proceeds whatever the header |
| `App.Route` | src/user/user.controller.ts:54-209 | every route keeps uniqueness of identification numbers, and the GET routes leave the collection unchanged |
| `App.Serve` | src/auth/middleware/auth.middleware.ts:14-20 | Forbidden iff the request is not a GET and its header differs from the secret; a Forbidden request leaves the store unchanged; GET requests change nothing; uniqueness is kept |
| `App.Handle` | src/app.module.ts:17-24 | the new collection and the response are those of `App.Serve` |
| `App.SessionCreate` | src/user/user.service.ts:14-30 | creating 0001 in an empty store returns the record with deleted=false and dateCreated = dateUpdated |
| `App.SessionDuplicate` | src/user/user.service.ts:17-26 | creating 0001 again gives BadRequest "Identification number 0001 is already taken" |
| `App.SessionDelete` | src/user/user.service.ts:72-89 | deleting 0001 answers `{deleted: true}` and marks the record deleted |
| `App.SessionReadDeleted` | src/user/user.service.ts:37-50 | reading the deleted 0001, without a header, gives NotFound |
| `App.SessionRestore` | src/user/user.service.ts:91-108 | restoring 0001 returns it with deleted=false and no dateDeleted |
| `App.SessionRestoreAgain` | src/user/user.service.ts:91-108 | restoring 0001 again gives NotFound |
| `App.SessionNoHeader` | src/auth/middleware/auth.middleware.ts:14-18 | a create without the header is Forbidden and the store is unchanged |

## Left out

- MongoDB, Mongoose queries, async/await and the connection. The collection is an in-memory map and each query is a direct lookup.
- The race between the duplicate `findOne` and `save` in createUser, and the unique-index error the database would raise. Both are concurrency and driver behaviour; calls here run one at a time.
- The wall clock. Time is the parameter `now`. The two `Date.now` defaults of a new document are taken to read the same instant. Nothing assumes the clock moves forward, so "dateUpdated strictly increases on update" is stated only as dateUpdated = now.
- The class-validator rules of the plain create and update routes. `CreateUserDto` is a bare interface and `UpdateUserDto`'s rules are not part of this model. Their bodies are assumed already whitelisted (`NewUser`, `UserStore.UpdateDto`); the code shown does not do this stripping, so an `identificationNumber` or `deleted` in an update body cannot reach the model. An update that sets firstName to "" is stored as is, because the update query runs no validators (`UserStore.EmptyNameUpdateIsStored`); `UserStore.RunKeepsComplete` therefore assumes updates supply no empty name.
- yup's coercion of non-string values, JSON `null` in a declared field, and bodies that are not objects. Declared fields are possibly-absent strings; other keys carry simple JSON values.
- Mongo's own fields (`_id`, `__v`) and the `id` field of `CreateUserDto`, which the strict schema drops.
- The order of `getAllUsers` results. The code does not fix an order, so the result is a set.
- The HTTP status codes, the transport, routing decorators, Swagger annotations, dependency injection and `ConfigService`/environment loading. Outcomes are typed failures; the configured secret is a parameter.
- The end-to-end test harness (supertest, database reset).
