/**
 * A request's path through the application: the header middleware (skipped
 * for GET), then the controller route, then the service. A rejected request
 * never reaches the service.
 */
module App {
  import opened Optional
  import opened Http
  import opened UserSchema
  import opened UserStore
  import opened UserYupSchema
  import opened AuthMiddleware
  import opened Service
  import opened Controller

  /** The user routes, each with what its handler receives. */
  datatype Request =
    | PostUser(dto: NewUser)           // POST /users, body already whitelisted
    | PostUserYup(body: Body)          // POST /users/yup, raw body
    | GetUsers                         // GET /users
    | GetUser(id: string)              // GET /users/:identificationNumber
    | PatchUser(id: string, patch: UpdateDto) // PATCH /users/:identificationNumber, body already whitelisted
    | DeleteUser(id: string)           // DELETE /users/:identificationNumber
    | RestoreUser(id: string)          // POST /users/restore/:identificationNumber

  datatype Response =
    | UserBody(user: User)
    | UserSet(users: set<User>)
    | DeletedBody(ack: DeleteAck)
    | Failed(failure: Failure)

  function MethodOf(req: Request): HttpMethod {
    match req
    case PostUser(_) => POST
    case PostUserYup(_) => POST
    case GetUsers => GET
    case GetUser(_) => GET
    case PatchUser(_, _) => PATCH
    case DeleteUser(_) => DELETE
    case RestoreUser(_) => POST
  }

  datatype Exchange = Exchange(table: Table, response: Response)

  function UserResponse(s: Step<User>): Exchange {
    Exchange(s.table, if s.outcome.Ok? then UserBody(s.outcome.value) else Failed(s.outcome.failure))
  }

  /** The route handler on an admitted request. */
  function Route(t: Table, req: Request, now: int): (e: Exchange)
    ensures Unique(t) ==> Unique(e.table)
    ensures MethodOf(req) == GET ==> e.table == t
  {
    match req
    case PostUser(dto) => UserResponse(Create(t, ToDoc(dto), now))
    case PostUserYup(body) => UserResponse(CreateWithYup(t, body, now))
    case GetUsers => Exchange(t, UserSet(ListActive(t)))
    case GetUser(id) =>
      var r := FindActive(t, id);
      Exchange(t, if r.Ok? then UserBody(r.value) else Failed(r.failure))
    case PatchUser(id, patch) => UserResponse(Update(t, id, patch, now))
    case DeleteUser(id) =>
      var s := Delete(t, id, now);
      Exchange(s.table, if s.outcome.Ok? then DeletedBody(s.outcome.value) else Failed(s.outcome.failure))
    case RestoreUser(id) => UserResponse(Restore(t, id))
  }

  /** A whole request: the middleware first, then the route. */
  function Serve(t: Table, req: Request, authorization: Option<string>, secret: Option<string>, now: int): (e: Exchange)
    ensures Unique(t) ==> Unique(e.table)
    ensures e.response == Failed(Forbidden(AccessDenied)) <==> MethodOf(req) != GET && authorization != secret
    ensures e.response == Failed(Forbidden(AccessDenied)) ==> e.table == t
    ensures MethodOf(req) == GET ==> e.table == t
  {
    match Admit(MethodOf(req), authorization, secret)
    case Reject(f) => Exchange(t, Failed(f))
    case Proceed => Route(t, req, now)
  }

  method Handle(controller: UserController, req: Request, authorization: Option<string>, secret: Option<string>, now: int)
    returns (resp: Response)
    requires controller.service.Valid()
    modifies controller.service
    ensures controller.service.Valid()
    ensures Exchange(controller.service.users, resp) == Serve(old(controller.service.users), req, authorization, secret, now)
  {
    var verdict := Admit(MethodOf(req), authorization, secret);
    if verdict.Reject? {
      resp := Failed(verdict.failure);
      return;
    }
    var service := controller.service;
    match req {
      case PostUser(dto) =>
        var r := service.CreateUser(ToDoc(dto), now);
        resp := if r.Ok? then UserBody(r.value) else Failed(r.failure);
      case PostUserYup(body) =>
        var r := controller.CreateUserWithYup(body, now);
        resp := if r.Ok? then UserBody(r.value) else Failed(r.failure);
      case GetUsers =>
        var all := service.GetAllUsers();
        resp := UserSet(all);
      case GetUser(id) =>
        var r := service.GetUserByIdentificationNumber(id);
        resp := if r.Ok? then UserBody(r.value) else Failed(r.failure);
      case PatchUser(id, patch) =>
        var r := service.UpdateUserByIdentificationNumber(id, patch, now);
        resp := if r.Ok? then UserBody(r.value) else Failed(r.failure);
      case DeleteUser(id) =>
        var r := service.DeleteUserByIdentificationNumber(id, now);
        resp := if r.Ok? then DeletedBody(r.value) else Failed(r.failure);
      case RestoreUser(id) =>
        var r := service.RestoreDeletedUserByIdentificationNumber(id);
        resp := if r.Ok? then UserBody(r.value) else Failed(r.failure);
    }
  }

  // The example session, step by step: with the secret configured, create
  // 0001, create it again, delete it, read it, restore it twice, and send a
  // create without the header.

  const Sample := NewUser("0001", "A", "B", None)

  function SampleRecord(t0: int): User {
    User("0001", "A", "B", None, t0, t0, false, None)
  }

  lemma SessionCreate(key: Option<string>, t0: int)
    ensures Serve(map[], PostUser(Sample), key, key, t0)
         == Exchange(map["0001" := SampleRecord(t0)], UserBody(SampleRecord(t0)))
  {
  }

  lemma SessionDuplicate(key: Option<string>, t0: int, t1: int)
    ensures var t := map["0001" := SampleRecord(t0)];
      Serve(t, PostUser(Sample), key, key, t1)
        == Exchange(t, Failed(BadRequest("Identification number 0001 is already taken")))
  {
    assert TakenMessage("0001") == "Identification number 0001 is already taken";
  }

  lemma SessionDelete(key: Option<string>, t0: int, t2: int)
    ensures Serve(map["0001" := SampleRecord(t0)], DeleteUser("0001"), key, key, t2)
         == Exchange(map["0001" := SampleRecord(t0).(deleted := true, dateDeleted := Some(t2))], DeletedBody(DeleteAck(true)))
  {
  }

  lemma SessionReadDeleted(key: Option<string>, t0: int, t2: int, t3: int)
    ensures var t := map["0001" := SampleRecord(t0).(deleted := true, dateDeleted := Some(t2))];
      Serve(t, GetUser("0001"), None, key, t3) == Exchange(t, Failed(NotFound("User not found")))
  {
  }

  lemma SessionRestore(key: Option<string>, t0: int, t2: int, t3: int)
    ensures Serve(map["0001" := SampleRecord(t0).(deleted := true, dateDeleted := Some(t2))], RestoreUser("0001"), key, key, t3)
         == Exchange(map["0001" := SampleRecord(t0)], UserBody(SampleRecord(t0)))
  {
  }

  lemma SessionRestoreAgain(key: Option<string>, t0: int, t3: int)
    ensures var t := map["0001" := SampleRecord(t0)];
      Serve(t, RestoreUser("0001"), key, key, t3) == Exchange(t, Failed(NotFound("User not found")))
  {
  }

  lemma SessionNoHeader(secret: string, t0: int, t3: int)
    ensures var t := map["0001" := SampleRecord(t0)];
      Serve(t, PostUser(Sample), None, Some(secret), t3)
        == Exchange(t, Failed(Forbidden("Access denied. Valid Authorization header required.")))
  {
  }
}
