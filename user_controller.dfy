/**
 * The controller's own logic: the yup create route validates the raw body,
 * answers BadRequest with the joined messages on failure, and otherwise hands
 * the stripped payload to the service's create.
 */
module Controller {
  import opened Optional
  import opened Http
  import opened UserSchema
  import opened UserStore
  import opened UserYupSchema
  import opened Service

  /** The creation payload built from a normalised body: no bookkeeping field is supplied. */
  function ToDoc(n: NewUser): (dto: CreateDoc)
    ensures Bare(dto)
    ensures dto.identificationNumber == n.identificationNumber && dto.history == n.history
    ensures dto.firstName == n.firstName && dto.lastName == n.lastName
  {
    CreateDoc(n.identificationNumber, n.firstName, n.lastName, n.history, None, None, None, None)
  }

  /** createUserWithYup on the collection `t`. */
  function CreateWithYup(t: Table, body: Body, now: int): (s: Step<User>)
    ensures Unique(t) ==> Unique(s.table)
    ensures !Conforms(body) ==> s == Step(t, Err(BadRequest(Join(ValidationErrors(body), ", "))))
    ensures Conforms(body) ==> s == Create(t, ToDoc(Cast(body)), now)
    ensures !(s.outcome.Err? && s.outcome.failure.InvalidDocument?)
    ensures s.outcome.Ok? ==>
      && Conforms(body)
      && Some(s.outcome.value.identificationNumber) == body.identificationNumber
      && Some(s.outcome.value.firstName) == body.firstName
      && Some(s.outcome.value.lastName) == body.lastName
      && s.outcome.value.history == body.history
      && !s.outcome.value.deleted && s.outcome.value.dateDeleted.None?
      && s.outcome.value.dateCreated == s.outcome.value.dateUpdated == now
  {
    match Validate(body)
    case Rejected(errors) => Step(t, Err(BadRequest(Join(errors, ", "))))
    case Accepted(n) => Create(t, ToDoc(n), now)
  }

  /** A `deleted: true` in the body is stripped: the created record is not deleted. */
  lemma DeletedKeyIsStripped(t: Table, body: Body, now: int)
    requires "deleted" in body.extra && body.extra["deleted"] == JBool(true)
    requires Conforms(body) && body.identificationNumber.value !in t
    ensures CreateWithYup(t, body, now).outcome.Ok?
    ensures !CreateWithYup(t, body, now).outcome.value.deleted
  {
  }

  class UserController {
    const service: UserService

    constructor (service: UserService)
      ensures this.service == service
    {
      this.service := service;
    }

    method CreateUserWithYup(body: Body, now: int) returns (r: Result<User>)
      requires service.Valid()
      modifies service
      ensures service.Valid()
      ensures Step(service.users, r) == CreateWithYup(old(service.users), body, now)
    {
      var errors := ValidationErrors(body);
      if errors != [] {
        r := Err(BadRequest(Join(errors, ", ")));
        return;
      }
      var newUserData := Cast(body);
      r := service.CreateUser(ToDoc(newUserData), now);
    }
  }
}
