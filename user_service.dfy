/**
 * UserService: the user collection held in place, with one method per
 * service operation. Each method changes the collection exactly as the
 * matching function of UserStore says, so every property proved there holds
 * of the service.
 */
module Service {
  import opened Optional
  import opened Http
  import opened UserSchema
  import opened UserStore

  class UserService {
    /** The collection, keyed by identification number. */
    var users: Table

    ghost predicate Valid()
      reads this
    {
      Unique(users)
    }

    /** A service over an existing collection (records may have been stored directly). */
    constructor (initial: Table)
      requires Unique(initial)
      ensures Valid() && users == initial
    {
      users := initial;
    }

    method CreateUser(dto: CreateDoc, now: int) returns (r: Result<User>)
      requires Valid()
      modifies this
      ensures Valid()
      ensures Step(users, r) == Create(old(users), dto, now)
    {
      var id := dto.identificationNumber;
      if id in users {
        r := Err(BadRequest(TakenMessage(id)));
        return;
      }
      var doc := NewDocument(dto, now);
      var missing := MissingRequired(doc);
      if missing != [] {
        r := Err(InvalidDocument(missing));
        return;
      }
      users := users[id := doc];
      r := Ok(doc);
    }

    method GetAllUsers() returns (r: set<User>)
      requires Valid()
      ensures r == ListActive(users)
      ensures forall u :: u in r ==> !u.deleted
    {
      r := ListActive(users);
    }

    method GetUserByIdentificationNumber(id: string) returns (r: Result<User>)
      requires Valid()
      ensures r == FindActive(users, id)
      ensures r.Ok? ==> r.value.identificationNumber == id && !r.value.deleted
    {
      if IsActive(users, id) {
        r := Ok(users[id]);
      } else {
        r := ThrowUserNotFound();
      }
    }

    method UpdateUserByIdentificationNumber(id: string, dto: UpdateDto, now: int) returns (r: Result<User>)
      requires Valid()
      modifies this
      ensures Valid()
      ensures Step(users, r) == Update(old(users), id, dto, now)
    {
      if IsActive(users, id) {
        var u := Patched(users[id], dto, now);
        users := users[id := u];
        r := Ok(u);
      } else {
        r := ThrowUserNotFound();
      }
    }

    method DeleteUserByIdentificationNumber(id: string, now: int) returns (r: Result<DeleteAck>)
      requires Valid()
      modifies this
      ensures Valid()
      ensures Step(users, r) == Delete(old(users), id, now)
    {
      if IsActive(users, id) {
        users := users[id := users[id].(deleted := true, dateDeleted := Some(now))];
        r := Ok(DeleteAck(true));
      } else {
        r := ThrowUserNotFound();
      }
    }

    method RestoreDeletedUserByIdentificationNumber(id: string) returns (r: Result<User>)
      requires Valid()
      modifies this
      ensures Valid()
      ensures Step(users, r) == Restore(old(users), id)
    {
      if IsDeleted(users, id) {
        var u := users[id].(deleted := false, dateDeleted := None);
        users := users[id := u];
        r := Ok(u);
      } else {
        r := ThrowUserNotFound();
      }
    }

    /** The NotFound outcome every lookup shares. */
    method ThrowUserNotFound<T>() returns (r: Result<T>)
      ensures r == Err(NotFound(UserNotFound))
    {
      r := Err(NotFound(UserNotFound));
    }
  }
}
