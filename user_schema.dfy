/**
 * The stored User document: its fields, which of them are required, and the
 * defaults the document layer fills in when a new document is built from a
 * creation payload. Timestamps are integers (milliseconds of the clock the
 * caller passes in).
 */
module UserSchema {
  import opened Optional

  datatype User = User(
    identificationNumber: string,  // required, unique
    firstName: string,             // required
    lastName: string,              // required
    history: Option<string>,
    dateCreated: int,              // required, defaults to the creation time
    dateUpdated: int,              // required, defaults to the creation time
    deleted: bool,                 // required, defaults to false
    dateDeleted: Option<int>)

  /**
   * The creation payload handed to the document constructor (the
   * `CreateUserDto` shape): the three required strings, and every other
   * schema field as possibly absent.
   */
  datatype CreateDoc = CreateDoc(
    identificationNumber: string,
    firstName: string,
    lastName: string,
    history: Option<string>,
    dateCreated: Option<int>,
    dateUpdated: Option<int>,
    deleted: Option<bool>,
    dateDeleted: Option<int>)

  /** A payload that supplies only the declared user fields, none of the bookkeeping ones. */
  predicate Bare(dto: CreateDoc) {
    dto.dateCreated.None? && dto.dateUpdated.None? && dto.deleted.None? && dto.dateDeleted.None?
  }

  /** The document built from `dto` at time `now`: supplied fields are kept, absent ones take their defaults. */
  function NewDocument(dto: CreateDoc, now: int): (u: User)
    ensures u.identificationNumber == dto.identificationNumber
    ensures u.firstName == dto.firstName && u.lastName == dto.lastName && u.history == dto.history
    ensures dto.deleted.None? ==> !u.deleted
    ensures dto.dateCreated.None? ==> u.dateCreated == now
    ensures dto.dateUpdated.None? ==> u.dateUpdated == now
    ensures dto.dateDeleted.None? ==> u.dateDeleted.None?
    ensures dto.deleted.Some? ==> u.deleted == dto.deleted.value
    ensures dto.dateCreated.Some? ==> u.dateCreated == dto.dateCreated.value
    ensures dto.dateUpdated.Some? ==> u.dateUpdated == dto.dateUpdated.value
    ensures dto.dateDeleted.Some? ==> u.dateDeleted == dto.dateDeleted
  {
    User(dto.identificationNumber, dto.firstName, dto.lastName, dto.history,
         dto.dateCreated.GetOr(now), dto.dateUpdated.GetOr(now),
         dto.deleted.GetOr(false), dto.dateDeleted)
  }

  /** The required string paths that hold an empty string (the string `required` check rejects ""). */
  function MissingRequired(u: User): (paths: seq<string>)
    ensures paths == [] <==> Complete(u)
    ensures |paths| <= 3
    ensures "identificationNumber" in paths <==> u.identificationNumber == ""
    ensures "firstName" in paths <==> u.firstName == ""
    ensures "lastName" in paths <==> u.lastName == ""
  {
    (if u.identificationNumber == "" then ["identificationNumber"] else [])
    + (if u.firstName == "" then ["firstName"] else [])
    + (if u.lastName == "" then ["lastName"] else [])
  }

  /** Every required field of `u` is present (non-empty). */
  predicate Complete(u: User) {
    u.identificationNumber != "" && u.firstName != "" && u.lastName != ""
  }

  /**
   * The defaults of a fresh document: not deleted, no deletion date, both
   * timestamps equal to the creation time, names and history as supplied.
   */
  lemma FreshDocumentDefaults(dto: CreateDoc, now: int)
    requires Bare(dto)
    ensures var u := NewDocument(dto, now);
      && !u.deleted && u.dateDeleted.None?
      && u.dateCreated == u.dateUpdated == now
      && u.history == dto.history
      && (u.firstName, u.lastName) == (dto.firstName, dto.lastName)
  {
  }
}
