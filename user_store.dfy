/**
 * The user collection as a value, and the effect of each service operation on
 * it. The collection is a table keyed by identification number; a record is
 * Active while `deleted` is false and Deleted otherwise. Reads, updates and
 * deletes see Active records only, restore sees Deleted records only, and the
 * duplicate check on create sees both.
 */
module UserStore {
  import opened Optional
  import opened Http
  import opened UserSchema

  type Table = map<string, User>

  /** At most one record per identification number: every record is stored under its own id. */
  predicate Unique(t: Table) {
    forall id :: id in t ==> t[id].identificationNumber == id
  }

  /** The collection after an operation, and what the operation returned. */
  datatype Step<+T> = Step(table: Table, outcome: Result<T>)

  /** The update payload after whitelisting: only the editable fields, each possibly absent. */
  datatype UpdateDto = UpdateDto(firstName: Option<string>, lastName: Option<string>, history: Option<string>)

  /** The body a successful delete returns. */
  datatype DeleteAck = DeleteAck(deleted: bool)

  const UserNotFound := "User not found"

  function TakenMessage(id: string): string {
    "Identification number " + id + " is already taken"
  }

  /** A stored record is Active. */
  predicate IsActive(t: Table, id: string) {
    id in t && !t[id].deleted
  }

  /** A stored record is Deleted. */
  predicate IsDeleted(t: Table, id: string) {
    id in t && t[id].deleted
  }

  /**
   * Does `u` match the collection filter `{identificationNumber: id}`, extended
   * with `{deleted: d}` when `state` is `Some(d)`?
   */
  predicate Matches(u: User, id: string, state: Option<bool>) {
    u.identificationNumber == id && (state.None? || u.deleted == state.value)
  }

  /**
   * Keyed lookup is the filter query: in a table with unique ids, some record
   * matching the filter exists exactly when the record under `id` matches it,
   * and it is the only one.
   */
  lemma FilterIsLookup(t: Table, id: string, state: Option<bool>)
    requires Unique(t)
    ensures (exists u :: u in t.Values && Matches(u, id, state)) <==> id in t && Matches(t[id], id, state)
    ensures forall u :: u in t.Values && Matches(u, id, state) ==> u == t[id]
  {
  }

  /**
   * createUser: refuse an id any record already has (Active or Deleted);
   * otherwise build the document with its defaults and save it, which fails
   * when a required field is empty.
   */
  function Create(t: Table, dto: CreateDoc, now: int): (s: Step<User>)
    ensures Unique(t) ==> Unique(s.table)
    ensures s.outcome.Err? ==> s.table == t
    ensures dto.identificationNumber in t <==> s.outcome == Err(BadRequest(TakenMessage(dto.identificationNumber)))
    ensures s.outcome.Ok? <==> dto.identificationNumber !in t && Complete(NewDocument(dto, now))
    ensures dto.identificationNumber !in t && !Complete(NewDocument(dto, now)) ==>
      s.outcome == Err(InvalidDocument(MissingRequired(NewDocument(dto, now))))
    ensures s.outcome.Ok? ==>
      && s.outcome.value == NewDocument(dto, now)
      && s.table.Keys == t.Keys + {dto.identificationNumber}
      && |s.table| == |t| + 1
      && s.table[dto.identificationNumber] == s.outcome.value
      && (forall id :: id in t ==> s.table[id] == t[id])
  {
    var id := dto.identificationNumber;
    if id in t then Step(t, Err(BadRequest(TakenMessage(id))))
    else
      var u := NewDocument(dto, now);
      var missing := MissingRequired(u);
      if missing != [] then Step(t, Err(InvalidDocument(missing)))
      else Step(t[id := u], Ok(u))
  }

  /** getAllUsers: the records with `deleted` false, as a set (the order is unspecified). */
  function ListActive(t: Table): (r: set<User>)
    ensures forall u :: u in r <==> u in t.Values && !u.deleted
  {
    set id | id in t && !t[id].deleted :: t[id]
  }

  /** getUserByIdentificationNumber: the Active record with that id, or NotFound. */
  function FindActive(t: Table, id: string): (r: Result<User>)
    ensures r.Ok? <==> IsActive(t, id)
    ensures r.Ok? ==> r.value == t[id] && !r.value.deleted
    ensures Unique(t) && r.Ok? ==> r.value.identificationNumber == id
    ensures r.Err? ==> r == Err(NotFound(UserNotFound))
  {
    if IsActive(t, id) then Ok(t[id]) else Err(NotFound(UserNotFound))
  }

  /** A present payload field replaces the stored value; an absent one keeps it. */
  function Overlay<T>(field: Option<T>, current: T): T {
    field.GetOr(current)
  }

  /** The record after `{...dto, dateUpdated: now}` is applied to it. */
  function Patched(u: User, dto: UpdateDto, now: int): (v: User)
    ensures v.identificationNumber == u.identificationNumber
    ensures v.deleted == u.deleted && v.dateDeleted == u.dateDeleted && v.dateCreated == u.dateCreated
    ensures v.dateUpdated == now
    ensures v.firstName == if dto.firstName.Some? then dto.firstName.value else u.firstName
    ensures v.lastName == if dto.lastName.Some? then dto.lastName.value else u.lastName
    ensures v.history == if dto.history.Some? then dto.history else u.history
  {
    u.(firstName := Overlay(dto.firstName, u.firstName),
       lastName := Overlay(dto.lastName, u.lastName),
       history := if dto.history.Some? then dto.history else u.history,
       dateUpdated := now)
  }

  /** updateUserByIdentificationNumber: patch the Active record and return it as it is afterwards. */
  function Update(t: Table, id: string, dto: UpdateDto, now: int): (s: Step<User>)
    ensures Unique(t) ==> Unique(s.table)
    ensures s.outcome.Ok? <==> IsActive(t, id)
    ensures s.outcome.Err? ==> s.outcome == Err(NotFound(UserNotFound)) && s.table == t
    ensures s.outcome.Ok? ==>
      && s.outcome.value == Patched(t[id], dto, now)
      && s.table == t[id := s.outcome.value]
      && s.table.Keys == t.Keys
  {
    if IsActive(t, id) then
      var u := Patched(t[id], dto, now);
      Step(t[id := u], Ok(u))
    else Step(t, Err(NotFound(UserNotFound)))
  }

  /** deleteUserByIdentificationNumber: mark the Active record deleted at `now`. */
  function Delete(t: Table, id: string, now: int): (s: Step<DeleteAck>)
    ensures Unique(t) ==> Unique(s.table)
    ensures s.outcome.Ok? <==> IsActive(t, id)
    ensures s.outcome.Err? ==> s.outcome == Err(NotFound(UserNotFound)) && s.table == t
    ensures s.outcome.Ok? ==>
      && s.outcome.value == DeleteAck(true)
      && s.table == t[id := t[id].(deleted := true, dateDeleted := Some(now))]
      && IsDeleted(s.table, id)
  {
    if IsActive(t, id) then
      Step(t[id := t[id].(deleted := true, dateDeleted := Some(now))], Ok(DeleteAck(true)))
    else Step(t, Err(NotFound(UserNotFound)))
  }

  /** restoreDeletedUserByIdentificationNumber: bring the Deleted record back and return it. */
  function Restore(t: Table, id: string): (s: Step<User>)
    ensures Unique(t) ==> Unique(s.table)
    ensures s.outcome.Ok? <==> IsDeleted(t, id)
    ensures s.outcome.Err? ==> s.outcome == Err(NotFound(UserNotFound)) && s.table == t
    ensures s.outcome.Ok? ==>
      && s.outcome.value == t[id].(deleted := false, dateDeleted := None)
      && s.table == t[id := s.outcome.value]
      && IsActive(s.table, id)
  {
    if IsDeleted(t, id) then
      var u := t[id].(deleted := false, dateDeleted := None);
      Step(t[id := u], Ok(u))
    else Step(t, Err(NotFound(UserNotFound)))
  }

  // ---------------------------------------------------------------------
  // The soft-delete state machine
  // ---------------------------------------------------------------------

  /** A deleted record is invisible to read, update and delete, but still blocks its id on create. */
  lemma DeletedIsHidden(t: Table, id: string, dto: UpdateDto, doc: CreateDoc, now: int)
    requires Unique(t) && IsDeleted(t, id) && doc.identificationNumber == id
    ensures FindActive(t, id) == Err(NotFound(UserNotFound))
    ensures t[id] !in ListActive(t)
    ensures Update(t, id, dto, now) == Step(t, Err(NotFound(UserNotFound)))
    ensures Delete(t, id, now) == Step(t, Err(NotFound(UserNotFound)))
    ensures Create(t, doc, now) == Step(t, Err(BadRequest(TakenMessage(id))))
  {
  }

  /**
   * Delete then restore gives back the record with only its deletion date
   * cleared, and the restored record is visible again.
   */
  lemma DeleteThenRestore(t: Table, id: string, now: int)
    requires Unique(t) && IsActive(t, id)
    ensures var d := Delete(t, id, now);
      var r := Restore(d.table, id);
      && r.outcome == Ok(t[id].(dateDeleted := None))
      && r.table == t[id := t[id].(dateDeleted := None)]
      && FindActive(r.table, id) == r.outcome
  {
  }

  /** A second consecutive restore fails and changes nothing. */
  lemma RestoreTwiceFails(t: Table, id: string)
    ensures var r := Restore(t, id).table;
      Restore(r, id) == Step(r, Err(NotFound(UserNotFound)))
  {
  }

  /** A second consecutive delete fails and changes nothing. */
  lemma DeleteTwiceFails(t: Table, id: string, now: int, later: int)
    ensures var d := Delete(t, id, now).table;
      Delete(d, id, later) == Step(d, Err(NotFound(UserNotFound)))
  {
  }

  // ---------------------------------------------------------------------
  // Invariants kept by every sequence of operations
  // ---------------------------------------------------------------------

  /** One mutating service call, with the clock reading it sees. */
  datatype Command =
    | CreateCmd(dto: CreateDoc, now: int)
    | UpdateCmd(id: string, patch: UpdateDto, now: int)
    | DeleteCmd(id: string, now: int)
    | RestoreCmd(id: string)

  function Apply(t: Table, c: Command): (t': Table)
    ensures Unique(t) ==> Unique(t')
    ensures Persists(t, t')
  {
    match c
    case CreateCmd(dto, now) => Create(t, dto, now).table
    case UpdateCmd(id, patch, now) => Update(t, id, patch, now).table
    case DeleteCmd(id, now) => Delete(t, id, now).table
    case RestoreCmd(id) => Restore(t, id).table
  }

  function Run(t: Table, cs: seq<Command>): Table
    decreases |cs|
  {
    if cs == [] then t else Run(Apply(t, cs[0]), cs[1..])
  }

  /**
   * Records are never physically removed, and a record's identification
   * number and creation date never change.
   */
  predicate Persists(t: Table, t': Table) {
    forall id :: id in t ==>
      id in t' && t'[id].identificationNumber == t[id].identificationNumber && t'[id].dateCreated == t[id].dateCreated
  }

  /** Every sequence of operations keeps at most one record per identification number. */
  lemma {:induction false} RunKeepsUnique(t: Table, cs: seq<Command>)
    requires Unique(t)
    ensures Unique(Run(t, cs))
    decreases |cs|
  {
    if cs != [] {
      RunKeepsUnique(Apply(t, cs[0]), cs[1..]);
    }
  }

  /** Every sequence of operations keeps every record, with its id and creation date. */
  lemma {:induction false} RunPersists(t: Table, cs: seq<Command>)
    ensures Persists(t, Run(t, cs))
    decreases |cs|
  {
    if cs != [] {
      var t1 := Apply(t, cs[0]);
      RunPersists(t1, cs[1..]);
    }
  }

  /** A record carries a deletion date exactly while it is deleted. */
  predicate DeletionDated(t: Table) {
    forall id :: id in t ==> (t[id].deleted <==> t[id].dateDeleted.Some?)
  }

  /** The creates in `cs` all pass payloads without bookkeeping fields. */
  predicate BareCreates(cs: seq<Command>) {
    forall i :: 0 <= i < |cs| && cs[i].CreateCmd? ==> Bare(cs[i].dto)
  }

  /**
   * When creates only see payloads without bookkeeping fields (the yup
   * route's stripUnknown cast ensures this; for the plain route it is
   * assumed), a record has a deletion date exactly while it is deleted,
   * after any sequence of operations.
   */
  lemma {:induction false} RunKeepsDeletionDated(t: Table, cs: seq<Command>)
    requires DeletionDated(t) && BareCreates(cs)
    ensures DeletionDated(Run(t, cs))
    decreases |cs|
  {
    if cs != [] {
      var t1 := Apply(t, cs[0]);
      assert DeletionDated(t1) by {
        if cs[0].CreateCmd? {
          assert Bare(cs[0].dto);
        }
      }
      assert BareCreates(cs[1..]) by {
        forall i | 0 <= i < |cs[1..]| && cs[1..][i].CreateCmd?
          ensures Bare(cs[1..][i].dto)
        {
          assert cs[1..][i] == cs[i + 1];
        }
      }
      RunKeepsDeletionDated(t1, cs[1..]);
    }
  }

  /** Every stored record has its required fields present (non-empty). */
  predicate AllComplete(t: Table) {
    forall id :: id in t ==> Complete(t[id])
  }

  /** A name the update payload supplies is not empty. */
  predicate FilledPatch(dto: UpdateDto) {
    (dto.firstName.Some? ==> dto.firstName.value != "") && (dto.lastName.Some? ==> dto.lastName.value != "")
  }

  /** The updates in `cs` supply no empty name. */
  predicate FilledPatches(cs: seq<Command>) {
    forall i :: 0 <= i < |cs| && cs[i].UpdateCmd? ==> FilledPatch(cs[i].patch)
  }

  /**
   * Create refuses a document with an empty required field, and delete and
   * restore leave the names alone; so when updates supply no empty name (the
   * update route's payload rules, not part of this model, are assumed to
   * refuse one), every stored record keeps its required fields, after any
   * sequence of operations.
   */
  lemma {:induction false} RunKeepsComplete(t: Table, cs: seq<Command>)
    requires AllComplete(t) && FilledPatches(cs)
    ensures AllComplete(Run(t, cs))
    decreases |cs|
  {
    if cs != [] {
      var t1 := Apply(t, cs[0]);
      assert AllComplete(t1) by {
        if cs[0].UpdateCmd? {
          assert FilledPatch(cs[0].patch);
        }
      }
      assert FilledPatches(cs[1..]) by {
        forall i | 0 <= i < |cs[1..]| && cs[1..][i].UpdateCmd?
          ensures FilledPatch(cs[1..][i].patch)
        {
          assert cs[1..][i] == cs[i + 1];
        }
      }
      RunKeepsComplete(t1, cs[1..]);
    }
  }

  /**
   * The update query runs no required checks: an update that sets firstName
   * to "" on an Active record is stored, and the record is then incomplete.
   */
  lemma EmptyNameUpdateIsStored(t: Table, id: string, now: int)
    requires AllComplete(t) && IsActive(t, id)
    ensures var s := Update(t, id, UpdateDto(Some(""), None, None), now);
      s.outcome.Ok? && s.table[id].firstName == "" && !AllComplete(s.table)
  {
  }
}
