/**
 * newUserSchema: identificationNumber, firstName and lastName are required
 * strings, history is an optional string. Validation is `validateSync` with
 * its default options, normalisation is `cast` with `stripUnknown`.
 */
module UserYupSchema {
  import opened Optional

  /** A JSON value carried by a body key the schema does not declare. */
  datatype Json = JString(s: string) | JNumber(n: int) | JBool(b: bool) | JNull

  const DeclaredKeys: set<string> := {"identificationNumber", "firstName", "lastName", "history"}

  /** The keys of a body other than the four the schema declares. */
  type Extras = m: map<string, Json> | m.Keys !! DeclaredKeys witness map[]

  /** A raw request body: the declared keys, each possibly absent, and any other keys. */
  datatype Body = Body(
    identificationNumber: Option<string>,
    firstName: Option<string>,
    lastName: Option<string>,
    history: Option<string>,
    extra: Extras)

  /** The normalised payload: exactly the declared keys (history only when supplied). */
  datatype NewUser = NewUser(identificationNumber: string, firstName: string, lastName: string, history: Option<string>)

  datatype Validated = Rejected(errors: seq<string>) | Accepted(user: NewUser)

  function KeyIf(present: bool, key: string): set<string> {
    if present then {key} else {}
  }

  /** The keys present in a raw body. */
  function BodyKeys(b: Body): set<string> {
    KeyIf(b.identificationNumber.Some?, "identificationNumber") + KeyIf(b.firstName.Some?, "firstName")
    + KeyIf(b.lastName.Some?, "lastName") + KeyIf(b.history.Some?, "history") + b.extra.Keys
  }

  /** The keys present in a normalised payload. */
  function NewUserKeys(n: NewUser): set<string> {
    {"identificationNumber", "firstName", "lastName"} + KeyIf(n.history.Some?, "history")
  }

  /** What a required string accepts: present and not the empty string. */
  predicate Filled(v: Option<string>) {
    v.Some? && v.value != ""
  }

  /** The body passes every rule of the schema (unknown keys are allowed). */
  predicate Conforms(b: Body) {
    Filled(b.identificationNumber) && Filled(b.firstName) && Filled(b.lastName)
  }

  function RequiredMessage(path: string): string {
    path + " is a required field"
  }

  /**
   * The messages `validateSync` throws with. It stops at the first failing
   * field (abortEarly), and the object schema visits its fields in reverse
   * order of declaration, so the message names the last declared required
   * field that is missing or empty.
   */
  function ValidationErrors(b: Body): (errors: seq<string>)
    ensures errors == [] <==> Conforms(b)
    ensures |errors| <= 1
    ensures forall e :: e in errors ==>
      || (e == RequiredMessage("identificationNumber") && !Filled(b.identificationNumber))
      || (e == RequiredMessage("firstName") && !Filled(b.firstName))
      || (e == RequiredMessage("lastName") && !Filled(b.lastName))
  {
    if !Filled(b.lastName) then [RequiredMessage("lastName")]
    else if !Filled(b.firstName) then [RequiredMessage("firstName")]
    else if !Filled(b.identificationNumber) then [RequiredMessage("identificationNumber")]
    else []
  }

  /** `cast` with `stripUnknown` of a conforming body: the declared keys only, values unchanged. */
  function Cast(b: Body): (n: NewUser)
    requires Conforms(b)
    ensures NewUserKeys(n) == BodyKeys(b) * DeclaredKeys
    ensures Some(n.identificationNumber) == b.identificationNumber
    ensures Some(n.firstName) == b.firstName && Some(n.lastName) == b.lastName
    ensures n.history == b.history
  {
    var n := NewUser(b.identificationNumber.value, b.firstName.value, b.lastName.value, b.history);
    assert b.extra.Keys * DeclaredKeys == {};
    n
  }

  /** Validate, then normalise: the controller's first two steps on the yup route. */
  function Validate(b: Body): (v: Validated)
    ensures v.Accepted? <==> Conforms(b)
    ensures v.Rejected? ==> |v.errors| == 1
    ensures v.Accepted? ==> v.user == Cast(b)
  {
    var errors := ValidationErrors(b);
    if errors != [] then Rejected(errors) else Accepted(Cast(b))
  }

  /** A body that lacks, or leaves empty, any required field fails validation. */
  lemma RequiredFieldsEnforced(b: Body)
    requires !Filled(b.identificationNumber) || !Filled(b.firstName) || !Filled(b.lastName)
    ensures Validate(b).Rejected?
  {
  }

  /** history is optional: the three required fields alone validate. */
  lemma HistoryOptional(id: string, first: string, last: string, extra: Extras)
    requires id != "" && first != "" && last != ""
    ensures Validate(Body(Some(id), Some(first), Some(last), None, extra))
         == Accepted(NewUser(id, first, last, None))
  {
  }

  /** `array.join(sep)` on a list of strings. */
  function Join(parts: seq<string>, sep: string): (s: string)
    ensures parts == [] ==> s == ""
    ensures |parts| == 1 ==> s == parts[0]
    ensures |parts| > 1 ==> |parts[0]| <= |s| && s[..|parts[0]|] == parts[0]
    decreases |parts|
  {
    if parts == [] then ""
    else if |parts| == 1 then parts[0]
    else parts[0] + sep + Join(parts[1..], sep)
  }
}
