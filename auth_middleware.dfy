/**
 * The shared-secret header check put in front of the user routes, together
 * with the rule that leaves GET requests out of it. The configured secret and
 * the request's `authorization` header are both possibly absent; the check is
 * JavaScript's strict inequality, so two absent values are equal.
 */
module AuthMiddleware {
  import opened Optional
  import opened Http

  const AccessDenied := "Access denied. Valid Authorization header required."

  datatype Verdict = Proceed | Reject(failure: Failure)

  /** The middleware's `use`: call `next()` only when the header equals the secret. */
  function Use(authorization: Option<string>, secret: Option<string>): (v: Verdict)
    ensures v.Proceed? <==> authorization == secret
    ensures v.Reject? ==> v.failure == Forbidden(AccessDenied)
  {
    if authorization != secret then Reject(Forbidden(AccessDenied)) else Proceed
  }

  /** The middleware runs on every user route except GET ones. */
  predicate Guarded(m: HttpMethod) {
    m != GET
  }

  /** The middleware as applied to a request with method `m`. */
  function Admit(m: HttpMethod, authorization: Option<string>, secret: Option<string>): (v: Verdict)
    ensures v.Proceed? <==> m == GET || authorization == secret
    ensures v.Reject? ==> v == Reject(Forbidden(AccessDenied))
  {
    if Guarded(m) then Use(authorization, secret) else Proceed
  }

  /** With a secret configured, a mutating request without the header is forbidden. */
  lemma MissingHeaderForbidden(m: HttpMethod, secret: string)
    requires m != GET
    ensures Admit(m, None, Some(secret)) == Reject(Forbidden(AccessDenied))
  {
  }

  /** A mutating request whose header differs from the secret is forbidden. */
  lemma WrongHeaderForbidden(m: HttpMethod, header: string, secret: Option<string>)
    requires m != GET && Some(header) != secret
    ensures Admit(m, Some(header), secret) == Reject(Forbidden(AccessDenied))
  {
  }

  /** With no secret configured, a request without the header is let through. */
  lemma UnsetSecretAdmitsMissingHeader(m: HttpMethod)
    ensures Admit(m, None, None) == Proceed
  {
  }

  /** Reads never need the header. */
  lemma ReadsAreExempt(authorization: Option<string>, secret: Option<string>)
    ensures Admit(GET, authorization, secret) == Proceed
  {
  }
}
