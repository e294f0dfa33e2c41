/**
 * The route-level security chain: which exchanges need an authenticated
 * caller, and the statuses its entry point and access-denied handler write.
 */
module WebSecurity {
  import opened Results
  import opened AuthorizationFilter

  datatype Method = GET | POST | PUT | DELETE | PATCH | HEAD | OPTIONS

  const LOGIN_PATH: string := "/users/login"
  const USERS_PATH: string := "/users"

  /** Status the entry point writes for an unauthenticated caller. */
  const ENTRY_POINT_STATUS: int := 401
  /** Status the access-denied handler writes. */
  const ACCESS_DENIED_STATUS: int := 403

  /** What an exchange matcher demands. */
  datatype Access = PermitAll | Authenticated

  /** Why the chain stops an exchange. */
  datatype SecurityFailure = NotAuthenticated | Denied

  datatype Decision = Proceed | Reject(failure: SecurityFailure)

  /** The matcher table, first match wins: the two public POST routes, then every other exchange. */
  function RuleFor(m: Method, path: string): Access {
    if m == POST && path == LOGIN_PATH then PermitAll
    else if m == POST && path == USERS_PATH then PermitAll
    else Authenticated
  }

  /** Lets the exchange through or stops it, given the authentication the filter produced. */
  function Authorize(m: Method, path: string, auth: Option<Principal>): (d: Decision)
    ensures d == Proceed <==> auth.Some? || (m == POST && (path == LOGIN_PATH || path == USERS_PATH))
    ensures d.Reject? ==> d.failure == NotAuthenticated
  {
    match RuleFor(m, path)
    case PermitAll => Proceed
    case Authenticated => if auth.Some? then Proceed else Reject(NotAuthenticated)
  }

  /** The status the chain's handlers write for a stopped exchange. */
  function HandlerStatus(f: SecurityFailure): (code: int)
    ensures f == NotAuthenticated <==> code == 401
    ensures f == Denied <==> code == 403
  {
    match f
    case NotAuthenticated => ENTRY_POINT_STATUS
    case Denied => ACCESS_DENIED_STATUS
  }

  /**
   * Every rule is either public or "authenticated", so an authenticated
   * caller is never stopped and no exchange is ever answered with 403.
   */
  lemma NeverForbidden(m: Method, path: string, auth: Option<Principal>)
    ensures Authorize(m, path, auth) != Reject(Denied)
    ensures auth.Some? ==> Authorize(m, path, auth) == Proceed
  {
  }

  /** The only exchanges an anonymous caller gets through are the two public POST routes. */
  lemma AnonymousReach(m: Method, path: string)
    ensures Authorize(m, path, None) == Proceed <==> m == POST && (path == LOGIN_PATH || path == USERS_PATH)
    ensures Authorize(m, path, None) != Proceed ==> HandlerStatus(Authorize(m, path, None).failure) == 401
  {
  }
}
