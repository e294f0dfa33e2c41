/** The records the service stores and exchanges: users, roles, tokens, and the exceptions it raises. */
module Entities {

  /** Name of the role that unlocks the administrative operations. */
  const ADMINISTRATOR: string := "Administrator"
  /** Name of the role given to a new account when none of its requested roles exists. */
  const GUEST: string := "Guest"
  /** Placeholder written over the password on every outward read of a user. */
  const PROTECTED: string := "<<Protected>>"

  /** A role; its name doubles as its identity and as its key in the role store. */
  datatype Role = Role(value: string)

  /** A user account. `email` is the store key; `password` holds a hash once persisted. */
  datatype User = User(id: string, email: string, password: string, name: string, roles: seq<Role>)

  /** The body of a login request. */
  datatype LoginRequest = LoginRequest(email: string, password: string)

  /** The payload a session token carries: a redacted user snapshot and its validity window. */
  datatype Claims = Claims(subject: User, issuedAt: int, expiration: int)

  /** What a successful login returns: the signed token and its absolute expiration (epoch millis). */
  datatype Authentication = Authentication(token: string, expiration: int)

  /** The exceptions the core raises or lets through to the exception handler. */
  datatype Error =
    | EmailNotAvailable       // the e-mail is already a key of the user store
    | EmailNotFound           // the subject of an update does not exist
    | NotFound                // a removal reported a count other than one
    | InvalidCredentials      // the service's own credential failure
    | BadCredentials          // the authentication manager's credential failure
    | AccessDenied            // a method guard refused the caller
    | CredentialsNotProvided  // a role escalation without administrator credentials
    | NoSuchElement           // a single-element lookup found nothing
    | MoreThanOneElement      // a single-element lookup found several items
    | IllegalArgument         // the framework refused an empty username or a blank authority

  /** The role names of a role list, in order. */
  function RoleValues(roles: seq<Role>): (names: seq<string>)
    ensures |names| == |roles|
    ensures forall i :: 0 <= i < |roles| ==> names[i] == roles[i].value
  {
    if roles == [] then [] else [roles[0].value] + RoleValues(roles[1..])
  }

  /**
   * The characters the JVM counts as whitespace: the ASCII controls tab to
   * carriage return and file to unit separator, and the Unicode space, line
   * and paragraph separators other than the three no-break spaces.
   */
  predicate IsWhitespace(c: char) {
    || c == ' ' || '\t' <= c <= '\r' || '\U{1C}' <= c <= '\U{1F}'
    || c == '\U{1680}' || ('\U{2000}' <= c <= '\U{200A}' && c != '\U{2007}')
    || c == '\U{2028}' || c == '\U{2029}' || c == '\U{205F}' || c == '\U{3000}'
  }

  /** The string holds some character that is not whitespace, as an authority name must. */
  predicate HasText(s: string) {
    exists i :: 0 <= i < |s| && !IsWhitespace(s[i])
  }

  /** Every role name in the list has text, so each can become an authority. */
  predicate RolesHaveText(roles: seq<Role>) {
    forall i :: 0 <= i < |roles| ==> HasText(roles[i].value)
  }

  /** Both well-known role names have text. */
  lemma WellKnownRolesHaveText()
    ensures HasText(ADMINISTRATOR) && HasText(GUEST)
    ensures RolesHaveText([Role(ADMINISTRATOR)]) && RolesHaveText([Role(GUEST)])
  {
    assert !IsWhitespace(ADMINISTRATOR[0]);
    assert !IsWhitespace(GUEST[0]);
  }

  /** The user as every read path shows it: everything but the password. */
  function Redact(u: User): (r: User)
    ensures r.password == PROTECTED
    ensures r.id == u.id && r.email == u.email && r.name == u.name && r.roles == u.roles
  {
    u.(password := PROTECTED)
  }
}
