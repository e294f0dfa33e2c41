/**
 * One HTTP exchange end to end: the authorization filter, the route-level
 * security chain, the controller's guards and escalation check, the
 * service, and the status the caller sees.
 */
module Exchange {
  import opened Results
  import opened Entities
  import opened Persistence
  import opened UserService
  import opened AuthorizationFilter
  import opened WebSecurity
  import opened UserController

  /**
   * What an exchange depends on besides the store: the password encoder,
   * the token signer and verifier, the clock, and the configured token
   * validity in milliseconds.
   */
  datatype Env = Env(hasher: Hasher, sign: Claims -> string, verify: string -> Option<Claims>, now: int, validity: int)

  /** The controller's endpoints with their decoded path variables and bodies. */
  datatype Endpoint =
    | LoginEndpoint(login: LoginRequest)
    | GetRolesEndpoint
    | GetUsersEndpoint
    | GetUserEndpoint(id: string)
    | CreateUserEndpoint(user: User)
    | UpdateUserEndpoint(id: string, user: User)
    | DeleteUserEndpoint(id: string)

  /** A request: the values of its Authorization header, if the header is present, and its endpoint. */
  datatype Request = Request(headers: Option<seq<string>>, endpoint: Endpoint)

  datatype Body = NoBody | UserBody(user: User) | UsersBody(users: set<User>) | RolesBody(roles: set<Role>) | TokenBody(auth: Authentication)

  /** Stopped by the security chain, failed with an exception, or answered. */
  datatype Response = Rejected(failure: SecurityFailure) | Failed(error: Error) | Answered(body: Body)

  datatype Exchanged = Exchanged(store: Store, response: Response)

  function MethodOf(e: Endpoint): Method {
    match e
    case LoginEndpoint(_) => POST
    case GetRolesEndpoint => GET
    case GetUsersEndpoint => GET
    case GetUserEndpoint(_) => GET
    case CreateUserEndpoint(_) => POST
    case UpdateUserEndpoint(_, _) => PUT
    case DeleteUserEndpoint(_) => DELETE
  }

  function PathOf(e: Endpoint): string {
    match e
    case LoginEndpoint(_) => LOGIN_PATH
    case GetRolesEndpoint => "/users/roles"
    case GetUsersEndpoint => USERS_PATH
    case GetUserEndpoint(id) => "/users/" + id
    case CreateUserEndpoint(_) => USERS_PATH
    case UpdateUserEndpoint(id, _) => "/users/" + id
    case DeleteUserEndpoint(id) => "/users/" + id
  }

  /** The endpoints the security chain lets anonymous callers reach. */
  predicate IsPublic(e: Endpoint) {
    e.LoginEndpoint? || e.CreateUserEndpoint?
  }

  /** The status code the caller receives; none is claimed when the error is EmailNotFound. */
  function StatusOf(r: Response): (code: Option<int>)
    ensures r.Rejected? ==> (code == Some(401) <==> r.failure == NotAuthenticated)
    ensures r.Answered? ==> code == Some(200)
    ensures r.Failed? ==> code == Status(r.error)
  {
    match r
    case Rejected(f) => Some(HandlerStatus(f))
    case Failed(e) => Status(e)
    case Answered(_) => Some(200)
  }

  function Answer<T>(store: Store, r: Result<T, Error>, body: T -> Body): Exchanged {
    match r
    case Ok(v) => Exchanged(store, Answered(body(v)))
    case Err(e) => Exchanged(store, Failed(e))
  }

  /** The controller method behind an endpoint, called with the filter's authentication. */
  function Dispatch(s: Store, env: Env, a: Option<Principal>, e: Endpoint): (x: Exchanged)
    ensures !x.response.Rejected?
  {
    match e
    case LoginEndpoint(l) =>
      Answer(s, Login(s, l, env.hasher, env.now, env.validity, env.sign), t => TokenBody(t))
    case GetRolesEndpoint => Answer(s, GetRoles(s, a), rs => RolesBody(rs))
    case GetUsersEndpoint => Answer(s, GetUsers(s, a), us => UsersBody(us))
    case GetUserEndpoint(id) =>
      Answer(s, GetUser(s, a, id), (u: Option<User>) => if u.Some? then UserBody(u.value) else NoBody)
    case CreateUserEndpoint(u) =>
      var st := CreateUser(s, a, u, env.hasher);
      Answer(st.store, st.result, v => UserBody(v))
    case UpdateUserEndpoint(id, u) =>
      var st := UpdateUser(s, a, id, u, env.hasher);
      Answer(st.store, st.result, v => UserBody(v))
    case DeleteUserEndpoint(id) =>
      var st := DeleteUser(s, a, id);
      Answer(st.store, st.result, (_: ()) => NoBody)
  }

  /**
   * The whole exchange. An anonymous caller on a protected endpoint is
   * stopped with 401 before anything runs; otherwise the controller runs
   * with whatever authentication the filter produced.
   */
  function Handle(s: Store, env: Env, req: Request): (x: Exchanged)
    ensures x.response.Rejected? <==> Filter(req.headers, env.verify).authentication.None? && !IsPublic(req.endpoint)
    ensures x.response.Rejected? ==> x.store == s && StatusOf(x.response) == Some(401)
    ensures !x.response.Rejected? ==> x == Dispatch(s, env, Filter(req.headers, env.verify).authentication, req.endpoint)
  {
    var a := Filter(req.headers, env.verify).authentication;
    match Authorize(MethodOf(req.endpoint), PathOf(req.endpoint), a)
    case Reject(f) => Exchanged(s, Rejected(f))
    case Proceed => Dispatch(s, env, a, req.endpoint)
  }

  /**
   * A millisecond instant cut to its whole second, as a JWT date claim
   * stores it: the milliseconds are divided away with truncation toward zero.
   */
  function WholeSecond(ms: int): (r: int)
    ensures r % 1000 == 0
    ensures 0 <= ms ==> r <= ms < r + 1000
    ensures ms < 0 ==> r - 1000 < ms <= r
  {
    if ms >= 0 then (ms / 1000) * 1000 else -(((-ms) / 1000) * 1000)
  }

  /**
   * The verifier accepts every token this server signs, presented as the
   * filter passes an intact token on (behind the one space left of
   * `Bearer <token>`), from its issue until its expiration cut to the whole
   * second is past, and gives back the subject it was signed with. Only the
   * subject is asked for: the dates come back in whole seconds and the
   * filter reads nothing else.
   */
  ghost predicate Recognizes(env: Env) {
    forall c: Claims :: c.issuedAt <= env.now <= WholeSecond(c.expiration) ==>
      env.verify(" " + env.sign(c)).Some? && env.verify(" " + env.sign(c)).value.subject == c.subject
  }

  /**
   * The verifier never returns a token's claims for text shorter than the
   * token: it may tolerate surrounding whitespace, but a shortened token
   * does not verify.
   */
  ghost predicate Genuine(env: Env) {
    forall x, c :: env.verify(x) == Some(c) ==> |x| >= |env.sign(c)|
  }

  /**
   * The verifier refuses every token this server signs, whatever the filter
   * made of it, once the current time is past its expiration cut to the
   * whole second.
   */
  ghost predicate RejectsExpired(env: Env) {
    forall c: Claims :: WholeSecond(c.expiration) < env.now ==> env.verify(StripBearer("Bearer " + env.sign(c))) == None
  }

  /** The principal the filter builds from a login token: the redacted account with its role names. */
  function TokenPrincipal(u: User): Principal {
    Principal(Redact(u), RoleValues(u.roles))
  }

  /**
   * A token from a successful login, free of "Bearer" and sent back as
   * `Bearer <token>` at a later moment up to its expiration cut to the whole
   * second, authenticates the caller as the redacted account with its role
   * names.
   */
  lemma LoginTokenAuthenticates(s: Store, env: Env, l: LoginRequest, later: Env)
    requires Login(s, l, env.hasher, env.now, env.validity, env.sign).Ok?
    requires later.sign == env.sign && Recognizes(later)
    requires env.now <= later.now <= WholeSecond(env.now + env.validity)
    requires NoBearer(Login(s, l, env.hasher, env.now, env.validity, env.sign).value.token)
    ensures Filter(Some(["Bearer " + Login(s, l, env.hasher, env.now, env.validity, env.sign).value.token]), later.verify)
            == FilterOutcome(Some(TokenPrincipal(s.users[l.email])), None)
  {
    var u := s.users[l.email];
    var c := Claims(u.(password := PROTECTED), env.now, env.now + env.validity);
    var token := Login(s, l, env.hasher, env.now, env.validity, env.sign).value.token;
    assert token == later.sign(c);
    BearerHeaderRoundTrip(token);
    assert later.verify(StripBearer("Bearer " + token)).value.subject == c.subject;
    assert Redact(u) == c.subject;
  }

  /**
   * A signed token that happens to hold "Bearer" is mangled by the filter's
   * replace-all, and a verifier that only accepts exact signatures no longer
   * returns the token's claims for it.
   */
  lemma BearerInTokenBreaksVerification(env: Env, c: Claims)
    requires Genuine(env)
    requires !NoBearer(env.sign(c))
    ensures env.verify(StripBearer("Bearer " + env.sign(c))) != Some(c)
  {
    var t := env.sign(c);
    StripBearerHeader(t);
    StripShortens(t);
    assert |StripBearer("Bearer " + t)| < |" " + t|;
  }

  /**
   * Once the current time is past the login token's expiration cut to the
   * whole second, sending it back no longer authenticates: a protected
   * endpoint answers 401 and writes nothing, whatever the store holds by
   * then.
   */
  lemma ExpiredTokenRejected(s: Store, env: Env, l: LoginRequest, later: Env, t: Store, e: Endpoint)
    requires Login(s, l, env.hasher, env.now, env.validity, env.sign).Ok?
    requires later.sign == env.sign && RejectsExpired(later)
    requires WholeSecond(env.now + env.validity) < later.now
    requires !IsPublic(e)
    ensures var token := Login(s, l, env.hasher, env.now, env.validity, env.sign).value.token;
            Handle(t, later, Request(Some(["Bearer " + token]), e)) == Exchanged(t, Rejected(NotAuthenticated))
  {
    var u := s.users[l.email];
    var c := Claims(u.(password := PROTECTED), env.now, env.now + env.validity);
    var token := Login(s, l, env.hasher, env.now, env.validity, env.sign).value.token;
    assert token == later.sign(c);
    assert later.verify(StripBearer("Bearer " + token)) == None;
    assert GetAuthentication("Bearer " + token, later.verify).None?;
    assert Filter(Some(["Bearer " + token]), later.verify).authentication.None?;
  }

  /** The owner of a login token passes the record guard on its own e-mail. */
  lemma TokenOwnerMayAccess(u: User)
    ensures MayAccess(Some(TokenPrincipal(u)), u.email)
  {
  }

  /** A login token passes the listing guard exactly when the account holds the administrator role. */
  lemma TokenAdminMayList(u: User)
    ensures MayList(Some(TokenPrincipal(u))) <==> HasAdminRole(u)
    ensures CallerIsAdmin(Some(TokenPrincipal(u))) <==> HasAdminRole(u)
  {
    var p := TokenPrincipal(u);
    if ADMINISTRATOR in p.authorities {
      var i :| 0 <= i < |p.authorities| && p.authorities[i] == ADMINISTRATOR;
      assert u.roles[i].value == ADMINISTRATOR;
    }
    if HasAdminRole(u) {
      var i :| 0 <= i < |u.roles| && u.roles[i].value == ADMINISTRATOR;
      assert p.authorities[i] == ADMINISTRATOR;
    }
  }

  /** Without an Authorization header, every endpoint but login and registration answers 401 and writes nothing. */
  lemma AnonymousProtectedRejected(s: Store, env: Env, e: Endpoint)
    requires !IsPublic(e)
    ensures Handle(s, env, Request(None, e)) == Exchanged(s, Rejected(NotAuthenticated))
    ensures StatusOf(Handle(s, env, Request(None, e)).response) == Some(401)
  {
  }
}
