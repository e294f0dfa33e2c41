/**
 * The service's integration scenarios, stated over whole exchanges: each
 * lemma states what one client-side test of the repository means to check.
 * The tests build users positionally with the id first, so the requests
 * they literally send have every field shifted by one; those requests are
 * not what is stated here.
 */
module Scenarios {
  import opened Results
  import opened Entities
  import opened Persistence
  import opened UserService
  import opened DatabaseSeeder
  import opened AuthorizationFilter
  import opened WebSecurity
  import opened UserController
  import opened Exchange

  /** A request carrying `token` as its single bearer header. */
  function WithToken(token: string, e: Endpoint): Request {
    Request(Some(["Bearer " + token]), e)
  }

  /** The token a successful login hands out. */
  function TokenOf(s: Store, env: Env, l: LoginRequest): string
    requires Login(s, l, env.hasher, env.now, env.validity, env.sign).Ok?
  {
    Login(s, l, env.hasher, env.now, env.validity, env.sign).value.token
  }

  /**
   * A successful login's token holds no "Bearer", so the filter's replace-all
   * leaves it intact (`Exchange.BearerInTokenBreaksVerification` covers the
   * other case).
   */
  predicate CleanToken(s: Store, env: Env, l: LoginRequest) {
    Login(s, l, env.hasher, env.now, env.validity, env.sign).Ok? ==> NoBearer(TokenOf(s, env, l))
  }

  /** The filter's authentication for a request carrying a login token is the token's principal. */
  lemma AuthenticateWithToken(s: Store, env: Env, l: LoginRequest) returns (a: Option<Principal>)
    requires Recognizes(env) && env.now <= WholeSecond(env.now + env.validity)
    requires Login(s, l, env.hasher, env.now, env.validity, env.sign).Ok?
    requires CleanToken(s, env, l)
    ensures a == Some(TokenPrincipal(s.users[l.email]))
    ensures forall e :: Filter(WithToken(TokenOf(s, env, l), e).headers, env.verify).authentication == a
  {
    LoginTokenAuthenticates(s, env, l, env);
    a := Some(TokenPrincipal(s.users[l.email]));
  }

  /** A request carrying a login token runs the controller as the token's principal. */
  lemma HandleWithToken(s: Store, env: Env, l: LoginRequest, e: Endpoint)
    requires Recognizes(env) && env.now <= WholeSecond(env.now + env.validity)
    requires Login(s, l, env.hasher, env.now, env.validity, env.sign).Ok?
    requires CleanToken(s, env, l)
    ensures Handle(s, env, WithToken(TokenOf(s, env, l), e)) == Dispatch(s, env, Some(TokenPrincipal(s.users[l.email])), e)
  {
    var a := AuthenticateWithToken(s, env, l);
    assert Filter(WithToken(TokenOf(s, env, l), e).headers, env.verify).authentication == a;
  }

  /** The exchange a create request produces from the controller's step. */
  lemma CreateExchange(s: Store, env: Env, a: Option<Principal>, u: User)
    ensures var st := CreateUser(s, a, u, env.hasher);
            Dispatch(s, env, a, CreateUserEndpoint(u))
              == Exchanged(st.store, if st.result.Ok? then Answered(UserBody(st.result.value)) else Failed(st.result.error))
  {
  }

  /** The exchange an update request produces from the controller's step. */
  lemma UpdateExchange(s: Store, env: Env, a: Option<Principal>, id: string, u: User)
    ensures var st := UpdateUser(s, a, id, u, env.hasher);
            Dispatch(s, env, a, UpdateUserEndpoint(id, u))
              == Exchanged(st.store, if st.result.Ok? then Answered(UserBody(st.result.value)) else Failed(st.result.error))
  {
  }

  /** The exchange a delete request produces from the controller's step. */
  lemma DeleteExchange(s: Store, env: Env, a: Option<Principal>, id: string)
    ensures var st := DeleteUser(s, a, id);
            Dispatch(s, env, a, DeleteUserEndpoint(id))
              == Exchanged(st.store, if st.result.Ok? then Answered(NoBody) else Failed(st.result.error))
  {
  }

  const RootLogin: LoginRequest := LoginRequest(ROOT_EMAIL, ROOT_PASSWORD)

  /** The root account logs in on a freshly seeded store and receives a token. */
  lemma RootLogsIn(env: Env, rootId: string)
    requires Sound(env.hasher)
    ensures Handle(Seed(Empty, env.hasher, rootId), env, Request(None, LoginEndpoint(RootLogin))).response.Answered?
  {
    SeedThenLoginRoot(env.hasher, rootId, env.now, env.validity, env.sign);
  }

  /**
   * On a freshly seeded store, an unknown e-mail, or the root e-mail with a
   * password the hasher does not match against root's hash, answers 401.
   */
  lemma BadLoginIs401(env: Env, rootId: string, l: LoginRequest)
    requires l.email == ROOT_EMAIL ==> !env.hasher.matches(l.password, env.hasher.encode(ROOT_PASSWORD))
    ensures StatusOf(Handle(Seed(Empty, env.hasher, rootId), env, Request(None, LoginEndpoint(l))).response) == Some(401)
  {
    var s := Seed(Empty, env.hasher, rootId);
    var r := Login(s, l, env.hasher, env.now, env.validity, env.sign);
    WellKnownRolesHaveText();
    assert s.users[ROOT_EMAIL].roles == [Role(ADMINISTRATOR)];
    assert r.Err?;
  }

  /** Anonymous registration without roles answers 200 with exactly the guest role. */
  lemma RegisterWithDefaultRole(s: Store, env: Env, newUser: User)
    requires newUser.email !in s.users
    requires newUser.roles == []
    ensures Handle(s, env, Request(None, CreateUserEndpoint(newUser))).response.Answered?
    ensures var b := Handle(s, env, Request(None, CreateUserEndpoint(newUser))).response.body;
            b.UserBody? && b.user.email == newUser.email && b.user.name == newUser.name
            && b.user.roles == [Role(GUEST)]
  {
  }

  /** Anonymous registration asking for the administrator role answers 401 and writes nothing. */
  lemma AnonymousAdminRegistrationIs401(s: Store, env: Env, newUser: User)
    requires HasAdminRole(newUser)
    ensures Handle(s, env, Request(None, CreateUserEndpoint(newUser))) == Exchanged(s, Failed(CredentialsNotProvided))
    ensures StatusOf(Handle(s, env, Request(None, CreateUserEndpoint(newUser))).response) == Some(401)
  {
  }

  /**
   * An administrator's token registers another administrator: 200, with
   * exactly the administrator role. On a freshly seeded store the root
   * account is such an administrator (`DatabaseSeeder.SeedEmpty`).
   */
  lemma AdminRegistersAdmin(s: Store, env: Env, admin: LoginRequest, newUser: User)
    requires Recognizes(env) && env.now <= WholeSecond(env.now + env.validity)
    requires RolesKeyedByValue(s) && ADMINISTRATOR in s.roles
    requires Login(s, admin, env.hasher, env.now, env.validity, env.sign).Ok?
    requires CleanToken(s, env, admin)
    requires HasAdminRole(s.users[admin.email])
    requires newUser.email !in s.users
    requires newUser.roles == [Role(ADMINISTRATOR)]
    ensures var x := Handle(s, env, WithToken(TokenOf(s, env, admin), CreateUserEndpoint(newUser)));
            x.response.Answered? && x.response.body.UserBody?
            && x.response.body.user.email == newUser.email
            && x.response.body.user.roles == [Role(ADMINISTRATOR)]
  {
    var a := Some(TokenPrincipal(s.users[admin.email]));
    HandleWithToken(s, env, admin, CreateUserEndpoint(newUser));
    CreateExchange(s, env, a, newUser);
    TokenAdminMayList(s.users[admin.email]);
    assert Resolve(s, newUser.roles) == [Role(ADMINISTRATOR)] by {
      assert RoleValues(newUser.roles) == [ADMINISTRATOR];
    }
    var st := CreateUser(s, a, newUser, env.hasher);
    assert st == Create(s, newUser, env.hasher);
  }

  /** On a freshly seeded store, root's token registers an administrator. */
  lemma RootRegistersAdmin(env: Env, rootId: string, newUser: User)
    requires Sound(env.hasher)
    requires Recognizes(env) && env.now <= WholeSecond(env.now + env.validity)
    requires CleanToken(Seed(Empty, env.hasher, rootId), env, RootLogin)
    requires newUser.email != ROOT_EMAIL
    requires newUser.roles == [Role(ADMINISTRATOR)]
    ensures Login(Seed(Empty, env.hasher, rootId), RootLogin, env.hasher, env.now, env.validity, env.sign).Ok?
    ensures var s := Seed(Empty, env.hasher, rootId);
            var x := Handle(s, env, WithToken(TokenOf(s, env, RootLogin), CreateUserEndpoint(newUser)));
            x.response.Answered? && x.response.body.UserBody? && x.response.body.user.roles == [Role(ADMINISTRATOR)]
  {
    var s := Seed(Empty, env.hasher, rootId);
    SeedThenLoginRoot(env.hasher, rootId, env.now, env.validity, env.sign);
    SeedEmpty(env.hasher, rootId);
    assert ADMINISTRATOR in s.roles;
    AdminRegistersAdmin(s, env, RootLogin, newUser);
  }

  /** Registering the seeded root e-mail again answers 400. */
  lemma DuplicateRegistrationIs400(env: Env, rootId: string, newUser: User)
    requires newUser.email == ROOT_EMAIL
    requires !HasAdminRole(newUser)
    ensures StatusOf(Handle(Seed(Empty, env.hasher, rootId), env, Request(None, CreateUserEndpoint(newUser))).response) == Some(400)
  {
    var s := Seed(Empty, env.hasher, rootId);
    SeedThenCreateRootFails(env.hasher, rootId, newUser);
    CreateExchange(s, env, None, newUser);
    var st := CreateUser(s, None, newUser, env.hasher);
    assert st == Create(s, newUser, env.hasher);
  }

  /**
   * A caller renames its own account with its own token and no roles: the
   * answer keeps its roles, the new credentials log in, the old ones no
   * longer do.
   */
  lemma SelfRename(s: Store, env: Env, l: LoginRequest, updated: User)
    requires Sound(env.hasher)
    requires UsersKeyedByEmail(s)
    requires Recognizes(env) && env.now <= WholeSecond(env.now + env.validity)
    requires Login(s, l, env.hasher, env.now, env.validity, env.sign).Ok?
    requires CleanToken(s, env, l)
    requires updated.email != l.email && updated.email !in s.users
    requires updated.roles == []
    ensures var x := Handle(s, env, WithToken(TokenOf(s, env, l), UpdateUserEndpoint(l.email, updated)));
            && x.response.Answered? && x.response.body.UserBody?
            && x.response.body.user.email == updated.email
            && x.response.body.user.roles == s.users[l.email].roles
            && (updated.email != "" ==> Login(x.store, LoginRequest(updated.email, updated.password), env.hasher, env.now, env.validity, env.sign).Ok?)
            && (updated.email == "" ==> Login(x.store, LoginRequest(updated.email, updated.password), env.hasher, env.now, env.validity, env.sign) == Err(IllegalArgument))
            && Login(x.store, l, env.hasher, env.now, env.validity, env.sign) == Err(BadCredentials)
  {
    var a := Some(TokenPrincipal(s.users[l.email]));
    HandleWithToken(s, env, l, UpdateUserEndpoint(l.email, updated));
    UpdateExchange(s, env, a, l.email, updated);
    TokenOwnerMayAccess(s.users[l.email]);
    var st := UpdateUser(s, a, l.email, updated, env.hasher);
    assert st == Update(s, l.email, updated, env.hasher);
    RenameMovesAccount(s, l.email, updated, l.password, env.hasher, env.now, env.validity, env.sign);
  }

  /** A caller without the administrator role updating somebody else's record answers 401. */
  lemma UpdateOtherIs401(s: Store, env: Env, l: LoginRequest, id: string, updated: User)
    requires UsersKeyedByEmail(s)
    requires Recognizes(env) && env.now <= WholeSecond(env.now + env.validity)
    requires Login(s, l, env.hasher, env.now, env.validity, env.sign).Ok?
    requires CleanToken(s, env, l)
    requires !HasAdminRole(s.users[l.email])
    requires id != l.email
    ensures Handle(s, env, WithToken(TokenOf(s, env, l), UpdateUserEndpoint(id, updated))) == Exchanged(s, Failed(AccessDenied))
    ensures StatusOf(Handle(s, env, WithToken(TokenOf(s, env, l), UpdateUserEndpoint(id, updated))).response) == Some(401)
  {
    var a := Some(TokenPrincipal(s.users[l.email]));
    HandleWithToken(s, env, l, UpdateUserEndpoint(id, updated));
    UpdateExchange(s, env, a, id, updated);
    TokenAdminMayList(s.users[l.email]);
    assert !MayAccess(a, id);
  }

  /** A caller without the administrator role granting itself that role answers 401 and writes nothing. */
  lemma SelfPromotionIs401(s: Store, env: Env, l: LoginRequest, updated: User)
    requires UsersKeyedByEmail(s)
    requires Recognizes(env) && env.now <= WholeSecond(env.now + env.validity)
    requires Login(s, l, env.hasher, env.now, env.validity, env.sign).Ok?
    requires CleanToken(s, env, l)
    requires !HasAdminRole(s.users[l.email])
    requires HasAdminRole(updated)
    ensures Handle(s, env, WithToken(TokenOf(s, env, l), UpdateUserEndpoint(l.email, updated))) == Exchanged(s, Failed(CredentialsNotProvided))
    ensures StatusOf(Handle(s, env, WithToken(TokenOf(s, env, l), UpdateUserEndpoint(l.email, updated))).response) == Some(401)
  {
    var a := Some(TokenPrincipal(s.users[l.email]));
    HandleWithToken(s, env, l, UpdateUserEndpoint(l.email, updated));
    UpdateExchange(s, env, a, l.email, updated);
    TokenAdminMayList(s.users[l.email]);
    TokenOwnerMayAccess(s.users[l.email]);
    assert !CallerIsAdmin(a);
  }

  /**
   * An administrator renames another account without roles: the account
   * keeps its roles and logs in under the new e-mail, unless the framework
   * refuses it (an empty e-mail or a blank role name).
   */
  lemma AdminRenamesOther(s: Store, env: Env, admin: LoginRequest, id: string, updated: User)
    requires Sound(env.hasher)
    requires Recognizes(env) && env.now <= WholeSecond(env.now + env.validity)
    requires Login(s, admin, env.hasher, env.now, env.validity, env.sign).Ok?
    requires CleanToken(s, env, admin)
    requires HasAdminRole(s.users[admin.email])
    requires id in s.users && updated.email != id && updated.email !in s.users
    requires updated.roles == []
    ensures var x := Handle(s, env, WithToken(TokenOf(s, env, admin), UpdateUserEndpoint(id, updated)));
            && x.response.Answered? && x.response.body.UserBody?
            && x.response.body.user.roles == s.users[id].roles
            && (updated.email != "" && RolesHaveText(s.users[id].roles) ==>
                  Login(x.store, LoginRequest(updated.email, updated.password), env.hasher, env.now, env.validity, env.sign).Ok?)
            && (updated.email == "" || !RolesHaveText(s.users[id].roles) ==>
                  Login(x.store, LoginRequest(updated.email, updated.password), env.hasher, env.now, env.validity, env.sign) == Err(IllegalArgument))
  {
    var a := Some(TokenPrincipal(s.users[admin.email]));
    HandleWithToken(s, env, admin, UpdateUserEndpoint(id, updated));
    UpdateExchange(s, env, a, id, updated);
    TokenAdminMayList(s.users[admin.email]);
    assert MayAccess(a, id);
    var st := UpdateUser(s, a, id, updated, env.hasher);
    assert st == Update(s, id, updated, env.hasher);
    RenameMovesAccount(s, id, updated, updated.password, env.hasher, env.now, env.validity, env.sign);
  }

  /** A caller deletes its own account with its own token: 200, and its credentials then answer 401. */
  lemma SelfDeleteThenLoginFails(s: Store, env: Env, l: LoginRequest)
    requires UsersKeyedByEmail(s)
    requires Recognizes(env) && env.now <= WholeSecond(env.now + env.validity)
    requires Login(s, l, env.hasher, env.now, env.validity, env.sign).Ok?
    requires CleanToken(s, env, l)
    ensures var x := Handle(s, env, WithToken(TokenOf(s, env, l), DeleteUserEndpoint(l.email)));
            && x.response == Answered(NoBody)
            && StatusOf(Handle(x.store, env, Request(None, LoginEndpoint(l))).response) == Some(401)
  {
    var a := Some(TokenPrincipal(s.users[l.email]));
    HandleWithToken(s, env, l, DeleteUserEndpoint(l.email));
    DeleteExchange(s, env, a, l.email);
    TokenOwnerMayAccess(s.users[l.email]);
    assert DeleteUser(s, a, l.email) == Delete(s, l.email);
    LoginAfterDeleteFails(s, l.email, l.password, env.hasher, env.now, env.validity, env.sign);
  }

  /**
   * Sign-up, login and self-rename in sequence: the new account gets the
   * guest role, keeps it across the rename, and only the new credentials
   * log in afterwards. An account registered under the empty e-mail cannot
   * log in at all.
   */
  lemma SignUpThenRename(s: Store, env: Env, newUser: User, updated: User)
    requires Sound(env.hasher)
    requires Recognizes(env) && env.now <= WholeSecond(env.now + env.validity)
    requires Valid(s)
    requires newUser.email !in s.users && newUser.roles == []
    requires updated.email != newUser.email && updated.email !in s.users && updated.roles == []
    requires CleanToken(Handle(s, env, Request(None, CreateUserEndpoint(newUser))).store, env, LoginRequest(newUser.email, newUser.password))
    ensures var s1 := Handle(s, env, Request(None, CreateUserEndpoint(newUser))).store;
            var l := LoginRequest(newUser.email, newUser.password);
            newUser.email == "" ==> Login(s1, l, env.hasher, env.now, env.validity, env.sign) == Err(IllegalArgument)
    ensures var s1 := Handle(s, env, Request(None, CreateUserEndpoint(newUser))).store;
            var l := LoginRequest(newUser.email, newUser.password);
            newUser.email != "" ==>
            && Login(s1, l, env.hasher, env.now, env.validity, env.sign).Ok?
            && var x := Handle(s1, env, WithToken(TokenOf(s1, env, l), UpdateUserEndpoint(newUser.email, updated)));
               && x.response.Answered? && x.response.body.UserBody?
               && x.response.body.user.roles == [Role(GUEST)]
               && (updated.email != "" ==> Login(x.store, LoginRequest(updated.email, updated.password), env.hasher, env.now, env.validity, env.sign).Ok?)
               && (updated.email == "" ==> Login(x.store, LoginRequest(updated.email, updated.password), env.hasher, env.now, env.validity, env.sign) == Err(IllegalArgument))
               && Login(x.store, l, env.hasher, env.now, env.validity, env.sign) == Err(BadCredentials)
  {
    var s1 := Handle(s, env, Request(None, CreateUserEndpoint(newUser))).store;
    CreateExchange(s, env, None, newUser);
    assert s1 == Create(s, newUser, env.hasher).store;
    LoginAfterCreate(s, newUser, env.hasher, env.now, env.validity, env.sign);
    if newUser.email != "" {
      CreatePreservesValid(s, newUser, env.hasher);
      var l := LoginRequest(newUser.email, newUser.password);
      assert s1.users[newUser.email].roles == [Role(GUEST)];
      SelfRename(s1, env, l, updated);
    }
  }
}
