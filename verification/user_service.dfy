/**
 * The account engine: login, reads with redaction, create, update (in place
 * and rename), delete, and the administrator-role test.
 */
module UserService {
  import opened Results
  import opened Entities
  import opened Persistence
  import Users = UserRepository
  import Roles = RoleRepository

  /**
   * The password encoder. Hashing is salted in the service, so `encode` stands
   * for one particular run of it; `matches` is the encoder's verification.
   */
  datatype Hasher = Hasher(encode: string -> string, matches: (string, string) -> bool)

  /** Verification accepts the password a hash was made from. */
  ghost predicate Sound(h: Hasher) {
    forall p :: h.matches(p, h.encode(p))
  }

  /** The store after an operation, and what the operation answered. */
  datatype Step<+T> = Step(store: Store, result: Result<T, Error>)

  /** The credential record handed to the authentication manager. */
  datatype UserDetails = UserDetails(username: string, password: string, authorities: set<string>)

  /** The administrator role is among the user's role names. */
  function HasAdminRole(u: User): (b: bool)
    ensures b <==> exists i :: 0 <= i < |u.roles| && u.roles[i].value == ADMINISTRATOR
  {
    ADMINISTRATOR in RoleValues(u.roles)
  }

  /**
   * The framework's credential record refuses the account: its username is
   * empty, or one of its role names is blank and cannot become an authority.
   */
  predicate Refused(u: User) {
    u.email == "" || !RolesHaveText(u.roles)
  }

  /**
   * The credential record of the account filed under `username`; nothing
   * when absent. An account the framework refuses fails with
   * IllegalArgument. Its authorities are the account's role names as a set.
   */
  function FindByUsername(s: Store, username: string): (r: Result<Option<UserDetails>, Error>)
    ensures r == Ok(None) <==> username !in s.users
    ensures r.Err? <==> username in s.users && Refused(s.users[username])
    ensures r.Err? ==> r.error == IllegalArgument
    ensures r.Ok? && r.value.Some? ==> r.value.value.username == s.users[username].email
    ensures r.Ok? && r.value.Some? ==> r.value.value.password == s.users[username].password
    ensures r.Ok? && r.value.Some? ==>
              forall a :: a in r.value.value.authorities <==> exists x :: x in s.users[username].roles && x.value == a
  {
    match Users.FindById(s, username)
    case None => Ok(None)
    case Some(u) =>
      if !RolesHaveText(u.roles) || u.email == "" then Err(IllegalArgument)
      else Ok(Some(UserDetails(u.email, u.password, set x | x in u.roles :: x.value)))
  }

  /**
   * The authentication manager wired to this service: an unknown account and
   * a wrong password fail alike with BadCredentials; an account the framework
   * refuses fails with IllegalArgument before its password is read.
   */
  function Authenticate(s: Store, email: string, password: string, h: Hasher): (r: Result<UserDetails, Error>)
    ensures r.Ok? <==> email in s.users && !Refused(s.users[email]) && h.matches(password, s.users[email].password)
    ensures r.Err? ==> r.error == if email in s.users && Refused(s.users[email]) then IllegalArgument else BadCredentials
  {
    match FindByUsername(s, email)
    case Err(e) => Err(e)
    case Ok(None) => Err(BadCredentials)
    case Ok(Some(d)) => if h.matches(password, d.password) then Ok(d) else Err(BadCredentials)
  }

  /**
   * Verifies the credentials and issues a token whose subject is the redacted
   * account, valid from `now` for `validity` milliseconds.
   */
  function Login(s: Store, login: LoginRequest, h: Hasher, now: int, validity: int, sign: Claims -> string): (r: Result<Authentication, Error>)
    ensures r.Ok? <==> login.email in s.users && !Refused(s.users[login.email])
                       && h.matches(login.password, s.users[login.email].password)
    ensures r.Err? ==> r.error == if login.email in s.users && Refused(s.users[login.email]) then IllegalArgument else BadCredentials
    ensures r.Ok? ==> r.value.expiration == now + validity
    ensures r.Ok? ==> r.value.token == sign(Claims(s.users[login.email].(password := PROTECTED), now, now + validity))
  {
    match Authenticate(s, login.email, login.password, h)
    case Err(e) => Err(e)
    case Ok(_) =>
      var exp := now + validity;
      Ok(Authentication(sign(Claims(Redact(s.users[login.email]), now, exp)), exp))
  }

  /** Every stored role. */
  function GetAllRoles(s: Store): (rs: set<Role>)
    ensures forall r :: r in rs <==> r in s.roles.Values
  {
    Roles.FindAll(s)
  }

  /** Every stored user, each with the password replaced by the placeholder. */
  function GetAll(s: Store): (us: set<User>)
    ensures forall u :: u in us ==> u.password == PROTECTED
    ensures forall k :: k in s.users ==> Redact(s.users[k]) in us
    ensures forall u :: u in us ==> exists k :: k in s.users && u == Redact(s.users[k])
  {
    set u | u in Users.FindAll(s) :: Redact(u)
  }

  /** The user filed under `id` with the password replaced by the placeholder; nothing when absent. */
  function GetById(s: Store, id: string): (r: Option<User>)
    ensures r.Some? <==> id in s.users
    ensures r.Some? ==> r.value.password == PROTECTED
    ensures r.Some? ==> r.value.(password := s.users[id].password) == s.users[id]
  {
    match Users.FindById(s, id)
    case None => None
    case Some(u) => Some(Redact(u))
  }

  /** Some requested role name is stored. */
  predicate AnyRoleStored(s: Store, requested: seq<Role>) {
    exists i :: 0 <= i < |requested| && requested[i].value in s.roles
  }

  /** The stored roles the request's role names resolve to. */
  function Resolve(s: Store, requested: seq<Role>): (rs: seq<Role>)
    ensures rs == [] <==> !AnyRoleStored(s, requested)
    ensures forall r :: r in rs ==> r in s.roles.Values
  {
    var names := RoleValues(requested);
    var rs := Roles.FindByNames(s.roles, names);
    assert rs == [] <==> !AnyRoleStored(s, requested) by {
      if AnyRoleStored(s, requested) {
        var i :| 0 <= i < |requested| && requested[i].value in s.roles;
        assert names[i] in s.roles;
      }
    }
    rs
  }

  /** Resolved roles are stored roles, so their names have text whenever the stored ones do. */
  lemma ResolvedRolesHaveText(s: Store, requested: seq<Role>)
    requires RoleNamesHaveText(s)
    ensures RolesHaveText(Resolve(s, requested))
  {
    var rs := Resolve(s, requested);
    forall i | 0 <= i < |rs| ensures HasText(rs[i].value) {
      assert rs[i] in s.roles.Values;
      var k :| k in s.roles && s.roles[k] == rs[i];
    }
  }

  /**
   * In a valid store the framework refuses an account exactly when it is
   * filed under the empty e-mail.
   */
  lemma ValidRefusesOnlyEmptyEmail(s: Store, email: string)
    requires Valid(s)
    requires email in s.users
    ensures Refused(s.users[email]) <==> email == ""
  {
  }

  /**
   * Registers `newUser` under its e-mail. A taken e-mail fails and writes
   * nothing. Otherwise the stored record has the resolved roles (the guest
   * role when none resolves) and the encoded password, and is returned as
   * stored, not redacted.
   */
  function Create(s: Store, newUser: User, h: Hasher): (r: Step<User>)
    ensures r.result.Err? <==> newUser.email in s.users
    ensures r.result.Err? ==> r.result.error == EmailNotAvailable && r.store == s
    ensures r.result.Ok? ==>
              var u := r.result.value;
              && u.id == newUser.id && u.email == newUser.email && u.name == newUser.name
              && u.password == h.encode(newUser.password)
              && r.store.users == s.users[newUser.email := u]
              && r.store.roles == s.roles
              && |u.roles| > 0
              && (!AnyRoleStored(s, newUser.roles) ==> u.roles == [Role(GUEST)])
              && (AnyRoleStored(s, newUser.roles) ==> u.roles == Resolve(s, newUser.roles))
  {
    match Users.FindById(s, newUser.email)
    case Some(_) => Step(s, Err(EmailNotAvailable))
    case None =>
      var persisted := Resolve(s, newUser.roles);
      var roles := if persisted == [] then [Role(GUEST)] else persisted;
      var saved := newUser.(roles := roles, password := h.encode(newUser.password));
      Step(Users.Save(s, saved), Ok(saved))
  }

  /** The record an update writes: request fields, resolved roles or else the old ones, encoded password. */
  function Updated(s: Store, existing: User, updatedUser: User, h: Hasher): User {
    var persisted := Resolve(s, updatedUser.roles);
    var roles := if persisted == [] then existing.roles else persisted;
    updatedUser.(roles := roles, password := h.encode(updatedUser.password))
  }

  /**
   * Replaces the account filed under `id` by `updatedUser`. An absent `id`
   * fails with EmailNotFound; a rename onto a taken e-mail fails with
   * EmailNotAvailable; both write nothing. A rename removes `id` and files
   * the record under the new e-mail, failing with NotFound when the removal
   * did not report exactly one entry. Roles that resolve to nothing keep the
   * account's existing roles; the password is always re-encoded.
   */
  function Update(s: Store, id: string, updatedUser: User, h: Hasher): (r: Step<User>)
    ensures id !in s.users ==> r == Step(s, Err(EmailNotFound))
    ensures id in s.users && updatedUser.email != id && updatedUser.email in s.users ==>
              r == Step(s, Err(EmailNotAvailable))
    ensures r.result.Ok? <==> id in s.users && (updatedUser.email == id || updatedUser.email !in s.users)
    ensures r.result.Ok? ==>
              var u := r.result.value;
              && u.id == updatedUser.id && u.email == updatedUser.email && u.name == updatedUser.name
              && u.password == h.encode(updatedUser.password)
              && r.store.users == (s.users - {id})[updatedUser.email := u]
              && r.store.roles == s.roles
              && (!AnyRoleStored(s, updatedUser.roles) ==> u.roles == s.users[id].roles)
              && (AnyRoleStored(s, updatedUser.roles) ==> u.roles == Resolve(s, updatedUser.roles))
    ensures r.result.Ok? && updatedUser.email == id ==> r.store.users.Keys == s.users.Keys
  {
    match Users.FindById(s, id)
    case None => Step(s, Err(EmailNotFound))
    case Some(existing) =>
      if id != updatedUser.email then
        match Users.FindById(s, updatedUser.email)
        case Some(_) => Step(s, Err(EmailNotAvailable))
        case None =>
          var saved := Updated(s, existing, updatedUser, h);
          var removal := Users.Delete(s, id);
          if removal.count == 1 then Step(Users.Save(removal.store, saved), Ok(saved))
          else Step(removal.store, Err(NotFound))
      else
        var saved := Updated(s, existing, updatedUser, h);
        Step(Users.Save(s, saved), Ok(saved))
  }

  /** Removes the account filed under `id`; a removal count other than one is NotFound. */
  function Delete(s: Store, id: string): (r: Step<()>)
    ensures r.result.Ok? <==> id in s.users
    ensures r.result.Err? ==> r.result.error == NotFound && r.store == s
    ensures r.store.users.Keys == s.users.Keys - {id}
    ensures forall k :: k in r.store.users ==> r.store.users[k] == s.users[k]
    ensures r.store.roles == s.roles
  {
    var removal := Users.Delete(s, id);
    if removal.count == 1 then Step(removal.store, Ok(())) else Step(removal.store, Err(NotFound))
  }

  /** Replacing the account under `id` by a record filed under its own e-mail, with named roles, keeps the invariant. */
  lemma ReplacePreservesValid(s: Store, id: string, u: User)
    requires Valid(s)
    requires |u.roles| > 0 && RolesHaveText(u.roles)
    ensures Valid(Store((s.users - {id})[u.email := u], s.roles))
  {
  }

  /** Registration keeps the store invariant. */
  lemma CreatePreservesValid(s: Store, newUser: User, h: Hasher)
    requires Valid(s)
    ensures Valid(Create(s, newUser, h).store)
  {
    var r := Create(s, newUser, h);
    if r.result.Ok? {
      var u := r.result.value;
      assert RolesHaveText(u.roles) by {
        ResolvedRolesHaveText(s, newUser.roles);
        WellKnownRolesHaveText();
      }
      ReplacePreservesValid(s, newUser.email, u);
      assert r.store == Store((s.users - {newUser.email})[u.email := u], s.roles);
    }
  }

  /** Both update paths keep the store invariant; the kept roles are non-empty because the old ones were. */
  lemma UpdatePreservesValid(s: Store, id: string, updatedUser: User, h: Hasher)
    requires Valid(s)
    ensures Valid(Update(s, id, updatedUser, h).store)
  {
    var r := Update(s, id, updatedUser, h);
    if r.result.Ok? {
      var u := r.result.value;
      assert |u.roles| > 0 && RolesHaveText(u.roles) by {
        if !AnyRoleStored(s, updatedUser.roles) {
          assert u.roles == s.users[id].roles;
        } else {
          ResolvedRolesHaveText(s, updatedUser.roles);
          assert Resolve(s, updatedUser.roles) != [];
        }
      }
      ReplacePreservesValid(s, id, u);
      assert r.store == Store((s.users - {id})[u.email := u], s.roles);
    }
  }

  /** Removal keeps the store invariant. */
  lemma DeletePreservesValid(s: Store, id: string)
    requires Valid(s)
    ensures Valid(Delete(s, id).store)
  {
  }

  /** An e-mail registered once cannot be registered again. */
  lemma CreateTwiceFails(s: Store, first: User, second: User, h: Hasher)
    requires Create(s, first, h).result.Ok?
    requires second.email == first.email
    ensures Create(Create(s, first, h).store, second, h) == Step(Create(s, first, h).store, Err(EmailNotAvailable))
  {
  }

  /**
   * A freshly registered account can log in with the password it was
   * registered with, unless the framework refuses its record, which fails
   * with IllegalArgument; in a valid store that happens exactly under the
   * empty e-mail.
   */
  lemma LoginAfterCreate(s: Store, newUser: User, h: Hasher, now: int, validity: int, sign: Claims -> string)
    requires Sound(h)
    requires Create(s, newUser, h).result.Ok?
    ensures !Refused(Create(s, newUser, h).result.value) ==>
              Login(Create(s, newUser, h).store, LoginRequest(newUser.email, newUser.password), h, now, validity, sign).Ok?
    ensures Refused(Create(s, newUser, h).result.value) ==>
              Login(Create(s, newUser, h).store, LoginRequest(newUser.email, newUser.password), h, now, validity, sign) == Err(IllegalArgument)
    ensures Valid(s) ==> (Refused(Create(s, newUser, h).result.value) <==> newUser.email == "")
  {
    var t := Create(s, newUser, h).store;
    assert t.users[newUser.email].password == h.encode(newUser.password);
    if Valid(s) {
      CreatePreservesValid(s, newUser, h);
      ValidRefusesOnlyEmptyEmail(t, newUser.email);
    }
  }

  /**
   * After registration, a password the hasher does not match against the
   * registered hash is refused with BadCredentials; a record the framework
   * refuses fails with IllegalArgument whatever the password.
   */
  lemma WrongPasswordAfterCreate(s: Store, newUser: User, wrong: string, h: Hasher, now: int, validity: int, sign: Claims -> string)
    requires !h.matches(wrong, h.encode(newUser.password))
    requires Create(s, newUser, h).result.Ok?
    ensures !Refused(Create(s, newUser, h).result.value) ==>
              Login(Create(s, newUser, h).store, LoginRequest(newUser.email, wrong), h, now, validity, sign) == Err(BadCredentials)
    ensures Refused(Create(s, newUser, h).result.value) ==>
              Login(Create(s, newUser, h).store, LoginRequest(newUser.email, wrong), h, now, validity, sign) == Err(IllegalArgument)
  {
    var t := Create(s, newUser, h).store;
    assert t.users[newUser.email].password == h.encode(newUser.password);
  }

  /** After a removal the account's former credentials are refused. */
  lemma LoginAfterDeleteFails(s: Store, id: string, password: string, h: Hasher, now: int, validity: int, sign: Claims -> string)
    requires Delete(s, id).result.Ok?
    ensures Login(Delete(s, id).store, LoginRequest(id, password), h, now, validity, sign) == Err(BadCredentials)
  {
  }

  /**
   * A successful rename moves the account: the old e-mail no longer logs
   * in, and the new e-mail logs in with the new password unless the
   * framework refuses the new record.
   */
  lemma RenameMovesAccount(s: Store, id: string, updatedUser: User, oldPassword: string, h: Hasher, now: int, validity: int, sign: Claims -> string)
    requires Sound(h)
    requires updatedUser.email != id
    requires Update(s, id, updatedUser, h).result.Ok?
    ensures Login(Update(s, id, updatedUser, h).store, LoginRequest(id, oldPassword), h, now, validity, sign) == Err(BadCredentials)
    ensures !Refused(Update(s, id, updatedUser, h).result.value) ==>
              Login(Update(s, id, updatedUser, h).store, LoginRequest(updatedUser.email, updatedUser.password), h, now, validity, sign).Ok?
    ensures Refused(Update(s, id, updatedUser, h).result.value) ==>
              Login(Update(s, id, updatedUser, h).store, LoginRequest(updatedUser.email, updatedUser.password), h, now, validity, sign) == Err(IllegalArgument)
    ensures Valid(s) ==> (Refused(Update(s, id, updatedUser, h).result.value) <==> updatedUser.email == "")
  {
    var t := Update(s, id, updatedUser, h).store;
    assert id !in t.users;
    assert t.users[updatedUser.email].password == h.encode(updatedUser.password);
    if Valid(s) {
      UpdatePreservesValid(s, id, updatedUser, h);
      ValidRefusesOnlyEmptyEmail(t, updatedUser.email);
    }
  }
}
