/**
 * The HTTP controller: method guards, the role-escalation check on create
 * and update, and the exception-to-status table.
 */
module UserController {
  import opened Results
  import opened Entities
  import opened Persistence
  import opened AuthorizationFilter
  import opened UserService
  import Roles = RoleRepository

  /** The caller's authorities include `name`. */
  predicate HasAuthority(a: Option<Principal>, name: string) {
    a.Some? && name in a.value.authorities
  }

  /** Guard of the two listing endpoints: authenticated and holding the administrator authority. */
  predicate MayList(a: Option<Principal>) {
    a.Some? && HasAuthority(a, ADMINISTRATOR)
  }

  /** Guard of read, update and delete on `id`: authenticated administrator, or authenticated owner of `id`. */
  predicate MayAccess(a: Option<Principal>, id: string) {
    (a.Some? && HasAuthority(a, ADMINISTRATOR)) || (a.Some? && a.value.user.email == id)
  }

  /** The escalation check's view of the caller: a principal whose roles include the administrator role. */
  predicate CallerIsAdmin(a: Option<Principal>) {
    a.Some? && HasAdminRole(a.value.user)
  }

  /** Lists the roles for an administrator; anyone else is denied. */
  function GetRoles(s: Store, a: Option<Principal>): (r: Result<set<Role>, Error>)
    ensures r.Ok? <==> a.Some? && ADMINISTRATOR in a.value.authorities
    ensures r.Ok? ==> forall x :: x in r.value <==> x in s.roles.Values
    ensures r.Err? ==> r.error == AccessDenied
  {
    if MayList(a) then Ok(GetAllRoles(s)) else Err(AccessDenied)
  }

  /** Lists the users, redacted, for an administrator; anyone else is denied. */
  function GetUsers(s: Store, a: Option<Principal>): (r: Result<set<User>, Error>)
    ensures r.Ok? <==> a.Some? && ADMINISTRATOR in a.value.authorities
    ensures r.Ok? ==> forall u :: u in r.value ==> u.password == PROTECTED
    ensures r.Ok? ==> forall k :: k in s.users ==> Redact(s.users[k]) in r.value
    ensures r.Ok? ==> r.value == GetAll(s)
    ensures r.Err? ==> r.error == AccessDenied
  {
    if MayList(a) then Ok(GetAll(s)) else Err(AccessDenied)
  }

  /** Reads one user, redacted, for an administrator or its owner; an absent id reads as nothing. */
  function GetUser(s: Store, a: Option<Principal>, id: string): (r: Result<Option<User>, Error>)
    ensures r.Ok? <==> a.Some? && (ADMINISTRATOR in a.value.authorities || a.value.user.email == id)
    ensures r.Ok? ==> (r.value.Some? <==> id in s.users)
    ensures r.Ok? && r.value.Some? ==> r.value.value == Redact(s.users[id])
    ensures r.Err? ==> r.error == AccessDenied
  {
    if MayAccess(a, id) then Ok(GetById(s, id)) else Err(AccessDenied)
  }

  /**
   * Registration. A request naming the administrator role needs a caller
   * holding that role, else CredentialsNotProvided and nothing is written;
   * every other request goes straight to the service.
   */
  function CreateUser(s: Store, a: Option<Principal>, newUser: User, h: Hasher): (r: Step<User>)
    ensures r.result == Err(CredentialsNotProvided) <==> HasAdminRole(newUser) && !CallerIsAdmin(a)
    ensures r.result == Err(CredentialsNotProvided) ==> r.store == s
    ensures r.result != Err(CredentialsNotProvided) ==> r == Create(s, newUser, h)
  {
    if !HasAdminRole(newUser) then Create(s, newUser, h)
    else
      match a
      case None => Step(s, Err(CredentialsNotProvided))
      case Some(p) =>
        if HasAdminRole(p.user) then Create(s, newUser, h) else Step(s, Err(CredentialsNotProvided))
  }

  /**
   * Update of the account `id`: first the method guard (AccessDenied), then
   * the same escalation check as registration on the request's role names,
   * then the service.
   */
  function UpdateUser(s: Store, a: Option<Principal>, id: string, updatedUser: User, h: Hasher): (r: Step<User>)
    ensures !MayAccess(a, id) ==> r == Step(s, Err(AccessDenied))
    ensures MayAccess(a, id) ==>
              (r.result == Err(CredentialsNotProvided) <==> HasAdminRole(updatedUser) && !CallerIsAdmin(a))
    ensures r.result == Err(CredentialsNotProvided) ==> r.store == s
    ensures MayAccess(a, id) && r.result != Err(CredentialsNotProvided) ==> r == Update(s, id, updatedUser, h)
  {
    if !MayAccess(a, id) then Step(s, Err(AccessDenied))
    else if !HasAdminRole(updatedUser) then Update(s, id, updatedUser, h)
    else
      match a
      case None => Step(s, Err(CredentialsNotProvided))
      case Some(p) =>
        if HasAdminRole(p.user) then Update(s, id, updatedUser, h) else Step(s, Err(CredentialsNotProvided))
  }

  /** Removal of the account `id`, behind the method guard. */
  function DeleteUser(s: Store, a: Option<Principal>, id: string): (r: Step<()>)
    ensures !MayAccess(a, id) ==> r == Step(s, Err(AccessDenied))
    ensures MayAccess(a, id) ==> (r.result.Ok? <==> id in s.users)
    ensures MayAccess(a, id) && r.result.Err? ==> r.result.error == NotFound
    ensures r.store.users.Keys == if MayAccess(a, id) then s.users.Keys - {id} else s.users.Keys
    ensures MayAccess(a, id) ==> r == Delete(s, id)
  {
    if MayAccess(a, id) then Delete(s, id) else Step(s, Err(AccessDenied))
  }

  /**
   * The exception handler's status table. The class of EmailNotFound is not
   * part of this model, so no status is claimed for it.
   */
  function Status(e: Error): (code: Option<int>)
    ensures code.None? <==> e == EmailNotFound
    ensures code == Some(404) <==> e == NotFound
    ensures code == Some(401) <==> e == InvalidCredentials || e == AccessDenied || e == BadCredentials || e == CredentialsNotProvided
    ensures code == Some(400) <==> e == EmailNotAvailable
    ensures code == Some(500) <==> e == NoSuchElement || e == MoreThanOneElement || e == IllegalArgument
  {
    match e
    case NotFound => Some(404)
    case InvalidCredentials => Some(401)
    case EmailNotAvailable => Some(400)
    case AccessDenied => Some(401)
    case BadCredentials => Some(401)
    case CredentialsNotProvided => Some(401)
    case EmailNotFound => None
    case NoSuchElement => Some(500)
    case MoreThanOneElement => Some(500)
    case IllegalArgument => Some(500)
  }

  /**
   * The decision table of the record guard: an administrator reaches every
   * record, any other authenticated caller exactly its own, an anonymous
   * caller none.
   */
  lemma AccessTable(a: Option<Principal>, id: string)
    ensures a.None? ==> !MayAccess(a, id)
    ensures HasAuthority(a, ADMINISTRATOR) ==> MayAccess(a, id)
    ensures a.Some? && !HasAuthority(a, ADMINISTRATOR) ==> (MayAccess(a, id) <==> id == a.value.user.email)
    ensures MayList(a) ==> MayAccess(a, id)
  {
  }

  /**
   * For a principal the filter built from a token, the guard's authority
   * test and the escalation check's role test agree.
   */
  lemma AuthorityMatchesRoles(header: string, verify: string -> Option<Claims>)
    requires GetAuthentication(header, verify).Some?
    ensures HasAuthority(GetAuthentication(header, verify), ADMINISTRATOR) <==> CallerIsAdmin(GetAuthentication(header, verify))
  {
    var p := GetAuthentication(header, verify).value;
    if ADMINISTRATOR in p.authorities {
      var i :| 0 <= i < |p.authorities| && p.authorities[i] == ADMINISTRATOR;
      assert p.user.roles[i].value == ADMINISTRATOR;
    }
    if HasAdminRole(p.user) {
      var i :| 0 <= i < |p.user.roles| && p.user.roles[i].value == ADMINISTRATOR;
      assert p.authorities[i] == ADMINISTRATOR;
    }
  }

  /** Resolved roles carry only requested names, so an administrator role resolves only from a request naming it. */
  lemma ResolvedAdminWasRequested(s: Store, requested: seq<Role>)
    requires RolesKeyedByValue(s)
    requires exists x :: x in Resolve(s, requested) && x.value == ADMINISTRATOR
    ensures exists i :: 0 <= i < |requested| && requested[i].value == ADMINISTRATOR
  {
    var x :| x in Resolve(s, requested) && x.value == ADMINISTRATOR;
    Roles.FindByNamesRequested(s, RoleValues(requested));
    assert ADMINISTRATOR in RoleValues(requested);
    var i :| 0 <= i < |RoleValues(requested)| && RoleValues(requested)[i] == ADMINISTRATOR;
    assert requested[i].value == ADMINISTRATOR;
  }

  /**
   * No escalation through registration: an account that comes out holding
   * the administrator role was created by an administrator caller.
   */
  lemma CreateNoEscalation(s: Store, a: Option<Principal>, newUser: User, h: Hasher)
    requires RolesKeyedByValue(s)
    requires CreateUser(s, a, newUser, h).result.Ok?
    requires HasAdminRole(CreateUser(s, a, newUser, h).result.value)
    ensures CallerIsAdmin(a)
  {
    var u := CreateUser(s, a, newUser, h).result.value;
    var i :| 0 <= i < |u.roles| && u.roles[i].value == ADMINISTRATOR;
    if !HasAdminRole(newUser) {
      var persisted := Resolve(s, newUser.roles);
      if persisted == [] {
        assert false;
      } else {
        assert u.roles == persisted;
        ResolvedAdminWasRequested(s, newUser.roles);
        assert false;
      }
    }
  }

  /**
   * No escalation through update: an account that comes out holding the
   * administrator role either had it already or was updated by an
   * administrator caller.
   */
  lemma UpdateNoEscalation(s: Store, a: Option<Principal>, id: string, updatedUser: User, h: Hasher)
    requires RolesKeyedByValue(s)
    requires UpdateUser(s, a, id, updatedUser, h).result.Ok?
    requires HasAdminRole(UpdateUser(s, a, id, updatedUser, h).result.value)
    ensures CallerIsAdmin(a) || HasAdminRole(s.users[id])
  {
    var u := UpdateUser(s, a, id, updatedUser, h).result.value;
    var i :| 0 <= i < |u.roles| && u.roles[i].value == ADMINISTRATOR;
    if !HasAdminRole(updatedUser) {
      var persisted := Resolve(s, updatedUser.roles);
      if persisted == [] {
        assert u.roles == s.users[id].roles;
      } else {
        assert u.roles == persisted;
        ResolvedAdminWasRequested(s, updatedUser.roles);
        assert false;
      }
    }
  }
}
