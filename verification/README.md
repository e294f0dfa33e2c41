# Users management service — a Dafny model of the account engine and its access policy

This project models the core of a reactive user-directory service. The
service keeps user accounts and roles in two Redis hashes. It issues signed
session tokens at login and guards create, read, update and delete on user
records with a role-based policy. The model covers:

- **the store**: the `users` hash keyed by e-mail and the `roles` hash keyed by
  role name, as two finite maps, with the repository primitives (get, put,
  remove with a removal count, values, key count);
- **the account engine** (`UserService`): login, redacted reads, registration,
  update in place and by rename, deletion, and the administrator-role test;
- **seeding**: the start-up creation of the two well-known roles and of the
  root administrator on an empty store;
- **the access policy**: the authorization filter that picks the first
  bearer header whose token verifies, the route table of the security chain,
  the controller's method guards, the role-escalation check on create and
  update, and the exception-to-status table;
- **whole exchanges** (`Exchange.Handle`), over which the repository's
  client-side integration tests are restated as lemmas (`Scenarios`).

Everything is a pure function over an immutable `Store`. An operation returns
`Step(store, result)`, so a failure that happens after a write can be
represented. Password hashing is a `Hasher(encode, matches)` parameter. Token
signing and verification are the `sign` and `verify` parameters of `Env`, and
the clock is the `now` parameter.

Behaviours of the code that the model keeps:

- A failed login raises the authentication manager's `BadCredentials`. The
  service's own `InvalidCredentials` branches cannot be reached. Both errors
  answer 401.
- Reading an absent id yields an empty answer with status 200.
- `create` and `update` return the record as stored, with the encoded
  password. Only the list and single reads and the token subject are redacted.
- Roles are keyed by their name, which is their only field. There is no
  separate role id.
- The filter removes every occurrence of "Bearer" from a header, not only a
  leading one. `AuthorizationFilter.StripInsideToken` shows a token that
  contains the word losing it. A token free of the word reaches the verifier
  intact behind one space (`AuthorizationFilter.BearerHeaderRoundTrip`), and
  only such tokens are followed back through the filter
  (`Scenarios.CleanToken`). A signed token that does contain the word comes
  out at least the word's length shorter
  (`AuthorizationFilter.StripShortens`), so a verifier that never accepts
  text shorter than a token does not return its claims
  (`Exchange.BearerInTokenBreaksVerification`).
- Token dates are whole seconds. The login reports the expiration in
  milliseconds, but the token carries it cut to the whole second, and the
  parser refuses the token once the clock is past that second. The reported
  expiration therefore overstates the token's life by up to 999
  milliseconds (`Exchange.WholeSecond`).
- The framework refuses to build a credential record for an account whose
  e-mail is empty or which holds a role with a blank name (no character
  other than whitespace). It raises an illegal-argument exception, which the
  controller's catch-all answers with 500 (`UserService.Refused`,
  `UserService.FindByUsername`). The entity's fields default to the empty
  string and the not-null annotations do not reject it, so registration
  under the empty e-mail succeeds. A blank role name cannot be stored
  through the service: every write path keeps all stored role names
  non-blank (`Persistence.Valid`), so in a valid store only the empty
  e-mail is refused (`UserService.ValidRefusesOnlyEmptyEmail`). The filter
  meets the same refusal for a token subject with a blank role name, and
  catches it, leaving the request unauthenticated.
- The framework keeps a user's authorities as a set, so the credential
  record carries the role names without order or repetition.
- The token principal's e-mail is the stored record's `email` field. The
  owner guard therefore matches the path id only in a store keyed by e-mail
  (`Persistence.UsersKeyedByEmail`), which every write path preserves.

The service resolves requested role names to stored roles with
`findByNames`, which the repository never declares. Its behaviour is
therefore an ASSUMPTION: each requested name is looked up as a role key, in
request order, and names that are not stored are skipped
(`RoleRepository.FindByNames`). The proofs use these properties of it:

- every resolved role is a stored role;
- the result is empty exactly when no requested name is stored (this decides
  between the resolved roles and the guest or existing roles);
- in a store keyed by name, every resolved role carries a requested name
  (`RoleRepository.FindByNamesRequested`), which the no-escalation lemmas use;
- the exact per-name lookup, which `Scenarios.AdminRegistersAdmin` uses to
  show that a request for exactly the Administrator role gets exactly that
  role.

## Model

| member | source | states |
|---|---|---|
| UserRepository.FindAll | users-management-service/src/main/kotlin/org/xapps/service/usersservice/repositories/UserRepository.kt:15-18 | the result is exactly the set of stored users |
| UserRepository.FindById | users-management-service/src/main/kotlin/org/xapps/service/usersservice/repositories/UserRepository.kt:21-24 | present exactly when the key is stored, and then the stored user |
| UserRepository.Count | users-management-service/src/main/kotlin/org/xapps/service/usersservice/repositories/UserRepository.kt:26-29 | the count is zero exactly when the user hash is empty |
| UserRepository.Save | users-management-service/src/main/kotlin/org/xapps/service/usersservice/repositories/UserRepository.kt:31-37 | files the user under its e-mail, overwriting; every other key and the roles are untouched |
| UserRepository.Delete | users-management-service/src/main/kotlin/org/xapps/service/usersservice/repositories/UserRepository.kt:39-42 | removes only key `id`; reports 1 exactly when it was present, else 0; size drops by the count |
| UserRepository.FindAfterSave | users-management-service/src/main/kotlin/org/xapps/service/usersservice/repositories/UserRepository.kt:21-37 | a get after a put of the same user returns it |
| UserRepository.DeleteAfterSave | users-management-service/src/main/kotlin/org/xapps/service/usersservice/repositories/UserRepository.kt:31-42 | a remove after a put reports one entry and leaves the key absent |
| UserRepository.SavePreservesKeying | users-management-service/src/main/kotlin/org/xapps/service/usersservice/repositories/UserRepository.kt:34 | saving keeps every user filed under its own e-mail |
| UserRepository.SaveCount | users-management-service/src/main/kotlin/org/xapps/service/usersservice/repositories/UserRepository.kt:26-37 | a save grows the key count by one exactly when the e-mail was new |
| UserRepository.CountMatchesFindAll | users-management-service/src/main/kotlin/org/xapps/service/usersservice/repositories/UserRepository.kt:15-29 | in a store keyed by e-mail the key count equals the number of users listed |
| RoleRepository.FindAll | users-management-service/src/main/kotlin/org/xapps/service/usersservice/repositories/RoleRepository.kt:16-19 | the result is exactly the set of stored roles |
| RoleRepository.Count | users-management-service/src/main/kotlin/org/xapps/service/usersservice/repositories/RoleRepository.kt:21-25 | the count is zero exactly when the role hash is empty |
| RoleRepository.FindByName | users-management-service/src/main/kotlin/org/xapps/service/usersservice/repositories/RoleRepository.kt:32-37 | succeeds exactly when one stored role has the name, returning a stored role of that name; none and several are distinct errors |
| RoleRepository.Save | users-management-service/src/main/kotlin/org/xapps/service/usersservice/repositories/RoleRepository.kt:40-44 | files the role under its name, overwriting; every other key and the users are untouched |
| RoleRepository.SavePreservesKeying | users-management-service/src/main/kotlin/org/xapps/service/usersservice/repositories/RoleRepository.kt:43 | saving keeps every role filed under its own name, so no name is stored twice |
| RoleRepository.FindByNameKeyed | users-management-service/src/main/kotlin/org/xapps/service/usersservice/repositories/RoleRepository.kt:32-44 | in a store keyed by name the lookup succeeds exactly when the name is a key, and returns that role |
| RoleRepository.FindByNames | users-management-service/src/main/kotlin/org/xapps/service/usersservice/services/UserService.kt:102-103 | (assumed lookup) every resolved role is stored; empty exactly when no requested name is stored |
| RoleRepository.FindByNamesRequested | users-management-service/src/main/kotlin/org/xapps/service/usersservice/services/UserService.kt:102-103 | in a store keyed by name every resolved role was requested by name |
| UserService.HasAdminRole | users-management-service/src/main/kotlin/org/xapps/service/usersservice/services/UserService.kt:179-189 | true exactly when some role of the user is named Administrator |
| UserService.FindByUsername | users-management-service/src/main/kotlin/org/xapps/service/usersservice/services/UserService.kt:44-55 | nothing exactly when the account is absent; IllegalArgument exactly when the framework refuses the record (empty e-mail or a blank role name); otherwise its e-mail, stored password, and as authorities exactly the set of its role names |
| UserService.Authenticate | users-management-service/src/main/kotlin/org/xapps/service/usersservice/security/WebSecurityConfiguration.kt:62-67 | succeeds exactly when the account exists, is not refused, and the password matches its hash; a refused account fails with IllegalArgument, an unknown account and a wrong password both with BadCredentials |
| UserService.Login | users-management-service/src/main/kotlin/org/xapps/service/usersservice/services/UserService.kt:61-83 | succeeds exactly when the account exists, is not refused, and the password matches; failures are IllegalArgument for a refused account and BadCredentials otherwise; the expiration is now plus the validity; the token signs the redacted account issued at now |
| UserService.GetAllRoles | users-management-service/src/main/kotlin/org/xapps/service/usersservice/services/UserService.kt:57-59 | the result is exactly the stored roles |
| UserService.GetAll | users-management-service/src/main/kotlin/org/xapps/service/usersservice/services/UserService.kt:85-88 | every listed user is redacted, every stored user is listed redacted, nothing else is listed |
| UserService.GetById | users-management-service/src/main/kotlin/org/xapps/service/usersservice/services/UserService.kt:90-93 | present exactly when the id is stored, and then the stored user with only the password replaced |
| UserService.Resolve | users-management-service/src/main/kotlin/org/xapps/service/usersservice/services/UserService.kt:102-104 | the resolved roles are stored roles, and empty exactly when no requested name is stored |
| UserService.ResolvedRolesHaveText | users-management-service/src/main/kotlin/org/xapps/service/usersservice/services/UserService.kt:102-104 | when every stored role name has text, so does every resolved role name |
| UserService.Create | users-management-service/src/main/kotlin/org/xapps/service/usersservice/services/UserService.kt:95-115 | a taken e-mail fails with EmailNotAvailable and writes nothing; otherwise the request is stored under its e-mail with the encoded password, and its roles are exactly the stored roles its names resolve to, or exactly the guest role when none resolves |
| UserService.Update | users-management-service/src/main/kotlin/org/xapps/service/usersservice/services/UserService.kt:117-165 | an absent id fails with EmailNotFound and a rename onto a taken e-mail fails with EmailNotAvailable, both writing nothing; otherwise the result is Ok, `id` is replaced by the new e-mail holding the re-encoded password, and its roles are exactly the resolved roles, or the old ones when none resolves; an in-place update keeps the key set |
| UserService.Delete | users-management-service/src/main/kotlin/org/xapps/service/usersservice/services/UserService.kt:167-177 | succeeds exactly when the id was stored; only that key goes; a missing id fails with NotFound and writes nothing |
| UserService.CreatePreservesValid | users-management-service/src/main/kotlin/org/xapps/service/usersservice/services/UserService.kt:95-115 | registration keeps users keyed by e-mail, roles keyed by name, every user's roles non-empty, and every role name non-blank |
| UserService.UpdatePreservesValid | users-management-service/src/main/kotlin/org/xapps/service/usersservice/services/UserService.kt:117-165 | both update paths keep the store invariant; kept roles are non-empty because the old ones were |
| UserService.DeletePreservesValid | users-management-service/src/main/kotlin/org/xapps/service/usersservice/services/UserService.kt:167-177 | deletion keeps the store invariant |
| UserService.ValidRefusesOnlyEmptyEmail | users-management-service/src/main/kotlin/org/xapps/service/usersservice/services/UserService.kt:44-55 | in a valid store the framework refuses an account exactly when its e-mail is empty |
| UserService.CreateTwiceFails | users-management-service/src/main/kotlin/org/xapps/service/usersservice/services/UserService.kt:95-100 | after a successful registration, registering the same e-mail fails with EmailNotAvailable and writes nothing |
| UserService.LoginAfterCreate | users-management-service/src/main/kotlin/org/xapps/service/usersservice/services/UserService.kt:61-115 | a newly registered account logs in with its plaintext password unless the framework refuses the stored record, which fails with IllegalArgument; from a valid store that happens exactly under the empty e-mail |
| UserService.WrongPasswordAfterCreate | users-management-service/src/main/kotlin/org/xapps/service/usersservice/services/UserService.kt:45-66 | after registration, a password the hasher does not match against the registered hash is refused with BadCredentials, or with IllegalArgument when the stored record is refused |
| UserService.LoginAfterDeleteFails | users-management-service/src/main/kotlin/org/xapps/service/usersservice/services/UserService.kt:167-177 | after a deletion the former credentials are refused |
| UserService.RenameMovesAccount | users-management-service/src/main/kotlin/org/xapps/service/usersservice/services/UserService.kt:121-145 | after a rename the old e-mail no longer logs in; the new credentials do unless the new record is refused (IllegalArgument), which from a valid store happens exactly when the new e-mail is empty |
| DatabaseSeeder.SeedRoles | users-management-service/src/main/kotlin/org/xapps/service/usersservice/seeders/DatabaseSeeder.kt:25-35 | with no roles, exactly Administrator and Guest are written; otherwise the roles are untouched; users untouched |
| DatabaseSeeder.SeedUsers | users-management-service/src/main/kotlin/org/xapps/service/usersservice/seeders/DatabaseSeeder.kt:37-51 | with no users and a unique Administrator role, exactly the root account is written; otherwise nothing |
| DatabaseSeeder.Seed | users-management-service/src/main/kotlin/org/xapps/service/usersservice/seeders/DatabaseSeeder.kt:24-52 | the combined effect on every combination of empty and non-empty role and user hashes |
| DatabaseSeeder.SeedIdempotent | users-management-service/src/main/kotlin/org/xapps/service/usersservice/seeders/DatabaseSeeder.kt:26-38 | seeding twice equals seeding once, from any store |
| DatabaseSeeder.SeedRolesPreservesValid | users-management-service/src/main/kotlin/org/xapps/service/usersservice/seeders/DatabaseSeeder.kt:25-35 | the role step keeps the store invariant |
| DatabaseSeeder.SeedUsersPreservesValid | users-management-service/src/main/kotlin/org/xapps/service/usersservice/seeders/DatabaseSeeder.kt:37-51 | the user step keeps the store invariant |
| DatabaseSeeder.SeedPreservesValid | users-management-service/src/main/kotlin/org/xapps/service/usersservice/seeders/DatabaseSeeder.kt:24-52 | seeding keeps the store invariant |
| DatabaseSeeder.SeedEmpty | users-management-service/src/main/kotlin/org/xapps/service/usersservice/seeders/DatabaseSeeder.kt:37-49 | seeding an empty store yields a valid store whose root account holds the Administrator role |
| DatabaseSeeder.SeedThenLoginRoot | users-management-service/src/main/kotlin/org/xapps/service/usersservice/seeders/DatabaseSeeder.kt:40-45 | after seeding an empty store, root logs in with the seeded password |
| DatabaseSeeder.SeedThenCreateRootFails | users-management-service/src/main/kotlin/org/xapps/service/usersservice/seeders/DatabaseSeeder.kt:41 | after seeding an empty store, registering the root e-mail fails with EmailNotAvailable |
| AuthorizationFilter.StripBearer | users-management-service/src/main/kotlin/org/xapps/service/usersservice/security/AuthorizationFilter.kt:52 | stripping never lengthens the header |
| AuthorizationFilter.ReplaceBearer | users-management-service/src/main/kotlin/org/xapps/service/usersservice/security/AuthorizationFilter.kt:52 | the left-to-right replace-all loop computes the strip function |
| AuthorizationFilter.StripNoBearer | users-management-service/src/main/kotlin/org/xapps/service/usersservice/security/AuthorizationFilter.kt:52 | a string without "Bearer" passes unchanged |
| AuthorizationFilter.StripSpace | users-management-service/src/main/kotlin/org/xapps/service/usersservice/security/AuthorizationFilter.kt:52 | a leading space passes through the strip |
| AuthorizationFilter.StripBearerHeader | users-management-service/src/main/kotlin/org/xapps/service/usersservice/security/AuthorizationFilter.kt:52 | `Bearer <t>` becomes a space followed by the stripped `t` |
| AuthorizationFilter.BearerHeaderRoundTrip | users-management-service/src/main/kotlin/org/xapps/service/usersservice/security/AuthorizationFilter.kt:52 | a token without "Bearer" reaches the parser intact behind one space |
| AuthorizationFilter.StripShortens | users-management-service/src/main/kotlin/org/xapps/service/usersservice/security/AuthorizationFilter.kt:52 | a string holding "Bearer" anywhere comes out at least the word's length shorter, so it never reaches the parser unchanged |
| AuthorizationFilter.StripInsideToken | users-management-service/src/main/kotlin/org/xapps/service/usersservice/security/AuthorizationFilter.kt:52 | occurrences inside the token are removed too: `Bearer cBearerd` becomes ` cd` |
| AuthorizationFilter.GetAuthentication | users-management-service/src/main/kotlin/org/xapps/service/usersservice/security/AuthorizationFilter.kt:50-67 | an authentication exactly when the stripped token verifies and every role name of its subject has text; its principal is the decoded user and its authorities are that user's role names |
| AuthorizationFilter.FirstAuthentication | users-management-service/src/main/kotlin/org/xapps/service/usersservice/security/AuthorizationFilter.kt:35-37 | present exactly when some header verifies, and then that of the first such header |
| AuthorizationFilter.Filter | users-management-service/src/main/kotlin/org/xapps/service/usersservice/security/AuthorizationFilter.kt:28-48 | no header: unauthenticated with the status untouched; headers: the first verifying one authenticates; the status is set to 401 exactly when headers are present and none verifies |
| WebSecurity.Authorize | users-management-service/src/main/kotlin/org/xapps/service/usersservice/security/WebSecurityConfiguration.kt:52-55 | the exchange proceeds exactly when the caller is authenticated or it is POST /users/login or POST /users; otherwise it stops as unauthenticated |
| WebSecurity.HandlerStatus | users-management-service/src/main/kotlin/org/xapps/service/usersservice/security/WebSecurityConfiguration.kt:38-48 | the entry point answers 401 and the access-denied handler 403 |
| WebSecurity.NeverForbidden | users-management-service/src/main/kotlin/org/xapps/service/usersservice/security/WebSecurityConfiguration.kt:44-55 | the route table never denies an authenticated caller, so 403 is never produced |
| WebSecurity.AnonymousReach | users-management-service/src/main/kotlin/org/xapps/service/usersservice/security/WebSecurityConfiguration.kt:39-55 | anonymous callers reach exactly the two public POST routes; every other exchange answers 401 |
| UserController.GetRoles | users-management-service/src/main/kotlin/org/xapps/service/usersservice/controllers/UserController.kt:31-37 | the roles are listed exactly for an authenticated caller with the Administrator authority; others get AccessDenied |
| UserController.GetUsers | users-management-service/src/main/kotlin/org/xapps/service/usersservice/controllers/UserController.kt:39-44 | the users are listed exactly for an authenticated caller with the Administrator authority, and the list is the service listing: every stored user redacted and nothing else |
| UserController.GetUser | users-management-service/src/main/kotlin/org/xapps/service/usersservice/controllers/UserController.kt:54-60 | allowed exactly for an administrator or the owner of `id`; answers the redacted record or nothing |
| UserController.CreateUser | users-management-service/src/main/kotlin/org/xapps/service/usersservice/controllers/UserController.kt:62-92 | CredentialsNotProvided exactly when the raw request names Administrator and the caller is not an administrator principal, writing nothing; otherwise the service's create |
| UserController.UpdateUser | users-management-service/src/main/kotlin/org/xapps/service/usersservice/controllers/UserController.kt:94-126 | the owner-or-administrator guard first; then the same escalation rule on the request's role names; otherwise the service's update |
| UserController.DeleteUser | users-management-service/src/main/kotlin/org/xapps/service/usersservice/controllers/UserController.kt:128-133 | behind the owner-or-administrator guard, the result is the service's delete: succeeds exactly when the id is stored and removes only it; a refused caller writes nothing |
| UserController.Status | users-management-service/src/main/kotlin/org/xapps/service/usersservice/controllers/UserController.kt:136-150 | NotFound 404; InvalidCredentials, AccessDenied, BadCredentials, CredentialsNotProvided 401; EmailNotAvailable 400; IllegalArgument, NoSuchElement, MoreThanOneElement 500 |
| UserController.AccessTable | users-management-service/src/main/kotlin/org/xapps/service/usersservice/controllers/UserController.kt:58 | an administrator reaches every record, another authenticated caller exactly its own, an anonymous caller none |
| UserController.AuthorityMatchesRoles | users-management-service/src/main/kotlin/org/xapps/service/usersservice/security/AuthorizationFilter.kt:58-62 | for a token principal the guard's authority test and the escalation check's role test agree |
| UserController.ResolvedAdminWasRequested | users-management-service/src/main/kotlin/org/xapps/service/usersservice/services/UserService.kt:102-109 | an Administrator role resolves only from a request naming it |
| UserController.CreateNoEscalation | users-management-service/src/main/kotlin/org/xapps/service/usersservice/controllers/UserController.kt:66-92 | an account created holding Administrator was created by an administrator caller |
| UserController.UpdateNoEscalation | users-management-service/src/main/kotlin/org/xapps/service/usersservice/controllers/UserController.kt:100-126 | an account updated into holding Administrator already held it or was updated by an administrator caller |
| Exchange.StatusOf | users-management-service/src/main/kotlin/org/xapps/service/usersservice/controllers/UserController.kt:139-148 | answered exchanges are 200, failures take the handler's status, security stops are 401 when unauthenticated |
| Exchange.Handle | users-management-service/src/main/kotlin/org/xapps/service/usersservice/security/WebSecurityConfiguration.kt:37-59 | an anonymous caller on a protected endpoint is stopped with 401 and nothing is written; otherwise the controller runs with the filter's authentication |
| Exchange.WholeSecond | users-management-service/src/main/kotlin/org/xapps/service/usersservice/services/UserService.kt:74-78 | the millisecond instant cut to its whole second: a multiple of 1000 within one second of it, toward zero |
| Exchange.LoginTokenAuthenticates | users-management-service/src/main/kotlin/org/xapps/service/usersservice/services/UserService.kt:69-78 | a login token free of "Bearer", sent back as a bearer header at any moment until the clock passes its expiration cut to the whole second, authenticates the redacted account with its role names |
| Exchange.BearerInTokenBreaksVerification | users-management-service/src/main/kotlin/org/xapps/service/usersservice/security/AuthorizationFilter.kt:50-65 | a signed token holding "Bearer" is mangled by the replace-all, and a verifier that never accepts text shorter than a token does not return its claims |
| Exchange.ExpiredTokenRejected | users-management-service/src/main/kotlin/org/xapps/service/usersservice/security/AuthorizationFilter.kt:50-67 | once the clock is past a login token's expiration cut to the whole second, sending it to a protected endpoint answers 401 and writes nothing |
| Exchange.TokenOwnerMayAccess | users-management-service/src/main/kotlin/org/xapps/service/usersservice/controllers/UserController.kt:99 | a token's owner passes the record guard on its own e-mail |
| Exchange.TokenAdminMayList | users-management-service/src/main/kotlin/org/xapps/service/usersservice/controllers/UserController.kt:42 | a token passes the listing guard and the escalation check exactly when its account holds Administrator |
| Exchange.AnonymousProtectedRejected | users-management-service/src/main/kotlin/org/xapps/service/usersservice/security/WebSecurityConfiguration.kt:53-55 | without a header every endpoint but login and registration answers 401 and writes nothing |
| Scenarios.AuthenticateWithToken | users-management-service/src/main/kotlin/org/xapps/service/usersservice/security/AuthorizationFilter.kt:34-47 | a request carrying a login token is authenticated as that token's principal |
| Scenarios.RootLogsIn | users-management-service/src/test/kotlin/org/xapps/service/usersservice/integrations/UserManagementControllerClientSideTests.kt:58-72 | root logs in on a freshly seeded store |
| Scenarios.BadLoginIs401 | users-management-service/src/test/kotlin/org/xapps/service/usersservice/integrations/UserManagementControllerClientSideTests.kt:74-94 | on a seeded store an unknown e-mail, or root's e-mail with a password the hasher does not match against root's hash, answers 401 |
| Scenarios.RegisterWithDefaultRole | users-management-service/src/test/kotlin/org/xapps/service/usersservice/integrations/UserManagementControllerClientSideTests.kt:96-115 | anonymous registration without roles answers 200 with exactly the guest role |
| Scenarios.AnonymousAdminRegistrationIs401 | users-management-service/src/test/kotlin/org/xapps/service/usersservice/integrations/UserManagementControllerClientSideTests.kt:117-126 | anonymous registration naming Administrator answers 401 and writes nothing |
| Scenarios.AdminRegistersAdmin | users-management-service/src/test/kotlin/org/xapps/service/usersservice/integrations/UserManagementControllerClientSideTests.kt:128-145 | with an administrator's token, registering an administrator answers 200 with exactly the Administrator role |
| Scenarios.RootRegistersAdmin | users-management-service/src/test/kotlin/org/xapps/service/usersservice/integrations/UserManagementControllerClientSideTests.kt:128-145 | on a freshly seeded store root logs in and its token registers an administrator |
| Scenarios.DuplicateRegistrationIs400 | users-management-service/src/test/kotlin/org/xapps/service/usersservice/integrations/UserManagementControllerClientSideTests.kt:147-156 | registering the root e-mail again answers 400, the intent of the test, whose positional constructor actually sends "qwerty" as the e-mail |
| Scenarios.SelfRename | users-management-service/src/test/kotlin/org/xapps/service/usersservice/integrations/UserManagementControllerClientSideTests.kt:158-190 | a self-rename keeps the roles; the old credentials no longer log in, and the new ones do unless the new e-mail is empty (IllegalArgument) |
| Scenarios.UpdateOtherIs401 | users-management-service/src/test/kotlin/org/xapps/service/usersservice/integrations/UserManagementControllerClientSideTests.kt:192-209 | a non-administrator updating another record answers 401 and writes nothing |
| Scenarios.SelfPromotionIs401 | users-management-service/src/test/kotlin/org/xapps/service/usersservice/integrations/UserManagementControllerClientSideTests.kt:211-228 | a non-administrator granting itself Administrator answers 401 and writes nothing |
| Scenarios.AdminRenamesOther | users-management-service/src/test/kotlin/org/xapps/service/usersservice/integrations/UserManagementControllerClientSideTests.kt:243-270 | an administrator renames another account, which keeps its roles and logs in under the new e-mail unless the framework refuses it (empty e-mail or a blank role name: IllegalArgument) |
| Scenarios.SelfDeleteThenLoginFails | users-management-service/src/test/kotlin/org/xapps/service/usersservice/integrations/UserManagementControllerClientSideTests.kt:284-307 | deleting oneself answers 200 and the former credentials then answer 401 |
| Scenarios.SignUpThenRename | users-management-service/src/main/kotlin/org/xapps/service/usersservice/services/UserService.kt:95-165 | sign-up gives the guest role, a self-rename keeps it, and afterwards the old credentials are refused and the new ones log in; an account registered or renamed under the empty e-mail fails to log in with IllegalArgument |

## Left out

- Token signing and parsing (HS256) are the `sign` and `verify` parameters of `Exchange.Env`. The expiry check and the JSON decoding of the subject are part of `verify`, evaluated at `Env.now`. Lemmas that follow a token back through the filter assume `Exchange.Recognizes`: the verifier accepts every token the server signed, from its issue until the current time is past its expiration cut to the whole second, when the token reaches it intact behind one space, and gives back the signed subject. Lemmas about expiry assume `Exchange.RejectsExpired`: it refuses every such token once the current time is past that second. `Exchange.BearerInTokenBreaksVerification` assumes `Exchange.Genuine`: the verifier never returns a token's claims for text shorter than the token.
- Scenarios: each login is followed by requests at the same clock reading, with a validity that leaves the clock no later than the expiration cut to the whole second. A token presented later is covered by `Exchange.LoginTokenAuthenticates` while it is unexpired and by `Exchange.ExpiredTokenRejected` once it has expired.
- BCrypt hashing is a `UserService.Hasher` parameter. Its salt is not modelled, so `encode` stands for one run. BCrypt reads only the first 72 bytes of a password, so two passwords with the same 72-byte prefix match the same hash. No lemma assumes that distinct passwords never match. A refused login is proved from the pointwise hypothesis that the hasher does not match that password against that hash. Accepted logins assume `Sound`: every password matches its own hash.
- Reactive pipelines and concurrency are left out. Every operation runs alone, so these are not modelled: races between concurrent creates, a concurrent removal between the rename's check and its delete, the crash window between the rename's delete and insert, and the fire-and-forget saves of the seeder. As a result, the rename's NotFound branch is modelled but unreachable (`UserService.Update` proves that every case not rejected succeeds).
- The clock is the `now` parameter. The 64-bit wrap-around of `now + validity` is not modelled.
- Redis wiring, JSON serializers, configuration loading and application bootstrap are plumbing.
- The security-context repository is not modelled. The chain installs a no-op repository instead.
- The stale servlet security configuration and the unused user-role entity are not modelled.
- `RoleRepository.findById` is not modelled. It reads the users hash and nothing calls it.
- The status code of EmailNotFound is not modelled, because its exception class is not part of this model. `UserController.Status` gives no status for it.
- Request validation annotations are not modelled, and neither is path matching beyond exact comparison of method and path.
- The filter can set 401 on a public route whose handler later succeeds. How the framework settles the final status in that case is not modelled.
- A principal that is not a user record cannot arise from this filter, so the controller's type test on the principal is not modelled.
- User ids are random UUIDs in the service. Here the seeded root id is the `rootId` parameter, and a request's id is carried through unchanged.
- RoleRepository.FindByNames: the order and duplicates of the resolved roles are an assumption, since the repository does not declare the lookup. The properties the proofs rely on are listed above the model table.
- Scenarios: the lemmas state what each client-side test means to check. The tests build users with positional constructors whose first argument is the id, so every field lands one place over; the requests they literally send are not modelled.
- Exchange.LoginTokenAuthenticates: covers only login tokens free of "Bearer", and the token Scenarios require this through `Scenarios.CleanToken`. For a token holding the word, `Exchange.BearerInTokenBreaksVerification` shows that its own claims are not recovered. That such a request answers 401 would further need the mangled text to verify as no other token, which depends on the signature being unforgeable and is not modelled.
- Listing order and repetition are not modelled: `UserRepository.FindAll`, `RoleRepository.FindAll`, `UserService.GetAll`, `UserService.GetAllRoles` and `UserController.GetUsers` return sets, while the service streams lists. In a store keyed by e-mail no user is listed twice, and the key count equals the number listed (`UserRepository.CountMatchesFindAll`).
- AuthorizationFilter.StripBearer: its own contract states only that stripping never lengthens. Its behaviour is pinned down by `ReplaceBearer` and the strip lemmas.
