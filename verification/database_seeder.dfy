/**
 * Start-up seeding: the two well-known roles when the role hash is empty, and
 * a root administrator when the user hash is empty. The steps run one after
 * the other.
 */
module DatabaseSeeder {
  import opened Results
  import opened Entities
  import opened Persistence
  import Users = UserRepository
  import Roles = RoleRepository
  import opened UserService

  const ROOT_EMAIL: string := "root@gmail.com"
  const ROOT_PASSWORD: string := "123456"
  const ROOT_NAME: string := "Administrator"

  /** The account seeded into an empty user hash; `rootId` stands for its random identifier. */
  function RootUser(h: Hasher, rootId: string, admin: Role): User {
    User(rootId, ROOT_EMAIL, h.encode(ROOT_PASSWORD), ROOT_NAME, [admin])
  }

  /** The role step: both well-known roles when there are none, nothing otherwise. */
  function SeedRoles(s: Store): (r: Store)
    ensures Roles.Count(s) == 0 ==> r.roles == map[ADMINISTRATOR := Role(ADMINISTRATOR), GUEST := Role(GUEST)]
    ensures Roles.Count(s) != 0 ==> r.roles == s.roles
    ensures r.users == s.users
    ensures r.roles != map[]
  {
    if Roles.Count(s) == 0 then
      var t := Roles.Save(Roles.Save(s, Role(ADMINISTRATOR)), Role(GUEST));
      assert ADMINISTRATOR in t.roles;
      t
    else s
  }

  /**
   * The user step: when there are no users, the root account with the role
   * found by name; a failed single-role lookup writes nothing.
   */
  function SeedUsers(s: Store, h: Hasher, rootId: string): (r: Store)
    ensures Users.Count(s) != 0 ==> r == s
    ensures Users.Count(s) == 0 && Roles.FindByName(s, ADMINISTRATOR).Err? ==> r == s
    ensures Users.Count(s) == 0 && Roles.FindByName(s, ADMINISTRATOR).Ok? ==>
              r == s.(users := map[ROOT_EMAIL := RootUser(h, rootId, Role(ADMINISTRATOR))])
  {
    if Users.Count(s) == 0 then
      match Roles.FindByName(s, ADMINISTRATOR)
      case Err(_) => s
      case Ok(admin) => Users.Save(s, RootUser(h, rootId, admin))
    else s
  }

  /** The whole seeding run: roles first, then the root account. */
  function Seed(s: Store, h: Hasher, rootId: string): (r: Store)
    ensures s.roles == map[] ==> r.roles == map[ADMINISTRATOR := Role(ADMINISTRATOR), GUEST := Role(GUEST)]
    ensures s.roles != map[] ==> r.roles == s.roles
    ensures s.users != map[] ==> r.users == s.users
    ensures s.users == map[] && s.roles == map[] ==> r.users == map[ROOT_EMAIL := RootUser(h, rootId, Role(ADMINISTRATOR))]
    ensures s.users == map[] && s.roles != map[] && Roles.FindByName(s, ADMINISTRATOR).Ok? ==>
              r.users == map[ROOT_EMAIL := RootUser(h, rootId, Role(ADMINISTRATOR))]
    ensures s.users == map[] && s.roles != map[] && Roles.FindByName(s, ADMINISTRATOR).Err? ==> r.users == map[]
  {
    var t := SeedRoles(s);
    assert s.roles == map[] ==> Roles.KeysNamed(t, ADMINISTRATOR) == {ADMINISTRATOR};
    SeedUsers(t, h, rootId)
  }

  /** Seeding a seeded store changes nothing, so running it twice equals running it once. */
  lemma SeedIdempotent(s: Store, h: Hasher, rootId: string)
    ensures Seed(Seed(s, h, rootId), h, rootId) == Seed(s, h, rootId)
  {
    var t := SeedRoles(s);
    var u := Seed(s, h, rootId);
    assert SeedRoles(u) == u;
    if u.users == map[] {
      assert t.users == map[];
      assert u == t;
    }
  }

  /** The role step keeps the store invariant. */
  lemma SeedRolesPreservesValid(s: Store)
    requires Valid(s)
    ensures Valid(SeedRoles(s))
  {
    var t := SeedRoles(s);
    assert t.users == s.users;
    if Roles.Count(s) == 0 {
      WellKnownRolesHaveText();
      assert forall k :: k in t.roles ==> k == ADMINISTRATOR || k == GUEST;
    }
  }

  /** The user step keeps the store invariant. */
  lemma SeedUsersPreservesValid(t: Store, h: Hasher, rootId: string)
    requires Valid(t)
    ensures Valid(SeedUsers(t, h, rootId))
  {
    var u := SeedUsers(t, h, rootId);
    WellKnownRolesHaveText();
    if Users.Count(t) == 0 && Roles.FindByName(t, ADMINISTRATOR).Ok? {
      assert u.users == map[ROOT_EMAIL := RootUser(h, rootId, Role(ADMINISTRATOR))];
      assert forall k :: k in u.users ==> k == ROOT_EMAIL;
    }
  }

  /** Seeding a valid store leaves it valid. */
  lemma SeedPreservesValid(s: Store, h: Hasher, rootId: string)
    requires Valid(s)
    ensures Valid(Seed(s, h, rootId))
  {
    SeedRolesPreservesValid(s);
    SeedUsersPreservesValid(SeedRoles(s), h, rootId);
  }

  /** Seeding an empty store yields a valid store holding the root administrator. */
  lemma SeedEmpty(h: Hasher, rootId: string)
    ensures Valid(Seed(Empty, h, rootId))
    ensures ROOT_EMAIL in Seed(Empty, h, rootId).users
    ensures HasAdminRole(Seed(Empty, h, rootId).users[ROOT_EMAIL])
  {
    var r := Seed(Empty, h, rootId);
    WellKnownRolesHaveText();
    assert r.users[ROOT_EMAIL].roles[0].value == ADMINISTRATOR;
  }

  /** On a freshly seeded store the root account logs in with the seeded password. */
  lemma SeedThenLoginRoot(h: Hasher, rootId: string, now: int, validity: int, sign: Claims -> string)
    requires Sound(h)
    ensures Login(Seed(Empty, h, rootId), LoginRequest(ROOT_EMAIL, ROOT_PASSWORD), h, now, validity, sign).Ok?
  {
    var r := Seed(Empty, h, rootId);
    WellKnownRolesHaveText();
    assert r.users[ROOT_EMAIL].password == h.encode(ROOT_PASSWORD);
  }

  /** On a freshly seeded store the root e-mail cannot be registered again. */
  lemma SeedThenCreateRootFails(h: Hasher, rootId: string, newUser: User)
    requires newUser.email == ROOT_EMAIL
    ensures Create(Seed(Empty, h, rootId), newUser, h).result == Err(EmailNotAvailable)
  {
  }
}
