/** The role hash: every primitive is one hash command on the `roles` key space. */
module RoleRepository {
  import opened Results
  import opened Entities
  import opened Persistence

  /** All stored roles (hash values). */
  function FindAll(s: Store): (rs: set<Role>)
    ensures forall r :: r in rs <==> exists k :: k in s.roles && s.roles[k] == r
  {
    s.roles.Values
  }

  /** The number of role keys (hash keys, counted). */
  function Count(s: Store): (n: nat)
    ensures n == 0 <==> s.roles == map[]
  {
    |s.roles|
  }

  /** The keys whose stored role carries the name `name`. */
  function KeysNamed(s: Store, name: string): set<string> {
    set k | k in s.roles && s.roles[k].value == name
  }

  /**
   * Scans every stored role for the name `name` and demands exactly one
   * match: none and several are both errors of the single-item lookup.
   */
  function FindByName(s: Store, name: string): (r: Result<Role, Error>)
    ensures r.Ok? <==> |KeysNamed(s, name)| == 1
    ensures r.Ok? ==> r.value.value == name && r.value in s.roles.Values
    ensures r.Err? ==> r.error == (if KeysNamed(s, name) == {} then NoSuchElement else MoreThanOneElement)
  {
    var keys := KeysNamed(s, name);
    if |keys| == 0 then Err(NoSuchElement)
    else if |keys| == 1 then
      var k :| k in keys;
      assert s.roles[k] == Role(name);
      Ok(Role(name))
    else Err(MoreThanOneElement)
  }

  /** Files `r` under its name, replacing any previous entry, and hands `r` back (hash put). */
  function Save(s: Store, r: Role): (t: Store)
    ensures t.roles.Keys == s.roles.Keys + {r.value}
    ensures t.roles[r.value] == r
    ensures forall k :: k in s.roles && k != r.value ==> t.roles[k] == s.roles[k]
    ensures t.users == s.users
  {
    s.(roles := s.roles[r.value := r])
  }

  /**
   * Resolves requested role names to stored roles. The repository's own
   * definition of this lookup is not part of this model: it is ASSUMED to
   * look each requested name up as a key, in request order, and to skip
   * names that are not stored.
   */
  function FindByNames(roles: map<string, Role>, names: seq<string>): (rs: seq<Role>)
    ensures forall r :: r in rs ==> r in roles.Values
    ensures rs == [] <==> forall i :: 0 <= i < |names| ==> names[i] !in roles
    ensures |rs| <= |names|
    decreases |names|
  {
    if names == [] then []
    else (if names[0] in roles then [roles[names[0]]] else []) + FindByNames(roles, names[1..])
  }

  /** Saving keeps the roles keyed by name, so no name is stored twice. */
  lemma SavePreservesKeying(s: Store, r: Role)
    requires RolesKeyedByValue(s)
    ensures RolesKeyedByValue(Save(s, r))
  {
  }

  /** In a store keyed by name, the single-item lookup finds exactly the role filed under that name. */
  lemma FindByNameKeyed(s: Store, name: string)
    requires RolesKeyedByValue(s)
    ensures FindByName(s, name).Ok? <==> name in s.roles
    ensures name in s.roles ==> FindByName(s, name) == Ok(s.roles[name])
    ensures name !in s.roles ==> FindByName(s, name) == Err(NoSuchElement)
  {
    if name in s.roles {
      assert KeysNamed(s, name) == {name};
    } else {
      assert KeysNamed(s, name) == {};
    }
  }

  /** In a store keyed by name, every resolved role was asked for by name. */
  lemma {:induction false} FindByNamesRequested(s: Store, names: seq<string>)
    requires RolesKeyedByValue(s)
    ensures forall r :: r in FindByNames(s.roles, names) ==> r.value in names
    decreases |names|
  {
    if names != [] {
      FindByNamesRequested(s, names[1..]);
      forall r | r in FindByNames(s.roles, names)
        ensures r.value in names
      {
        if r in FindByNames(s.roles, names[1..]) {
          assert r.value in names[1..];
        } else {
          assert r == s.roles[names[0]];
        }
      }
    }
  }
}
