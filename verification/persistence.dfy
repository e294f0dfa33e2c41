/**
 * The key-hash store behind both repositories: one hash of users keyed by
 * e-mail and one hash of roles keyed by role name.
 */
module Persistence {
  import opened Entities

  datatype Store = Store(users: map<string, User>, roles: map<string, Role>)

  /** A store with neither users nor roles, as on a fresh deployment. */
  const Empty: Store := Store(map[], map[])

  /** Every user is filed under its own e-mail. */
  predicate UsersKeyedByEmail(s: Store) {
    forall k :: k in s.users ==> s.users[k].email == k
  }

  /** Every role is filed under its own name. */
  predicate RolesKeyedByValue(s: Store) {
    forall k :: k in s.roles ==> s.roles[k].value == k
  }

  /** Every stored user holds at least one role. */
  predicate UsersHaveRoles(s: Store) {
    forall k :: k in s.users ==> |s.users[k].roles| > 0
  }

  /** Every stored role name, and every role name a user holds, has text. */
  predicate RoleNamesHaveText(s: Store) {
    && (forall k :: k in s.roles ==> HasText(s.roles[k].value))
    && (forall k :: k in s.users ==> RolesHaveText(s.users[k].roles))
  }

  /** The invariant that every write path of the service keeps. */
  predicate Valid(s: Store) {
    UsersKeyedByEmail(s) && RolesKeyedByValue(s) && UsersHaveRoles(s) && RoleNamesHaveText(s)
  }
}
