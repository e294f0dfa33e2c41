/** The user hash: every primitive is one hash command on the `users` key space. */
module UserRepository {
  import opened Results
  import opened Entities
  import opened Persistence

  /** What a removal leaves behind and how many entries it removed. */
  datatype Removal = Removal(store: Store, count: nat)

  /** All stored users (hash values). */
  function FindAll(s: Store): (us: set<User>)
    ensures forall u :: u in us <==> exists k :: k in s.users && s.users[k] == u
  {
    s.users.Values
  }

  /** The user filed under `id`, if any (hash get). */
  function FindById(s: Store, id: string): (r: Option<User>)
    ensures r.Some? <==> id in s.users
    ensures r.Some? ==> r.value == s.users[id]
  {
    if id in s.users then Some(s.users[id]) else None
  }

  /** The number of user keys (hash keys, counted). */
  function Count(s: Store): (n: nat)
    ensures n == 0 <==> s.users == map[]
  {
    |s.users|
  }

  /** Files `u` under its e-mail, replacing any previous entry, and hands `u` back (hash put). */
  function Save(s: Store, u: User): (r: Store)
    ensures r.users.Keys == s.users.Keys + {u.email}
    ensures r.users[u.email] == u
    ensures forall k :: k in s.users && k != u.email ==> r.users[k] == s.users[k]
    ensures r.roles == s.roles
  {
    s.(users := s.users[u.email := u])
  }

  /** Removes the entry filed under `id` and reports how many entries went (hash delete). */
  function Delete(s: Store, id: string): (r: Removal)
    ensures r.count <= 1
    ensures r.count == 1 <==> id in s.users
    ensures r.store.users.Keys == s.users.Keys - {id}
    ensures forall k :: k in r.store.users ==> r.store.users[k] == s.users[k]
    ensures |r.store.users| == |s.users| - r.count
    ensures r.store.roles == s.roles
  {
    if id in s.users then Removal(s.(users := s.users - {id}), 1) else Removal(s, 0)
  }

  /** Reading back what was just saved yields it. */
  lemma FindAfterSave(s: Store, u: User)
    ensures FindById(Save(s, u), u.email) == Some(u)
  {
  }

  /** A removal after a save of the same key always reports one entry. */
  lemma DeleteAfterSave(s: Store, u: User)
    ensures Delete(Save(s, u), u.email).count == 1
    ensures FindById(Delete(Save(s, u), u.email).store, u.email) == None
  {
  }

  /** Saving keeps the store keyed by e-mail. */
  lemma SavePreservesKeying(s: Store, u: User)
    requires UsersKeyedByEmail(s)
    ensures UsersKeyedByEmail(Save(s, u))
  {
  }

  /** Saving changes the count by one exactly when the key was new. */
  lemma SaveCount(s: Store, u: User)
    ensures Count(Save(s, u)) == if u.email in s.users then Count(s) else Count(s) + 1
  {
  }

  /**
   * In a store keyed by e-mail, distinct keys hold distinct users, so
   * counting the keys counts the users that `FindAll` returns.
   */
  lemma {:induction false} CountMatchesFindAll(s: Store)
    requires UsersKeyedByEmail(s)
    ensures Count(s) == |FindAll(s)|
    decreases |s.users|
  {
    if s.users != map[] {
      var k :| k in s.users;
      var rest := s.(users := s.users - {k});
      CountMatchesFindAll(rest);
      assert s.users.Keys == rest.users.Keys + {k};
      assert s.users.Values == rest.users.Values + {s.users[k]} by {
        forall v | v in s.users.Values ensures v in rest.users.Values || v == s.users[k] {
          var j :| j in s.users && s.users[j] == v;
          if j != k { assert rest.users[j] == v; }
        }
        forall v | v in rest.users.Values ensures v in s.users.Values {
          var j :| j in rest.users && rest.users[j] == v;
          assert s.users[j] == v;
        }
      }
      forall j | j in rest.users ensures rest.users[j] != s.users[k] {
        assert rest.users[j].email == j != k;
      }
      assert s.users[k] !in rest.users.Values;
      assert |s.users.Values| == |rest.users.Values| + 1;
      assert |s.users| == |s.users.Keys| == |rest.users.Keys| + 1 == |rest.users| + 1;
    }
  }
}
