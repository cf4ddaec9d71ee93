/** The `users` queries the register and login code of every backend shares. */
module Accounts {
  import opened Wrappers
  import opened Schema

  /** What `login` and `register` hand back: never the password hash. */
  datatype PublicUser = PublicUser(id: string, email: string, username: string)

  function Public(u: User): PublicUser { PublicUser(u.id, u.email, u.username) }

  /** `SELECT ... FROM users WHERE email = ?` read with `.first()`: the first such row in table order. */
  function UserByEmail(users: seq<User>, email: string): (r: Option<User>)
    ensures r.None? <==> forall u :: u in users ==> u.email != email
    ensures r.Some? ==> r.value in users && r.value.email == email
  {
    if |users| == 0 then None
    else if users[0].email == email then Some(users[0])
    else
      assert users == [users[0]] + users[1..];
      UserByEmail(users[1..], email)
  }

  /** Emails are unique in valid tables, so the row found is the only one with that email. */
  lemma UserByEmailUnique(users: seq<User>, email: string, u: User)
    requires Seqs.Distinct(users, EmailKey) && u in users && u.email == email
    ensures UserByEmail(users, email) == Some(u)
  {
    var v := UserByEmail(users, email).value;
    var i :| 0 <= i < |users| && users[i] == u;
    var j :| 0 <= j < |users| && users[j] == v;
    assert EmailKey(users[i]) == EmailKey(users[j]);
  }

  /** A row appended with an email nobody had is what a lookup by that email finds. */
  lemma {:induction false} UserByEmailAppended(users: seq<User>, row: User)
    requires forall u :: u in users ==> u.email != row.email
    ensures UserByEmail(users + [row], row.email) == Some(row)
    decreases |users|
  {
    if |users| > 0 {
      assert (users + [row])[1..] == users[1..] + [row];
      UserByEmailAppended(users[1..], row);
    } else {
      assert users + [row] == [row];
    }
  }

  /** `SELECT id FROM users WHERE email = ? OR username = ?` finds a row. */
  predicate Taken(users: seq<User>, email: string, username: string)
  {
    exists u :: u in users && (u.email == email || u.username == username)
  }

  /** The row a registration inserts: no bio or avatar, `created_at == updated_at`. */
  function NewUserRow(id: string, email: string, username: string, passwordHash: string, now: int): User
  {
    User(id, email, username, passwordHash, None, None, now, now)
  }

  /** After the duplicate pre-check passes, the insert can only be refused for a reused id. */
  lemma PreCheckedInsert(t: Tables, id: string, email: string, username: string, passwordHash: string, now: int)
    requires !Taken(t.users, email, username)
    ensures CanInsertUser(t, NewUserRow(id, email, username, passwordHash, now)) <==> id !in UserIds(t)
  {
    if id in UserIds(t) {
      var u :| u in t.users && u.id == id;
    }
  }
}
