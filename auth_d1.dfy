/**
 * `register` and `login` of app/utils/auth.server.cloudflare.ts over the
 * D1 `users` table. `crypto.randomUUID()`, the bcrypt salt and the clock
 * are parameters.
 */
module AuthD1 {
  import opened Wrappers
  import opened Schema
  import opened Password
  import opened Accounts

  /** The failed `run()` of an INSERT the database refused. */
  datatype InsertError = ConstraintViolation

  /**
   * `register`: hashes the password and inserts the row with no duplicate
   * check of its own, so a clash with an existing email, username or id is
   * the database's refusal.
   */
  method Register(db: Database, h: Hasher, email: string, username: string, password: string,
                  salt: string, userId: string, timestamp: int) returns (r: Result<PublicUser, InsertError>)
    modifies db
    ensures var row := NewUserRow(userId, email, username, HashPassword(h, password, salt), timestamp);
      && (r.Success? <==> CanInsertUser(old(db.tables), row))
      && (r.Success? ==> r.value == PublicUser(userId, email, username)
                         && db.tables == old(db.tables).(users := old(db.tables).users + [row]))
    ensures r.Failure? ==> db.tables == old(db.tables)
    ensures Valid(old(db.tables)) ==> Valid(db.tables)
  {
    var hashedPassword := HashPassword(h, password, salt);
    var row := NewUserRow(userId, email, username, hashedPassword, timestamp);
    ghost var before := db.tables;
    var ok := db.InsertUser(row);
    if !ok {
      return Failure(ConstraintViolation);
    }
    if Valid(before) {
      InsertUserKeepsValid(before, row);
    }
    r := Success(PublicUser(userId, email, username));
  }

  /** `login`: `null` when no row has the email or the password does not match it; otherwise the row's public fields. */
  function Login(users: seq<User>, h: Hasher, email: string, password: string): (r: Option<PublicUser>)
    ensures (forall u :: u in users ==> u.email != email) ==> r.None?
    ensures r.Some? ==> exists u :: u in users && u.email == email && h.compare(password, u.passwordHash) && r.value == Public(u)
  {
    match UserByEmail(users, email)
    case None => None
    case Some(user) => if VerifyPassword(h, password, user.passwordHash) then Some(Public(user)) else None
  }

  /** With unique emails, login succeeds exactly for the password of the one row with that email. */
  lemma LoginExactly(t: Tables, h: Hasher, email: string, password: string)
    requires Valid(t)
    ensures Login(t.users, h, email, password).Some? <==>
      exists u :: u in t.users && u.email == email && h.compare(password, u.passwordHash)
  {
    if u :| u in t.users && u.email == email && h.compare(password, u.passwordHash) {
      UserByEmailUnique(t.users, email, u);
    }
  }

  /** With a sound hasher, a new account can log in with the password it registered. */
  lemma RegisterThenLogin(t: Tables, h: Hasher, email: string, username: string, password: string,
                          salt: string, userId: string, timestamp: int)
    requires Sound(h)
    requires CanInsertUser(t, NewUserRow(userId, email, username, HashPassword(h, password, salt), timestamp))
    ensures var row := NewUserRow(userId, email, username, HashPassword(h, password, salt), timestamp);
      Login(t.users + [row], h, email, password) == Some(PublicUser(userId, email, username))
  {
    var row := NewUserRow(userId, email, username, HashPassword(h, password, salt), timestamp);
    UserByEmailAppended(t.users, row);
  }
}
