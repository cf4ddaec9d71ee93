/**
 * `registerFn` of src/routes/register.tsx: the duplicate pre-check, the
 * insert into `users.password_hash`, and the KV session for the new user.
 * There is no password-length check on the server; the eight-character
 * minimum lives only in the form's `minLength` attribute.
 */
module SrcRegister {
  import opened Wrappers
  import opened Bytes
  import opened Kv
  import opened Schema
  import opened Password
  import opened Accounts
  import opened Session

  datatype RegisterError = DatabaseUnavailable | AlreadyInUse | InsertRefused

  /** `{success: true, userId}`, with the `Set-Cookie` value `createAndSetSession` attaches. */
  datatype Registered = Registered(userId: string, setCookie: string)

  /** The guard before any write: a DATABASE binding and no row with that email or username. */
  function Precheck(hasDatabase: bool, users: seq<User>, email: string, username: string): (e: Option<RegisterError>)
    ensures e == Some(DatabaseUnavailable) <==> !hasDatabase
    ensures e == Some(AlreadyInUse) <==> hasDatabase && (exists u :: u in users && (u.email == email || u.username == username))
    ensures e.None? <==> hasDatabase && forall u :: u in users ==> u.email != email && u.username != username
  {
    if !hasDatabase then Some(DatabaseUnavailable)
    else if Taken(users, email, username) then Some(AlreadyInUse)
    else None
  }

  /**
   * `registerFn`: a refused registration writes neither a user nor a
   * session; an accepted one inserts exactly one user with the bcrypt hash
   * and `created_at == updated_at`, then stores `{userId, username, email}`
   * as its session.
   */
  method RegisterFn(hasDatabase: bool, db: Database, sessions: SessionStore, h: Hasher,
                    email: string, username: string, password: string,
                    salt: string, userId: string, now: int, random: seq<Byte>)
    returns (r: Result<Registered, RegisterError>)
    requires |random| == 32
    modifies db, sessions
    ensures Precheck(hasDatabase, old(db.tables).users, email, username).Some? ==>
      r == Failure(Precheck(hasDatabase, old(db.tables).users, email, username).value)
    ensures r.Failure? ==> db.tables == old(db.tables) && sessions.kv == old(sessions.kv)
    ensures Precheck(hasDatabase, old(db.tables).users, email, username).None? ==>
      var row := NewUserRow(userId, email, username, HashPassword(h, password, salt), now);
      var token := GenerateSessionToken(random);
      if userId in UserIds(old(db.tables)) then r == Failure(InsertRefused)
      else
        && db.tables == old(db.tables).(users := old(db.tables).users + [row])
        && sessions.kv == old(sessions.kv)[token := Kv.Entry(Json(SessionData(userId, username, email)), SessionExpirySeconds)]
        && r == Success(Registered(userId, SessionCookie(token)))
    ensures Valid(old(db.tables)) ==> Valid(db.tables)
  {
    var problem := Precheck(hasDatabase, db.tables.users, email, username);
    if problem.Some? {
      return Failure(problem.value);
    }
    var passwordHash := HashPassword(h, password, salt);
    var row := NewUserRow(userId, email, username, passwordHash, now);
    PreCheckedInsert(db.tables, userId, email, username, passwordHash, now);
    ghost var before := db.tables;
    var ok := db.InsertUser(row);
    if !ok {
      return Failure(InsertRefused);
    }
    if Valid(before) {
      InsertUserKeepsValid(before, row);
    }
    var setCookie := sessions.CreateAndSetSession(SessionData(userId, username, email), random);
    r := Success(Registered(userId, setCookie));
  }
}
