/**
 * `loginFn` of src/routes/login.tsx: the lookup by email, the bcrypt
 * compare, and a KV session only after both succeed.
 */
module SrcLogin {
  import opened Wrappers
  import opened Bytes
  import opened Kv
  import opened Schema
  import opened Password
  import opened Accounts
  import opened Session

  datatype LoginError = DatabaseUnavailable | WrongCredentials

  datatype LoggedIn = LoggedIn(userId: string, setCookie: string)

  /** The read-only part: the row found by email whose hash matches the password. */
  function Authenticate(hasDatabase: bool, users: seq<User>, h: Hasher, email: string, password: string): (r: Result<User, LoginError>)
    ensures r == Failure(DatabaseUnavailable) <==> !hasDatabase
    ensures r.Success? ==> r.value in users && r.value.email == email && h.compare(password, r.value.passwordHash)
    ensures hasDatabase && (forall u :: u in users ==> u.email != email) ==> r == Failure(WrongCredentials)
  {
    if !hasDatabase then Failure(DatabaseUnavailable)
    else
      match UserByEmail(users, email)
      case None => Failure(WrongCredentials)
      case Some(user) =>
        if VerifyPassword(h, password, user.passwordHash) then Success(user) else Failure(WrongCredentials)
  }

  /** On valid tables a login succeeds exactly for the password of the row with that email. */
  lemma AuthenticateExactly(t: Tables, h: Hasher, email: string, password: string)
    requires Valid(t)
    ensures Authenticate(true, t.users, h, email, password).Success? <==>
      exists u :: u in t.users && u.email == email && h.compare(password, u.passwordHash)
  {
    if u :| u in t.users && u.email == email && h.compare(password, u.passwordHash) {
      UserByEmailUnique(t.users, email, u);
    }
  }

  /** `loginFn`: a session is stored only after a successful compare, holding the row's id, username and email. */
  method LoginFn(hasDatabase: bool, t: Tables, sessions: SessionStore, h: Hasher,
                 email: string, password: string, random: seq<Byte>) returns (r: Result<LoggedIn, LoginError>)
    requires |random| == 32
    modifies sessions
    ensures var a := Authenticate(hasDatabase, t.users, h, email, password);
      && (a.Failure? ==> r == Failure(a.error) && sessions.kv == old(sessions.kv))
      && (a.Success? ==>
            var token := GenerateSessionToken(random);
            && sessions.kv == old(sessions.kv)[token := Kv.Entry(Json(SessionData(a.value.id, a.value.username, a.value.email)), SessionExpirySeconds)]
            && r == Success(LoggedIn(a.value.id, SessionCookie(token))))
  {
    var user := Authenticate(hasDatabase, t.users, h, email, password);
    if user.Failure? {
      return Failure(user.error);
    }
    var setCookie := sessions.CreateAndSetSession(SessionData(user.value.id, user.value.username, user.value.email), random);
    r := Success(LoggedIn(user.value.id, setCookie));
  }
}
