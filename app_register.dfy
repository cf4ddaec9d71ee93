/**
 * The loader and action of app/routes/register.tsx: input type checks, the
 * six-character password minimum, the duplicate email-or-username check,
 * then `register` and a session for the new id.
 */
module AppRegister {
  import opened Wrappers
  import opened Schema
  import opened Password
  import opened Accounts
  import opened RemixForm
  import AuthD1

  const MinPasswordLength := 6

  datatype Registration = Registration(email: string, username: string, password: string)

  /** The three checks before anything is written, in order; the first failing one decides the message. */
  function CheckForm(users: seq<User>, email: Option<FormEntry>, username: Option<FormEntry>,
                     password: Option<FormEntry>): (r: Result<Registration, FormMessage>)
    ensures r == Failure(InvalidInput) <==>
      AsString(email).None? || AsString(username).None? || AsString(password).None?
    ensures r == Failure(PasswordTooShort) <==>
      AsString(email).Some? && AsString(username).Some? && AsString(password).Some?
      && |AsString(password).value| < MinPasswordLength
    ensures r == Failure(AlreadyInUse) <==>
      AsString(email).Some? && AsString(username).Some? && AsString(password).Some?
      && |AsString(password).value| >= MinPasswordLength
      && Taken(users, AsString(email).value, AsString(username).value)
    ensures r.Success? <==>
      AsString(email).Some? && AsString(username).Some? && AsString(password).Some?
      && |AsString(password).value| >= MinPasswordLength
      && !Taken(users, AsString(email).value, AsString(username).value)
    ensures r.Success? ==>
      r.value == Registration(AsString(email).value, AsString(username).value, AsString(password).value)
  {
    var e := AsString(email);
    var u := AsString(username);
    var p := AsString(password);
    if e.None? || u.None? || p.None? then Failure(InvalidInput)
    else if |p.value| < MinPasswordLength then Failure(PasswordTooShort)
    else if Taken(users, e.value, u.value) then Failure(AlreadyInUse)
    else Success(Registration(e.value, u.value, p.value))
  }

  /** A six-character password passes the length check; five characters do not. */
  lemma LengthBoundary(users: seq<User>, email: string, username: string)
    requires !Taken(users, email, username)
    ensures CheckForm(users, Some(Text(email)), Some(Text(username)), Some(Text("abcdef"))).Success?
    ensures CheckForm(users, Some(Text(email)), Some(Text(username)), Some(Text("abcde"))) == Failure(PasswordTooShort)
  {
  }

  /**
   * `action`: a refused form writes nothing; an accepted one inserts exactly
   * one user and signs them in, redirecting to the timeline. The insert
   * fails only when the generated id is already in use.
   */
  method Action(db: Database, h: Hasher, email: Option<FormEntry>, username: Option<FormEntry>,
                password: Option<FormEntry>, salt: string, newId: string, timestamp: int)
    returns (resp: ActionResponse)
    modifies db
    ensures var c := CheckForm(old(db.tables).users, email, username, password);
      && (c.Failure? ==> resp == BadRequest(c.error) && db.tables == old(db.tables))
      && (c.Success? ==>
            var row := NewUserRow(newId, c.value.email, c.value.username, HashPassword(h, c.value.password, salt), timestamp);
            if newId !in UserIds(old(db.tables))
            then resp == SignedIn(TimelinePath, newId) && db.tables == old(db.tables).(users := old(db.tables).users + [row])
            else resp == ServerError && db.tables == old(db.tables))
    ensures Valid(old(db.tables)) ==> Valid(db.tables)
  {
    var c := CheckForm(db.tables.users, email, username, password);
    if c.Failure? {
      return BadRequest(c.error);
    }
    PreCheckedInsert(db.tables, newId, c.value.email, c.value.username,
                     HashPassword(h, c.value.password, salt), timestamp);
    var user := AuthD1.Register(db, h, c.value.email, c.value.username, c.value.password, salt, newId, timestamp);
    if user.Failure? {
      return ServerError;
    }
    resp := SignedIn(TimelinePath, user.value.id);
  }
}
