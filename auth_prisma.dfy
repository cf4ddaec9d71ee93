/**
 * `register` and `login` of app/utils/auth.server.ts over the Prisma
 * `user` model. The id and timestamps Prisma fills in are parameters.
 */
module AuthPrisma {
  import opened Wrappers
  import opened Seqs
  import opened Schema
  import opened Password
  import opened Accounts
  import AuthD1

  /** `prisma.user.create` rejected the row; the exception propagates. */
  datatype CreateError = UniqueConstraintFailed

  /** `prisma.user.create({data: {email, username, password: hash}})`. */
  method Register(db: Database, h: Hasher, email: string, username: string, password: string,
                  salt: string, generatedId: string, now: int) returns (r: Result<PublicUser, CreateError>)
    modifies db
    ensures var row := NewUserRow(generatedId, email, username, HashPassword(h, password, salt), now);
      && (r.Success? <==> CanInsertUser(old(db.tables), row))
      && (r.Success? ==> r.value == Public(row) && db.tables == old(db.tables).(users := old(db.tables).users + [row]))
    ensures r.Failure? ==> db.tables == old(db.tables)
    ensures Valid(old(db.tables)) ==> Valid(db.tables)
  {
    var hashedPassword := HashPassword(h, password, salt);
    var row := NewUserRow(generatedId, email, username, hashedPassword, now);
    ghost var before := db.tables;
    var ok := db.InsertUser(row);
    if !ok {
      return Failure(UniqueConstraintFailed);
    }
    if Valid(before) {
      InsertUserKeepsValid(before, row);
    }
    r := Success(Public(row));
  }

  function EmailIs(email: string): User -> bool { (u: User) => u.email == email }

  /** `prisma.user.findUnique({where: {email}})`: the row whose email matches. */
  function FindUniqueByEmail(users: seq<User>, email: string): (r: Option<User>)
    ensures r.Some? ==> r.value in users && r.value.email == email
    ensures r.None? ==> forall u :: u in users ==> u.email != email
  {
    var matches := Filter(users, EmailIs(email));
    if |matches| == 0 then None else Some(matches[0])
  }

  /** `login`. */
  function Login(users: seq<User>, h: Hasher, email: string, password: string): (r: Option<PublicUser>)
    ensures (forall u :: u in users ==> u.email != email) ==> r.None?
    ensures r.Some? ==> exists u :: u in users && u.email == email && h.compare(password, u.passwordHash) && r.value == Public(u)
  {
    match FindUniqueByEmail(users, email)
    case None => None
    case Some(user) => if VerifyPassword(h, password, user.passwordHash) then Some(Public(user)) else None
  }

  /** With unique emails the Prisma lookup finds the row the D1 query does, so both logins agree. */
  lemma LoginAgreesWithD1(t: Tables, h: Hasher, email: string, password: string)
    requires Valid(t)
    ensures Login(t.users, h, email, password) == AuthD1.Login(t.users, h, email, password)
  {
    match FindUniqueByEmail(t.users, email)
    case None =>
    case Some(u) => UserByEmailUnique(t.users, email, u);
  }

  /** With a sound hasher, registering then logging in with the same email and password yields the new user. */
  lemma RegisterThenLogin(t: Tables, h: Hasher, email: string, username: string, password: string,
                          salt: string, generatedId: string, now: int)
    requires Valid(t) && Sound(h)
    requires CanInsertUser(t, NewUserRow(generatedId, email, username, HashPassword(h, password, salt), now))
    ensures var row := NewUserRow(generatedId, email, username, HashPassword(h, password, salt), now);
      Login(t.users + [row], h, email, password) == Some(PublicUser(generatedId, email, username))
  {
    var row := NewUserRow(generatedId, email, username, HashPassword(h, password, salt), now);
    InsertUserKeepsValid(t, row);
    LoginAgreesWithD1(t.(users := t.users + [row]), h, email, password);
    AuthD1.RegisterThenLogin(t, h, email, username, password, salt, generatedId, now);
  }
}
