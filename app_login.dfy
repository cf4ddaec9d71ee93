/**
 * The loader and action of app/routes/login.tsx: the `redirectTo` default,
 * input type checks, one message for every failed login, and a session for
 * the user on success.
 */
module AppLogin {
  import opened Wrappers
  import opened Schema
  import opened Password
  import opened Accounts
  import opened RemixForm
  import AuthD1

  /** `formData.get("redirectTo") || "/timeline"`: a missing or empty entry becomes the timeline. */
  function RedirectTarget(entry: Option<FormEntry>): (r: Option<FormEntry>)
    ensures entry.None? || entry == Some(Text("")) ==> r == Some(Text(TimelinePath))
    ensures !(entry.None? || entry == Some(Text(""))) ==> r == entry
  {
    if entry.None? || entry == Some(Text("")) then Some(Text(TimelinePath)) else entry
  }

  /** `action`. Reading the database only; the response carries the session it commits. */
  function Action(users: seq<User>, h: Hasher, email: Option<FormEntry>, password: Option<FormEntry>,
                  redirectTo: Option<FormEntry>): (resp: ActionResponse)
    ensures resp == BadRequest(InvalidInput) <==>
      AsString(email).None? || AsString(password).None? || AsString(RedirectTarget(redirectTo)).None?
    ensures resp.SignedIn? <==>
      AsString(email).Some? && AsString(password).Some? && AsString(RedirectTarget(redirectTo)).Some?
      && AuthD1.Login(users, h, AsString(email).value, AsString(password).value).Some?
    ensures resp.SignedIn? ==>
      resp.location == AsString(RedirectTarget(redirectTo)).value
      && resp.userId == AuthD1.Login(users, h, AsString(email).value, AsString(password).value).value.id
    ensures resp.BadRequest? || resp.SignedIn?
  {
    var target := AsString(RedirectTarget(redirectTo));
    var e := AsString(email);
    var p := AsString(password);
    if e.None? || p.None? || target.None? then BadRequest(InvalidInput)
    else
      match AuthD1.Login(users, h, e.value, p.value)
      case None => BadRequest(WrongCredentials)
      case Some(user) => SignedIn(target.value, user.id)
  }

  /** An unknown email and a wrong password get the same answer. */
  lemma OneMessageForEveryFailure(users: seq<User>, h: Hasher, email: string, password: string, redirectTo: Option<FormEntry>)
    requires redirectTo.None? || redirectTo.value.Text?
    requires (forall u :: u in users ==> u.email != email)
      || (exists u :: u in users && u.email == email && forall v :: v in users && v.email == email ==> !h.compare(password, v.passwordHash))
    ensures Action(users, h, Some(Text(email)), Some(Text(password)), redirectTo) == BadRequest(WrongCredentials)
  {
  }

  /** With no `redirectTo` field a successful login lands on the timeline. */
  lemma DefaultsToTimeline(t: Tables, h: Hasher, email: string, password: string, u: User)
    requires Valid(t) && u in t.users && u.email == email && h.compare(password, u.passwordHash)
    ensures Action(t.users, h, Some(Text(email)), Some(Text(password)), None) == SignedIn(TimelinePath, u.id)
  {
    UserByEmailUnique(t.users, email, u);
  }
}
