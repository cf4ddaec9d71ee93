/**
 * What the Remix register and login routes read and answer: `FormData`
 * entries, the 400 / redirect responses of their actions, and the redirect
 * of their loaders. The signed session cookie is represented by the user id
 * it commits.
 */
module RemixForm {
  import opened Wrappers

  /** A `FormData` entry: text or an uploaded file. A missing entry is `None`. */
  datatype FormEntry = Text(value: string) | FileEntry

  /** `typeof entry === "string"`. */
  function AsString(entry: Option<FormEntry>): (s: Option<string>)
    ensures s.Some? <==> entry.Some? && entry.value.Text?
    ensures s.Some? ==> entry == Some(Text(s.value))
  {
    if entry.Some? && entry.value.Text? then Some(entry.value.value) else None
  }

  datatype FormMessage = InvalidInput | PasswordTooShort | AlreadyInUse | WrongCredentials

  /** `json({error}, {status: 400})`, `createUserSession(userId, to)`, or an exception the framework turns into a 500. */
  datatype ActionResponse = BadRequest(message: FormMessage) | SignedIn(location: string, userId: string) | ServerError

  datatype LoaderResponse = RedirectTo(location: string) | ShowForm

  const TimelinePath := "/timeline"

  /** `getUserId`: the session's `userId` when it is a non-empty string. */
  function SignedInUser(sessionUserId: Option<string>): (id: Option<string>)
    ensures id.Some? <==> sessionUserId.Some? && sessionUserId.value != ""
    ensures id.Some? ==> id == sessionUserId
  {
    if sessionUserId.Some? && sessionUserId.value != "" then sessionUserId else None
  }

  /**
   * The `loader` of both the register and the login route: a signed-in
   * visitor is sent to the timeline, anyone else sees the form.
   */
  function Loader(sessionUserId: Option<string>): (r: LoaderResponse)
    ensures r == RedirectTo(TimelinePath) <==> SignedInUser(sessionUserId).Some?
    ensures r.ShowForm? <==> SignedInUser(sessionUserId).None?
  {
    if SignedInUser(sessionUserId).Some? then RedirectTo(TimelinePath) else ShowForm
  }
}
