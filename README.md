# SoundMap core, modelled in Dafny

SoundMap is a web app for location-tagged audio posts. It has three backends:
- a Remix app over Prisma (`app/`);
- a Remix app over Cloudflare D1 (`app/*cloudflare*`);
- a TanStack Start app over D1, Drizzle, KV and R2 (`src/`).

This project models the rules those backends actually decide, and proves what they promise:

- **Upload rate limiter** (`RateLimit`). A fixed window of `{count, resetAt}` kept in a KV namespace.
- **KV sessions** (`Session`):
  - 64-character hex tokens made from 32 random bytes;
  - session records with a seven-day TTL;
  - the `Cookie` header parser;
  - the login and logout `Set-Cookie` values.
- **Uploads** (`Upload`, `UploadCloudflare`, `PostNew`):
  - file naming and the R2 key/URL convention;
  - the upload server function's guard chain;
  - the multipart chunk-concatenation loop that fills a preallocated buffer;
  - the R2 read-back that answers 404.
- **Data model** (`Schema`):
  - the five tables;
  - their UNIQUE and FOREIGN KEY constraints, as a validity predicate;
  - `ON DELETE CASCADE` deletes;
  - a `Database` whose inserts fail on a constraint violation.
- **Feeds** (`FeedQuery`, `FollowTimeline`, `GlobalTimeline`, `MapFeed`). Each query is stated as join, filter, sort descending and limit, plus relation counts.
- **Authentication**:
  - bcrypt abstracted as a `Hasher` (`Password`);
  - the two `register`/`login` helpers (`AuthD1`, `AuthPrisma`) over shared user queries (`Accounts`);
  - the Remix register and login routes (`AppRegister`, `AppLogin`, with `RemixForm`);
  - the TanStack register and login server functions (`SrcRegister`, `SrcLogin`).

Stateful parts are classes with `modifies` clauses:
- `RateLimiter`, whose field is the KV namespace;
- `SessionStore`;
- `Bucket`;
- `Database`.

The query and string logic is functions and lemmas.

The following are parameters of the operations that use them:
- the clock;
- `crypto.getRandomValues`;
- `crypto.randomUUID`;
- the bcrypt salt;
- the base-36 text of `Math.random()`;
- whether a bucket write or query throws.

Error messages that the source writes in Japanese are error constructors here.

Some behaviour is modelled exactly as written, though a reader might not anticipate it:
- `createPostFn` stores `data.latitude || null`, so a coordinate of exactly 0 is stored as NULL (`PostNew.NumberOrNull`). Such a post then never appears on the map.
- `getR2PublicUrl` removes only the first `audio/` from a key (`Upload.GetR2PublicUrl`).
- The Remix login uses `redirectTo` without validating it (`AppLogin.Action`).
- The TanStack `registerFn` checks no password length.
- The Remix register action requires at least 6 characters.

## Model

| member | source | states |
|---|---|---|
| RateLimit.CeilSeconds | src/utils/rate-limit.ts:84 | `Math.ceil(ms/1000)` is the least whole number of seconds covering `ms`, and at least 1 for a positive span |
| RateLimit.CurrentWindow | src/utils/rate-limit.ts:44-69 | a stored record that parses and has not expired is used as is; a missing, empty, unparsable or expired one starts a new window `{0, now + windowMs}`; a non-zero count can only come from the stored record, and for a positive window the window ends after `now` |
| RateLimit.Consume | src/utils/rate-limit.ts:37-93 | allowed iff the window's count is below `maxRequests`; a refusal writes nothing and reports remaining 0 with the window's `resetAt`; an allowed call stores count+1 and reports `maxRequests - newCount`; every other key is unchanged |
| RateLimit.RateLimiter.CheckRateLimit | src/utils/rate-limit.ts:32-94 | the imperative read-modify-write leaves exactly the namespace and decision that `Consume` describes |
| RateLimit.WrittenTtl | src/utils/rate-limit.ts:84-87 | the TTL written is `ceil((resetAt-now)/1000)` and at least one second whenever `windowMs > 0` |
| RateLimit.ConsumeKeepsBound | src/utils/rate-limit.ts:72-92 | for a fixed config every stored count stays within [0, maxRequests], and an allowed call's `remaining` is in [0, maxRequests) |
| RateLimit.RunInWindow | src/utils/rate-limit.ts:44-93 | within a live window holding `count` calls, call i is allowed exactly when `count + i < maxRequests`, with the matching `remaining` and the same `resetAt` |
| RateLimit.FreshWindowRun | src/utils/rate-limit.ts:44-93 | from no record, calls 1..N in one window are allowed with remaining N-1..0 and every later call is refused |
| RateLimit.UploadQuota | src/utils/rate-limit.ts:6-9 | under the upload policy ten uploads in an hour pass with 9..0 remaining and the eleventh is refused until `t0 + 3600000` |
| RateLimit.AfterReset | src/utils/rate-limit.ts:49-55 | once `now >= resetAt`, the next call starts a fresh window and is allowed as its first call |
| Session.Hex | src/utils/session.ts:16-18 | the text is twice as long as the bytes and every character is a lower-case hex digit |
| Session.UnhexHex | src/utils/session.ts:16-18 | hex decoding recovers the bytes that were encoded |
| Session.GenerateSessionToken | src/utils/session.ts:13-19 | a token is 64 lower-case hex characters from which the 32 random bytes are recoverable |
| Session.FirstToken | src/utils/session.ts:61-67 | the result is none iff no item carries a token; otherwise it is the token of the first item that does |
| Session.GetSessionTokenFromCookie | src/utils/session.ts:56-68 | the loop with its early return yields the `CookieToken` of the header: split on `;`, trim, split on `=`, first `session_id` with a non-empty value |
| Session.CookieToken | src/utils/session.ts:56-68 | no token for a missing or empty header; a token found is non-empty and holds no `=` |
| Session.ItemTokenNeedsName | src/utils/session.ts:62-63 | an item yields a token only when it begins with `session_id=` |
| Session.SessionCookie | src/utils/session.ts:71-73 | the login cookie begins `session_id=<token>;` and ends with `Max-Age=604800` |
| Session.LogoutCookie | src/utils/session.ts:76-78 | the logout cookie begins `session_id=;` and ends with `Max-Age=0` |
| Session.SessionCookieRoundTrip | src/utils/session.ts:13-19 | parsing the login `Set-Cookie` value gives back the token it carries |
| Session.LogoutCookieHasNoToken | src/utils/session.ts:76-78 | parsing the logout `Set-Cookie` value finds no token |
| Session.SessionStore.CreateSession | src/utils/session.ts:22-31 | the record is stored under the fresh token with TTL 604800 s, reads back as the data, and no other token changes |
| Session.SessionStore.GetSession | src/utils/session.ts:34-45 | the result is the record exactly when the stored value parses, and null for a missing, empty or unparsable entry |
| Session.SessionStore.DeleteSession | src/utils/session.ts:48-53 | only that token is removed, and it no longer reads back; deleting an absent token is allowed |
| Session.SessionStore.GetSessionFromRequest | src/utils/session.ts:81-89 | the session reached from the request's `Cookie` header, per `SessionFromRequest` |
| Session.SessionFromRequest | src/utils/session.ts:81-89 | no session exactly when the header has no token or the token has no parsable record |
| Session.SessionStore.RequireSession | src/utils/session.ts:92-101 | fails exactly when `getSessionFromRequest` gives null, otherwise returns that session |
| Session.SessionStore.CreateAndSetSession | src/utils/session.ts:22-31 | stores the session and returns the login cookie, which authenticates as that session |
| Session.LoginCookieAuthenticates | src/utils/session.ts:71-73 | a browser sending back the login cookie is recognised as the stored session |
| Session.DeletedTokenRejected | src/utils/session.ts:48-53 | after deletion the same cookie no longer authenticates |
| Upload.Extension | src/utils/upload.ts:5 | the text after the last `.`, or the whole name when there is none, with `"webm"` when that text is empty; never empty and never containing `.` |
| Upload.GenerateFileName | src/utils/upload.ts:4-9 | the name is `timestamp-random.` followed by the extension, and nothing else |
| Upload.GeneratedNameKeepsExtension | src/utils/upload.ts:4-9 | `timestamp-random.ext` carries the original name's extension |
| Upload.ContentType | src/utils/upload.ts:21 | the file's type, or `audio/webm` when it is empty |
| Strings.RemoveFirst | src/utils/upload.ts:32 | `replace` with a string pattern: the text is unchanged when the pattern does not occur, and otherwise loses exactly its first occurrence |
| Upload.GetR2PublicUrl | src/utils/upload.ts:29-33 | a key starting with `audio/` maps to `/audio/` plus the rest of the key |
| Upload.PublicUrlOfUploadKey | src/utils/upload.ts:17 | the URL of the key `audio/<name>` is `/audio/<name>`, even when the name itself starts with `audio/` |
| Upload.UploadAudioToR2 | src/utils/upload.ts:12-26 | stores the body under `audio/` plus the generated name, with the content-type rule, and returns that key |
| Upload.DeleteAudioFromR2 | src/utils/upload.ts:36-41 | removes exactly that key from the bucket |
| ObjectStore.Bucket.Get | app/utils/upload.server.cloudflare.ts:66 | `bucket.get` is null exactly for a missing key, and otherwise the stored object |
| UploadCloudflare.Concat | app/utils/upload.server.cloudflare.ts:22-29 | the concatenation is as long as the summed chunk lengths |
| UploadCloudflare.ConcatPlacesChunks | app/utils/upload.server.cloudflare.ts:25-29 | byte j of chunk i sits at the summed length of the chunks before it, plus j |
| UploadCloudflare.TotalLengthPrefix | app/utils/upload.server.cloudflare.ts:22-28 | the running offset never exceeds the allocated length |
| UploadCloudflare.UploadHandler | app/utils/upload.server.cloudflare.ts:16-32 | the buffer has the summed length and equals the in-order concatenation of the chunks; the loop keeps `offset` equal to the copied length, with the copied prefix in place |
| UploadCloudflare.UploadAudioFile | app/utils/upload.server.cloudflare.ts:39-51 | a missing or textual `audio` field fails and stores nothing; otherwise the part is stored under `<id>.webm` and `/audio/<id>.webm` is returned |
| UploadCloudflare.GetAudioFile | app/utils/upload.server.cloudflare.ts:61-79 | 404 exactly when the bucket has no object of that name; otherwise the object's body and content type |
| PostNew.FileCheck | src/routes/post/new.tsx:45-67 | missing or empty file, then a type outside the six allowed, then more than 50 MiB, in that order; the file passes exactly when none applies |
| PostNew.SizeBoundary | src/routes/post/new.tsx:51-67 | exactly 52428800 bytes pass, one more byte is too large, and a type outside the list is refused |
| PostNew.UploadAudioFn | src/routes/post/new.tsx:14-82 | first failing guard decides (bindings, session, rate limit, file); the limiter is charged for `upload:<userId>` before the file is looked at; success returns `getR2PublicUrl(key)` and a store failure the generic error with the bucket unchanged |
| PostNew.TextOrNull | src/routes/post/new.tsx:118 | `value \|\| null` stores NULL for a missing or empty string and the string otherwise |
| PostNew.NumberOrNull | src/routes/post/new.tsx:120-121 | `value \|\| null` stores NULL for a missing coordinate and also for 0 |
| PostNew.NewPostRow | src/routes/post/new.tsx:109-126 | the inserted row is owned by the session user and has `created_at == updated_at == now` |
| PostNew.CreatePostFn | src/routes/post/new.tsx:84-129 | without bindings or a session nothing is inserted; otherwise exactly one post of the session user is inserted unless the database refuses it; validity is kept |
| Schema.DeleteUser | src/db/schema.ts:19-60 | a row survives exactly when it is not the user, not by the user, not a follow in either direction with the user, and not a like or comment on one of the user's posts |
| Schema.DeletePost | src/db/schema.ts:49-60 | users and follows are untouched; a post, like or comment survives exactly when it is not that post or on it |
| Schema.DeleteUserCascades | src/db/schema.ts:19-60 | deleting a user keeps the tables valid and removes them, their posts, their follows in both directions, their likes and comments, and everything on their posts, keeping every other row |
| Schema.DeletePostCascades | src/db/schema.ts:49-60 | deleting a post keeps the tables valid and removes exactly it, its likes and its comments |
| Schema.DeleteUserKeepsUnique | src/db/schema.ts:6-53 | a cascade delete keeps every primary key and UNIQUE constraint |
| Schema.DeleteUserKeepsForeignKeys | src/db/schema.ts:19-60 | a cascade delete leaves no dangling reference |
| Schema.InsertUserKeepsValid | src/db/schema.ts:5-14 | inserting a user that clashes with no id, email or username keeps the tables valid |
| Schema.InsertPostKeepsValid | src/db/schema.ts:17-27 | inserting a post with a fresh id and an existing author keeps the tables valid |
| Schema.Database.InsertUser | src/db/schema.ts:6-8 | the insert succeeds exactly when no primary-key or UNIQUE constraint fails, and otherwise changes nothing |
| Schema.Database.InsertPost | src/db/schema.ts:18-19 | the insert succeeds exactly when the id is fresh and `user_id` references a user, and otherwise changes nothing |
| FeedQuery.JoinAuthors | app/routes/timeline.tsx:41-43 | a row is in the join iff its post passes the filter and its author is the user whose id is the post's `user_id` |
| FeedQuery.FindUser | src/routes/timeline.tsx:20-26 | finds a user with that id, or none exactly when no user has it |
| FeedQuery.SecondsOf | app/utils/db.server.cloudflare.ts:27-29 | the stored seconds `s` satisfy `s*1000 <= ms < s*1000 + 1000` |
| Seqs.Top | app/routes/timeline.tsx:44-45 | `ORDER BY ... DESC LIMIT n` is non-increasing, has length min(n, input), takes only input rows, and every row left out is no larger than every row kept |
| Seqs.SortDescSorts | src/routes/timeline.tsx:30 | the sort is non-increasing and a permutation of its input |
| Seqs.CountIsFilterLength | app/routes/timeline.tsx:39-40 | `COUNT(*)` equals the number of rows the same WHERE selects |
| FollowTimeline.FollowingIds | app/routes/timeline.tsx:12-17 | an id is listed iff some follow row has the user as follower and that id as followee |
| FollowTimeline.AuthorIds | app/routes/timeline.tsx:17-18 | the user's own id is pushed after the followees |
| FollowTimeline.Placeholders | app/routes/timeline.tsx:21 | the IN list is `2n-1` characters long for `n > 0` ids and empty for none |
| FollowTimeline.PlaceholdersMatchIds | app/routes/timeline.tsx:21 | the IN list has exactly one `?` per bound id, separated by commas |
| FollowTimeline.FeedAuthors | app/routes/timeline.tsx:12-18 | every entry is by the user or by a followee, with that author's id, username and avatar |
| FollowTimeline.FeedOrderLimitCounts | app/routes/timeline.tsx:39-69 | at most 50 entries, newest first, and each count is the number of like and comment rows of the post |
| FollowTimeline.FeedKeepsNewest | app/routes/timeline.tsx:44-45 | an eligible post left out is no newer than any shown one; with at most 50 eligible posts there is one entry per eligible post |
| FollowTimeline.OwnPostEligible | app/routes/timeline.tsx:18 | the user's own posts are eligible even when they follow nobody |
| FollowTimeline.EmptyFeed | app/routes/timeline.tsx:12-18 | with no follows and no own posts the timeline is empty |
| FollowTimeline.Loader | app/routes/timeline.tsx:7-73 | one entry per selected row, in order, built from the joined post and author |
| GlobalTimeline.GetTimeline | src/routes/timeline.tsx:10-13 | with no DATABASE binding the result is `{posts: []}` |
| GlobalTimeline.Attach | src/routes/timeline.tsx:34-53 | succeeds iff every selected post has its author; each entry copies the post, the author's summary and the lengths of the likes and comments relations |
| GlobalTimeline.ValidTimelineSucceeds | src/routes/timeline.tsx:18-53 | with the foreign keys in force the query never meets a post without an author |
| GlobalTimeline.TimelineOrdered | src/routes/timeline.tsx:30-31 | at most 50 entries, ordered by `createdAt` descending |
| GlobalTimeline.TimelineKeepsNewest | src/routes/timeline.tsx:30-31 | any post left out is no newer than any post shown |
| GlobalTimeline.TimelineShowsEveryAuthor | src/routes/timeline.tsx:18-32 | no follow filter: with at most 50 posts, every post of every author is shown |
| GlobalTimeline.TimelineRelations | src/routes/timeline.tsx:44-52 | counts are the lengths of the post's like and comment relations and the summary is the author's |
| MapFeed.GetMapPosts | src/routes/map.tsx:7-41 | a missing database or a failed query gives no posts and an error; otherwise one pin per selected row, at most 100 |
| MapFeed.MapPinsArePlaced | src/routes/map.tsx:16-33 | every pin's post has both coordinates and an existing author whose username it carries, and the rows are newest first |
| MapFeed.MapKeepsNewest | src/routes/map.tsx:29-31 | a geotagged post left off the map is no newer than any post on it |
| Password.VerifyPassword | app/utils/auth.server.cloudflare.ts:22-24 | for a sound hasher, a password is accepted against any hash made from it (app/utils/auth.server.ts:21-23 is the same function) |
| Password.HashPassword | app/utils/auth.server.cloudflare.ts:11-13 | for a sound hasher, a password matches its own hash |
| Accounts.UserByEmail | app/utils/auth.server.cloudflare.ts:79-82 | `.first()` of the email query: a row with that email, or none exactly when no row has it |
| Accounts.UserByEmailUnique | src/db/schema.ts:7 | with unique emails the row found is the one with that email |
| Accounts.UserByEmailAppended | app/utils/auth.server.cloudflare.ts:53-58 | a row appended with a new email is what the lookup by that email finds |
| Accounts.PreCheckedInsert | app/routes/register.tsx:39-51 | after the duplicate pre-check passes, the insert can only be refused for a reused id |
| AuthD1.Register | app/utils/auth.server.cloudflare.ts:36-61 | the row inserted holds the bcrypt hash of the password; the call succeeds exactly when the table constraints accept that row, and then returns its id, email and username with the row appended; a refusal changes nothing; validity is kept |
| AuthD1.Login | app/utils/auth.server.cloudflare.ts:68-95 | null when no row has the email; a result is the public fields of a row with that email whose hash matches |
| AuthD1.LoginExactly | app/utils/auth.server.cloudflare.ts:79-94 | on valid tables login succeeds exactly when the row with that email matches the password |
| AuthD1.RegisterThenLogin | app/utils/auth.server.cloudflare.ts:48-94 | with a sound hasher, register then login with the same email and password returns the new user |
| AuthPrisma.Register | app/utils/auth.server.ts:33-53 | `prisma.user.create` stores the hash and returns the created record's id, email and username, or fails changing nothing |
| AuthPrisma.FindUniqueByEmail | app/utils/auth.server.ts:69-71 | the row found has that email, and none is found only when no row has it |
| AuthPrisma.Login | app/utils/auth.server.ts:62-84 | null for an unknown email; a result is the public fields of a matching row whose hash matches |
| AuthPrisma.LoginAgreesWithD1 | app/utils/auth.server.ts:69-83 | on valid tables the Prisma and D1 logins give the same answer |
| AuthPrisma.RegisterThenLogin | app/utils/auth.server.ts:42-83 | with a sound hasher, register then login returns the registered user |
| RemixForm.AsString | app/routes/register.tsx:20-24 | `typeof entry === "string"` holds exactly for a present text entry |
| RemixForm.SignedInUser | app/utils/session.server.cloudflare.ts:54-59 | a visitor is signed in exactly when the session's `userId` is a non-empty string |
| RemixForm.Loader | app/routes/register.tsx:8-12 | a signed-in visitor is redirected to `/timeline`, anyone else sees the form; app/routes/login.tsx:7-11 is the same loader |
| AppRegister.CheckForm | app/routes/register.tsx:20-49 | in order: a non-string field, then a password under 6 characters, then an existing email or username; each fails with its own message and the form passes exactly when none applies |
| AppRegister.LengthBoundary | app/routes/register.tsx:31-36 | six characters pass the length check and five do not |
| AppRegister.Action | app/routes/register.tsx:14-54 | a refused form gets its 400 message and writes nothing; an accepted one appends the hashed user and redirects to `/timeline` signed in as the new id, unless the generated id is already taken, which fails writing nothing; validity is kept |
| AppLogin.RedirectTarget | app/routes/login.tsx:17 | a missing or empty `redirectTo` becomes `/timeline`; anything else is kept |
| AppLogin.Action | app/routes/login.tsx:13-40 | 400 for a non-string field; a session and a redirect to `redirectTo` exactly when login succeeds; one generic 400 otherwise |
| AppLogin.OneMessageForEveryFailure | app/routes/login.tsx:30-37 | an unknown email and a wrong password get the same 400 message, so the response does not reveal which it was |
| AppLogin.DefaultsToTimeline | app/routes/login.tsx:17-39 | with no `redirectTo`, a correct login lands on `/timeline` as that user |
| SrcRegister.Precheck | src/routes/register.tsx:14-30 | no DATABASE binding, then an existing email or username, each with its error; passes exactly when neither applies |
| SrcRegister.RegisterFn | src/routes/register.tsx:10-52 | a refusal writes no user and no session; otherwise one row with `password_hash = Hash(password)` and `created_at == updated_at`, and a session `{userId, username, email}`; no password-length check |
| SrcLogin.Authenticate | src/routes/login.tsx:13-33 | no DATABASE binding is its own error; a success is a row with that email whose hash matches; an unknown email gives the same error as a wrong password |
| SrcLogin.AuthenticateExactly | src/routes/login.tsx:19-33 | on valid tables login succeeds exactly when the row with that email matches the password |
| SrcLogin.LoginFn | src/routes/login.tsx:9-43 | a session holding the row's id, username and email is stored only after a successful compare; the result carries `userId = user.id` |

## Left out

- Time-to-live expiry in KV is not modelled. TTLs are stored with each entry but never evict it.
- Cloudflare KV refuses an `expirationTtl` below 60 seconds. The model accepts any TTL, so it misses the failed `put` of a rate-limit record written in the last minute of its window.
- The wire format of JSON records is not modelled. `JSON.stringify`/`parse` is an identity encoding, and a stored value is either empty, a parsed record or garbage. A record that parses but has the wrong shape counts as the record.
- Sessions and rate-limit records live in one KV namespace (`SESSION_KV`) in the source. Here they are two maps, because their key spaces are disjoint: `rate_limit:` never has the shape of a 64-hex-digit token.
- The `checkRateLimit` read-modify-write is not atomic. Calls are modelled one after another, so the model cannot show overruns from concurrent requests.
- `Date.now()`, `crypto.getRandomValues`, `crypto.randomUUID`, `Math.random().toString(36)`, and the bcrypt salt and algorithm are parameters. `Sound` is the one property of bcrypt the proofs rely on.
- `toLocaleTimeString` and `toISOString` are not modelled. A rate-limit error carries `resetAt`, and a timeline entry carries `createdAt` in milliseconds rather than an ISO string.
- Latitude and longitude are reals, so NaN and rounding are not modelled.
- String lengths count Unicode characters, not the UTF-16 code units of JavaScript's `length`. This matters for the password-length check.
- `getCurrentSession` and `createAndSetSession` are imported from `src/utils/session.ts` but not defined there:
  - `createAndSetSession` is modelled as `createSession` plus `createSessionCookie`;
  - the session of `uploadAudioFn` and `createPostFn` is an input.
- The signed cookie storage of the Remix session helpers is not modelled. A Remix session is the user id it commits.
- Multipart parsing and `FormData` are not modelled. The `audio` field of `uploadAudioFile` is an input: absent, text or a file part. How the framework stores the buffer that `uploadHandler` returns is not part of this model.
- Bucket response headers are not modelled: `writeHttpMetadata` and the `etag` header. The response keeps only the body and content type.
- SQL row order for equal `created_at` is unspecified. The model breaks ties by table order, using a stable sort.
- The join is only claimed to match SQL on tables whose ids are unique. Timeline lookups of a post's author take the first user with that id.
- The D1 `register` writes a column named `password`, while `src/db/schema.ts` and `registerFn` name it `password_hash`. Both are the `passwordHash` field here. This model does not capture an INSERT failing against a schema that lacks the column.
- Prisma fills in the id and timestamps of `prisma.user.create`. Its schema file is not part of this model, so they are parameters.
- `AuthD1.Register`, `AuthPrisma.Register`, `AppRegister.Action`, `SrcRegister.RegisterFn` and `CreatePostFn` model a refused INSERT as a failure result. In the source it is an uncaught exception; for `registerFn` the form's `catch` turns it into the generic "registration failed" message.
- The logger calls and `console.error` are left out.
- The 8-character `minLength` on the TanStack register form is browser-side HTML validation. `SrcRegister.RegisterFn` does not check it, and neither does this model.
- The UI components, the Remix cookie-session wrappers, `app/routes/post.new.tsx`, `app/utils/upload.server.ts`, `app/routes/map.tsx` and the stub logout routes are outside this model: they render, delegate to libraries or do file I/O.
