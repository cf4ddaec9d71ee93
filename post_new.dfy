/**
 * The two server functions of src/routes/post/new.tsx: `uploadAudioFn`, a
 * chain of early-return guards in front of the bucket write, and
 * `createPostFn`, which inserts the post row. The session is the one
 * `getCurrentSession` found; `Date.now()`, the generated id and the random
 * file-name part are parameters, and `storeFails` stands for the bucket
 * write throwing.
 */
module PostNew {
  import opened Wrappers
  import opened Strings
  import opened Session
  import opened RateLimit
  import opened ObjectStore
  import opened Upload
  import opened Schema

  datatype UploadError =
    | BindingsUnavailable
    | SessionRequired
    | UploadLimitReached(resetAt: int)
    | NoAudioSelected
    | UnsupportedFormat
    | FileTooLarge
    | UploadFailed

  datatype UploadSuccess = UploadSuccess(audioUrl: string, key: string)

  const AllowedTypes: seq<string> :=
    ["audio/webm", "audio/mpeg", "audio/wav", "audio/ogg", "audio/mp4", "audio/m4a"]

  /** 50 MiB. */
  const MaxSize := 50 * 1024 * 1024

  /** The rate-limit key of a user's uploads. */
  function UploadLimitKey(userId: string): string
  {
    "upload:" + userId
  }

  /** The three checks on the `audio` field, in order: present and non-empty, an allowed type, at most `MaxSize` bytes. */
  function FileCheck(file: Option<File>): (e: Option<UploadError>)
    ensures e.None? <==>
      file.Some? && file.value.size != 0 && file.value.fileType in AllowedTypes && file.value.size <= MaxSize
    ensures e == Some(NoAudioSelected) <==> file.None? || file.value.size == 0
    ensures e == Some(UnsupportedFormat) <==>
      file.Some? && file.value.size != 0 && file.value.fileType !in AllowedTypes
    ensures e == Some(FileTooLarge) <==>
      file.Some? && file.value.size != 0 && file.value.fileType in AllowedTypes && file.value.size > MaxSize
  {
    if file.None? || file.value.size == 0 then Some(NoAudioSelected)
    else if file.value.fileType !in AllowedTypes then Some(UnsupportedFormat)
    else if file.value.size > MaxSize then Some(FileTooLarge)
    else None
  }

  /** Exactly 50 MiB is accepted and one byte more is not; a type outside the list is refused whatever the size. */
  lemma SizeBoundary(name: string, body: seq<Bytes.Byte>)
    ensures FileCheck(Some(File(name, "audio/webm", 52428800, body))).None?
    ensures FileCheck(Some(File(name, "audio/webm", 52428801, body))) == Some(FileTooLarge)
    ensures FileCheck(Some(File(name, "audio/flac", 1, body))) == Some(UnsupportedFormat)
  {
    assert "audio/flac" != AllowedTypes[0] && "audio/flac" != AllowedTypes[1];
  }

  /**
   * `uploadAudioFn`: the first failing guard decides the error. Once the
   * session is known the limiter is charged for `upload:<userId>`, so a file
   * refused afterwards still uses up quota; only a stored file changes the
   * bucket.
   */
  method UploadAudioFn(bindings: bool, session: Option<SessionData>, limiter: RateLimiter, bucket: Bucket,
                       audio: Option<File>, now: int, timestamp: string, random: string, storeFails: bool)
    returns (r: Result<UploadSuccess, UploadError>)
    modifies limiter, bucket
    ensures !bindings ==> r == Failure(BindingsUnavailable)
    ensures bindings && session.None? ==> r == Failure(SessionRequired)
    ensures !bindings || session.None? ==> limiter.kv == old(limiter.kv)
    ensures bindings && session.Some? ==>
      limiter.kv == Consume(old(limiter.kv), UploadLimitKey(session.value.userId), UploadRateLimit, now).kv
    ensures bindings && session.Some? ==>
      var d := Consume(old(limiter.kv), UploadLimitKey(session.value.userId), UploadRateLimit, now).decision;
      && (!d.allowed ==> r == Failure(UploadLimitReached(d.resetAt)))
      && (d.allowed && FileCheck(audio).Some? ==> r == Failure(FileCheck(audio).value))
      && (d.allowed && FileCheck(audio).None? && storeFails ==> r == Failure(UploadFailed))
      && (d.allowed && FileCheck(audio).None? && !storeFails ==>
            var key := AudioPrefix + GenerateFileName(audio.value.name, timestamp, random);
            r == Success(UploadSuccess("/audio/" + GenerateFileName(audio.value.name, timestamp, random), key)))
    ensures r.Failure? ==> bucket.objects == old(bucket.objects)
    ensures r.Success? ==>
      bucket.objects == old(bucket.objects)[r.value.key := StoredObject(audio.value.body, Some(ContentType(audio.value.fileType)))]
  {
    if !bindings {
      return Failure(BindingsUnavailable);
    }
    if session.None? {
      return Failure(SessionRequired);
    }
    var rateLimit := limiter.CheckRateLimit(UploadLimitKey(session.value.userId), UploadRateLimit, now);
    if !rateLimit.allowed {
      return Failure(UploadLimitReached(rateLimit.resetAt));
    }
    var problem := FileCheck(audio);
    if problem.Some? {
      return Failure(problem.value);
    }
    if storeFails {
      return Failure(UploadFailed);
    }
    var key := UploadAudioToR2(bucket, audio.value, timestamp, random);
    var audioUrl := GetR2PublicUrl(key);
    PublicUrlOfUploadKey(GenerateFileName(audio.value.name, timestamp, random));
    r := Success(UploadSuccess(audioUrl, key));
  }

  /** The fields the post form sends. */
  datatype PostInput = PostInput(title: string, description: Option<string>, audioUrl: string,
                                 latitude: Option<real>, longitude: Option<real>, location: Option<string>)

  datatype CreatePostError = DatabaseUnavailable | SignInRequired | InsertFailed

  /** `value || null` on an optional string: an empty string is stored as NULL. */
  function TextOrNull(s: Option<string>): (r: Option<string>)
    ensures r.None? <==> s.None? || s.value == ""
    ensures r.Some? ==> r == s
  {
    if s.None? || s.value == "" then None else s
  }

  /** `value || null` on an optional number: zero is falsy, so a coordinate of 0 is stored as NULL. */
  function NumberOrNull(x: Option<real>): (r: Option<real>)
    ensures r.None? <==> x.None? || x.value == 0.0
    ensures r.Some? ==> r == x
  {
    if x.None? || x.value == 0.0 then None else x
  }

  /** The row `createPostFn` binds to its INSERT. */
  function NewPostRow(postId: string, userId: string, data: PostInput, now: int): (p: Post)
    ensures p.id == postId && p.userId == userId && p.createdAt == p.updatedAt == now
  {
    Post(postId, userId, data.title, TextOrNull(data.description), data.audioUrl,
         NumberOrNull(data.latitude), NumberOrNull(data.longitude), TextOrNull(data.location), now, now)
  }

  /**
   * `createPostFn`: without bindings or a session nothing is written;
   * otherwise exactly one post owned by the session user is inserted, unless
   * the database refuses it, in which case the failed `run()` propagates.
   */
  method CreatePostFn(bindings: bool, db: Database, session: Option<SessionData>, data: PostInput,
                      postId: string, now: int) returns (r: Result<string, CreatePostError>)
    modifies db
    ensures !bindings ==> r == Failure(DatabaseUnavailable)
    ensures bindings && session.None? ==> r == Failure(SignInRequired)
    ensures r.Failure? ==> db.tables == old(db.tables)
    ensures bindings && session.Some? ==>
      var row := NewPostRow(postId, session.value.userId, data, now);
      && (r.Success? <==> CanInsertPost(old(db.tables), row))
      && (r.Success? ==> r.value == postId && db.tables == old(db.tables).(posts := old(db.tables).posts + [row]))
    ensures Valid(old(db.tables)) ==> Valid(db.tables)
  {
    if !bindings {
      return Failure(DatabaseUnavailable);
    }
    if session.None? {
      return Failure(SignInRequired);
    }
    var row := NewPostRow(postId, session.value.userId, data, now);
    ghost var before := db.tables;
    var ok := db.InsertPost(row);
    if !ok {
      return Failure(InsertFailed);
    }
    if Valid(before) {
      InsertPostKeepsValid(before, row);
    }
    r := Success(postId);
  }
}
