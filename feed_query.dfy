/**
 * What the three feed queries share: the `posts JOIN users` relation, the
 * per-post like and comment rows, the seconds stored in `created_at` and
 * the shape of a timeline entry.
 */
module FeedQuery {
  import opened Wrappers
  import opened Seqs
  import opened Schema

  /** One row of `posts p JOIN users u ON p.user_id = u.id`. */
  datatype Joined = Joined(post: Post, author: User)

  function JoinedCreatedAt(j: Joined): int { j.post.createdAt }
  function PostCreatedAt(p: Post): int { p.createdAt }

  /** The join rows of one post: one per user whose id is the post's `user_id`. */
  function AuthorsOf(p: Post, users: seq<User>): (r: seq<Joined>)
    ensures forall j :: j in r <==> j.post == p && j.author in users && j.author.id == p.userId
  {
    if |users| == 0 then []
    else
      assert users == [users[0]] + users[1..];
      (if users[0].id == p.userId then [Joined(p, users[0])] else []) + AuthorsOf(p, users[1..])
  }

  /** `FROM posts p JOIN users u ON p.user_id = u.id WHERE where(p)`, before ordering. */
  function JoinAuthors(posts: seq<Post>, users: seq<User>, where: Post -> bool): (r: seq<Joined>)
    ensures forall j :: j in r <==>
      j.post in posts && where(j.post) && j.author in users && j.author.id == j.post.userId
  {
    if |posts| == 0 then []
    else
      assert posts == [posts[0]] + posts[1..];
      (if where(posts[0]) then AuthorsOf(posts[0], users) else []) + JoinAuthors(posts[1..], users, where)
  }

  /** The first user with that id, as a `one(users)` relation or a lookup by primary key reads it. */
  function FindUser(users: seq<User>, id: string): (r: Option<User>)
    ensures r.Some? ==> r.value in users && r.value.id == id
    ensures r.None? <==> forall u :: u in users ==> u.id != id
  {
    if |users| == 0 then None
    else if users[0].id == id then Some(users[0])
    else
      assert users == [users[0]] + users[1..];
      FindUser(users[1..], id)
  }

  function LikeOn(postId: string): Like -> bool { (l: Like) => l.postId == postId }
  function CommentOn(postId: string): Comment -> bool { (c: Comment) => c.postId == postId }

  /** The `likes` relation of a post. */
  function LikesOf(t: Tables, postId: string): seq<Like> { Filter(t.likes, LikeOn(postId)) }

  /** The `comments` relation of a post. */
  function CommentsOf(t: Tables, postId: string): seq<Comment> { Filter(t.comments, CommentOn(postId)) }

  /** `getCurrentTimestamp()`: `Math.floor(Date.now() / 1000)`, the seconds stored in `created_at`. */
  function SecondsOf(ms: int): (s: int)
    ensures s * 1000 <= ms < s * 1000 + 1000
  {
    ms / 1000
  }

  /** `new Date(createdAt * 1000)`: the instant a stored timestamp denotes, in milliseconds. */
  function CreatedAtMs(seconds: int): int { seconds * 1000 }

  /** Storing `SecondsOf(now)` and reading it back loses less than one second, never gains time. */
  lemma StoredTimestampRoundTrip(ms: int)
    ensures CreatedAtMs(SecondsOf(ms)) <= ms < CreatedAtMs(SecondsOf(ms)) + 1000
  {
  }

  /** Reading timestamps back keeps their order. */
  lemma CreatedAtMsMonotone(a: int, b: int)
    requires a >= b
    ensures CreatedAtMs(a) >= CreatedAtMs(b)
  {
  }

  datatype UserSummary = UserSummary(id: string, username: string, avatarUrl: Option<string>)

  function Summary(u: User): UserSummary { UserSummary(u.id, u.username, u.avatarUrl) }

  datatype PostCounts = PostCounts(likes: nat, comments: nat)

  /** A timeline entry: the post's columns, its author's summary and its counts. */
  datatype TimelinePost = TimelinePost(id: string, userId: string, title: string, description: Option<string>,
                                       audioUrl: string, latitude: Option<real>, longitude: Option<real>,
                                       location: Option<string>, createdAtMs: int, user: UserSummary,
                                       counts: PostCounts)

  /** The entry for a post with the given author and counts; every post column is copied unchanged. */
  function Entry(p: Post, author: User, counts: PostCounts): TimelinePost
  {
    TimelinePost(p.id, p.userId, p.title, p.description, p.audioUrl, p.latitude, p.longitude, p.location,
                 CreatedAtMs(p.createdAt), Summary(author), counts)
  }
}
