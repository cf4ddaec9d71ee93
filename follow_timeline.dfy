/**
 * The loader of app/routes/timeline.tsx: the posts of the signed-in user
 * and of everyone they follow, newest first, at most 50, each with its
 * author's summary and its like and comment counts.
 */
module FollowTimeline {
  import opened Wrappers
  import opened Strings
  import opened Seqs
  import opened Schema
  import opened FeedQuery

  const FeedLimit := 50

  /** `SELECT following_id FROM follows WHERE follower_id = ?`, in table order. */
  function FollowingIds(follows: seq<Follow>, userId: string): (ids: seq<string>)
    ensures forall x :: x in ids <==> exists f :: f in follows && f.followerId == userId && f.followingId == x
  {
    if |follows| == 0 then []
    else
      assert follows == [follows[0]] + follows[1..];
      (if follows[0].followerId == userId then [follows[0].followingId] else [])
        + FollowingIds(follows[1..], userId)
  }

  /** The ids bound to the query: the followees, then the user's own id pushed at the end. */
  function AuthorIds(follows: seq<Follow>, userId: string): (ids: seq<string>)
    ensures |ids| > 0 && ids[|ids| - 1] == userId
  {
    FollowingIds(follows, userId) + [userId]
  }

  /** `followingIds.map(() => "?").join(",")`. */
  function Placeholders(ids: seq<string>): (list: string)
    ensures |list| == if |ids| == 0 then 0 else 2 * |ids| - 1
  {
    MarksJoinLength(|ids|);
    Join(Marks(|ids|), ',')
  }

  /** One `?` per bound id. */
  function Marks(n: nat): seq<string>
  {
    seq(n, _ => "?")
  }

  lemma {:induction false} MarksJoinLength(n: nat)
    ensures |Join(Marks(n), ',')| == if n == 0 then 0 else 2 * n - 1
  {
    if n > 1 {
      MarksJoinLength(n - 1);
      assert Marks(n)[1..] == Marks(n - 1);
      assert Marks(n)[0] == "?";
    }
  }

  /** The IN list has one `?` per bound id, separated by commas, so every id gets a parameter. */
  lemma {:induction false} PlaceholdersMatchIds(ids: seq<string>)
    ensures multiset(Placeholders(ids))['?'] == |ids|
    ensures |ids| > 0 ==> multiset(Placeholders(ids))[','] == |ids| - 1
    ensures forall c :: c in Placeholders(ids) ==> c == '?' || c == ','
    decreases |ids|
  {
    var marks := Marks(|ids|);
    if |ids| > 1 {
      PlaceholdersMatchIds(ids[1..]);
      assert marks[1..] == Marks(|ids[1..]|);
      assert Placeholders(ids) == "?" + [','] + Placeholders(ids[1..]);
    } else if |ids| == 1 {
      assert Placeholders(ids) == "?";
    }
  }

  function AuthoredBy(ids: seq<string>): Post -> bool { (p: Post) => p.userId in ids }

  /** The join rows the WHERE clause admits: posts of the bound ids that have an author row. */
  function Candidates(t: Tables, userId: string): seq<Joined>
  {
    JoinAuthors(t.posts, t.users, AuthoredBy(AuthorIds(t.follows, userId)))
  }

  /** `ORDER BY p.created_at DESC LIMIT 50`. */
  function FeedRows(t: Tables, userId: string): seq<Joined>
  {
    Top(Candidates(t, userId), JoinedCreatedAt, FeedLimit)
  }

  /** The mapped entry: `COUNT(*)` sub-selects for the counts and the joined user's summary. */
  function FeedEntry(t: Tables, j: Joined): TimelinePost
  {
    Entry(j.post, j.author, PostCounts(CountWhere(t.likes, LikeOn(j.post.id)), CountWhere(t.comments, CommentOn(j.post.id))))
  }

  /** `loader`: the timeline of `userId`. */
  function Loader(t: Tables, userId: string): (posts: seq<TimelinePost>)
    ensures |posts| == |FeedRows(t, userId)|
    ensures forall i :: 0 <= i < |posts| ==> posts[i] == FeedEntry(t, FeedRows(t, userId)[i])
  {
    var rows := FeedRows(t, userId);
    seq(|rows|, i requires 0 <= i < |rows| => FeedEntry(t, rows[i]))
  }

  /** Every entry is by the user or by someone the user follows, and its summary is that author's. */
  lemma FeedAuthors(t: Tables, userId: string)
    ensures var posts := Loader(t, userId);
      forall i :: 0 <= i < |posts| ==>
        && (posts[i].userId == userId
            || exists f :: f in t.follows && f.followerId == userId && f.followingId == posts[i].userId)
        && (exists u :: u in t.users && u.id == posts[i].userId && posts[i].user == Summary(u))
  {
    var rows := FeedRows(t, userId);
    var posts := Loader(t, userId);
    forall i | 0 <= i < |posts|
      ensures posts[i].userId == userId
        || exists f :: f in t.follows && f.followerId == userId && f.followingId == posts[i].userId
      ensures exists u :: u in t.users && u.id == posts[i].userId && posts[i].user == Summary(u)
    {
      assert rows[i] in multiset(rows);
      assert rows[i] in Candidates(t, userId);
      assert posts[i].userId == rows[i].post.userId;
      assert rows[i].post.userId in AuthorIds(t.follows, userId);
      assert posts[i].user == Summary(rows[i].author);
    }
  }

  /** Entries come newest first, there are at most 50, and each count is the number of related rows. */
  lemma FeedOrderLimitCounts(t: Tables, userId: string)
    ensures var posts := Loader(t, userId);
      && |posts| <= FeedLimit
      && (forall i, j :: 0 <= i < j < |posts| ==> posts[i].createdAtMs >= posts[j].createdAtMs)
      && (forall i :: 0 <= i < |posts| ==>
            posts[i].counts == PostCounts(|LikesOf(t, posts[i].id)|, |CommentsOf(t, posts[i].id)|))
  {
    var rows := FeedRows(t, userId);
    var posts := Loader(t, userId);
    forall i, j | 0 <= i < j < |posts| ensures posts[i].createdAtMs >= posts[j].createdAtMs {
      assert JoinedCreatedAt(rows[i]) >= JoinedCreatedAt(rows[j]);
    }
    forall i | 0 <= i < |posts|
      ensures posts[i].counts == PostCounts(|LikesOf(t, posts[i].id)|, |CommentsOf(t, posts[i].id)|)
    {
      CountIsFilterLength(t.likes, LikeOn(rows[i].post.id));
      CountIsFilterLength(t.comments, CommentOn(rows[i].post.id));
    }
  }

  /**
   * The 50 kept are the newest eligible posts: an eligible join row whose
   * entry is not in the timeline is no newer than any entry in it.
   */
  lemma FeedKeepsNewest(t: Tables, userId: string)
    ensures var posts := Loader(t, userId);
      forall j, k :: j in Candidates(t, userId) && FeedEntry(t, j) !in posts && 0 <= k < |posts| ==>
        CreatedAtMs(j.post.createdAt) <= posts[k].createdAtMs
    ensures |Candidates(t, userId)| <= FeedLimit ==> |Loader(t, userId)| == |Candidates(t, userId)|
  {
    var cands := Candidates(t, userId);
    var rows := FeedRows(t, userId);
    var posts := Loader(t, userId);
    forall j, k | j in cands && FeedEntry(t, j) !in posts && 0 <= k < |posts|
      ensures CreatedAtMs(j.post.createdAt) <= posts[k].createdAtMs
    {
      forall m | 0 <= m < |rows| ensures rows[m] != j {
        assert posts[m] == FeedEntry(t, rows[m]);
      }
      assert j !in multiset(rows);
      assert j in multiset(cands) - multiset(rows);
      TopOmitsNoLarger(cands, JoinedCreatedAt, FeedLimit, j, k);
      CreatedAtMsMonotone(rows[k].post.createdAt, j.post.createdAt);
    }
  }

  /** The user's own post is eligible even when they follow nobody. */
  lemma OwnPostEligible(t: Tables, userId: string, p: Post, u: User)
    requires p in t.posts && p.userId == userId && u in t.users && u.id == userId
    ensures Joined(p, u) in Candidates(t, userId)
  {
    assert AuthoredBy(AuthorIds(t.follows, userId))(p);
  }

  /** An eligible row's author is the user or a followee. */
  lemma CandidateAuthor(t: Tables, userId: string, j: Joined)
    requires j in Candidates(t, userId)
    ensures j.post.userId == userId || j.post.userId in FollowingIds(t.follows, userId)
  {
    assert AuthoredBy(AuthorIds(t.follows, userId))(j.post);
  }

  /** Someone who follows nobody and has posted nothing sees an empty timeline. */
  lemma EmptyFeed(t: Tables, userId: string)
    requires forall f :: f in t.follows ==> f.followerId != userId
    requires forall p :: p in t.posts ==> p.userId != userId
    ensures Loader(t, userId) == []
  {
    var cands := Candidates(t, userId);
    if cands != [] {
      CandidateAuthor(t, userId, cands[0]);
      assert false;
    }
  }
}
