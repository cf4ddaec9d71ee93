/**
 * `getTimelineFn` of src/routes/timeline.tsx: the 50 newest posts of all
 * users, with each post's `user` relation and its `likes` and `comments`
 * relations reduced to their lengths. No follow filter is applied.
 */
module GlobalTimeline {
  import opened Wrappers
  import opened Seqs
  import opened Schema
  import opened FeedQuery

  const TimelineLimit := 50

  /** Reading `p.user.id` of a post whose `user` relation came back null throws. */
  datatype TimelineError = AuthorMissing

  /** `findMany({orderBy: [desc(createdAt)], limit: 50})` over `posts`. */
  function NewestPosts(t: Tables): seq<Post>
  {
    Top(t.posts, PostCreatedAt, TimelineLimit)
  }

  /** The `map` over the query result: each post with its author and relation lengths. */
  function Attach(t: Tables, posts: seq<Post>): (r: Result<seq<TimelinePost>, TimelineError>)
    ensures r.Success? <==> forall i :: 0 <= i < |posts| ==> FindUser(t.users, posts[i].userId).Some?
    ensures r.Success? ==> |r.value| == |posts| && forall i :: 0 <= i < |posts| ==>
      r.value[i] == Entry(posts[i], FindUser(t.users, posts[i].userId).value,
                          PostCounts(|LikesOf(t, posts[i].id)|, |CommentsOf(t, posts[i].id)|))
  {
    if |posts| == 0 then Success([])
    else
      match FindUser(t.users, posts[0].userId)
      case None => Failure(AuthorMissing)
      case Some(u) =>
        var rest := Attach(t, posts[1..]);
        if rest.Failure? then
          assert exists i :: 0 <= i < |posts| && FindUser(t.users, posts[i].userId).None? by {
            var i :| 0 <= i < |posts[1..]| && FindUser(t.users, posts[1..][i].userId).None?;
            assert posts[i + 1] == posts[1..][i];
          }
          Failure(AuthorMissing)
        else
          Success([Entry(posts[0], u, PostCounts(|LikesOf(t, posts[0].id)|, |CommentsOf(t, posts[0].id)|))] + rest.value)
  }

  /** `getTimelineFn`: `{posts: []}` without a DATABASE binding. */
  function GetTimeline(db: Option<Tables>): (r: Result<seq<TimelinePost>, TimelineError>)
    ensures db.None? ==> r == Success([])
  {
    match db
    case None => Success([])
    case Some(t) => Attach(t, NewestPosts(t))
  }

  /** On tables whose foreign keys hold every post has its author, so the query never fails. */
  lemma ValidTimelineSucceeds(t: Tables)
    requires ForeignKeys(t)
    ensures GetTimeline(Some(t)).Success?
  {
    var posts := NewestPosts(t);
    forall i | 0 <= i < |posts| ensures FindUser(t.users, posts[i].userId).Some? {
      assert posts[i] in multiset(posts);
      assert posts[i] in t.posts;
      var u :| u in t.users && u.id == posts[i].userId;
    }
  }

  /** The timeline is newest first and at most 50 long. */
  lemma TimelineOrdered(t: Tables)
    requires GetTimeline(Some(t)).Success?
    ensures var posts := GetTimeline(Some(t)).value;
      && |posts| <= TimelineLimit
      && (forall i, j :: 0 <= i < j < |posts| ==> posts[i].createdAtMs >= posts[j].createdAtMs)
  {
    var rows := NewestPosts(t);
    var posts := GetTimeline(Some(t)).value;
    forall i, j | 0 <= i < j < |posts| ensures posts[i].createdAtMs >= posts[j].createdAtMs {
      assert PostCreatedAt(rows[i]) >= PostCreatedAt(rows[j]);
    }
  }

  /** Any post left out is no newer than any post shown. */
  lemma TimelineKeepsNewest(t: Tables)
    requires GetTimeline(Some(t)).Success?
    ensures var posts := GetTimeline(Some(t)).value;
      forall p, k :: p in multiset(t.posts) - multiset(NewestPosts(t)) && 0 <= k < |posts| ==>
        CreatedAtMs(p.createdAt) <= posts[k].createdAtMs
  {
    var rows := NewestPosts(t);
    var posts := GetTimeline(Some(t)).value;
    forall p, k | p in multiset(t.posts) - multiset(rows) && 0 <= k < |posts|
      ensures CreatedAtMs(p.createdAt) <= posts[k].createdAtMs
    {
      TopOmitsNoLarger(t.posts, PostCreatedAt, TimelineLimit, p, k);
      CreatedAtMsMonotone(rows[k].createdAt, p.createdAt);
    }
  }

  /** No author filter: with at most 50 posts in the table, every post of every author is shown. */
  lemma TimelineShowsEveryAuthor(t: Tables)
    requires GetTimeline(Some(t)).Success? && |t.posts| <= TimelineLimit
    ensures var posts := GetTimeline(Some(t)).value;
      forall p :: p in t.posts ==> exists k :: 0 <= k < |posts| && posts[k].id == p.id
  {
    var rows := NewestPosts(t);
    var posts := GetTimeline(Some(t)).value;
    SubMultisetSameSize(multiset(rows), multiset(t.posts));
    forall p | p in t.posts ensures exists k :: 0 <= k < |posts| && posts[k].id == p.id {
      assert p in multiset(rows);
      var k :| 0 <= k < |rows| && rows[k] == p;
      assert posts[k].id == p.id;
    }
  }

  lemma SubMultisetSameSize<T>(a: multiset<T>, b: multiset<T>)
    requires a <= b && |a| == |b|
    ensures a == b
  {
    assert |b - a| == |b| - |a|;
  }

  /** Each entry's counts are the lengths of the post's `likes` and `comments` relations, and its summary is its author's. */
  lemma TimelineRelations(t: Tables)
    requires GetTimeline(Some(t)).Success?
    ensures var posts := GetTimeline(Some(t)).value;
      forall i :: 0 <= i < |posts| ==>
        && posts[i].counts == PostCounts(|LikesOf(t, posts[i].id)|, |CommentsOf(t, posts[i].id)|)
        && (exists u :: u in t.users && u.id == posts[i].userId && posts[i].user == Summary(u))
  {
    var rows := NewestPosts(t);
    var posts := GetTimeline(Some(t)).value;
    forall i | 0 <= i < |posts|
      ensures exists u :: u in t.users && u.id == posts[i].userId && posts[i].user == Summary(u)
    {
      var u := FindUser(t.users, rows[i].userId).value;
      assert posts[i].user == Summary(u);
    }
  }
}
