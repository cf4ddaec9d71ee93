/**
 * `getMapPostsFn` of src/routes/map.tsx: the 100 newest posts that carry
 * both coordinates, each with its author's username, or an empty list and
 * an error when there is no database or the query fails. `queryFails`
 * stands for the query throwing.
 */
module MapFeed {
  import opened Wrappers
  import opened Seqs
  import opened Schema
  import opened FeedQuery

  const MapLimit := 100

  datatype MapPost = MapPost(id: string, title: string, description: Option<string>, audioUrl: string,
                             latitude: real, longitude: real, location: Option<string>, username: string)

  datatype MapError = DatabaseNotAvailable | FetchFailed

  datatype MapResult = MapResult(posts: seq<MapPost>, error: Option<MapError>)

  /** `p.latitude IS NOT NULL AND p.longitude IS NOT NULL`. */
  function Geotagged(p: Post): bool { p.latitude.Some? && p.longitude.Some? }

  /** The join, filtered, `ORDER BY p.created_at DESC LIMIT 100`. */
  function MapRows(t: Tables): (rows: seq<Joined>)
    ensures forall j :: j in rows ==> j in JoinAuthors(t.posts, t.users, Geotagged)
  {
    var rows := Top(JoinAuthors(t.posts, t.users, Geotagged), JoinedCreatedAt, MapLimit);
    assert forall j :: j in rows ==> j in multiset(rows);
    rows
  }

  /** The selected columns of one row. */
  function MapRow(j: Joined): MapPost
    requires Geotagged(j.post)
  {
    MapPost(j.post.id, j.post.title, j.post.description, j.post.audioUrl,
            j.post.latitude.value, j.post.longitude.value, j.post.location, j.author.username)
  }

  /** `getMapPostsFn`: every failure is caught and answered with no posts and an error. */
  function GetMapPosts(db: Option<Tables>, queryFails: bool): (r: MapResult)
    ensures db.None? ==> r == MapResult([], Some(DatabaseNotAvailable))
    ensures db.Some? && queryFails ==> r == MapResult([], Some(FetchFailed))
    ensures r.error.None? <==> db.Some? && !queryFails
    ensures r.error.Some? ==> r.posts == []
    ensures r.error.None? ==> |r.posts| == |MapRows(db.value)| <= MapLimit
    ensures r.error.None? ==> forall i :: 0 <= i < |r.posts| ==> r.posts[i] == MapRow(MapRows(db.value)[i])
  {
    if db.None? then MapResult([], Some(DatabaseNotAvailable))
    else if queryFails then MapResult([], Some(FetchFailed))
    else
      var rows := MapRows(db.value);
      assert forall i :: 0 <= i < |rows| ==> rows[i] in rows;
      MapResult(seq(|rows|, i requires 0 <= i < |rows| => MapRow(rows[i])), None)
  }

  /**
   * Every pin comes from a post with both coordinates whose author exists,
   * carries that post's coordinates and that author's username, and the
   * rows behind the pins are newest first.
   */
  lemma MapPinsArePlaced(t: Tables)
    ensures var r := GetMapPosts(Some(t), false); var rows := MapRows(t);
      && NonIncreasing(rows, JoinedCreatedAt)
      && forall i :: 0 <= i < |r.posts| ==>
        && rows[i].post in t.posts && rows[i].author in t.users && rows[i].author.id == rows[i].post.userId
        && Some(r.posts[i].latitude) == rows[i].post.latitude
        && Some(r.posts[i].longitude) == rows[i].post.longitude
        && r.posts[i].username == rows[i].author.username
  {
    var rows := MapRows(t);
    forall i | 0 <= i < |rows| ensures rows[i] in JoinAuthors(t.posts, t.users, Geotagged) {
      assert rows[i] in rows;
    }
  }

  /** A geotagged post left off the map is no newer than any post on it. */
  lemma MapKeepsNewest(t: Tables)
    ensures var rows := MapRows(t);
      forall j, k :: j in multiset(JoinAuthors(t.posts, t.users, Geotagged)) - multiset(rows) && 0 <= k < |rows| ==>
        j.post.createdAt <= rows[k].post.createdAt
  {
    var rows := MapRows(t);
    forall j, k | j in multiset(JoinAuthors(t.posts, t.users, Geotagged)) - multiset(rows) && 0 <= k < |rows|
      ensures j.post.createdAt <= rows[k].post.createdAt
    {
      TopOmitsNoLarger(JoinAuthors(t.posts, t.users, Geotagged), JoinedCreatedAt, MapLimit, j, k);
    }
  }
}
