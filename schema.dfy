/**
 * The five tables of src/db/schema.ts as sequences of rows, the UNIQUE and
 * FOREIGN KEY constraints as a validity predicate, the `ON DELETE CASCADE`
 * deletes as functions that keep it, and a database whose inserts fail, as
 * SQLite's do, on a constraint violation. Timestamps are whole seconds.
 */
module Schema {
  import opened Wrappers
  import opened Seqs

  datatype User = User(id: string, email: string, username: string, passwordHash: string,
                       bio: Option<string>, avatarUrl: Option<string>, createdAt: int, updatedAt: int)

  datatype Post = Post(id: string, userId: string, title: string, description: Option<string>,
                       audioUrl: string, latitude: Option<real>, longitude: Option<real>,
                       location: Option<string>, createdAt: int, updatedAt: int)

  datatype Follow = Follow(id: string, followerId: string, followingId: string, createdAt: int)

  datatype Like = Like(id: string, userId: string, postId: string, createdAt: int)

  datatype Comment = Comment(id: string, userId: string, postId: string, content: string,
                             createdAt: int, updatedAt: int)

  datatype Tables = Tables(users: seq<User>, posts: seq<Post>, follows: seq<Follow>,
                           likes: seq<Like>, comments: seq<Comment>)

  // Column keys, named so that constraints over the same column are the same term.
  function UserKey(u: User): string { u.id }
  function EmailKey(u: User): string { u.email }
  function UsernameKey(u: User): string { u.username }
  function PostKey(p: Post): string { p.id }
  function FollowKey(f: Follow): string { f.id }
  function FollowPairKey(f: Follow): (string, string) { (f.followerId, f.followingId) }
  function LikeKey(l: Like): string { l.id }
  function LikePairKey(l: Like): (string, string) { (l.userId, l.postId) }
  function CommentKey(c: Comment): string { c.id }

  function UserIds(t: Tables): set<string> { set u | u in t.users :: u.id }
  function PostIds(t: Tables): set<string> { set p | p in t.posts :: p.id }

  /** Primary keys, `email` and `username` UNIQUE, and the UNIQUE pairs of follows and likes. */
  ghost predicate UniqueKeys(t: Tables)
  {
    && Distinct(t.users, UserKey) && Distinct(t.users, EmailKey) && Distinct(t.users, UsernameKey)
    && Distinct(t.posts, PostKey)
    && Distinct(t.follows, FollowKey) && Distinct(t.follows, FollowPairKey)
    && Distinct(t.likes, LikeKey) && Distinct(t.likes, LikePairKey)
    && Distinct(t.comments, CommentKey)
  }

  /** Every `references(...)` column names an existing row. */
  ghost predicate ForeignKeys(t: Tables)
  {
    && (forall p :: p in t.posts ==> p.userId in UserIds(t))
    && (forall f :: f in t.follows ==> f.followerId in UserIds(t) && f.followingId in UserIds(t))
    && (forall l :: l in t.likes ==> l.userId in UserIds(t) && l.postId in PostIds(t))
    && (forall c :: c in t.comments ==> c.userId in UserIds(t) && c.postId in PostIds(t))
  }

  ghost predicate Valid(t: Tables)
  {
    UniqueKeys(t) && ForeignKeys(t)
  }

  /** Ids of the posts a user owns, which the cascade from `users` removes with the user. */
  function OwnedPosts(t: Tables, uid: string): set<string>
  {
    set p | p in t.posts && p.userId == uid :: p.id
  }

  /** `DELETE FROM users WHERE id = uid`, with every cascade it triggers. */
  function DeleteUser(t: Tables, uid: string): (r: Tables)
    ensures forall u :: u in r.users <==> u in t.users && u.id != uid
    ensures forall p :: p in r.posts <==> p in t.posts && p.userId != uid
    ensures forall f :: f in r.follows <==> f in t.follows && f.followerId != uid && f.followingId != uid
    ensures forall l :: l in r.likes <==> l in t.likes && l.userId != uid && l.postId !in OwnedPosts(t, uid)
    ensures forall c :: c in r.comments <==> c in t.comments && c.userId != uid && c.postId !in OwnedPosts(t, uid)
  {
    var gone := OwnedPosts(t, uid);
    Tables(Filter(t.users, (u: User) => u.id != uid),
           Filter(t.posts, (p: Post) => p.userId != uid),
           Filter(t.follows, (f: Follow) => f.followerId != uid && f.followingId != uid),
           Filter(t.likes, (l: Like) => l.userId != uid && l.postId !in gone),
           Filter(t.comments, (c: Comment) => c.userId != uid && c.postId !in gone))
  }

  /** `DELETE FROM posts WHERE id = pid`, with the likes and comments it cascades to. */
  function DeletePost(t: Tables, pid: string): (r: Tables)
    ensures r.users == t.users && r.follows == t.follows
    ensures forall p :: p in r.posts <==> p in t.posts && p.id != pid
    ensures forall l :: l in r.likes <==> l in t.likes && l.postId != pid
    ensures forall c :: c in r.comments <==> c in t.comments && c.postId != pid
  {
    Tables(t.users,
           Filter(t.posts, (p: Post) => p.id != pid),
           t.follows,
           Filter(t.likes, (l: Like) => l.postId != pid),
           Filter(t.comments, (c: Comment) => c.postId != pid))
  }

  lemma DeleteUserKeepsUnique(t: Tables, uid: string)
    requires UniqueKeys(t)
    ensures UniqueKeys(DeleteUser(t, uid))
  {
    var gone := OwnedPosts(t, uid);
    FilterDistinct(t.users, (u: User) => u.id != uid, UserKey);
    FilterDistinct(t.users, (u: User) => u.id != uid, EmailKey);
    FilterDistinct(t.users, (u: User) => u.id != uid, UsernameKey);
    FilterDistinct(t.posts, (p: Post) => p.userId != uid, PostKey);
    FilterDistinct(t.follows, (f: Follow) => f.followerId != uid && f.followingId != uid, FollowKey);
    FilterDistinct(t.follows, (f: Follow) => f.followerId != uid && f.followingId != uid, FollowPairKey);
    FilterDistinct(t.likes, (l: Like) => l.userId != uid && l.postId !in gone, LikeKey);
    FilterDistinct(t.likes, (l: Like) => l.userId != uid && l.postId !in gone, LikePairKey);
    FilterDistinct(t.comments, (c: Comment) => c.userId != uid && c.postId !in gone, CommentKey);
  }

  lemma DeleteUserKeepsForeignKeys(t: Tables, uid: string)
    requires ForeignKeys(t)
    ensures ForeignKeys(DeleteUser(t, uid))
  {
    var r := DeleteUser(t, uid);
    var gone := OwnedPosts(t, uid);
    forall id | id in UserIds(t) && id != uid ensures id in UserIds(r) {
      var u :| u in t.users && u.id == id;
      assert u in r.users;
    }
    forall id | id in PostIds(t) && id !in gone ensures id in PostIds(r) {
      var p :| p in t.posts && p.id == id;
      assert p in r.posts;
    }
  }

  /**
   * Deleting a user keeps the tables valid, removes the user, their posts,
   * their follows in both directions, their likes and comments, and every
   * like and comment on their posts, and keeps every other row.
   */
  lemma DeleteUserCascades(t: Tables, uid: string)
    requires Valid(t)
    ensures var r := DeleteUser(t, uid);
      && Valid(r)
      && UserIds(r) == UserIds(t) - {uid}
      && (forall p :: p in r.posts <==> p in t.posts && p.userId != uid)
      && (forall f :: f in r.follows <==> f in t.follows && f.followerId != uid && f.followingId != uid)
      && (forall l :: l in r.likes <==> l in t.likes && l.userId != uid && l.postId in PostIds(r))
      && (forall c :: c in r.comments <==> c in t.comments && c.userId != uid && c.postId in PostIds(r))
  {
    DeleteUserKeepsUnique(t, uid);
    DeleteUserKeepsForeignKeys(t, uid);
    DeleteUserUserIds(t, uid);
    DeleteUserPostIds(t, uid);
  }

  /** The users left by a cascade delete are all but the deleted one. */
  lemma DeleteUserUserIds(t: Tables, uid: string)
    ensures UserIds(DeleteUser(t, uid)) == UserIds(t) - {uid}
  {
    var r := DeleteUser(t, uid);
    forall id | id in UserIds(t) && id != uid ensures id in UserIds(r) {
      var u :| u in t.users && u.id == id;
      assert u in r.users;
    }
  }

  /** The posts left by a cascade delete are exactly those the user did not own. */
  lemma DeleteUserPostIds(t: Tables, uid: string)
    requires Distinct(t.posts, PostKey)
    ensures forall id :: id in PostIds(DeleteUser(t, uid)) <==> id in PostIds(t) && id !in OwnedPosts(t, uid)
  {
    var r := DeleteUser(t, uid);
    var gone := OwnedPosts(t, uid);
    forall id ensures id in PostIds(r) <==> id in PostIds(t) && id !in gone {
      if id in PostIds(t) && id !in gone {
        var p :| p in t.posts && p.id == id;
        assert p in r.posts;
      }
      if id in PostIds(r) {
        var p :| p in r.posts && p.id == id;
        if id in gone {
          var q :| q in t.posts && q.userId == uid && q.id == id;
          PostIdsName(t, p, q);
        }
      }
    }
  }

  /** Two posts with one id are one row. */
  lemma PostIdsName(t: Tables, p: Post, q: Post)
    requires Distinct(t.posts, PostKey) && p in t.posts && q in t.posts && p.id == q.id
    ensures p == q
  {
    var i :| 0 <= i < |t.posts| && t.posts[i] == p;
    var j :| 0 <= j < |t.posts| && t.posts[j] == q;
    assert PostKey(t.posts[i]) == PostKey(t.posts[j]);
  }

  /** Deleting a post keeps the tables valid and removes exactly it, its likes and its comments. */
  lemma DeletePostCascades(t: Tables, pid: string)
    requires Valid(t)
    ensures var r := DeletePost(t, pid);
      && Valid(r)
      && PostIds(r) == PostIds(t) - {pid}
      && r.users == t.users && r.follows == t.follows
      && (forall l :: l in r.likes <==> l in t.likes && l.postId != pid)
      && (forall c :: c in r.comments <==> c in t.comments && c.postId != pid)
  {
    var r := DeletePost(t, pid);
    FilterDistinct(t.posts, (p: Post) => p.id != pid, PostKey);
    FilterDistinct(t.likes, (l: Like) => l.postId != pid, LikeKey);
    FilterDistinct(t.likes, (l: Like) => l.postId != pid, LikePairKey);
    FilterDistinct(t.comments, (c: Comment) => c.postId != pid, CommentKey);
    DeletePostPostIds(t, pid);
  }

  /** The posts left by deleting one are all but it. */
  lemma DeletePostPostIds(t: Tables, pid: string)
    ensures PostIds(DeletePost(t, pid)) == PostIds(t) - {pid}
  {
    var r := DeletePost(t, pid);
    forall id | id in PostIds(t) && id != pid ensures id in PostIds(r) {
      var p :| p in t.posts && p.id == id;
      assert p in r.posts;
    }
  }

  /** The row a UNIQUE or PRIMARY KEY constraint on `users` lets in. */
  predicate CanInsertUser(t: Tables, u: User)
  {
    forall x :: x in t.users ==> x.id != u.id && x.email != u.email && x.username != u.username
  }

  /** The row the primary key and the `user_id` foreign key of `posts` let in. */
  predicate CanInsertPost(t: Tables, p: Post)
  {
    (forall x :: x in t.posts ==> x.id != p.id) && p.userId in UserIds(t)
  }

  lemma InsertUserKeepsValid(t: Tables, u: User)
    requires Valid(t) && CanInsertUser(t, u)
    ensures Valid(t.(users := t.users + [u]))
    ensures UserIds(t.(users := t.users + [u])) == UserIds(t) + {u.id}
  {
    var r := t.(users := t.users + [u]);
    assert UserIds(r) == UserIds(t) + {u.id} by {
      assert forall x :: x in r.users <==> x in t.users || x == u;
    }
    assert UniqueKeys(r) by {
      DistinctAppend(t.users, u, UserKey);
      DistinctAppend(t.users, u, EmailKey);
      DistinctAppend(t.users, u, UsernameKey);
    }
    MoreUsersKeepForeignKeys(t, r);
  }

  /** References stay valid when only the `users` table grows. */
  lemma MoreUsersKeepForeignKeys(t: Tables, r: Tables)
    requires ForeignKeys(t) && UserIds(t) <= UserIds(r)
    requires r.posts == t.posts && r.follows == t.follows && r.likes == t.likes && r.comments == t.comments
    ensures ForeignKeys(r)
  {
  }

  lemma InsertPostKeepsValid(t: Tables, p: Post)
    requires Valid(t) && CanInsertPost(t, p)
    ensures Valid(t.(posts := t.posts + [p]))
    ensures PostIds(t.(posts := t.posts + [p])) == PostIds(t) + {p.id}
  {
    var r := t.(posts := t.posts + [p]);
    DistinctAppend(t.posts, p, PostKey);
    assert forall x :: x in t.posts ==> x in r.posts;
    assert PostIds(r) == PostIds(t) + {p.id};
  }

  /** The D1 / SQLite database the route handlers write to. */
  class Database {
    var tables: Tables

    constructor (initial: Tables)
      ensures tables == initial
    {
      tables := initial;
    }

    /** `INSERT INTO users ...`: refused, changing nothing, when a UNIQUE or PRIMARY KEY constraint fails. */
    method InsertUser(u: User) returns (ok: bool)
      modifies this
      ensures ok <==> CanInsertUser(old(tables), u)
      ensures tables == if ok then old(tables).(users := old(tables).users + [u]) else old(tables)
    {
      ok := CanInsertUser(tables, u);
      if ok {
        tables := tables.(users := tables.users + [u]);
      }
    }

    /** `INSERT INTO posts ...`: refused, changing nothing, on a duplicate id or an unknown `user_id`. */
    method InsertPost(p: Post) returns (ok: bool)
      modifies this
      ensures ok <==> CanInsertPost(old(tables), p)
      ensures tables == if ok then old(tables).(posts := old(tables).posts + [p]) else old(tables)
    {
      ok := CanInsertPost(tables, p);
      if ok {
        tables := tables.(posts := tables.posts + [p]);
      }
    }
  }
}
