/** The writes of the post controller: post creation, owner-only deletion,
    comment append and the like/unlike toggle with its dual write and notification. */
module Engagement {
  import opened Common
  import opened Seqs
  import opened Models
  import Media

  /** createPost's content rule: the post needs text or an image. */
  predicate HasContent(text: string, image: Option<string>)
  {
    text != "" || image.Some?
  }

  /** The joined text is empty exactly when no non-empty text was sent. */
  lemma PostTextEmpty(parts: seq<string>)
    ensures Join(parts, " ") == "" <==> parts == [] || parts == [""]
  {
    JoinEmpty(parts, " ");
  }

  /** createPost accepts a request exactly when it carries an image, or text parts
      other than none at all or a single empty one. */
  lemma HasContentOfParts(parts: seq<string>, image: Option<string>)
    ensures HasContent(Join(parts, " "), image) <==> image.Some? || (parts != [] && parts != [""])
  {
    PostTextEmpty(parts);
  }

  /** `new Post({ user, text, image }).save()`: a fresh id, no likes, no comments. */
  function AddPost(db: Db, author: UserId, text: string, image: Option<string>, now: int): (r: Db)
    ensures r.posts == db.posts + [Post(db.nextPostId, author, Some(text), image, [], [], now)]
    ensures r.users == db.users && r.notifications == db.notifications
    ensures r.nextPostId == db.nextPostId + 1 && r.nextUserId == db.nextUserId
  {
    var post := Post(db.nextPostId, author, Some(text), image, [], [], now);
    db.(posts := db.posts + [post], nextPostId := db.nextPostId + 1)
  }

  lemma AddPostKeepsInv(db: Db, author: UserId, text: string, image: Option<string>, now: int)
    requires Inv(db)
    ensures Inv(AddPost(db, author, text, image, now))
  {
    var r := AddPost(db, author, text, image, now);
    forall u, i | u in r.users && 0 <= i < |r.posts|
      ensures u in r.posts[i].likes <==> r.posts[i].id in r.users[u].likedPosts
    {
      if i == |db.posts| {
        assert UserRefsFresh(db.users[u], db.nextUserId, db.nextPostId);
      }
    }
    forall u | u in r.users
      ensures UserRefsFresh(r.users[u], r.nextUserId, r.nextPostId)
    {
      assert UserRefsFresh(db.users[u], db.nextUserId, db.nextPostId);
    }
  }

  /** The media id deletePost hands to the media host: only for a truthy image. */
  function ImageToDestroy(p: Post): (r: Option<string>)
    ensures r.Some? <==> p.image.Some? && p.image.value != ""
    ensures r.Some? ==> r.value == Media.PublicId(p.image.value)
  {
    if p.image.Some? && p.image.value != "" then Some(Media.PublicId(p.image.value)) else None
  }

  /** `Post.findByIdAndDelete`: the post at `i` leaves the collection; the users'
      `likedPosts` and the notifications are not touched. */
  function RemovePost(db: Db, i: nat): (r: Db)
    requires i < |db.posts|
    ensures |r.posts| == |db.posts| - 1
    ensures multiset(r.posts) == multiset(db.posts) - multiset{db.posts[i]}
    ensures r.users == db.users && r.notifications == db.notifications
    ensures r.nextPostId == db.nextPostId && r.nextUserId == db.nextUserId
  {
    assert db.posts == db.posts[..i] + [db.posts[i]] + db.posts[i + 1..];
    db.(posts := db.posts[..i] + db.posts[i + 1..])
  }

  /** Deletion removes exactly the post with that id: `findById` locates the post at
      `i` and no other, and every other post stays, in order. */
  lemma RemovePostExactly(db: Db, i: nat)
    requires i < |db.posts| && UniquePostIds(db.posts)
    ensures FindPost(db.posts, db.posts[i].id) == Some(i)
    ensures var r := RemovePost(db, i);
      && FindPost(r.posts, db.posts[i].id).None?
      && (forall p :: p in db.posts && p.id != db.posts[i].id ==> p in r.posts)
      && (forall j :: 0 <= j < |r.posts| ==> r.posts[j] == db.posts[if j < i then j else j + 1])
  {
    FindPostUnique(db.posts, db.posts[i].id, i);
    var r := RemovePost(db, i);
    assert r.posts == db.posts[..i] + db.posts[i + 1..];
    forall j | 0 <= j < |r.posts|
      ensures r.posts[j] == db.posts[if j < i then j else j + 1]
    {
    }
    forall j | 0 <= j < |r.posts|
      ensures r.posts[j].id != db.posts[i].id
    {
      assert r.posts[j] == db.posts[if j < i then j else j + 1];
    }
    forall p | p in db.posts && p.id != db.posts[i].id
      ensures p in r.posts
    {
      var k :| 0 <= k < |db.posts| && db.posts[k] == p;
      assert r.posts[if k < i then k else k - 1] == p;
    }
  }

  lemma RemovePostKeepsInv(db: Db, i: nat)
    requires i < |db.posts| && Inv(db)
    ensures Inv(RemovePost(db, i))
  {
    var r := RemovePost(db, i);
    assert forall j :: 0 <= j < |r.posts| ==> r.posts[j] == db.posts[if j < i then j else j + 1];
  }

  /** `$push: { comments: { user, comment } }` on the post at `i`. */
  function AppendComment(db: Db, i: nat, author: UserId, text: string): (r: Db)
    requires i < |db.posts|
    ensures |r.posts| == |db.posts|
    ensures forall j :: 0 <= j < |db.posts| && j != i ==> r.posts[j] == db.posts[j]
    ensures r.posts[i] == db.posts[i].(comments := r.posts[i].comments)
    ensures |r.posts[i].comments| == |db.posts[i].comments| + 1
    ensures r.posts[i].comments[..|db.posts[i].comments|] == db.posts[i].comments
    ensures r.posts[i].comments[|db.posts[i].comments|] == Comment(text, author)
    ensures r.users == db.users && r.notifications == db.notifications
    ensures r.nextPostId == db.nextPostId && r.nextUserId == db.nextUserId
  {
    var p := db.posts[i];
    db.(posts := db.posts[i := p.(comments := p.comments + [Comment(text, author)])])
  }

  lemma AppendCommentKeepsInv(db: Db, i: nat, author: UserId, text: string)
    requires i < |db.posts| && Inv(db) && text != ""
    ensures Inv(AppendComment(db, i, author, text))
  {
    var r := AppendComment(db, i, author, text);
    forall j, k | 0 <= j < |r.posts| && 0 <= k < |r.posts[j].comments|
      ensures ValidComment(r.posts[j].comments[k])
    {
      if j == i && k < |db.posts[i].comments| {
        assert r.posts[i].comments[k] == db.posts[i].comments[k];
      }
    }
  }

  /** `post.likes.includes(userId)` */
  predicate Liked(p: Post, user: UserId)
  {
    user in p.likes
  }

  /** Under the store invariant, the post's `likes` (the array the controller
      consults) and the caller's `likedPosts` agree on the like. */
  lemma LikedIffLikedPost(db: Db, actor: UserId, i: nat)
    requires LikeSymmetric(db.users, db.posts) && actor in db.users && i < |db.posts|
    ensures Liked(db.posts[i], actor) <==> db.posts[i].id in db.users[actor].likedPosts
  {
  }

  /** The successful toggle, likes first, then the user's `likedPosts`; on a like
      one "like" notification addressed to the post's owner, whoever that is. */
  function ToggleLike(db: Db, actor: UserId, i: nat, now: int): (r: Db)
    requires actor in db.users && i < |db.posts|
    ensures r.users.Keys == db.users.Keys && |r.posts| == |db.posts|
    ensures forall u :: u in db.users && u != actor ==> r.users[u] == db.users[u]
    ensures r.users[actor] == db.users[actor].(likedPosts := r.users[actor].likedPosts)
    ensures forall j :: 0 <= j < |db.posts| && j != i ==> r.posts[j] == db.posts[j]
    ensures r.posts[i] == db.posts[i].(likes := r.posts[i].likes)
    ensures r.nextPostId == db.nextPostId && r.nextUserId == db.nextUserId
    ensures Liked(db.posts[i], actor) ==>
      && r.posts[i].likes == Pull(db.posts[i].likes, actor)
      && r.users[actor].likedPosts == Pull(db.users[actor].likedPosts, db.posts[i].id)
      && r.notifications == db.notifications
    ensures !Liked(db.posts[i], actor) ==>
      && r.posts[i].likes == db.posts[i].likes + [actor]
      && r.users[actor].likedPosts == db.users[actor].likedPosts + [db.posts[i].id]
      && r.notifications == db.notifications + [NewNotification(Like, actor, db.posts[i].user, now)]
  {
    var p := db.posts[i];
    var u := db.users[actor];
    if Liked(p, actor) then
      db.(posts := db.posts[i := p.(likes := Pull(p.likes, actor))],
          users := db.users[actor := u.(likedPosts := Pull(u.likedPosts, p.id))])
    else
      db.(posts := db.posts[i := p.(likes := p.likes + [actor])],
          users := db.users[actor := u.(likedPosts := u.likedPosts + [p.id])],
          notifications := db.notifications + [NewNotification(Like, actor, p.user, now)])
  }

  /** The toggle flips the like on both records; the other posts and users are
      left as they were, as the contract of `ToggleLike` states. */
  lemma ToggleLikeFlips(db: Db, actor: UserId, i: nat, now: int)
    requires actor in db.users && i < |db.posts| && Inv(db)
    ensures var r := ToggleLike(db, actor, i, now);
      && (Liked(r.posts[i], actor) <==> !Liked(db.posts[i], actor))
      && (db.posts[i].id in r.users[actor].likedPosts <==> !Liked(db.posts[i], actor))
  {
  }

  /** A like toggle keeps the store invariant; in particular
      `U in P.likes <==> P in U.likedPosts` still holds. */
  lemma ToggleLikeKeepsInv(db: Db, actor: UserId, i: nat, now: int)
    requires actor in db.users && i < |db.posts| && Inv(db)
    ensures Inv(ToggleLike(db, actor, i, now))
  {
    var r := ToggleLike(db, actor, i, now);
    ToggleLikeKeepsLikeSymmetry(db, actor, i, now);
    ToggleLikeKeepsIdsFresh(db, actor, i, now);
    assert forall j :: 0 <= j < |r.posts| ==> r.posts[j].comments == db.posts[j].comments;
    assert forall j :: 0 <= j < |r.posts| ==> r.posts[j].id == db.posts[j].id;
    assert forall u :: u in r.users ==>
      r.users[u].following == db.users[u].following && r.users[u].followers == db.users[u].followers &&
      r.users[u].username == db.users[u].username && r.users[u].email == db.users[u].email;
  }

  lemma ToggleLikeKeepsLikeSymmetry(db: Db, actor: UserId, i: nat, now: int)
    requires actor in db.users && i < |db.posts|
    requires LikeSymmetric(db.users, db.posts) && UniquePostIds(db.posts)
    ensures var r := ToggleLike(db, actor, i, now); LikeSymmetric(r.users, r.posts)
  {
    var r := ToggleLike(db, actor, i, now);
    forall u, j | u in r.users && 0 <= j < |r.posts|
      ensures u in r.posts[j].likes <==> r.posts[j].id in r.users[u].likedPosts
    {
      if j != i && u == actor {
        assert r.posts[j].id != db.posts[i].id;
      }
    }
  }

  lemma ToggleLikeKeepsIdsFresh(db: Db, actor: UserId, i: nat, now: int)
    requires actor in db.users && i < |db.posts| && IdsFresh(db)
    ensures IdsFresh(ToggleLike(db, actor, i, now))
  {
    var r := ToggleLike(db, actor, i, now);
    assert db.posts[i].id < db.nextPostId;
    assert UserRefsFresh(db.users[actor], db.nextUserId, db.nextPostId);
    assert forall u :: u in r.users && u != actor ==> r.users[u] == db.users[u];
  }

  /** Liking twice restores the like membership on both records and creates exactly
      one notification; starting from "not liked" it restores them exactly. */
  lemma ToggleLikeTwice(db: Db, actor: UserId, i: nat, now1: int, now2: int)
    requires actor in db.users && i < |db.posts| && Inv(db)
    ensures var r := ToggleLike(ToggleLike(db, actor, i, now1), actor, i, now2);
      && (forall u :: u in r.posts[i].likes <==> u in db.posts[i].likes)
      && (forall q :: q in r.users[actor].likedPosts <==> q in db.users[actor].likedPosts)
      && |r.notifications| == |db.notifications| + 1
      && r.notifications[..|db.notifications|] == db.notifications
      && (!Liked(db.posts[i], actor) ==> r.posts == db.posts && r.users == db.users)
  {
    ToggleLikeKeepsInv(db, actor, i, now1);
    if !Liked(db.posts[i], actor) {
      ToggleLikeTwiceExact(db, actor, i, now1, now2);
    } else {
      var m := ToggleLike(db, actor, i, now1);
      assert !Liked(m.posts[i], actor);
      assert ToggleLike(m, actor, i, now2).posts[i].likes == Pull(db.posts[i].likes, actor) + [actor];
    }
  }

  /** From "not liked", like then unlike restores posts and users exactly. */
  lemma ToggleLikeTwiceExact(db: Db, actor: UserId, i: nat, now1: int, now2: int)
    requires actor in db.users && i < |db.posts| && Inv(db)
    requires !Liked(db.posts[i], actor)
    ensures var r := ToggleLike(ToggleLike(db, actor, i, now1), actor, i, now2);
      r.posts == db.posts && r.users == db.users
  {
    var m := ToggleLike(db, actor, i, now1);
    var r := ToggleLike(m, actor, i, now2);
    var p := db.posts[i];
    var u := db.users[actor];
    assert p.id !in u.likedPosts;
    assert Liked(m.posts[i], actor);
    PullAppended(p.likes, actor);
    PullAppended(u.likedPosts, p.id);
    assert r.posts[i] == p;
    assert r.users[actor] == u;
  }
}
