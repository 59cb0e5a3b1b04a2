/** The controllers as operations on one in-memory store. Each method makes its
    controller's writes one after another and is proved against the pure transition
    it implements; every method keeps the store invariant. */
module Server {
  import opened Common
  import opened Seqs
  import opened Models
  import opened Graph
  import opened Engagement
  import opened Ledger
  import opened Accounts
  import Media
  import Feeds

  /** A fresh follow of B by A puts all of B's posts into A's feed and one unread
      "follow" notification from A into B's listing; the listing call marks it read. */
  lemma FollowScenario(db: Db, a: UserId, b: UserId, now: int)
    requires Inv(db) && a in db.users && b in db.users && a != b
    requires !Follows(db.users, a, b)
    ensures var r := ToggleFollow(db, a, b, now);
      && (forall p :: p in db.posts && p.user == b ==> p in Feeds.GetFollowingPosts(r, a).value)
      && NewNotification(Follow, a, b, now) in Listing(r.notifications, b)
      && !NewNotification(Follow, a, b, now).read
      && NewNotification(Follow, a, b, now).(read := true) in Listing(MarkRead(r.notifications, b), b)
  {
    var r := ToggleFollow(db, a, b, now);
    Feeds.FollowFillsFeed(db, a, b, now);
    var n := NewNotification(Follow, a, b, now);
    var k := |db.notifications|;
    assert r.notifications[k] == n;
    assert MarkRead(r.notifications, b)[k] == n.(read := true);
  }

  class Store {
    var users: map<UserId, User>
    var posts: seq<Post>
    var notifications: seq<Notification>
    var nextUserId: nat
    var nextPostId: nat

    function Snapshot(): Db
      reads this
    {
      Db(users, posts, notifications, nextUserId, nextPostId)
    }

    ghost predicate Valid()
      reads this
    {
      Inv(Snapshot())
    }

    constructor ()
      ensures Snapshot() == EmptyDb()
      ensures Valid()
    {
      users := map[];
      posts := [];
      notifications := [];
      nextUserId := 0;
      nextPostId := 0;
      EmptyDbInv();
    }

    /** followAndUnfollowUser. `actor` is the caller the authentication layer
        loaded; Ok(true) reports a follow, Ok(false) an unfollow. */
    method FollowAndUnfollowUser(actor: UserId, target: UserId, now: int) returns (r: Result<bool>)
      requires Valid() && actor in users
      modifies this
      ensures Valid()
      ensures target !in old(users) ==> r == Err(NotFound(UserMissing)) && Snapshot() == old(Snapshot())
      ensures target in old(users) && target == actor ==>
        r == Err(Invalid(CannotFollowSelf)) && Snapshot() == old(Snapshot())
      ensures target in old(users) && target != actor ==>
        && r == Ok(!Follows(old(users), actor, target))
        && Snapshot() == ToggleFollow(old(Snapshot()), actor, target, now)
    {
      if target !in users {
        return Err(NotFound(UserMissing));
      }
      if target == actor {
        return Err(Invalid(CannotFollowSelf));
      }
      ToggleFollowKeepsInv(Snapshot(), actor, target, now);
      var t := users[target];
      if target in users[actor].following {
        users := users[target := t.(followers := Pull(t.followers, actor))];
        var a := users[actor];
        users := users[actor := a.(following := Pull(a.following, target))];
        r := Ok(false);
      } else {
        users := users[target := t.(followers := t.followers + [actor])];
        var a := users[actor];
        users := users[actor := a.(following := a.following + [target])];
        notifications := notifications + [NewNotification(Follow, actor, target, now)];
        r := Ok(true);
      }
    }

    /** createPost. `textField` is the parsed form's text parts (None when the form
        has no text field), `image` the URL the media host returns for an attached
        file. On success the new post is returned. */
    method CreatePost(actor: UserId, textField: Option<seq<string>>, image: Option<string>, now: int)
      returns (r: Result<Post>)
      requires Valid()
      modifies this
      ensures Valid()
      ensures r.Err? ==> Snapshot() == old(Snapshot())
      ensures textField.None? ==> r == Err(Internal)
      ensures textField.Some? && actor !in old(users) ==> r == Err(NotFound(UserMissing))
      ensures textField.Some? && actor in old(users) && !HasContent(Join(textField.value, " "), image) ==>
        r == Err(Invalid(EmptyPost))
      ensures textField.Some? && actor in old(users) && HasContent(Join(textField.value, " "), image) ==>
        && Snapshot() == AddPost(old(Snapshot()), actor, Join(textField.value, " "), image, now)
        && r == Ok(Post(old(nextPostId), actor, Some(Join(textField.value, " ")), image, [], [], now))
    {
      if textField.None? {
        return Err(Internal);
      }
      var text := Join(textField.value, " ");
      if actor !in users {
        return Err(NotFound(UserMissing));
      }
      if !HasContent(text, image) {
        return Err(Invalid(EmptyPost));
      }
      AddPostKeepsInv(Snapshot(), actor, text, image, now);
      var post := Post(nextPostId, actor, Some(text), image, [], [], now);
      posts := posts + [post];
      nextPostId := nextPostId + 1;
      r := Ok(post);
    }

    /** deletePost. `destroyed` is the media id handed to the media host, if any. */
    method DeletePost(actor: UserId, id: PostId) returns (r: Result<()>, destroyed: Option<string>)
      requires Valid()
      modifies this
      ensures Valid()
      ensures FindPost(old(posts), id).None? ==>
        r == Err(NotFound(PostMissing)) && destroyed.None? && Snapshot() == old(Snapshot())
      ensures FindPost(old(posts), id).Some? && old(posts)[FindPost(old(posts), id).value].user != actor ==>
        r == Err(Invalid(NotPostOwner)) && destroyed.None? && Snapshot() == old(Snapshot())
      ensures FindPost(old(posts), id).Some? && old(posts)[FindPost(old(posts), id).value].user == actor ==>
        && r == Ok(())
        && destroyed == ImageToDestroy(old(posts)[FindPost(old(posts), id).value])
        && Snapshot() == RemovePost(old(Snapshot()), FindPost(old(posts), id).value)
    {
      destroyed := None;
      var found := FindPost(posts, id);
      if found.None? {
        return Err(NotFound(PostMissing)), None;
      }
      var i := found.value;
      if posts[i].user != actor {
        return Err(Invalid(NotPostOwner)), None;
      }
      destroyed := ImageToDestroy(posts[i]);
      RemovePostKeepsInv(Snapshot(), i);
      posts := posts[..i] + posts[i + 1..];
      r := Ok(());
    }

    /** commentOnPost. On success the post's whole comment list is returned. */
    method CommentOnPost(actor: UserId, id: PostId, text: string) returns (r: Result<seq<Comment>>)
      requires Valid()
      modifies this
      ensures Valid()
      ensures FindPost(old(posts), id).None? ==> r == Err(NotFound(PostMissing)) && Snapshot() == old(Snapshot())
      ensures FindPost(old(posts), id).Some? && text == "" ==>
        r == Err(Invalid(EmptyComment)) && Snapshot() == old(Snapshot())
      ensures FindPost(old(posts), id).Some? && text != "" ==>
        && Snapshot() == AppendComment(old(Snapshot()), FindPost(old(posts), id).value, actor, text)
        && r == Ok(old(posts)[FindPost(old(posts), id).value].comments + [Comment(text, actor)])
    {
      var found := FindPost(posts, id);
      if found.None? {
        return Err(NotFound(PostMissing));
      }
      if text == "" {
        return Err(Invalid(EmptyComment));
      }
      var i := found.value;
      AppendCommentKeepsInv(Snapshot(), i, actor, text);
      var p := posts[i];
      posts := posts[i := p.(comments := p.comments + [Comment(text, actor)])];
      r := Ok(posts[i].comments);
    }

    /** likeUnlikePost. On success the post's likes as likeUnlikePost returns them:
        the old likes without the caller, or with the caller appended. */
    method LikeUnlikePost(actor: UserId, id: PostId, now: int) returns (r: Result<seq<UserId>>)
      requires Valid() && actor in users
      modifies this
      ensures Valid()
      ensures FindPost(old(posts), id).None? ==> r == Err(NotFound(PostMissing)) && Snapshot() == old(Snapshot())
      ensures FindPost(old(posts), id).Some? ==>
        && Snapshot() == ToggleLike(old(Snapshot()), actor, FindPost(old(posts), id).value, now)
        && r == Ok(posts[FindPost(old(posts), id).value].likes)
    {
      var found := FindPost(posts, id);
      if found.None? {
        return Err(NotFound(PostMissing));
      }
      var i := found.value;
      ToggleLikeKeepsInv(Snapshot(), actor, i, now);
      var p := posts[i];
      if actor in p.likes {
        posts := posts[i := p.(likes := Pull(p.likes, actor))];
        var u := users[actor];
        users := users[actor := u.(likedPosts := Pull(u.likedPosts, id))];
        var keep := (v: UserId) => v != actor;
        FilterOutIsPull(p.likes, actor, keep);
        r := Ok(Filter(p.likes, keep));
      } else {
        posts := posts[i := p.(likes := p.likes + [actor])];
        var u := users[actor];
        users := users[actor := u.(likedPosts := u.likedPosts + [id])];
        notifications := notifications + [NewNotification(Like, actor, p.user, now)];
        r := Ok(p.likes + [actor]);
      }
    }

    /** getUserNotifications: the listing is taken before the user's notifications
        are marked read, so it shows the read flags as they were. */
    method GetUserNotifications(user: UserId) returns (listed: seq<Notification>)
      requires Valid()
      modifies this
      ensures Valid()
      ensures listed == Listing(old(notifications), user)
      ensures notifications == MarkRead(old(notifications), user)
      ensures users == old(users) && posts == old(posts)
      ensures nextUserId == old(nextUserId) && nextPostId == old(nextPostId)
    {
      listed := Listing(notifications, user);
      var notes := MarkAllRead(notifications, user);
      InvIgnoresNotifications(Snapshot(), notes);
      notifications := notes;
    }

    /** deleteUserNotifications. */
    method DeleteUserNotifications(user: UserId)
      requires Valid()
      modifies this
      ensures Valid()
      ensures notifications == Clear(old(notifications), user)
      ensures users == old(users) && posts == old(posts)
      ensures nextUserId == old(nextUserId) && nextPostId == old(nextPostId)
    {
      var kept := ClearAll(notifications, user);
      InvIgnoresNotifications(Snapshot(), kept);
      notifications := kept;
    }

    /** signup: the validation chain, then one new user under a fresh id.
        `hashed` is the password's hash. */
    method Signup(username: string, fullName: string, email: string, password: string, hashed: Hash)
      returns (r: Result<UserId>)
      requires Valid()
      modifies this
      ensures Valid()
      ensures SignupError(old(users), username, email, password).Some? ==>
        r == Err(SignupError(old(users), username, email, password).value) && Snapshot() == old(Snapshot())
      ensures SignupError(old(users), username, email, password).None? ==>
        && r == Ok(old(nextUserId))
        && Snapshot() == AddUser(old(Snapshot()), NewUser(username, fullName, email, hashed))
    {
      var e := SignupError(users, username, email, password);
      if e.Some? {
        return Err(e.value);
      }
      SignupKeepsInv(Snapshot(), username, fullName, email, password, hashed);
      users := users[nextUserId := NewUser(username, fullName, email, hashed)];
      r := Ok(nextUserId);
      nextUserId := nextUserId + 1;
    }

    /** updateUser. `currentMatches` is the outcome of comparing the current
        password with the stored hash, `hashed` the new password's hash, and the
        URLs what the media host returns for the uploads; `destroyed` lists the
        media ids handed to the media host. The save is refused when the merged
        record clashes with another user's username or email. */
    method UpdateUser(actor: UserId, q: ProfileUpdate, currentMatches: bool, hashed: Hash,
                      profileUrl: string, coverUrl: string)
      returns (r: Result<User>, destroyed: seq<string>)
      requires Valid() && actor in users
      modifies this
      ensures Valid()
      ensures UpdateError(q, currentMatches).Some? ==>
        && r == Err(UpdateError(q, currentMatches).value)
        && destroyed == []
        && Snapshot() == old(Snapshot())
      ensures UpdateError(q, currentMatches).None? ==>
        destroyed == ImagesToDestroy(old(users)[actor], q)
      ensures UpdateError(q, currentMatches).None? &&
              Clashes(old(users), actor, MergeProfile(old(users)[actor], q, hashed, profileUrl, coverUrl)) ==>
        r == Err(StoreRejected) && Snapshot() == old(Snapshot())
      ensures UpdateError(q, currentMatches).None? &&
              !Clashes(old(users), actor, MergeProfile(old(users)[actor], q, hashed, profileUrl, coverUrl)) ==>
        && r == Ok(MergeProfile(old(users)[actor], q, hashed, profileUrl, coverUrl))
        && Snapshot() == SaveUser(old(Snapshot()), actor, r.value)
    {
      destroyed := [];
      var e := UpdateError(q, currentMatches);
      if e.Some? {
        return Err(e.value), [];
      }
      var user;
      user, destroyed := ApplyUpdate(users[actor], q, hashed, profileUrl, coverUrl);
      if Clashes(users, actor, user) {
        return Err(StoreRejected), destroyed;
      }
      SaveMergedKeepsInv(Snapshot(), actor, q, hashed, profileUrl, coverUrl);
      users := users[actor := user];
      r := Ok(user);
    }
  }
}
