/** The four read paths of the post controller: a filter over the posts
    collection, then newest-first ordering where the controller sorts. */
module Feeds {
  import opened Common
  import opened Seqs
  import opened Models
  import opened Graph

  function PostTime(p: Post): int { p.createdAt }

  /** `find(...).sort({ createdAt: -1 })` over the posts `keep` admits. */
  function NewestFirst(posts: seq<Post>, keep: Post -> bool): (r: seq<Post>)
    ensures SortedDesc(r, PostTime)
    ensures forall p :: multiset(r)[p] == if keep(p) then multiset(posts)[p] else 0
    ensures forall p :: p in r <==> p in posts && keep(p)
  {
    SortDesc(Filter(posts, keep), PostTime)
  }

  /** getAllPosts: every post, newest first. */
  function GetAllPosts(db: Db): (r: seq<Post>)
    ensures SortedDesc(r, PostTime)
    ensures multiset(r) == multiset(db.posts)
  {
    var r := NewestFirst(db.posts, _ => true);
    assert forall p :: multiset(r)[p] == multiset(db.posts)[p];
    r
  }

  /** getLikedPosts: an unknown user is NotFound; otherwise the posts whose id is
      in that user's `likedPosts`, in store order (no order is promised). Ids the
      user still holds for deleted posts match nothing. */
  function GetLikedPosts(db: Db, user: UserId): (r: Result<seq<Post>>)
    ensures user !in db.users <==> r == Err(NotFound(UserMissing))
    ensures r.Ok? ==> forall p :: p in r.value <==> p in db.posts && p.id in db.users[user].likedPosts
    ensures r.Ok? ==> forall p ::
      multiset(r.value)[p] == if p.id in db.users[user].likedPosts then multiset(db.posts)[p] else 0
  {
    if user !in db.users then Err(NotFound(UserMissing))
    else
      var liked := db.users[user].likedPosts;
      Ok(Filter(db.posts, (p: Post) => p.id in liked))
  }

  /** getFollowingPosts: an unknown viewer is NotFound; otherwise the posts whose
      owner the viewer follows, newest first (empty when following no one). */
  function GetFollowingPosts(db: Db, viewer: UserId): (r: Result<seq<Post>>)
    ensures viewer !in db.users <==> r == Err(NotFound(UserMissing))
    ensures r.Ok? ==> SortedDesc(r.value, PostTime)
    ensures r.Ok? ==> forall p :: p in r.value <==> p in db.posts && p.user in db.users[viewer].following
    ensures r.Ok? ==> forall p ::
      multiset(r.value)[p] == if p.user in db.users[viewer].following then multiset(db.posts)[p] else 0
    ensures viewer in db.users && db.users[viewer].following == [] ==> r == Ok([])
  {
    if viewer !in db.users then Err(NotFound(UserMissing))
    else
      var following := db.users[viewer].following;
      var r := NewestFirst(db.posts, (p: Post) => p.user in following);
      Ok(r)
  }

  /** getUserPosts: an unknown username is NotFound; otherwise that user's posts,
      newest first. */
  function GetUserPosts(db: Db, username: string): (r: Result<seq<Post>>)
    requires UniqueNames(db.users)
    ensures !HasUsername(db.users, username) <==> r == Err(NotFound(UserMissing))
    ensures r.Ok? ==> SortedDesc(r.value, PostTime)
    ensures r.Ok? ==> forall p :: p in r.value <==>
      p in db.posts && p.user in db.users && db.users[p.user].username == username
    ensures r.Ok? ==> forall p ::
      multiset(r.value)[p] == if p.user in db.users && db.users[p.user].username == username then multiset(db.posts)[p] else 0
  {
    match FindByUsername(db.users, username)
    case None => Err(NotFound(UserMissing))
    case Some(owner) => Ok(NewestFirst(db.posts, (p: Post) => p.user == owner))
  }

  /** After a follow, the follower's feed holds every post of the followed user,
      and every post it held before. */
  lemma FollowFillsFeed(db: Db, actor: UserId, target: UserId, now: int)
    requires actor in db.users && target in db.users && actor != target
    requires !Follows(db.users, actor, target)
    ensures var r := ToggleFollow(db, actor, target, now);
      && GetFollowingPosts(r, actor).Ok?
      && (forall p :: p in db.posts && p.user == target ==> p in GetFollowingPosts(r, actor).value)
      && (forall p :: p in GetFollowingPosts(db, actor).value ==> p in GetFollowingPosts(r, actor).value)
  {
    var r := ToggleFollow(db, actor, target, now);
    assert r.users[actor].following == db.users[actor].following + [target];
  }
}
