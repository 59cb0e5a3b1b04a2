/** The documents of the three collections (the Mongoose schemas) and the
    abstract store that holds them, with the cross-document invariants. */
module Models {
  import opened Common

  /** The stored bcrypt hash; hashing itself is outside the model. */
  type Hash = string

  /** A user document. The user schema is not part of this model: these are the
      fields the controllers read and write. Profile strings are "" when unset. */
  datatype User = User(
    username: string,
    fullName: string,
    email: string,
    password: Hash,
    profileImg: string,
    coverImg: string,
    bio: string,
    link: string,
    followers: seq<UserId>,
    following: seq<UserId>,
    likedPosts: seq<PostId>)

  /** A comment sub-document: both the text and the author reference are required. */
  datatype Comment = Comment(comment: string, user: UserId)

  /** Mongoose's `required` on a string field rejects a missing value and "". */
  predicate ValidComment(c: Comment) { c.comment != "" }

  /** A post document: an owner reference, optional text and image (neither
      required by the schema), an ordered `likes` array that may repeat an id,
      an append-only comment array and the `createdAt` timestamp. */
  datatype Post = Post(
    id: PostId,
    user: UserId,
    text: Option<string>,
    image: Option<string>,
    likes: seq<UserId>,
    comments: seq<Comment>,
    createdAt: int)

  /** The schema's `type` enum: exactly "follow" or "like". */
  datatype NotificationType = Follow | Like

  function TypeName(t: NotificationType): string
  {
    match t
    case Follow => "follow"
    case Like => "like"
  }

  /** Enum validation of a stored `type` string; it is required, so "" fails too. */
  function ParseType(s: string): (r: Option<NotificationType>)
    ensures r.Some? <==> s == "follow" || s == "like"
    ensures r.Some? ==> TypeName(r.value) == s
  {
    if s == "follow" then Some(Follow)
    else if s == "like" then Some(Like)
    else None
  }

  lemma TypeNameRoundTrip(t: NotificationType)
    ensures ParseType(TypeName(t)) == Some(t)
  {
  }

  /** A notification document, with `from`/`to` user references and its timestamp. */
  datatype Notification = Notification(
    kind: NotificationType,
    from: UserId,
    to: UserId,
    read: bool,
    createdAt: int)

  /** `new Notification({type, from, to})`: `read` takes its default, false. */
  function NewNotification(kind: NotificationType, from: UserId, to: UserId, now: int): (n: Notification)
    ensures !n.read
    ensures n.kind == kind && n.from == from && n.to == to && n.createdAt == now
  {
    Notification(kind, from, to, false, now)
  }

  /** The abstract store: the three collections and the next fresh ids. */
  datatype Db = Db(
    users: map<UserId, User>,
    posts: seq<Post>,
    notifications: seq<Notification>,
    nextUserId: nat,
    nextPostId: nat)

  function EmptyDb(): Db
  {
    Db(map[], [], [], 0, 0)
  }

  /** The follow edge is stored twice: `B in A.following <==> A in B.followers`. */
  ghost predicate FollowSymmetric(users: map<UserId, User>)
  {
    forall a, b :: a in users && b in users ==>
      (b in users[a].following <==> a in users[b].followers)
  }

  /** The like edge is stored twice: `U in P.likes <==> P in U.likedPosts`. */
  ghost predicate LikeSymmetric(users: map<UserId, User>, posts: seq<Post>)
  {
    forall u, i :: u in users && 0 <= i < |posts| ==>
      (u in posts[i].likes <==> posts[i].id in users[u].likedPosts)
  }

  ghost predicate NoSelfFollow(users: map<UserId, User>)
  {
    forall u :: u in users ==> u !in users[u].following && u !in users[u].followers
  }

  ghost predicate UniqueNames(users: map<UserId, User>)
  {
    forall a, b :: a in users && b in users && a != b ==>
      users[a].username != users[b].username && users[a].email != users[b].email
  }

  ghost predicate UniquePostIds(posts: seq<Post>)
  {
    forall i, j :: 0 <= i < j < |posts| ==> posts[i].id != posts[j].id
  }

  /** Every id the store holds or refers to was allocated before the counters. */
  ghost predicate UserRefsFresh(u: User, nu: nat, np: nat)
  {
    && (forall v :: v in u.followers ==> v < nu)
    && (forall v :: v in u.following ==> v < nu)
    && (forall p :: p in u.likedPosts ==> p < np)
  }

  ghost predicate IdsFresh(db: Db)
  {
    && (forall u :: u in db.users ==> u < db.nextUserId && UserRefsFresh(db.users[u], db.nextUserId, db.nextPostId))
    && (forall i :: 0 <= i < |db.posts| ==> db.posts[i].id < db.nextPostId)
    && (forall i, v :: 0 <= i < |db.posts| && v in db.posts[i].likes ==> v < db.nextUserId)
  }

  ghost predicate CommentsValid(posts: seq<Post>)
  {
    forall i, k :: 0 <= i < |posts| && 0 <= k < |posts[i].comments| ==> ValidComment(posts[i].comments[k])
  }

  /** The store invariant every controller keeps. */
  ghost predicate Inv(db: Db)
  {
    && FollowSymmetric(db.users)
    && LikeSymmetric(db.users, db.posts)
    && NoSelfFollow(db.users)
    && UniqueNames(db.users)
    && UniquePostIds(db.posts)
    && CommentsValid(db.posts)
    && IdsFresh(db)
  }

  /** The invariant says nothing about the notifications. */
  lemma InvIgnoresNotifications(db: Db, notes: seq<Notification>)
    requires Inv(db)
    ensures Inv(db.(notifications := notes))
  {
    assert IdsFresh(db.(notifications := notes));
  }

  lemma EmptyDbInv()
    ensures Inv(EmptyDb())
  {
  }

  /** findById on the posts collection. */
  function FindPost(posts: seq<Post>, id: PostId): (r: Option<nat>)
    ensures r.Some? ==> r.value < |posts| && posts[r.value].id == id
    ensures r.Some? ==> forall j :: 0 <= j < r.value ==> posts[j].id != id
    ensures r.None? <==> forall j :: 0 <= j < |posts| ==> posts[j].id != id
  {
    if posts == [] then None
    else if posts[0].id == id then Some(0)
    else
      match FindPost(posts[1..], id)
      case None => None
      case Some(k) => Some(k + 1)
  }

  /** Under unique ids, the post found is the only one carrying that id. */
  lemma FindPostUnique(posts: seq<Post>, id: PostId, i: nat)
    requires UniquePostIds(posts)
    requires i < |posts| && posts[i].id == id
    ensures FindPost(posts, id) == Some(i)
  {
  }

  /** findOne({ username }). */
  predicate HasUsername(users: map<UserId, User>, name: string)
  {
    exists u :: u in users && users[u].username == name
  }

  predicate HasEmail(users: map<UserId, User>, email: string)
  {
    exists u :: u in users && users[u].email == email
  }

  /** The one user holding `name`, when usernames are unique. */
  function FindByUsername(users: map<UserId, User>, name: string): (r: Option<UserId>)
    requires UniqueNames(users)
    ensures r.Some? ==> r.value in users && users[r.value].username == name
    ensures r.None? <==> !HasUsername(users, name)
  {
    if HasUsername(users, name) then
      var u :| u in users && users[u].username == name; Some(u)
    else None
  }
}
