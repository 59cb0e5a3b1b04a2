/** Account rules of the auth and user controllers: the signup validation chain
    and user creation, the login lookup, and updateUser's validation and merge. */
module Accounts {
  import opened Common
  import opened Models
  import opened Email
  import Media

  const MinPasswordLength := 6

  /** Signup's checks in signup's own order; the first failure is the answer. */
  function SignupError(users: map<UserId, User>, username: string, email: string, password: string): (r: Option<Error>)
    ensures r.None? <==>
      IsValidEmail(email) && !HasUsername(users, username) && !HasEmail(users, email) && |password| >= MinPasswordLength
    ensures r == Some(Invalid(BadEmailFormat)) <==> !IsValidEmail(email)
    ensures r == Some(Invalid(UsernameTaken)) <==> IsValidEmail(email) && HasUsername(users, username)
    ensures r == Some(Invalid(EmailRegistered)) <==>
      IsValidEmail(email) && !HasUsername(users, username) && HasEmail(users, email)
    ensures r == Some(Invalid(PasswordTooShort)) <==>
      IsValidEmail(email) && !HasUsername(users, username) && !HasEmail(users, email) && |password| < MinPasswordLength
  {
    if !IsValidEmail(email) then Some(Invalid(BadEmailFormat))
    else if HasUsername(users, username) then Some(Invalid(UsernameTaken))
    else if HasEmail(users, email) then Some(Invalid(EmailRegistered))
    else if |password| < MinPasswordLength then Some(Invalid(PasswordTooShort))
    else None
  }

  /** `new User({ username, email, fullName, password })`: the four given fields
      and no relationships yet, so the record refers to no user and no post. */
  function NewUser(username: string, fullName: string, email: string, hashed: Hash): (r: User)
    ensures r.username == username && r.email == email && r.fullName == fullName && r.password == hashed
    ensures forall nu: nat, np: nat :: UserRefsFresh(r, nu, np)
  {
    User(username, fullName, email, hashed, "", "", "", "", [], [], [])
  }

  /** `newUser.save()`: the new record under a fresh id. */
  function AddUser(db: Db, user: User): (r: Db)
    ensures r.users == db.users[db.nextUserId := user]
    ensures r.posts == db.posts && r.notifications == db.notifications
    ensures r.nextUserId == db.nextUserId + 1 && r.nextPostId == db.nextPostId
  {
    db.(users := db.users[db.nextUserId := user], nextUserId := db.nextUserId + 1)
  }

  /** A signup that passed its checks adds exactly one user, with the given
      username, email and name and no followers, following or likes. */
  lemma SignupAddsOneUser(db: Db, username: string, fullName: string, email: string, hashed: Hash)
    requires Inv(db)
    ensures var r := AddUser(db, NewUser(username, fullName, email, hashed));
      && db.nextUserId !in db.users
      && r.users.Keys == db.users.Keys + {db.nextUserId}
      && (forall u :: u in db.users ==> r.users[u] == db.users[u])
      && r.users[db.nextUserId].username == username
      && r.users[db.nextUserId].email == email
      && r.users[db.nextUserId].fullName == fullName
      && r.users[db.nextUserId].followers == [] && r.users[db.nextUserId].following == []
  {
  }

  /** A signup that passed its checks keeps the store invariant: usernames and
      emails stay unique, and no edge points at the new user. */
  lemma SignupKeepsInv(db: Db, username: string, fullName: string, email: string, password: string, hashed: Hash)
    requires Inv(db)
    requires SignupError(db.users, username, email, password).None?
    ensures Inv(AddUser(db, NewUser(username, fullName, email, hashed)))
  {
    var n := db.nextUserId;
    var r := AddUser(db, NewUser(username, fullName, email, hashed));
    forall a, b | a in r.users && b in r.users
      ensures b in r.users[a].following <==> a in r.users[b].followers
    {
      if a != n && b == n {
        assert UserRefsFresh(db.users[a], db.nextUserId, db.nextPostId);
      } else if a == n && b != n {
        assert UserRefsFresh(db.users[b], db.nextUserId, db.nextPostId);
      }
    }
    forall u, i | u in r.users && 0 <= i < |r.posts|
      ensures u in r.posts[i].likes <==> r.posts[i].id in r.users[u].likedPosts
    {
      if u == n {
        assert u !in db.posts[i].likes;
      }
    }
    forall a, b | a in r.users && b in r.users && a != b
      ensures r.users[a].username != r.users[b].username && r.users[a].email != r.users[b].email
    {
      if a == n {
        assert !HasUsername(db.users, username);
        assert db.users[b].username != username;
        assert db.users[b].email != email;
      } else if b == n {
        assert db.users[a].username != username;
        assert db.users[a].email != email;
      }
    }
  }

  /** login: an unknown username fails first, then a wrong password. */
  function Login(db: Db, username: string, passwordMatches: bool): (r: Result<UserId>)
    requires UniqueNames(db.users)
    ensures !HasUsername(db.users, username) ==> r == Err(Invalid(UnknownUsername))
    ensures HasUsername(db.users, username) && !passwordMatches ==> r == Err(Invalid(WrongPassword))
    ensures r.Ok? <==> HasUsername(db.users, username) && passwordMatches
    ensures r.Ok? ==> r.value in db.users && db.users[r.value].username == username
  {
    match FindByUsername(db.users, username)
    case None => Err(Invalid(UnknownUsername))
    case Some(u) => if passwordMatches then Ok(u) else Err(Invalid(WrongPassword))
  }

  /** A new account can log in at once: after a successful signup the lookup by
      that username finds the new user. */
  lemma SignupThenLogin(db: Db, username: string, fullName: string, email: string, password: string, hashed: Hash)
    requires Inv(db)
    requires SignupError(db.users, username, email, password).None?
    ensures var r := AddUser(db, NewUser(username, fullName, email, hashed));
      UniqueNames(r.users) && Login(r, username, true) == Ok(db.nextUserId)
  {
    var r := AddUser(db, NewUser(username, fullName, email, hashed));
    SignupKeepsInv(db, username, fullName, email, password, hashed);
    var found := Login(r, username, true);
    assert r.users[db.nextUserId].username == username;
    assert found.Ok?;
  }

  /** The body of an update request; "" stands for a field that was not sent. */
  datatype ProfileUpdate = ProfileUpdate(
    fullName: string,
    email: string,
    username: string,
    currentPassword: string,
    newPassword: string,
    bio: string,
    link: string,
    profileImg: string,
    coverImg: string)

  predicate ChangesPassword(q: ProfileUpdate)
  {
    Present(q.currentPassword) || Present(q.newPassword)
  }

  /** updateUser's checks in its own order: email format, then both
      passwords present, then the current one correct, then the new one long enough. */
  function UpdateError(q: ProfileUpdate, currentMatches: bool): (r: Option<Error>)
    ensures r == Some(Invalid(BadEmailFormat)) <==> Present(q.email) && !IsValidEmail(q.email)
    ensures r == Some(Invalid(PasswordPairRequired)) <==>
      !(Present(q.email) && !IsValidEmail(q.email)) && ChangesPassword(q) &&
      (!Present(q.currentPassword) || !Present(q.newPassword))
    ensures r == Some(Invalid(WrongPassword)) <==>
      !(Present(q.email) && !IsValidEmail(q.email)) &&
      Present(q.currentPassword) && Present(q.newPassword) && !currentMatches
    ensures r == Some(Invalid(PasswordTooShort)) <==>
      !(Present(q.email) && !IsValidEmail(q.email)) &&
      Present(q.currentPassword) && Present(q.newPassword) && currentMatches &&
      |q.newPassword| < MinPasswordLength
    ensures r.None? <==>
      && (!Present(q.email) || IsValidEmail(q.email))
      && (ChangesPassword(q) ==>
            Present(q.currentPassword) && Present(q.newPassword) && currentMatches &&
            |q.newPassword| >= MinPasswordLength)
    ensures r.Some? ==> r.value.Invalid?
  {
    if Present(q.email) && !IsValidEmail(q.email) then Some(Invalid(BadEmailFormat))
    else if ChangesPassword(q) then
      if !Present(q.currentPassword) || !Present(q.newPassword) then Some(Invalid(PasswordPairRequired))
      else if !currentMatches then Some(Invalid(WrongPassword))
      else if |q.newPassword| < MinPasswordLength then Some(Invalid(PasswordTooShort))
      else None
    else None
  }

  /** The media ids updateUser hands to the media host before uploading: the old
      profile image, then the old cover image, each only when it is replaced. */
  function ImagesToDestroy(u: User, q: ProfileUpdate): (r: seq<string>)
    ensures |r| == (if Present(q.profileImg) && Present(u.profileImg) then 1 else 0)
                 + (if Present(q.coverImg) && Present(u.coverImg) then 1 else 0)
    ensures Present(q.profileImg) && Present(u.profileImg) ==> r[0] == Media.PublicId(u.profileImg)
    ensures Present(q.coverImg) && Present(u.coverImg) ==> r[|r| - 1] == Media.PublicId(u.coverImg)
  {
    var profile := if Present(q.profileImg) && Present(u.profileImg) then [Media.PublicId(u.profileImg)] else [];
    var cover := if Present(q.coverImg) && Present(u.coverImg) then [Media.PublicId(u.coverImg)] else [];
    profile + cover
  }

  /** The record updateUser saves. `hashed` is the new password's hash and the two
      URLs are what the media host returns for the uploaded images. */
  function MergeProfile(u: User, q: ProfileUpdate, hashed: Hash, profileUrl: string, coverUrl: string): (r: User)
    ensures Present(q.fullName) ==> r.fullName == q.fullName
    ensures !Present(q.fullName) ==> r.fullName == u.fullName
    ensures Present(q.username) ==> r.username == q.username
    ensures !Present(q.username) ==> r.username == u.username
    ensures Present(q.email) ==> r.email == q.email
    ensures !Present(q.email) ==> r.email == u.email
    ensures Present(q.bio) ==> r.bio == q.bio
    ensures !Present(q.bio) ==> r.bio == u.bio
    ensures Present(q.link) ==> r.link == q.link
    ensures !Present(q.link) ==> r.link == u.link
    ensures Present(q.profileImg) && Present(profileUrl) ==> r.profileImg == profileUrl
    ensures !(Present(q.profileImg) && Present(profileUrl)) ==> r.profileImg == u.profileImg
    ensures Present(q.coverImg) && Present(coverUrl) ==> r.coverImg == coverUrl
    ensures !(Present(q.coverImg) && Present(coverUrl)) ==> r.coverImg == u.coverImg
    ensures r.password == if ChangesPassword(q) then hashed else u.password
    ensures r.followers == u.followers && r.following == u.following && r.likedPosts == u.likedPosts
  {
    var profileImg := if Present(q.profileImg) then profileUrl else q.profileImg;
    var coverImg := if Present(q.coverImg) then coverUrl else q.coverImg;
    u.(password := if ChangesPassword(q) then hashed else u.password,
       fullName := OrElse(q.fullName, u.fullName),
       username := OrElse(q.username, u.username),
       email := OrElse(q.email, u.email),
       bio := OrElse(q.bio, u.bio),
       link := OrElse(q.link, u.link),
       profileImg := OrElse(profileImg, u.profileImg),
       coverImg := OrElse(coverImg, u.coverImg))
  }

  /** One image step of updateUser: when an image is sent, release the old one's
      media id (if there is an old one) and take the uploaded URL. */
  method ReplaceImage(current: string, sent: string, uploaded: string) returns (value: string, released: seq<string>)
    ensures value == if Present(sent) then uploaded else sent
    ensures released == if Present(sent) && Present(current) then [Media.PublicId(current)] else []
  {
    value := sent;
    released := [];
    if Present(sent) {
      if Present(current) {
        released := [Media.PublicId(current)];
      }
      value := uploaded;
    }
  }

  /** updateUser between validation and save: set the password hash, replace each
      sent image, then merge the profile fields one by one. */
  method ApplyUpdate(u: User, q: ProfileUpdate, hashed: Hash, profileUrl: string, coverUrl: string)
    returns (user: User, destroyed: seq<string>)
    ensures user == MergeProfile(u, q, hashed, profileUrl, coverUrl)
    ensures destroyed == ImagesToDestroy(u, q)
  {
    user := u;
    if ChangesPassword(q) {
      user := user.(password := hashed);
    }
    var profileImg, profileIds := ReplaceImage(user.profileImg, q.profileImg, profileUrl);
    var coverImg, coverIds := ReplaceImage(user.coverImg, q.coverImg, coverUrl);
    destroyed := profileIds + coverIds;
    user := user.(fullName := OrElse(q.fullName, user.fullName));
    user := user.(username := OrElse(q.username, user.username));
    user := user.(email := OrElse(q.email, user.email));
    user := user.(bio := OrElse(q.bio, user.bio));
    user := user.(link := OrElse(q.link, user.link));
    user := user.(profileImg := OrElse(profileImg, user.profileImg));
    user := user.(coverImg := OrElse(coverImg, user.coverImg));
  }

  /** An update that sends nothing leaves the record as it was. */
  lemma MergeNothingIsIdentity(u: User, hashed: Hash, profileUrl: string, coverUrl: string)
    ensures MergeProfile(u, ProfileUpdate("", "", "", "", "", "", "", "", ""), hashed, profileUrl, coverUrl) == u
  {
  }

  /** The unique indexes on username and email: saving `v` as `actor` clashes
      with another stored record. */
  predicate Clashes(users: map<UserId, User>, actor: UserId, v: User)
  {
    exists w :: w in users && w != actor && (users[w].username == v.username || users[w].email == v.email)
  }

  /** A save clashes exactly when it would leave two records sharing a username
      or an email: the unique indexes refuse precisely the saves that would
      break uniqueness. */
  lemma ClashesIffBreaksUniqueNames(users: map<UserId, User>, actor: UserId, v: User)
    requires UniqueNames(users) && actor in users
    ensures Clashes(users, actor, v) <==> !UniqueNames(users[actor := v])
  {
    if Clashes(users, actor, v) {
      var w :| w in users && w != actor && (users[w].username == v.username || users[w].email == v.email);
      var r := users[actor := v];
      assert r[actor] == v && r[w] == users[w];
      assert !(r[actor].username != r[w].username && r[actor].email != r[w].email);
    } else {
      SaveKeepsUniqueNames(users, actor, v);
    }
  }

  /** `user.save()` of the merged record. */
  function SaveUser(db: Db, actor: UserId, v: User): (r: Db)
    requires actor in db.users
    ensures r.users == db.users[actor := v]
    ensures r.posts == db.posts && r.notifications == db.notifications
    ensures r.nextUserId == db.nextUserId && r.nextPostId == db.nextPostId
  {
    db.(users := db.users[actor := v])
  }

  /** Saving a merged profile that clashes with no other record keeps the invariant:
      the merge never touches followers, following or likedPosts. */
  lemma SaveMergedKeepsInv(db: Db, actor: UserId, q: ProfileUpdate, hashed: Hash, profileUrl: string, coverUrl: string)
    requires Inv(db) && actor in db.users
    requires !Clashes(db.users, actor, MergeProfile(db.users[actor], q, hashed, profileUrl, coverUrl))
    ensures Inv(SaveUser(db, actor, MergeProfile(db.users[actor], q, hashed, profileUrl, coverUrl)))
  {
    var v := MergeProfile(db.users[actor], q, hashed, profileUrl, coverUrl);
    SaveKeepsEdges(db, actor, v);
    SaveKeepsUniqueNames(db.users, actor, v);
  }

  /** Replacing a record by one with the same relationship arrays keeps every
      part of the invariant that speaks about relationships. */
  lemma SaveKeepsEdges(db: Db, actor: UserId, v: User)
    requires Inv(db) && actor in db.users
    requires v.followers == db.users[actor].followers && v.following == db.users[actor].following
    requires v.likedPosts == db.users[actor].likedPosts
    ensures var r := SaveUser(db, actor, v);
      && FollowSymmetric(r.users) && LikeSymmetric(r.users, r.posts) && NoSelfFollow(r.users)
      && UniquePostIds(r.posts) && CommentsValid(r.posts) && IdsFresh(r)
  {
    var r := SaveUser(db, actor, v);
    forall u | u in r.users
      ensures r.users[u].followers == db.users[u].followers
      ensures r.users[u].following == db.users[u].following
      ensures r.users[u].likedPosts == db.users[u].likedPosts
    {
    }
    forall a, b | a in r.users && b in r.users
      ensures b in r.users[a].following <==> a in r.users[b].followers
    {
    }
    forall u, i | u in r.users && 0 <= i < |r.posts|
      ensures u in r.posts[i].likes <==> r.posts[i].id in r.users[u].likedPosts
    {
    }
    forall u | u in r.users
      ensures u < r.nextUserId && UserRefsFresh(r.users[u], r.nextUserId, r.nextPostId)
    {
      assert UserRefsFresh(db.users[u], db.nextUserId, db.nextPostId);
    }
  }

  /** The unique indexes admit the save only when usernames and emails stay distinct. */
  lemma SaveKeepsUniqueNames(users: map<UserId, User>, actor: UserId, v: User)
    requires UniqueNames(users) && actor in users && !Clashes(users, actor, v)
    ensures UniqueNames(users[actor := v])
  {
    var r := users[actor := v];
    forall a, b | a in r && b in r && a != b
      ensures r[a].username != r[b].username && r[a].email != r[b].email
    {
      if a == actor {
        assert !(users[b].username == v.username || users[b].email == v.email);
      } else if b == actor {
        assert !(users[a].username == v.username || users[a].email == v.email);
      }
    }
  }
}
