# Social graph and engagement of the flukeyzx/twitter server, in Dafny

This project models the server controllers of a small Twitter clone (Express
with MongoDB). It models the rules that change the social graph and the
engagement data: follow and unfollow, like and unlike, comments, owner-only
post deletion, notification listing and clearing, and the signup and profile
validators. It also models the read paths built on those rules: the four post
feeds and the suggestion sample.

The database is an in-memory store. `Models.Db` is its pure value:
- a map from user ids to `User` records;
- the posts collection as a sequence;
- the notifications collection as a sequence;
- two counters that hand out fresh object ids.

`Models.Inv` is the store invariant. It holds that:
- follow edges are symmetric (`B in A.following <==> A in B.followers`);
- like edges are symmetric (`U in P.likes <==> P.id in U.likedPosts`);
- no user follows themself;
- usernames and emails are unique;
- post ids are unique;
- every comment has text;
- every id was allocated before the counters.

The modules follow the controllers:
- `Graph`: `followAndUnfollowUser` and `getSuggestedUsers`.
- `Engagement`: the writes of the post controller.
- `Feeds`: the four post listings.
- `Ledger`: the notification controller.
- `Accounts`: signup, login and `updateUser`.
- `Email`: the address regex.
- `Media`: the media-host public id `url.split("/").pop().split(".")[0]`.
- `Seqs`: the array operators the store applies. `$pull` is `Pull`, `$push` is an append, and `sort({createdAt: -1})` is `SortDesc`.

Each operation that changes state is defined twice:
- a pure transition on `Db` (for example `Graph.ToggleFollow`), with lemmas
  that it keeps `Inv` and about how it composes;
- a method of the class `Server.Store`. The store holds the same five fields,
  makes the source's writes one after another, tests its error cases in the
  source's order, and proves that its new `Snapshot()` is the pure transition
  applied to the old one.

The loops of `updateMany` and `deleteMany` are the methods `Ledger.MarkAllRead`
and `Ledger.ClearAll`. The `$sample` draw is the loop in `Graph.SuggestedUsers`.

Errors are the datatype `Common.Error`. It has `NotFound`, `Invalid` (which
carries the rule that was broken), `NoSuggestions`, `StoreRejected` (the
unique index refusing a save) and `Internal` (an exception the controller
catches).

Several inputs come from outside the store and are parameters:
- the clock;
- the outcome of bcrypt compare, and the hash it produces;
- the URL the media host returns for an upload;
- the parsed form fields.

Three points of the controllers' behaviour shape the model:
- `followers`, `following`, `likes` and `likedPosts` are arrays that `$push`
  may fill with duplicates. `$pull` removes every copy.
- An empty suggestion sample is the distinct `NoSuggestions` error (code
  404).
- A username or email taken at signup is an `Invalid` answer, like the other
  validation failures.

## Model

| member | source | states |
|---|---|---|
| Models.ParseType | server/models/notification.model.js:5-9 | only "follow" and "like" are notification types, and each parses back to its own type |
| Models.TypeNameRoundTrip | server/models/notification.model.js:5-9 | printing a notification type and parsing it back gives the same type |
| Models.FindPost | server/controllers/post.controller.js:55 | `findById` finds the first post with that id, or none when no post has it |
| Models.FindByUsername | server/controllers/post.controller.js:226 | `findOne({username})` finds the one user with that username, or none exactly when nobody has it |
| Seqs.Pull | server/controllers/post.controller.js:127-128 | `$pull` removes every copy of the value and keeps every other element with its multiplicity |
| Seqs.SortDesc | server/controllers/post.controller.js:159-160 | the result is ordered by non-increasing key and is a permutation of the input |
| Seqs.FilterOutIsPull | server/controllers/post.controller.js:130-132 | filtering the caller's id out of the old likes gives the same list as `$pull` |
| Email.ValidatorMatchesPattern | server/controllers/auth.controller.js:9-13 | the validator accepts a string exactly when some split into local part, `@`, domain run, final `.` and two or more letters exists |
| Email.SplitIsCanonical | server/controllers/auth.controller.js:9 | any split the pattern admits has its `@` at the first `@` and its `.` at the last `.` |
| Email.ValidEmailHasOneAt | server/controllers/auth.controller.js:9 | an accepted address contains exactly one `@` |
| Media.PublicId | server/controllers/user.controller.js:142-144 | the public id has no `/` and no `.`; it is the prefix of the last path segment up to its first `.`, or the whole segment when it has none |
| Media.PublicIdIsSplitPopSplit | server/controllers/post.controller.js:66-68 | the public id equals the JavaScript `split("/").pop().split(".")[0]` computed with `Split` |
| Media.SplitLast | server/controllers/user.controller.js:154 | the last piece of `split("/")` is the text after the last `/` |
| Graph.ToggleFollow | server/controllers/user.controller.js:36-56 | only the two edge arrays change; an unfollow adds no notification, and a follow adds exactly one "follow" notification from the actor to the target at the end |
| Graph.Follows | server/controllers/user.controller.js:36 | `req.user.following.includes(id)`: the decision reads only the actor's own `following` array |
| Graph.FollowsIffFollower | server/controllers/user.controller.js:36-45 | under the follow symmetry of the store, the actor's `following` and the target's `followers` agree on the edge the controller tests |
| Graph.ToggleFollowFlipsEdge | server/controllers/user.controller.js:39-45 | the toggle flips the edge on both the actor's `following` and the target's `followers` |
| Graph.ToggleFollowKeepsOtherEdges | server/controllers/user.controller.js:39-45 | every other edge keeps its membership on both arrays |
| Graph.ToggleFollowKeepsInv | server/controllers/user.controller.js:39-45 | a toggle between two distinct stored users keeps the store invariant, including edge symmetry |
| Graph.ToggleFollowTwice | server/controllers/user.controller.js:36-56 | two toggles restore every follow membership and create exactly one notification in total; from "not following" they restore the records exactly |
| Graph.SuggestedUsers | server/controllers/user.controller.js:67-89 | the sample has min(4, #candidates) distinct candidates; an empty sample is the `NoSuggestions` outcome, exactly when no candidates exist |
| Engagement.PostTextEmpty | server/controllers/post.controller.js:19-25 | the joined text is empty exactly when no text part, or one empty part, was sent |
| Engagement.HasContent | server/controllers/post.controller.js:25 | `!text && !image` rejects: a post needs non-empty text or an image |
| Engagement.HasContentOfParts | server/controllers/post.controller.js:19-25 | a request is accepted exactly when it has an image, or text parts other than none or a single empty one |
| Engagement.AddPost | server/controllers/post.controller.js:37-43 | the new post, with a fresh id, the caller as owner, no likes and no comments, is appended; nothing else changes |
| Engagement.AddPostKeepsInv | server/controllers/post.controller.js:37-43 | creating a post keeps the store invariant |
| Engagement.RemovePost | server/controllers/post.controller.js:71 | exactly one copy of the post leaves the collection; users (with their `likedPosts`) and notifications are untouched |
| Engagement.RemovePostExactly | server/controllers/post.controller.js:55-71 | under unique ids `findById` locates the post at that index and no other; after deletion no post has that id, and every other post remains in its old order |
| Engagement.RemovePostKeepsInv | server/controllers/post.controller.js:71 | deletion keeps the store invariant, although `likedPosts` may keep the dangling id |
| Engagement.AppendComment | server/controllers/post.controller.js:96-104 | the comment list grows by exactly one `{comment, user}` at the end, and the old comments stay as they were, in order |
| Engagement.AppendCommentKeepsInv | server/controllers/post.controller.js:90-99 | appending a non-empty comment keeps the store invariant |
| Engagement.ToggleLike | server/controllers/post.controller.js:124-146 | an unlike pulls from both `likes` and `likedPosts` and adds no notification; a like pushes to both and adds exactly one "like" notification to the post's owner, even when the owner is the caller |
| Engagement.Liked | server/controllers/post.controller.js:124 | `post.likes.includes(userId)`: the decision reads only the post's `likes` array |
| Engagement.LikedIffLikedPost | server/controllers/post.controller.js:124-132 | under the like symmetry of the store, the post's `likes` and the caller's `likedPosts` agree on the like the controller tests |
| Engagement.ToggleLikeFlips | server/controllers/post.controller.js:124-136 | the toggle flips the like on the post and on the user's `likedPosts` |
| Engagement.ToggleLikeKeepsInv | server/controllers/post.controller.js:126-136 | a like toggle keeps the store invariant, including like symmetry |
| Engagement.ToggleLikeTwice | server/controllers/post.controller.js:124-149 | two toggles restore the like membership on both sides and create exactly one notification; from "not liked" they restore posts and users exactly |
| Feeds.NewestFirst | server/controllers/post.controller.js:160 | `sort({ createdAt: -1 })` over a filter: the result is ordered by non-increasing `createdAt` and holds each admitted post exactly as often as it is stored, and no other |
| Feeds.GetAllPosts | server/controllers/post.controller.js:157-164 | every post, newest first, as a permutation of the collection |
| Feeds.GetLikedPosts | server/controllers/post.controller.js:171-189 | an unknown user is NotFound; otherwise exactly the stored posts whose id is in `likedPosts` |
| Feeds.GetFollowingPosts | server/controllers/post.controller.js:196-215 | an unknown viewer is NotFound; otherwise exactly the posts by followed users, newest first, and empty when following no one |
| Feeds.GetUserPosts | server/controllers/post.controller.js:222-241 | an unknown username is NotFound; otherwise exactly that user's posts, each as often as it is stored, newest first |
| Feeds.FollowFillsFeed | server/controllers/post.controller.js:204 | after a follow the follower's feed holds all of the target's posts and everything it held before |
| Ledger.Listing | server/controllers/notification.model.js:7-12 | exactly the notifications addressed to the user, with their multiplicities, newest first |
| Ledger.MarkRead | server/controllers/notification.model.js:14 | the user's notifications become read; nothing else about any notification changes |
| Ledger.MarkAllRead | server/controllers/notification.model.js:14 | the entry-by-entry update computes `MarkRead` |
| Ledger.MarkReadReadsAll | server/controllers/notification.model.js:14 | after marking, every notification in the user's listing is read, and the listing keeps its length |
| Ledger.MarkReadKeepsOthers | server/controllers/notification.model.js:14 | another user's notifications and listing are unchanged by marking |
| Ledger.Clear | server/controllers/notification.model.js:27 | none of the user's notifications remains, and every other notification keeps its multiplicity |
| Ledger.ClearAll | server/controllers/notification.model.js:27 | the entry-by-entry deletion computes `Clear` |
| Ledger.ClearKeepsOthers | server/controllers/notification.model.js:27 | another user's notifications and listing are unchanged by a clear |
| Ledger.ClearThenListIsEmpty | server/controllers/notification.model.js:27 | after a clear the user's listing is empty |
| Accounts.SignupError | server/controllers/auth.controller.js:11-33 | the checks run in order (email format, username taken, email registered, password shorter than 6) and the first failure is the answer; none fails exactly when all four pass |
| Accounts.NewUser | server/controllers/auth.controller.js:37-42 | the new record carries the given username, email, full name and hash, and refers to no user and no post, whatever the counters |
| Accounts.AddUser | server/controllers/auth.controller.js:37-46 | the new record is stored under a fresh id; posts and notifications are untouched |
| Accounts.SignupAddsOneUser | server/controllers/auth.controller.js:37-57 | signup adds exactly one user with the given username, email and name, and empty followers and following |
| Accounts.SignupKeepsInv | server/controllers/auth.controller.js:15-46 | a signup that passed its checks keeps usernames and emails unique and the rest of the invariant |
| Accounts.Login | server/controllers/auth.controller.js:70-83 | an unknown username fails first, then a wrong password; success names the user holding that username |
| Accounts.SignupThenLogin | server/controllers/auth.controller.js:70-74 | right after signup, login with the new username finds the new user |
| Accounts.UpdateError | server/controllers/user.controller.js:109-135 | the checks run in order (email format, both passwords sent, current password correct, new password at least 6 characters) and each rejection holds exactly when its own check fails after the earlier ones pass; none fails exactly when all pass |
| Accounts.ImagesToDestroy | server/controllers/user.controller.js:140-160 | the old profile image, then the old cover image, are released only when a new one is sent and an old one exists |
| Accounts.MergeProfile | server/controllers/user.controller.js:162-168 | each profile field takes the sent value when it is non-empty and otherwise keeps the old one; the password changes only on a password change; the relationship arrays never change |
| Accounts.ReplaceImage | server/controllers/user.controller.js:140-149 | a sent image releases the old image's public id when there is one and takes the uploaded URL; an image not sent changes nothing |
| Accounts.ApplyUpdate | server/controllers/user.controller.js:137-168 | the step-by-step assignments compute `MergeProfile` and release `ImagesToDestroy` |
| Accounts.MergeNothingIsIdentity | server/controllers/user.controller.js:162-168 | an update that sends nothing leaves the record unchanged |
| Accounts.Clashes | server/controllers/user.controller.js:170 | the unique indexes on username and email: another stored record already has the saved record's username or email |
| Accounts.ClashesIffBreaksUniqueNames | server/controllers/user.controller.js:170 | from a store with unique names, a save clashes exactly when it would leave two records sharing a username or an email |
| Accounts.SaveUser | server/controllers/user.controller.js:170 | the save replaces only the caller's record |
| Accounts.SaveMergedKeepsInv | server/controllers/user.controller.js:162-170 | saving a merged record that clashes with no other username or email keeps the store invariant |
| Server.FollowScenario | server/controllers/user.controller.js:43-55 | a fresh follow fills the follower's feed with the target's posts and leaves one unread "follow" notification in the target's listing, which listing then marks read |
| Server.Store.FollowAndUnfollowUser | server/controllers/user.controller.js:22-61 | a missing target is NotFound, then following yourself is Invalid, both with the store unchanged; otherwise the store becomes `ToggleFollow` of the old one and the invariant holds |
| Server.Store.CreatePost | server/controllers/post.controller.js:7-51 | a missing text field is Internal, then a missing author is NotFound, then no text and no image is Invalid, all with the store unchanged; otherwise the store becomes `AddPost` and the new post is returned |
| Server.Store.DeletePost | server/controllers/post.controller.js:53-78 | a missing post is NotFound, then a non-owner is Invalid, both with the store unchanged; otherwise the store becomes `RemovePost` and the image's public id is released |
| Server.Store.CommentOnPost | server/controllers/post.controller.js:80-111 | a missing post is NotFound, then an empty comment is Invalid, both with the store unchanged; otherwise the store becomes `AppendComment` and the full comment list is returned |
| Server.Store.LikeUnlikePost | server/controllers/post.controller.js:113-155 | a missing post is NotFound with the store unchanged; otherwise the store becomes `ToggleLike` and the returned likes are the post's new likes |
| Server.Store.GetUserNotifications | server/controllers/notification.model.js:3-21 | the returned listing is taken from the notifications before the mark-read step, and the notifications become `MarkRead` of the old ones |
| Server.Store.DeleteUserNotifications | server/controllers/notification.model.js:23-36 | the notifications become `Clear` of the old ones; users and posts are untouched |
| Server.Store.Signup | server/controllers/auth.controller.js:5-65 | the first failing check is returned with the store unchanged; otherwise the store becomes `AddUser` with the new record, under the returned fresh id |
| Server.Store.UpdateUser | server/controllers/user.controller.js:96-179 | a validation failure releases no media and leaves the store unchanged; otherwise `ImagesToDestroy` is released and the merged record is saved, unless it clashes with another user's username or email |

## Left out

- Media host: uploads are URL parameters. Destruction is the list of public ids handed to the host. Host failures are not modelled.
- Form parsing (formidable): the parsed text parts and the uploaded image URL are parameters. A parse error, which the source answers with code 500, is not modelled.
- Password hashing (bcrypt): a hash is an opaque string parameter, and a comparison is a boolean parameter.
- Authentication (JWT cookie, middleware, token generation, logout, the `profile` handler): the caller is a user id the middleware has already loaded.
- Server.Store.FollowAndUnfollowUser: requires the caller to be stored, because the source reads `req.user.following` without a check.
- Server.Store.LikeUnlikePost: requires the caller to be stored, because the middleware has just loaded that record and deletion of accounts is not part of the system.
- Server.Store.UpdateUser: requires the caller to be stored, because the source reads the loaded record's fields without a check.
- Graph.SuggestedUsers: requires the viewer to be stored, because the source reads `.following` of the looked-up record without a check.
- Graph.SuggestedUsers: the `$sample` draw is an arbitrary choice of distinct candidates, not necessarily a uniformly random one.
- Route wiring and HTTP status codes become the `Error` datatype. The response messages are not modelled.
- Database connection and `populate`: results are the stored records. The projections that join author profiles and drop the password are not modelled.
- Concurrency: each operation runs alone and to completion. The two writes of a toggle are never interleaved with other requests, and a failure between them is not modelled.
- Exceptions from the store, which the controllers answer with code 500, are not modelled. Two failures are kept: createPost's `text.join` on a missing text field is `Internal`, and updateUser's `user.save()` refused by a unique index (user.controller.js:170, answered 500 at 175-177) is `StoreRejected`.
- getUserProfile (user.controller.js:7-20) is a plain lookup outside the social-graph core and is not modelled.
- The client hook `useFollow.jsx` is user-interface code.
- server/models/user.model.js is not part of this model. The `User` record holds the fields the controllers read and write. Unique indexes on username and email are assumed, so a clashing save in updateUser is refused as `StoreRejected`.
- Timestamps: `createdAt` is the clock parameter, and `updatedAt` is not modelled.
- Object ids are naturals taken from two counters, so every id has one spelling and equal ids compare equal everywhere.
- Server.Store.FollowAndUnfollowUser: ids are assumed canonical. The controller compares the raw route parameter as a string (`id === req.user._id.toString()` at user.controller.js:32, `following.includes(id)` at line 36), while `findById` and `$push` cast it to an ObjectId, which also accepts upper-case hex. A caller sending an id in another spelling could pass both string tests, follow themself or push a second copy of an edge; that path is not modelled, and the `NoSelfFollow` invariant and the `CannotFollowSelf` branch rely on canonical ids.
- Lengths count characters. JavaScript counts UTF-16 code units, which differ only outside the basic multilingual plane.
