/** The follow graph of the user controller: the follow/unfollow toggle with its
    dual write and notification fan-out, and suggestion sampling. */
module Graph {
  import opened Common
  import opened Seqs
  import opened Models

  /** `actor` currently follows `target`, as the actor's own record says. */
  predicate Follows(users: map<UserId, User>, actor: UserId, target: UserId)
    requires actor in users
  {
    target in users[actor].following
  }

  /** Under the store invariant, the actor's own `following` (the array the
      controller consults) and the target's `followers` agree on the edge. */
  lemma FollowsIffFollower(users: map<UserId, User>, actor: UserId, target: UserId)
    requires FollowSymmetric(users) && actor in users && target in users
    ensures Follows(users, actor, target) <==> actor in users[target].followers
  {
  }

  /** Two records agree on everything but `followers` and `following`. */
  predicate SameButEdges(u: User, v: User)
  {
    u.(followers := v.followers, following := v.following) == v
  }

  /** The successful toggle: pull or push on the target's `followers` first, then
      on the actor's `following`, and on a follow one "follow" notification. */
  function ToggleFollow(db: Db, actor: UserId, target: UserId, now: int): (r: Db)
    requires actor in db.users && target in db.users && actor != target
    ensures r.users.Keys == db.users.Keys
    ensures r.posts == db.posts
    ensures r.nextUserId == db.nextUserId && r.nextPostId == db.nextPostId
    ensures forall u :: u in db.users && u != actor && u != target ==> r.users[u] == db.users[u]
    ensures forall u :: u in db.users ==> SameButEdges(r.users[u], db.users[u])
    ensures r.users[target].following == db.users[target].following
    ensures r.users[actor].followers == db.users[actor].followers
    ensures Follows(db.users, actor, target) ==> r.notifications == db.notifications
    ensures !Follows(db.users, actor, target) ==>
      r.notifications == db.notifications + [NewNotification(Follow, actor, target, now)]
  {
    var t := db.users[target];
    var a := db.users[actor];
    if Follows(db.users, actor, target) then
      var users := db.users[target := t.(followers := Pull(t.followers, actor))];
      db.(users := users[actor := a.(following := Pull(a.following, target))])
    else
      var users := db.users[target := t.(followers := t.followers + [actor])];
      db.(users := users[actor := a.(following := a.following + [target])],
          notifications := db.notifications + [NewNotification(Follow, actor, target, now)])
  }

  /** The toggle flips the edge on both records. */
  lemma ToggleFollowFlipsEdge(db: Db, actor: UserId, target: UserId, now: int)
    requires actor in db.users && target in db.users && actor != target
    requires FollowSymmetric(db.users)
    ensures var r := ToggleFollow(db, actor, target, now);
      && (Follows(r.users, actor, target) <==> !Follows(db.users, actor, target))
      && (actor in r.users[target].followers <==> !Follows(db.users, actor, target))
  {
  }

  /** Every other edge keeps its membership, on both of a user's edge arrays. */
  lemma ToggleFollowKeepsOtherEdges(db: Db, actor: UserId, target: UserId, now: int, x: UserId, y: UserId)
    requires actor in db.users && target in db.users && actor != target
    requires x in db.users
    ensures var r := ToggleFollow(db, actor, target, now);
      && ((x, y) != (actor, target) ==> (y in r.users[x].following <==> y in db.users[x].following))
      && ((y, x) != (actor, target) ==> (y in r.users[x].followers <==> y in db.users[x].followers))
  {
  }

  /** A toggle between two distinct stored users keeps the store invariant;
      in particular `B in A.following <==> A in B.followers` still holds. */
  lemma ToggleFollowKeepsInv(db: Db, actor: UserId, target: UserId, now: int)
    requires actor in db.users && target in db.users && actor != target
    requires Inv(db)
    ensures Inv(ToggleFollow(db, actor, target, now))
  {
    ToggleFollowKeepsSymmetry(db, actor, target, now);
    ToggleFollowKeepsEdgeBounds(db, actor, target, now);
    ToggleFollowKeepsRecords(db, actor, target, now);
  }

  lemma ToggleFollowKeepsSymmetry(db: Db, actor: UserId, target: UserId, now: int)
    requires actor in db.users && target in db.users && actor != target
    requires FollowSymmetric(db.users)
    ensures FollowSymmetric(ToggleFollow(db, actor, target, now).users)
  {
    var r := ToggleFollow(db, actor, target, now);
    forall x, y | x in r.users && y in r.users
      ensures y in r.users[x].following <==> x in r.users[y].followers
    {
      if (x, y) == (actor, target) {
        ToggleFollowFlipsEdge(db, actor, target, now);
      } else {
        ToggleFollowKeepsOtherEdges(db, actor, target, now, x, y);
        ToggleFollowKeepsOtherEdges(db, actor, target, now, y, x);
      }
    }
  }

  /** The only new edge joins two distinct stored users, so no self edge and no
      unallocated id appears. */
  lemma ToggleFollowKeepsEdgeBounds(db: Db, actor: UserId, target: UserId, now: int)
    requires actor in db.users && target in db.users && actor != target
    requires NoSelfFollow(db.users) && IdsFresh(db)
    ensures var r := ToggleFollow(db, actor, target, now);
      && NoSelfFollow(r.users)
      && forall u :: u in r.users ==> UserRefsFresh(r.users[u], r.nextUserId, r.nextPostId)
  {
    var r := ToggleFollow(db, actor, target, now);
    forall u | u in r.users
      ensures u !in r.users[u].following && u !in r.users[u].followers
    {
      ToggleFollowKeepsOtherEdges(db, actor, target, now, u, u);
    }
    forall u | u in r.users
      ensures UserRefsFresh(r.users[u], r.nextUserId, r.nextPostId)
    {
      assert UserRefsFresh(db.users[u], db.nextUserId, db.nextPostId);
      forall v | v in r.users[u].following
        ensures v < r.nextUserId
      {
        ToggleFollowKeepsOtherEdges(db, actor, target, now, u, v);
      }
      forall v | v in r.users[u].followers
        ensures v < r.nextUserId
      {
        ToggleFollowKeepsOtherEdges(db, actor, target, now, u, v);
      }
      assert SameButEdges(r.users[u], db.users[u]);
    }
  }

  /** The parts of the invariant that do not speak about follow edges. */
  lemma ToggleFollowKeepsRecords(db: Db, actor: UserId, target: UserId, now: int)
    requires actor in db.users && target in db.users && actor != target
    requires Inv(db)
    ensures var r := ToggleFollow(db, actor, target, now);
      && LikeSymmetric(r.users, r.posts) && UniqueNames(r.users)
      && UniquePostIds(r.posts) && CommentsValid(r.posts)
      && (forall u :: u in r.users ==> u < r.nextUserId)
      && (forall i :: 0 <= i < |r.posts| ==> r.posts[i].id < r.nextPostId)
      && (forall i, v :: 0 <= i < |r.posts| && v in r.posts[i].likes ==> v < r.nextUserId)
  {
    var r := ToggleFollow(db, actor, target, now);
    forall u | u in r.users
      ensures r.users[u].likedPosts == db.users[u].likedPosts
      ensures r.users[u].username == db.users[u].username && r.users[u].email == db.users[u].email
    {
      assert SameButEdges(r.users[u], db.users[u]);
    }
  }

  /** Toggling twice restores every follow membership and creates exactly one
      notification; starting from "not following" it restores the records exactly. */
  lemma ToggleFollowTwice(db: Db, actor: UserId, target: UserId, now1: int, now2: int)
    requires actor in db.users && target in db.users && actor != target
    requires Inv(db)
    ensures var r := ToggleFollow(ToggleFollow(db, actor, target, now1), actor, target, now2);
      && r.users.Keys == db.users.Keys
      && (forall x, y :: x in db.users && y in db.users ==>
            (y in r.users[x].following <==> y in db.users[x].following) &&
            (y in r.users[x].followers <==> y in db.users[x].followers))
      && |r.notifications| == |db.notifications| + 1
      && r.notifications[..|db.notifications|] == db.notifications
      && (!Follows(db.users, actor, target) ==> r.users == db.users)
  {
    ToggleFollowTwiceMembership(db, actor, target, now1, now2);
    if !Follows(db.users, actor, target) {
      ToggleFollowTwiceExact(db, actor, target, now1, now2);
    }
  }

  lemma ToggleFollowTwiceMembership(db: Db, actor: UserId, target: UserId, now1: int, now2: int)
    requires actor in db.users && target in db.users && actor != target
    requires Inv(db)
    ensures var r := ToggleFollow(ToggleFollow(db, actor, target, now1), actor, target, now2);
      forall x, y :: x in db.users && y in db.users ==>
        (y in r.users[x].following <==> y in db.users[x].following) &&
        (y in r.users[x].followers <==> y in db.users[x].followers)
  {
    var m := ToggleFollow(db, actor, target, now1);
    ToggleFollowFlipsEdge(db, actor, target, now1);
    ToggleFollowKeepsInv(db, actor, target, now1);
    ToggleFollowFlipsEdge(m, actor, target, now2);
    var r := ToggleFollow(m, actor, target, now2);
    forall x, y | x in db.users && y in db.users
      ensures (y in r.users[x].following <==> y in db.users[x].following)
      ensures (y in r.users[x].followers <==> y in db.users[x].followers)
    {
      ToggleFollowKeepsOtherEdges(db, actor, target, now1, x, y);
      ToggleFollowKeepsOtherEdges(m, actor, target, now2, x, y);
    }
  }

  lemma ToggleFollowTwiceExact(db: Db, actor: UserId, target: UserId, now1: int, now2: int)
    requires actor in db.users && target in db.users && actor != target
    requires FollowSymmetric(db.users) && !Follows(db.users, actor, target)
    ensures ToggleFollow(ToggleFollow(db, actor, target, now1), actor, target, now2).users == db.users
  {
    var m := ToggleFollow(db, actor, target, now1);
    var r := ToggleFollow(m, actor, target, now2);
    var a := db.users[actor];
    var t := db.users[target];
    assert actor !in t.followers;
    assert Follows(m.users, actor, target);
    PullAppended(t.followers, actor);
    PullAppended(a.following, target);
    assert r.users[target] == t;
    assert r.users[actor] == a;
  }

  /** The users a suggestion may name: not the viewer and not already followed. */
  function Candidates(users: map<UserId, User>, viewer: UserId): (c: set<UserId>)
    requires viewer in users
    ensures viewer !in c
    ensures forall u :: u in c <==> u in users && u != viewer && u !in users[viewer].following
  {
    set u | u in users && u != viewer && u !in users[viewer].following
  }

  predicate Distinct<T(==)>(s: seq<T>)
  {
    forall i, j :: 0 <= i < j < |s| ==> s[i] != s[j]
  }

  function Min(a: int, b: int): int { if a <= b then a else b }

  /** `$match` on `_id $nin [self, ...following]`, then `$sample` of size 4: an
      arbitrary choice of distinct candidates, all of them when fewer than 4;
      an empty sample is the distinct "no suggested users" outcome. */
  method SuggestedUsers(users: map<UserId, User>, viewer: UserId) returns (r: Result<seq<UserId>>)
    requires viewer in users
    ensures r.Err? <==> Candidates(users, viewer) == {}
    ensures r.Err? ==> r.error == NoSuggestions
    ensures r.Ok? ==> |r.value| == Min(4, |Candidates(users, viewer)|)
    ensures r.Ok? ==> Distinct(r.value)
    ensures r.Ok? ==> forall i :: 0 <= i < |r.value| ==>
      r.value[i] in users && r.value[i] != viewer && r.value[i] !in users[viewer].following
  {
    var candidates := Candidates(users, viewer);
    var remaining := candidates;
    var sample: seq<UserId> := [];
    while |sample| < 4 && remaining != {}
      invariant remaining <= candidates
      invariant |sample| <= 4
      invariant |sample| + |remaining| == |candidates|
      invariant forall i :: 0 <= i < |sample| ==> sample[i] in candidates && sample[i] !in remaining
      invariant Distinct(sample)
      decreases remaining
    {
      var u :| u in remaining;
      sample := sample + [u];
      remaining := remaining - {u};
    }
    if |sample| > 0 {
      r := Ok(sample);
    } else {
      r := Err(NoSuggestions);
    }
  }
}
