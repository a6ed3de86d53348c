/**
 * The REST handlers under /users: DELETE with its cascade, subscribeTo,
 * unsubscribeFrom and PATCH. GET /users/:id is `Store.Lookup` on the users
 * (no id-shape check is made there) and POST /users is `Db.CreateUser`.
 * Here a subscription is stored on the FOLLOWER: the target's id is pushed on
 * the list of the user named in the body.
 */
module UsersRoutes {
  import opened Entities
  import opened Store
  import opened Uuid
  import opened Subscriptions

  // ---------------------------------------------------------------------------
  // The subscriber cascade of DELETE

  /**
   * What the DELETE cascade does to the remaining users, as written: the
   * subscriber that takes place `k` in `findMany({key: "subscribedToUserIds",
   * inArray: d})` has the element at index `k` of its OWN list spliced out,
   * whatever that element is. Every other user is left as it is.
   */
  function CascadeAsWritten(users: seq<User>, d: Id): (r: seq<User>)
    ensures |r| == |users|
    ensures forall j :: 0 <= j < |users| ==> r[j] == users[j].(subscribedToUserIds := r[j].subscribedToUserIds)
    ensures forall j :: 0 <= j < |users| && d !in users[j].subscribedToUserIds ==> r[j] == users[j]
  {
    seq(|users|, j requires 0 <= j < |users| =>
      if d in users[j].subscribedToUserIds
      then users[j].(subscribedToUserIds :=
             SpliceOne(users[j].subscribedToUserIds, Rank(users, SubscribedToUserIdsOf, d, j)))
      else users[j])
  }

  /**
   * The subscriber at place `k` of the result list is a user at some position
   * `p`, and it loses the element at index `k` of its own list; when `k` is at
   * or past the end of that list it loses nothing.
   */
  lemma CascadeByPlace(users: seq<User>, d: Id, k: nat) returns (p: nat)
    requires k < |FindManyIn(users, SubscribedToUserIdsOf, d)|
    ensures p < |users| && users[p] == FindManyIn(users, SubscribedToUserIdsOf, d)[k]
    ensures CascadeAsWritten(users, d)[p].subscribedToUserIds == SpliceOne(users[p].subscribedToUserIds, k)
    ensures k >= |users[p].subscribedToUserIds| ==> CascadeAsWritten(users, d)[p] == users[p]
  {
    p := RankOnto(users, SubscribedToUserIdsOf, d, k);
    RankSelect(users, SubscribedToUserIdsOf, d, p);
  }

  /**
   * The first `k` subscribers, in the order the query returns them, have
   * their entry of `target`; every other user is as it was.
   */
  ghost predicate CascadedUpTo(users: seq<User>, d: Id, k: nat, cur: seq<User>, target: seq<User>) {
    && |cur| == |users| && |target| == |users|
    && forall j :: 0 <= j < |users| ==>
         cur[j] == if d in users[j].subscribedToUserIds && Rank(users, SubscribedToUserIdsOf, d, j) < k
                   then target[j] else users[j]
  }

  /**
   * One pass of a cascade loop: subscriber `k` is the unedited user at some
   * position `p` whose place is `k`, and writing its entry of `target` there
   * advances the loop.
   */
  lemma CascadeStep(users: seq<User>, d: Id, k: nat, cur: seq<User>, target: seq<User>) returns (p: nat)
    requires k < |FindManyIn(users, SubscribedToUserIdsOf, d)|
    requires CascadedUpTo(users, d, k, cur, target)
    ensures p < |cur| && cur[p] == users[p] && users[p] == FindManyIn(users, SubscribedToUserIdsOf, d)[k]
    ensures d in users[p].subscribedToUserIds && Rank(users, SubscribedToUserIdsOf, d, p) == k
    ensures CascadedUpTo(users, d, k + 1, cur[p := target[p]], target)
  {
    p := RankOnto(users, SubscribedToUserIdsOf, d, k);
    RankSelect(users, SubscribedToUserIdsOf, d, p);
    forall j | 0 <= j < |users| && j != p && d in users[j].subscribedToUserIds
      ensures Rank(users, SubscribedToUserIdsOf, d, j) != k
    {
      if j < p {
        RankStrict(users, SubscribedToUserIdsOf, d, j, p);
      } else {
        RankStrict(users, SubscribedToUserIdsOf, d, p, j);
      }
    }
  }

  /** Once every subscriber has its entry of `target`, and `target` keeps the others, the users are `target`. */
  lemma CascadeDone(users: seq<User>, d: Id, cur: seq<User>, target: seq<User>)
    requires CascadedUpTo(users, d, |FindManyIn(users, SubscribedToUserIdsOf, d)|, cur, target)
    requires forall j :: 0 <= j < |users| && d !in users[j].subscribedToUserIds ==> target[j] == users[j]
    ensures cur == target
  {
    forall j | 0 <= j < |users| && d in users[j].subscribedToUserIds
      ensures Rank(users, SubscribedToUserIdsOf, d, j) < |FindManyIn(users, SubscribedToUserIdsOf, d)|
    {
      RankSelect(users, SubscribedToUserIdsOf, d, j);
    }
  }

  /**
   * The cascade as written keeps the deleted id: the first subscriber loses an
   * unrelated id, the second loses nothing.
   */
  lemma CascadeKeepsDeletedId()
    ensures var users := [User("a", "", "", "", ["c", "d"]), User("b", "", "", "", ["d"])];
            var after := CascadeAsWritten(users, "d");
            after[0].subscribedToUserIds == ["d"] && after[1].subscribedToUserIds == ["d"]
  {
    var users := [User("a", "", "", "", ["c", "d"]), User("b", "", "", "", ["d"])];
    assert users[..0] == [];
    assert users[..1] == [users[0]];
    assert users[..1][..0] == [];
    assert FindManyIn(users[..1], SubscribedToUserIdsOf, "d") == [users[0]];
    assert Rank(users, SubscribedToUserIdsOf, "d", 1) == 1;
  }

  /**
   * The cascade as evidently intended: every user that lists `d` loses its
   * first `d`, as the checked unsubscribe removes it; every other user is left
   * as it is.
   */
  function CascadeIntended(users: seq<User>, d: Id): (r: seq<User>)
    ensures |r| == |users|
    ensures forall j :: 0 <= j < |users| ==> r[j] == users[j].(subscribedToUserIds := r[j].subscribedToUserIds)
    ensures forall j :: 0 <= j < |users| && d !in users[j].subscribedToUserIds ==> r[j] == users[j]
    ensures forall j :: 0 <= j < |users| && d in users[j].subscribedToUserIds ==>
              Unsubscribe(users[j].subscribedToUserIds, d) == Ok(r[j].subscribedToUserIds)
  {
    seq(|users|, j requires 0 <= j < |users| =>
      if d in users[j].subscribedToUserIds
      then users[j].(subscribedToUserIds := Unsubscribe(users[j].subscribedToUserIds, d).value)
      else users[j])
  }

  /** With lists free of repeats, no user lists `d` after the intended cascade. */
  lemma CascadeIntendedForgets(users: seq<User>, d: Id)
    requires forall j :: 0 <= j < |users| ==> NoRepeats(users[j].subscribedToUserIds)
    ensures forall j :: 0 <= j < |users| ==> d !in CascadeIntended(users, d)[j].subscribedToUserIds
  {
    forall j | 0 <= j < |users| && d in users[j].subscribedToUserIds
      ensures d !in CascadeIntended(users, d)[j].subscribedToUserIds
    {
      UnsubscribeRemovesAll(users[j].subscribedToUserIds, d);
    }
  }

  // ---------------------------------------------------------------------------
  // Handlers

  /** The profile step of DELETE: the first profile whose userId is `userId`, if any, is deleted by its id. */
  method DeleteProfileOf(db: Db, userId: Id)
    requires db.Valid()
    modifies db`profiles
    ensures db.Valid()
    ensures db.profiles == DeleteByKey(old(db.profiles), UserIdOfProfile, userId)
  {
    var userProfile := FindOne(db.profiles, UserIdOfProfile, userId);
    if userProfile.Some? {
      IndexOfKeyAt(db.profiles, IdOfProfile, IndexOf(db.profiles, UserIdOfProfile, userId));
      var _ := db.DeleteProfile(userProfile.value.id);
    }
  }

  /**
   * The subscriber step of DELETE: for each user listing `d`, at place `k` of
   * that query's result, the element at index `k` of its list is spliced out
   * and the user is written back.
   */
  method DropSubscriptions(db: Db, d: Id)
    requires db.Valid()
    modifies db`users
    ensures db.Valid()
    ensures db.users == CascadeAsWritten(old(db.users), d)
  {
    ghost var users1 := db.users;
    ghost var target := CascadeAsWritten(users1, d);
    var subscribers := FindManyIn(db.users, SubscribedToUserIdsOf, d);
    var k := 0;
    while k < |subscribers|
      invariant 0 <= k <= |subscribers|
      invariant db.Valid()
      invariant CascadedUpTo(users1, d, k, db.users, target)
    {
      var sub := subscribers[k];
      ghost var p := CascadeStep(users1, d, k, db.users, target);
      IndexOfKeyAt(db.users, IdOfUser, p);
      var edited := sub.(subscribedToUserIds := SpliceOne(sub.subscribedToUserIds, k));
      var _ := db.ChangeUser(sub.id, Rewrite(edited));
      k := k + 1;
    }
    CascadeDone(users1, d, db.users, target);
  }

  /**
   * The subscriber step as evidently intended: each subscriber has the
   * deleted id itself spliced out, at the place `indexOf` finds it.
   */
  method DropSubscriptionsIntended(db: Db, d: Id)
    requires db.Valid()
    modifies db`users
    ensures db.Valid()
    ensures db.users == CascadeIntended(old(db.users), d)
  {
    ghost var users1 := db.users;
    ghost var target := CascadeIntended(users1, d);
    var subscribers := FindManyIn(db.users, SubscribedToUserIdsOf, d);
    var k := 0;
    while k < |subscribers|
      invariant 0 <= k <= |subscribers|
      invariant db.Valid()
      invariant CascadedUpTo(users1, d, k, db.users, target)
    {
      var sub := subscribers[k];
      ghost var p := CascadeStep(users1, d, k, db.users, target);
      IndexOfKeyAt(db.users, IdOfUser, p);
      var ids := sub.subscribedToUserIds;
      var edited := sub.(subscribedToUserIds := SpliceOne(ids, IndexOfId(ids, d)));
      assert edited.subscribedToUserIds == UnsubscribeUnchecked(ids, d);
      var _ := db.ChangeUser(sub.id, Rewrite(edited));
      k := k + 1;
    }
    CascadeDone(users1, d, db.users, target);
  }

  /** The post step of DELETE: every post whose userId is `userId` is deleted by its id. */
  method DeletePostsOf(db: Db, userId: Id)
    requires db.Valid()
    modifies db`posts
    ensures db.Valid()
    ensures db.posts == Reject(old(db.posts), UserIdOfPost, userId)
  {
    ghost var posts0 := db.posts;
    var userPosts := FindMany(db.posts, UserIdOfPost, userId);
    var k := 0;
    while k < |userPosts|
      invariant 0 <= k <= |userPosts|
      invariant db.Valid()
      invariant db.posts == DeleteEach(posts0, IdOfPost, userPosts[..k])
    {
      var post := userPosts[k];
      assert userPosts[..k + 1][..k] == userPosts[..k];
      var _ := db.DeletePost(post.id);
      k := k + 1;
    }
    assert userPosts[..k] == userPosts;
    DeleteEachSelected(posts0, IdOfPost, UserIdOfPost, userId);
  }

  /** The cascade keeps every id, so an id no user had stays absent. */
  lemma CascadeKeepsAbsentId(users: seq<User>, d: Id, x: Id)
    requires !HasKey(users, IdOfUser, x)
    ensures !HasKey(CascadeAsWritten(users, d), IdOfUser, x)
  {
    var r := CascadeAsWritten(users, d);
    forall j | 0 <= j < |r|
      ensures r[j].id != x
    {
      assert r[j].id == users[j].id;
    }
  }

  /**
   * The steps of DELETE /users/:id after the user row is gone: the user's
   * profile, the subscriber lists and the user's posts, in that order.
   */
  method DeleteDependents(db: Db, id: Id)
    requires db.Valid()
    modifies db`users, db`profiles, db`posts
    ensures db.Valid()
    ensures db.users == CascadeAsWritten(old(db.users), id)
    ensures db.profiles == DeleteByKey(old(db.profiles), UserIdOfProfile, id)
    ensures db.posts == Reject(old(db.posts), UserIdOfPost, id)
  {
    DeleteProfileOf(db, id);
    DropSubscriptions(db, id);
    DeletePostsOf(db, id);
  }

  /**
   * DELETE /users/:id. A malformed id fails before any store call, an unknown
   * one after the failed delete. Otherwise the user's profile (the first one
   * whose userId matches) and all its posts are deleted, the subscriber lists
   * are edited as `CascadeAsWritten` says, and the pre-delete record is
   * returned.
   */
  method Delete(db: Db, id: Id) returns (r: Result<User>)
    requires db.Valid()
    modifies db`users, db`profiles, db`posts
    ensures db.Valid()
    ensures !IsUuid(id) ==> r == Err(BadId)
    ensures IsUuid(id) && !HasKey(old(db.users), IdOfUser, id) ==> r == Err(NotFound)
    ensures IsUuid(id) && HasKey(old(db.users), IdOfUser, id) ==> r.Ok?
    ensures r.Err? ==> db.users == old(db.users) && db.profiles == old(db.profiles) && db.posts == old(db.posts)
    ensures r.Ok? ==> var i := IndexOf(old(db.users), IdOfUser, id);
              && 0 <= i && r.value == old(db.users)[i]
              && db.users == CascadeAsWritten(RemoveAt(old(db.users), i), id)
    ensures r.Ok? ==> db.profiles == DeleteByKey(old(db.profiles), UserIdOfProfile, id)
    ensures r.Ok? ==> db.posts == Reject(old(db.posts), UserIdOfPost, id)
    ensures r.Ok? ==> !HasKey(db.users, IdOfUser, id) && !HasKey(db.posts, UserIdOfPost, id)
    ensures r.Ok? && UniqueKeys(old(db.profiles), UserIdOfProfile) ==> !HasKey(db.profiles, UserIdOfProfile, id)
  {
    if !IsUuid(id) {
      return Err(BadId);
    }
    DeleteLeavesNoKey(db.users, IdOfUser, id);
    if UniqueKeys(db.profiles, UserIdOfProfile) {
      DeleteLeavesNoKey(db.profiles, UserIdOfProfile, id);
    }
    RejectLeavesNoKey(db.posts, UserIdOfPost, id);
    var deleted := db.DeleteUser(id);
    if deleted.None? {
      return Err(NotFound);
    }
    CascadeKeepsAbsentId(db.users, id, id);
    DeleteDependents(db, id);
    r := Ok(deleted.value);
  }

  /**
   * POST /users/:id/subscribeTo with body userId: the subscriber `userId`
   * must exist (else NotFound) and must not already list `id` (else
   * AlreadySubscribed); then `id` is pushed on the subscriber's list and the
   * subscriber is written back. Nothing checks that user `id` exists.
   */
  method SubscribeTo(db: Db, id: Id, userId: Id) returns (r: Result<User>)
    requires db.Valid()
    modifies db`users
    ensures db.Valid()
    ensures var i := IndexOf(old(db.users), IdOfUser, userId);
      if i < 0 then r == Err(NotFound) && db.users == old(db.users)
      else if id in old(db.users)[i].subscribedToUserIds then r == Err(AlreadySubscribed) && db.users == old(db.users)
      else
        var u := old(db.users)[i].(subscribedToUserIds := old(db.users)[i].subscribedToUserIds + [id]);
        r == Ok(u) && db.users == old(db.users)[i := u]
  {
    var subscriberInfo := FindOne(db.users, IdOfUser, userId);
    if subscriberInfo.None? {
      return Err(NotFound);
    }
    var info := subscriberInfo.value;
    if IndexOfId(info.subscribedToUserIds, id) != -1 {
      return Err(AlreadySubscribed);
    }
    info := info.(subscribedToUserIds := info.subscribedToUserIds + [id]);
    var result := db.ChangeUser(userId, Rewrite(info));
    r := Ok(result.value);
  }

  /**
   * POST /users/:id/unsubscribeFrom with body userId: the subscriber must
   * exist (else NotFound) and must list `id` (else NotSubscribed); then the
   * first `id` is spliced out of its list and the subscriber is written back.
   */
  method UnsubscribeFrom(db: Db, id: Id, userId: Id) returns (r: Result<User>)
    requires db.Valid()
    modifies db`users
    ensures db.Valid()
    ensures var i := IndexOf(old(db.users), IdOfUser, userId);
      if i < 0 then r == Err(NotFound) && db.users == old(db.users)
      else if id !in old(db.users)[i].subscribedToUserIds then r == Err(NotSubscribed) && db.users == old(db.users)
      else
        var u := old(db.users)[i].(subscribedToUserIds := Unsubscribe(old(db.users)[i].subscribedToUserIds, id).value);
        r == Ok(u) && db.users == old(db.users)[i := u]
  {
    var subscriberInfo := FindOne(db.users, IdOfUser, userId);
    if subscriberInfo.None? {
      return Err(NotFound);
    }
    var info := subscriberInfo.value;
    var userIndex := IndexOfId(info.subscribedToUserIds, id);
    if userIndex == -1 {
      return Err(NotSubscribed);
    }
    info := info.(subscribedToUserIds := SpliceOne(info.subscribedToUserIds, userIndex));
    var result := db.ChangeUser(userId, Rewrite(info));
    r := Ok(result.value);
  }

  /** Subscribing through this route and then unsubscribing the same pair restores the users. */
  method RoundTrip(db: Db, id: Id, userId: Id) returns (first: Result<User>, second: Result<User>)
    requires db.Valid()
    modifies db`users
    ensures db.Valid()
    ensures first.Ok? ==> second.Ok? && db.users == old(db.users)
  {
    first := SubscribeTo(db, id, userId);
    second := first;
    if first.Ok? {
      ghost var i := IndexOf(old(db.users), IdOfUser, userId);
      ghost var before := old(db.users)[i].subscribedToUserIds;
      SubscribeRoundTrip(before, id);
      IndexOfKeyAt(db.users, IdOfUser, i);
      second := UnsubscribeFrom(db, id, userId);
      assert db.users == old(db.users)[i := old(db.users)[i]];
    }
  }

  /**
   * PATCH /users/:id: a malformed id fails before any store call; otherwise
   * the change is merged into the user, or the route fails with NotFound.
   */
  method Patch(db: Db, id: Id, c: UserChange) returns (r: Result<User>)
    requires db.Valid()
    modifies db`users
    ensures db.Valid()
    ensures !IsUuid(id) ==> r == Err(BadId) && db.users == old(db.users)
    ensures IsUuid(id) ==> var i := IndexOf(old(db.users), IdOfUser, id);
      if i < 0 then r == Err(NotFound) && db.users == old(db.users)
      else r == Ok(MergeUser(old(db.users)[i], c)) && db.users == old(db.users)[i := r.value]
  {
    if !IsUuid(id) {
      return Err(BadId);
    }
    var userToChange := db.ChangeUser(id, c);
    if userToChange.None? {
      return Err(NotFound);
    }
    r := Ok(userToChange.value);
  }
}
