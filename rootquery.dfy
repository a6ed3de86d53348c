/**
 * The GraphQL root resolvers: the read resolvers, among them the two-hop
 * `users` expansion, and the mutations. Here a subscription is stored on the
 * TARGET: the follower's id is pushed on the list of the user subscribed to.
 */
module RootQuery {
  import opened Entities
  import opened Store
  import opened Uuid
  import opened Subscriptions

  // ---------------------------------------------------------------------------
  // Reads

  /** A user as the `users` resolver shows a neighbour: its own record, its followers and its dereferenced list. */
  datatype Neighbour = Neighbour(user: User, subscribedToUser: seq<User>, userSubscribedTo: seq<Option<User>>)

  /** A user as the `users` resolver returns it. */
  datatype UserGraph = UserGraph(
    user: User, profile: Option<Profile>, memberType: Option<MemberType>,
    userSubscribedTo: seq<Option<Neighbour>>, subscribedToUser: seq<Neighbour>, posts: seq<Post>)

  /** A user as the `user` resolver returns it: one hop only. */
  datatype UserDetail = UserDetail(
    user: User, profile: Option<Profile>, memberType: Option<MemberType>,
    userSubscribedTo: seq<User>, subscribedToUser: seq<Option<User>>, posts: seq<Post>)

  /** `ids.map(id => findOne({key: "id", equals: id}))`: one entry per id, in order; a dangling id gives none. */
  function Deref(users: seq<User>, ids: seq<Id>): (r: seq<Option<User>>)
    ensures |r| == |ids|
    ensures forall k :: 0 <= k < |ids| ==> (r[k].Some? <==> HasKey(users, IdOfUser, ids[k]))
    ensures forall k :: 0 <= k < |ids| && r[k].Some? ==> r[k].value.id == ids[k] && r[k].value in users
  {
    seq(|ids|, k requires 0 <= k < |ids| => FindOne(users, IdOfUser, ids[k]))
  }

  /**
   * The extra hop a neighbour gets: its followers (the users whose list holds
   * its id) and its own list dereferenced. These are raw records.
   */
  function Hop(users: seq<User>, u: User): (n: Neighbour)
    ensures n.user == u
    ensures forall x :: x in n.subscribedToUser <==> x in users && u.id in x.subscribedToUserIds
    ensures n.subscribedToUser == FindManyIn(users, SubscribedToUserIdsOf, u.id)
    ensures |n.userSubscribedTo| == |u.subscribedToUserIds|
    ensures forall k :: 0 <= k < |n.userSubscribedTo| ==>
              (n.userSubscribedTo[k].Some? <==> HasKey(users, IdOfUser, u.subscribedToUserIds[k]))
    ensures forall k :: 0 <= k < |n.userSubscribedTo| && n.userSubscribedTo[k].Some? ==>
              n.userSubscribedTo[k].value.id == u.subscribedToUserIds[k] && n.userSubscribedTo[k].value in users
  {
    Neighbour(u, FindManyIn(users, SubscribedToUserIdsOf, u.id), Deref(users, u.subscribedToUserIds))
  }

  /** The member type of a profile, or none when there is no profile. */
  function MemberTypeOf(memberTypes: seq<MemberType>, profile: Option<Profile>): (r: Option<MemberType>)
    ensures profile.None? ==> r.None?
    ensures profile.Some? ==> (r.Some? <==> HasKey(memberTypes, IdOfMemberType, profile.value.memberTypeId))
    ensures r.Some? ==> r.value.id == profile.value.memberTypeId && r.value in memberTypes
  {
    match profile
    case None => None
    case Some(p) => FindOne(memberTypes, IdOfMemberType, p.memberTypeId)
  }

  /** The neighbours at one hop, each enriched by a second hop. */
  function Enrich(users: seq<User>, found: seq<Option<User>>): (r: seq<Option<Neighbour>>)
    ensures |r| == |found|
    ensures forall k :: 0 <= k < |found| ==> (r[k].Some? <==> found[k].Some?)
    ensures forall k :: 0 <= k < |found| && found[k].Some? ==> r[k].value == Hop(users, found[k].value)
  {
    seq(|found|, k requires 0 <= k < |found| => match found[k] case None => None case Some(f) => Some(Hop(users, f)))
  }

  /** The users that list `id`, in store order, each enriched by a second hop. */
  function Followers(users: seq<User>, id: Id): (r: seq<Neighbour>)
    ensures |r| == |FindManyIn(users, SubscribedToUserIdsOf, id)|
    ensures forall k :: 0 <= k < |r| ==> r[k] == Hop(users, FindManyIn(users, SubscribedToUserIdsOf, id)[k])
  {
    var followers := FindManyIn(users, SubscribedToUserIdsOf, id);
    seq(|followers|, k requires 0 <= k < |followers| => Hop(users, followers[k]))
  }

  /** The followers are exactly the stored users that list `id`, each with its own hop. */
  lemma FollowersExactly(users: seq<User>, id: Id)
    ensures var r := Followers(users, id);
            forall k :: 0 <= k < |r| ==>
              r[k].user in users && id in r[k].user.subscribedToUserIds && r[k] == Hop(users, r[k].user)
    ensures var r := Followers(users, id);
            forall x :: x in users && id in x.subscribedToUserIds ==> exists k :: 0 <= k < |r| && r[k].user == x
  {
    var followers := FindManyIn(users, SubscribedToUserIdsOf, id);
    var r := Followers(users, id);
    forall k | 0 <= k < |r|
      ensures r[k].user in users && id in r[k].user.subscribedToUserIds && r[k] == Hop(users, r[k].user)
    {
      assert r[k].user == followers[k] && followers[k] in followers;
    }
    forall x | x in users && id in x.subscribedToUserIds
      ensures exists k :: 0 <= k < |r| && r[k].user == x
    {
      assert x in followers;
      var k :| 0 <= k < |followers| && followers[k] == x;
      assert r[k].user == x;
    }
  }

  /**
   * What the `users` resolver returns for `u`: its profile (the first whose
   * userId is `u.id`), that profile's member type, its posts, the users that
   * list `u.id` and the users `u` lists; each of those neighbours gets exactly
   * one further hop, and no more.
   */
  function Expand(users: seq<User>, profiles: seq<Profile>, posts: seq<Post>, memberTypes: seq<MemberType>, u: User): (g: UserGraph)
    ensures g.user == u
    ensures g.profile.Some? <==> HasKey(profiles, UserIdOfProfile, u.id)
    ensures g.profile.Some? ==> g.profile.value.userId == u.id && g.profile.value in profiles
    ensures g.profile.Some? ==> g.profile.value == profiles[IndexOf(profiles, UserIdOfProfile, u.id)]
    ensures g.memberType == MemberTypeOf(memberTypes, g.profile)
    ensures forall x :: x in g.posts <==> x in posts && x.userId == u.id
    ensures g.posts == FindMany(posts, UserIdOfPost, u.id)
    ensures g.subscribedToUser == Followers(users, u.id)
    ensures forall k :: 0 <= k < |g.subscribedToUser| ==>
              var n := g.subscribedToUser[k];
              n.user in users && u.id in n.user.subscribedToUserIds && n == Hop(users, n.user)
    ensures forall x :: x in users && u.id in x.subscribedToUserIds ==>
              exists k :: 0 <= k < |g.subscribedToUser| && g.subscribedToUser[k].user == x
    ensures |g.userSubscribedTo| == |u.subscribedToUserIds|
    ensures forall k :: 0 <= k < |g.userSubscribedTo| ==>
              (g.userSubscribedTo[k].Some? <==> HasKey(users, IdOfUser, u.subscribedToUserIds[k]))
    ensures forall k :: 0 <= k < |g.userSubscribedTo| && g.userSubscribedTo[k].Some? ==>
              var n := g.userSubscribedTo[k].value;
              n.user.id == u.subscribedToUserIds[k] && n.user in users && n == Hop(users, n.user)
  {
    FollowersExactly(users, u.id);
    var profile := FindOne(profiles, UserIdOfProfile, u.id);
    UserGraph(u, profile, MemberTypeOf(memberTypes, profile),
              Enrich(users, Deref(users, u.subscribedToUserIds)), Followers(users, u.id),
              FindMany(posts, UserIdOfPost, u.id))
  }

  /** `users`: every stored user, in store order, expanded. */
  function ListUsers(users: seq<User>, profiles: seq<Profile>, posts: seq<Post>, memberTypes: seq<MemberType>): (r: seq<UserGraph>)
    ensures |r| == |users|
    ensures forall i :: 0 <= i < |users| ==> r[i] == Expand(users, profiles, posts, memberTypes, users[i])
  {
    seq(|users|, i requires 0 <= i < |users| => Expand(users, profiles, posts, memberTypes, users[i]))
  }

  /**
   * `user(id)`: BadId for a malformed id, NotFound for an unknown one; otherwise
   * the user with profile, member type and posts, its field `userSubscribedTo`
   * holding the users that list it and its field `subscribedToUser` its own
   * list dereferenced. Nothing is expanded further.
   */
  function GetUser(users: seq<User>, profiles: seq<Profile>, posts: seq<Post>, memberTypes: seq<MemberType>, id: Id): (r: Result<UserDetail>)
    ensures !IsUuid(id) ==> r == Err(BadId)
    ensures IsUuid(id) ==> (r.Err? <==> !HasKey(users, IdOfUser, id))
    ensures IsUuid(id) && r.Err? ==> r.error == NotFound
    ensures r.Ok? ==> r.value.user.id == id && r.value.user in users
    ensures r.Ok? ==> forall x :: x in r.value.userSubscribedTo <==> x in users && id in x.subscribedToUserIds
    ensures r.Ok? ==> r.value.userSubscribedTo == FindManyIn(users, SubscribedToUserIdsOf, id)
    ensures r.Ok? ==> r.value.subscribedToUser == Deref(users, r.value.user.subscribedToUserIds)
    ensures r.Ok? ==> (r.value.profile.Some? <==> HasKey(profiles, UserIdOfProfile, id))
    ensures r.Ok? && r.value.profile.Some? ==> r.value.profile.value == profiles[IndexOf(profiles, UserIdOfProfile, id)]
    ensures r.Ok? ==> r.value.memberType == MemberTypeOf(memberTypes, r.value.profile)
    ensures r.Ok? ==> forall x :: x in r.value.posts <==> x in posts && x.userId == id
    ensures r.Ok? ==> r.value.posts == FindMany(posts, UserIdOfPost, id)
  {
    if !IsUuid(id) then Err(BadId)
    else match FindOne(users, IdOfUser, id)
      case None => Err(NotFound)
      case Some(u) =>
        var profile := FindOne(profiles, UserIdOfProfile, u.id);
        Ok(UserDetail(u, profile, MemberTypeOf(memberTypes, profile),
                      FindManyIn(users, SubscribedToUserIdsOf, u.id),
                      Deref(users, u.subscribedToUserIds),
                      FindMany(posts, UserIdOfPost, u.id)))
  }

  /**
   * The two resolvers disagree on the two subscription fields: what `user`
   * calls `userSubscribedTo` is the list `users` calls `subscribedToUser`
   * (without the extra hop), and the other way round. Everything else agrees.
   */
  lemma SingleUserSwapsFields(users: seq<User>, profiles: seq<Profile>, posts: seq<Post>, memberTypes: seq<MemberType>, u: User)
    requires UniqueKeys(users, IdOfUser) && u in users && IsUuid(u.id)
    ensures var d := GetUser(users, profiles, posts, memberTypes, u.id);
            var g := Expand(users, profiles, posts, memberTypes, u);
            && d.Ok? && d.value.user == u
            && d.value.profile == g.profile && d.value.memberType == g.memberType && d.value.posts == g.posts
            && |d.value.userSubscribedTo| == |g.subscribedToUser|
            && (forall k :: 0 <= k < |g.subscribedToUser| ==> d.value.userSubscribedTo[k] == g.subscribedToUser[k].user)
            && |d.value.subscribedToUser| == |g.userSubscribedTo|
            && (forall k :: 0 <= k < |g.userSubscribedTo| ==>
                  (d.value.subscribedToUser[k].Some? <==> g.userSubscribedTo[k].Some?))
            && (forall k :: 0 <= k < |g.userSubscribedTo| && g.userSubscribedTo[k].Some? ==>
                  d.value.subscribedToUser[k].value == g.userSubscribedTo[k].value.user)
  {
    var p :| 0 <= p < |users| && users[p] == u;
    IndexOfKeyAt(users, IdOfUser, p);
  }

  /** `profile(id)` and `post(id)`: BadId for a malformed id, then NotFound for an unknown one. */
  function ById<R>(rows: seq<R>, key: R -> Id, id: Id): (r: Result<R>)
    ensures !IsUuid(id) ==> r == Err(BadId)
    ensures IsUuid(id) ==> (r.Err? <==> !HasKey(rows, key, id))
    ensures IsUuid(id) && r.Err? ==> r.error == NotFound
    ensures r.Ok? ==> key(r.value) == id && r.value in rows
  {
    if !IsUuid(id) then Err(BadId) else Lookup(rows, key, id)
  }

  /** `memberType(id)`: BadId outside the closed set; otherwise the row, or none (not an error) when it is missing. */
  function GetMemberType(memberTypes: seq<MemberType>, id: string): (r: Result<Option<MemberType>>)
    ensures r.Err? <==> !IsMemberTypeId(id)
    ensures r.Err? ==> r.error == BadId
    ensures r.Ok? ==> (r.value.Some? <==> HasKey(memberTypes, IdOfMemberType, id))
    ensures r.Ok? && r.value.Some? ==> r.value.value.id == id && r.value.value in memberTypes
  {
    if !IsMemberTypeId(id) then Err(BadId) else Ok(FindOne(memberTypes, IdOfMemberType, id))
  }

  // ---------------------------------------------------------------------------
  // Mutations

  /**
   * `createProfile`: fails with BadId for a malformed userId, BadMemberType
   * outside the closed set, UserMissing for an unknown user and ProfileExists
   * when that user has a profile, in that order; otherwise the profile is
   * created, and it is the user's only one.
   */
  method CreateProfile(db: Db, input: ProfileInput, freshId: Id) returns (r: Result<Profile>)
    requires db.Valid() && !HasKey(db.profiles, IdOfProfile, freshId)
    modifies db`profiles
    ensures db.Valid()
    ensures !IsUuid(input.userId) ==> r == Err(BadId)
    ensures IsUuid(input.userId) && !IsMemberTypeId(input.memberTypeId) ==> r == Err(BadMemberType)
    ensures (IsUuid(input.userId) && IsMemberTypeId(input.memberTypeId)
             && !HasKey(db.users, IdOfUser, input.userId)) ==> r == Err(UserMissing)
    ensures (IsUuid(input.userId) && IsMemberTypeId(input.memberTypeId) && HasKey(db.users, IdOfUser, input.userId)
             && HasKey(old(db.profiles), UserIdOfProfile, input.userId)) ==> r == Err(ProfileExists)
    ensures (IsUuid(input.userId) && IsMemberTypeId(input.memberTypeId) && HasKey(db.users, IdOfUser, input.userId)
             && !HasKey(old(db.profiles), UserIdOfProfile, input.userId)) ==> r.Ok?
    ensures r.Err? ==> db.profiles == old(db.profiles)
    ensures r.Ok? ==> r.value == Profile(freshId, input.avatar, input.sex, input.birthday, input.country,
                                         input.street, input.city, input.userId, input.memberTypeId)
                      && db.profiles == old(db.profiles) + [r.value]
    ensures r.Ok? ==> |FindMany(db.profiles, UserIdOfProfile, input.userId)| == 1
  {
    if !IsUuid(input.userId) {
      return Err(BadId);
    }
    if !IsMemberTypeId(input.memberTypeId) {
      return Err(BadMemberType);
    }
    var user := FindOne(db.users, IdOfUser, input.userId);
    if user.None? {
      return Err(UserMissing);
    }
    var profile := FindOne(db.profiles, UserIdOfProfile, input.userId);
    if profile.Some? {
      return Err(ProfileExists);
    }
    ghost var before := db.profiles;
    var p := db.CreateProfile(input, freshId);
    FindManyAppend(before, UserIdOfProfile, input.userId, p);
    FindManyAbsent(before, UserIdOfProfile, input.userId);
    r := Ok(p);
  }

  /** `createPost`: BadId for a malformed userId, UserMissing for an unknown user; otherwise the post is created. */
  method CreatePost(db: Db, input: PostInput, freshId: Id) returns (r: Result<Post>)
    requires db.Valid() && !HasKey(db.posts, IdOfPost, freshId)
    modifies db`posts
    ensures db.Valid()
    ensures !IsUuid(input.userId) ==> r == Err(BadId)
    ensures IsUuid(input.userId) ==> (r.Err? <==> !HasKey(db.users, IdOfUser, input.userId))
    ensures IsUuid(input.userId) && r.Err? ==> r.error == UserMissing
    ensures r.Err? ==> db.posts == old(db.posts)
    ensures r.Ok? ==> r.value == Post(freshId, input.title, input.content, input.userId)
                      && db.posts == old(db.posts) + [r.value]
  {
    if !IsUuid(input.userId) {
      return Err(BadId);
    }
    var user := FindOne(db.users, IdOfUser, input.userId);
    if user.None? {
      return Err(UserMissing);
    }
    var p := db.CreatePost(input, freshId);
    r := Ok(p);
  }

  /**
   * `updatePost`: BadId, then NotFound; otherwise the post takes every field
   * of the input except its id. The new userId is not checked.
   */
  method UpdatePost(db: Db, id: Id, input: PostInput) returns (r: Result<Post>)
    requires db.Valid()
    modifies db`posts
    ensures db.Valid()
    ensures !IsUuid(id) ==> r == Err(BadId) && db.posts == old(db.posts)
    ensures IsUuid(id) ==> var i := IndexOf(old(db.posts), IdOfPost, id);
      if i < 0 then r == Err(NotFound) && db.posts == old(db.posts)
      else r == Ok(Post(id, input.title, input.content, input.userId)) && db.posts == old(db.posts)[i := r.value]
  {
    if !IsUuid(id) {
      return Err(BadId);
    }
    var post := FindOne(db.posts, IdOfPost, id);
    if post.None? {
      return Err(NotFound);
    }
    var changed := db.ChangePost(id, PostChange(Some(input.title), Some(input.content), Some(input.userId)));
    r := Ok(changed.value);
  }

  /**
   * `updateProfile`: BadId, then NotFound; otherwise the profile takes every
   * field of the input except its id. Neither the new userId nor the new
   * memberTypeId is checked.
   */
  method UpdateProfile(db: Db, id: Id, input: ProfileInput) returns (r: Result<Profile>)
    requires db.Valid()
    modifies db`profiles
    ensures db.Valid()
    ensures !IsUuid(id) ==> r == Err(BadId) && db.profiles == old(db.profiles)
    ensures IsUuid(id) ==> var i := IndexOf(old(db.profiles), IdOfProfile, id);
      if i < 0 then r == Err(NotFound) && db.profiles == old(db.profiles)
      else r == Ok(Profile(id, input.avatar, input.sex, input.birthday, input.country, input.street,
                           input.city, input.userId, input.memberTypeId))
           && db.profiles == old(db.profiles)[i := r.value]
  {
    if !IsUuid(id) {
      return Err(BadId);
    }
    var profile := FindOne(db.profiles, IdOfProfile, id);
    if profile.None? {
      return Err(NotFound);
    }
    var c := ProfileChange(Some(input.avatar), Some(input.sex), Some(input.birthday), Some(input.country),
                           Some(input.street), Some(input.city), Some(input.userId), Some(input.memberTypeId));
    var changed := db.ChangeProfile(id, c);
    r := Ok(changed.value);
  }

  /**
   * `updateMemberType`: BadId outside the closed set; otherwise the change is
   * merged, and the result is none when no row has that id.
   */
  method UpdateMemberType(db: Db, id: string, c: MemberTypeChange) returns (r: Result<Option<MemberType>>)
    requires db.Valid()
    modifies db`memberTypes
    ensures db.Valid()
    ensures !IsMemberTypeId(id) ==> r == Err(BadId) && db.memberTypes == old(db.memberTypes)
    ensures IsMemberTypeId(id) ==> var i := IndexOf(old(db.memberTypes), IdOfMemberType, id);
      if i < 0 then r == Ok(None) && db.memberTypes == old(db.memberTypes)
      else r == Ok(Some(MergeMemberType(old(db.memberTypes)[i], c)))
           && db.memberTypes == old(db.memberTypes)[i := r.value.value]
  {
    if !IsMemberTypeId(id) {
      return Err(BadId);
    }
    var changed := db.ChangeMemberType(id, c);
    r := Ok(changed);
  }

  /**
   * `updateUser`: BadId, then NotFound; otherwise the user takes the input's
   * names and email and keeps its id and its subscription list.
   */
  method UpdateUser(db: Db, id: Id, input: UserInput) returns (r: Result<User>)
    requires db.Valid()
    modifies db`users
    ensures db.Valid()
    ensures !IsUuid(id) ==> r == Err(BadId) && db.users == old(db.users)
    ensures IsUuid(id) ==> var i := IndexOf(old(db.users), IdOfUser, id);
      if i < 0 then r == Err(NotFound) && db.users == old(db.users)
      else r == Ok(old(db.users)[i].(firstName := input.firstName, lastName := input.lastName, email := input.email))
           && db.users == old(db.users)[i := r.value]
  {
    if !IsUuid(id) {
      return Err(BadId);
    }
    var user := FindOne(db.users, IdOfUser, id);
    if user.None? {
      return Err(NotFound);
    }
    var changed := db.ChangeUser(id, UserChange(Some(input.firstName), Some(input.lastName), Some(input.email), None));
    r := Ok(changed.value);
  }

  /**
   * `subscribeTo(userId, subscribeToId)`: BadId when either id is malformed,
   * NotFound when either user is missing, AlreadySubscribed when the target
   * already lists the follower; otherwise exactly `userId` is appended to
   * the target's list and no other user changes.
   */
  method SubscribeTo(db: Db, userId: Id, subscribeToId: Id) returns (r: Result<User>)
    requires db.Valid()
    modifies db`users
    ensures db.Valid()
    ensures !IsUuid(userId) || !IsUuid(subscribeToId) ==> r == Err(BadId) && db.users == old(db.users)
    ensures IsUuid(userId) && IsUuid(subscribeToId) ==>
      var i := IndexOf(old(db.users), IdOfUser, userId);
      var j := IndexOf(old(db.users), IdOfUser, subscribeToId);
      if i < 0 || j < 0 then r == Err(NotFound) && db.users == old(db.users)
      else if userId in old(db.users)[j].subscribedToUserIds then r == Err(AlreadySubscribed) && db.users == old(db.users)
      else
        var u := old(db.users)[j].(subscribedToUserIds := old(db.users)[j].subscribedToUserIds + [userId]);
        r == Ok(u) && db.users == old(db.users)[j := u]
  {
    if !IsUuid(userId) || !IsUuid(subscribeToId) {
      return Err(BadId);
    }
    var follower := FindOne(db.users, IdOfUser, userId);
    if follower.None? {
      return Err(NotFound);
    }
    var following := FindOne(db.users, IdOfUser, subscribeToId);
    if following.None? {
      return Err(NotFound);
    }
    var target := following.value;
    if userId in target.subscribedToUserIds {
      return Err(AlreadySubscribed);
    }
    target := target.(subscribedToUserIds := target.subscribedToUserIds + [userId]);
    var changed := db.ChangeUser(subscribeToId, Rewrite(target));
    r := Ok(changed.value);
  }

  /**
   * `unsubscribeFrom(userId, unsubscribeFromId)`: BadId when either id is
   * malformed, NotFound when either user is missing; otherwise the target's
   * list loses what `splice(indexOf(userId), 1)` removes, which is the last
   * entry when `userId` is not listed. This resolver never reports
   * NotSubscribed.
   */
  method UnsubscribeFrom(db: Db, userId: Id, unsubscribeFromId: Id) returns (r: Result<User>)
    requires db.Valid()
    modifies db`users
    ensures db.Valid()
    ensures !IsUuid(userId) || !IsUuid(unsubscribeFromId) ==> r == Err(BadId) && db.users == old(db.users)
    ensures IsUuid(userId) && IsUuid(unsubscribeFromId) ==>
      var i := IndexOf(old(db.users), IdOfUser, userId);
      var j := IndexOf(old(db.users), IdOfUser, unsubscribeFromId);
      if i < 0 || j < 0 then r == Err(NotFound) && db.users == old(db.users)
      else
        var u := old(db.users)[j].(subscribedToUserIds := UnsubscribeUnchecked(old(db.users)[j].subscribedToUserIds, userId));
        r == Ok(u) && db.users == old(db.users)[j := u]
    ensures r != Err(NotSubscribed)
  {
    if !IsUuid(userId) || !IsUuid(unsubscribeFromId) {
      return Err(BadId);
    }
    var follower := FindOne(db.users, IdOfUser, userId);
    if follower.None? {
      return Err(NotFound);
    }
    var following := FindOne(db.users, IdOfUser, unsubscribeFromId);
    if following.None? {
      return Err(NotFound);
    }
    var target := following.value;
    var followerIndex := IndexOfId(target.subscribedToUserIds, userId);
    target := target.(subscribedToUserIds := SpliceOne(target.subscribedToUserIds, followerIndex));
    var changed := db.ChangeUser(unsubscribeFromId, Rewrite(target));
    r := Ok(changed.value);
  }

  /**
   * The store-level half of the round trip: after `userId` is pushed on the
   * list of the user at `j`, both users are found where they were, and the
   * unchecked unsubscribe edit gives back the original users.
   */
  lemma PushThenSpliceRestores(users: seq<User>, i: nat, j: nat, userId: Id)
    requires UniqueKeys(users, IdOfUser) && i < |users| && j < |users| && users[i].id == userId
    requires userId !in users[j].subscribedToUserIds
    ensures var mid := users[j := users[j].(subscribedToUserIds := users[j].subscribedToUserIds + [userId])];
            && IndexOf(mid, IdOfUser, userId) == i
            && IndexOf(mid, IdOfUser, users[j].id) == j
            && mid[j := mid[j].(subscribedToUserIds := UnsubscribeUnchecked(mid[j].subscribedToUserIds, userId))] == users
  {
    var before := users[j].subscribedToUserIds;
    var mid := users[j := users[j].(subscribedToUserIds := before + [userId])];
    SubscribeRoundTrip(before, userId);
    ReplaceUnique(users, IdOfUser, j, mid[j]);
    IndexOfKeyAt(mid, IdOfUser, i);
    IndexOfKeyAt(mid, IdOfUser, j);
    assert mid[j := users[j]] == users;
  }

  /** A successful `subscribeTo` followed by `unsubscribeFrom` on the same pair restores the users. */
  method RoundTrip(db: Db, userId: Id, targetId: Id) returns (first: Result<User>, second: Result<User>)
    requires db.Valid()
    modifies db`users
    ensures db.Valid()
    ensures first.Ok? ==> second.Ok? && db.users == old(db.users)
  {
    ghost var users0 := db.users;
    first := SubscribeTo(db, userId, targetId);
    second := first;
    if first.Ok? {
      PushThenSpliceRestores(users0, IndexOf(users0, IdOfUser, userId), IndexOf(users0, IdOfUser, targetId), userId);
      second := UnsubscribeFrom(db, userId, targetId);
    }
  }
}
