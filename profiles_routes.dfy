/**
 * The REST handlers under /profiles: POST with its three guards, DELETE and
 * PATCH. GET /profiles/:id is `Store.Lookup` on the profiles.
 */
module ProfilesRoutes {
  import opened Entities
  import opened Store
  import opened Uuid

  /** At most one profile per user. */
  predicate ProfilePerUser(profiles: seq<Profile>) {
    UniqueKeys(profiles, UserIdOfProfile)
  }

  /**
   * POST /profiles: fails with BadMemberType for a member type outside the
   * closed set (before any lookup), with UserMissing when no user has the
   * userId, and with ProfileExists when that user already has a profile;
   * otherwise the profile is created under `freshId`.
   */
  method Create(db: Db, input: ProfileInput, freshId: Id) returns (r: Result<Profile>)
    requires db.Valid() && !HasKey(db.profiles, IdOfProfile, freshId)
    modifies db`profiles
    ensures db.Valid()
    ensures !IsMemberTypeId(input.memberTypeId) ==> r == Err(BadMemberType)
    ensures IsMemberTypeId(input.memberTypeId) && !HasKey(db.users, IdOfUser, input.userId) ==> r == Err(UserMissing)
    ensures (IsMemberTypeId(input.memberTypeId) && HasKey(db.users, IdOfUser, input.userId)
             && HasKey(old(db.profiles), UserIdOfProfile, input.userId)) ==> r == Err(ProfileExists)
    ensures (IsMemberTypeId(input.memberTypeId) && HasKey(db.users, IdOfUser, input.userId)
             && !HasKey(old(db.profiles), UserIdOfProfile, input.userId)) ==> r.Ok?
    ensures r.Err? ==> db.profiles == old(db.profiles)
    ensures r.Ok? ==> r.value == Profile(freshId, input.avatar, input.sex, input.birthday, input.country,
                                         input.street, input.city, input.userId, input.memberTypeId)
                      && db.profiles == old(db.profiles) + [r.value]
    ensures r.Ok? ==> |FindMany(db.profiles, UserIdOfProfile, input.userId)| == 1
    ensures ProfilePerUser(old(db.profiles)) ==> ProfilePerUser(db.profiles)
  {
    if !IsMemberTypeId(input.memberTypeId) {
      return Err(BadMemberType);
    }
    var user := FindOne(db.users, IdOfUser, input.userId);
    if user.None? {
      return Err(UserMissing);
    }
    var sameUserProfile := FindOne(db.profiles, UserIdOfProfile, input.userId);
    if sameUserProfile.Some? {
      return Err(ProfileExists);
    }
    ghost var before := db.profiles;
    var p := db.CreateProfile(input, freshId);
    FindManyAppend(before, UserIdOfProfile, input.userId, p);
    FindManyAbsent(before, UserIdOfProfile, input.userId);
    if ProfilePerUser(before) {
      AppendUnique(before, UserIdOfProfile, p);
    }
    r := Ok(p);
  }

  /**
   * DELETE /profiles/:id: BadId for a malformed id, NotFound for an unknown
   * one; otherwise exactly that profile is removed and returned. Nothing else
   * is touched.
   */
  method Delete(db: Db, id: Id) returns (r: Result<Profile>)
    requires db.Valid()
    modifies db`profiles
    ensures db.Valid()
    ensures !IsUuid(id) ==> r == Err(BadId)
    ensures IsUuid(id) && !HasKey(old(db.profiles), IdOfProfile, id) ==> r == Err(NotFound)
    ensures IsUuid(id) && HasKey(old(db.profiles), IdOfProfile, id) ==> r.Ok?
    ensures r.Err? ==> db.profiles == old(db.profiles)
    ensures r.Ok? ==> r.value.id == id && r.value in old(db.profiles)
    ensures r.Ok? ==> db.profiles == DeleteByKey(old(db.profiles), IdOfProfile, id)
    ensures r.Ok? ==> forall x :: x in db.profiles <==> x in old(db.profiles) && x.id != id
  {
    if !IsUuid(id) {
      return Err(BadId);
    }
    DeleteRemovesOnly(db.profiles, IdOfProfile, id);
    var profileToDelete := db.DeleteProfile(id);
    if profileToDelete.None? {
      return Err(NotFound);
    }
    r := Ok(profileToDelete.value);
  }

  /**
   * PATCH /profiles/:id: BadId for a malformed id, NotFound for an unknown
   * one; otherwise the change is merged into that profile alone. The merged
   * userId and memberTypeId are not checked.
   */
  method Patch(db: Db, id: Id, c: ProfileChange) returns (r: Result<Profile>)
    requires db.Valid()
    modifies db`profiles
    ensures db.Valid()
    ensures !IsUuid(id) ==> r == Err(BadId) && db.profiles == old(db.profiles)
    ensures IsUuid(id) ==> var i := IndexOf(old(db.profiles), IdOfProfile, id);
      if i < 0 then r == Err(NotFound) && db.profiles == old(db.profiles)
      else r == Ok(MergeProfile(old(db.profiles)[i], c)) && db.profiles == old(db.profiles)[i := r.value]
  {
    if !IsUuid(id) {
      return Err(BadId);
    }
    var profileToChange := db.ChangeProfile(id, c);
    if profileToChange.None? {
      return Err(NotFound);
    }
    r := Ok(profileToChange.value);
  }
}
