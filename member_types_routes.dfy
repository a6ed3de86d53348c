/**
 * The REST handlers under /member-types: PATCH with its closed-set check.
 * GET /member-types/:id is `Store.Lookup` on the member types; no handler
 * creates or deletes one.
 */
module MemberTypesRoutes {
  import opened Entities
  import opened Store

  /**
   * PATCH /member-types/:id: BadId for an id outside the closed set (before
   * any store call), NotFound for a listed id with no row; otherwise the change
   * is merged into that member type. The member-type ids are the same, in the
   * same order, afterwards.
   */
  method Patch(db: Db, id: string, c: MemberTypeChange) returns (r: Result<MemberType>)
    requires db.Valid()
    modifies db`memberTypes
    ensures db.Valid()
    ensures !IsMemberTypeId(id) ==> r == Err(BadId) && db.memberTypes == old(db.memberTypes)
    ensures IsMemberTypeId(id) ==> var i := IndexOf(old(db.memberTypes), IdOfMemberType, id);
      if i < 0 then r == Err(NotFound) && db.memberTypes == old(db.memberTypes)
      else r == Ok(MergeMemberType(old(db.memberTypes)[i], c)) && db.memberTypes == old(db.memberTypes)[i := r.value]
    ensures |db.memberTypes| == |old(db.memberTypes)|
    ensures forall j :: 0 <= j < |db.memberTypes| ==> db.memberTypes[j].id == old(db.memberTypes)[j].id
  {
    if !IsMemberTypeId(id) {
      return Err(BadId);
    }
    var changedType := db.ChangeMemberType(id, c);
    if changedType.None? {
      return Err(NotFound);
    }
    r := Ok(changedType.value);
  }
}
