/**
 * The REST handlers under /posts: POST with its owner check, DELETE and
 * PATCH. GET /posts/:id is `Store.Lookup` on the posts.
 */
module PostsRoutes {
  import opened Entities
  import opened Store
  import opened Uuid

  /**
   * POST /posts: fails with UserMissing when no user has the userId, and
   * otherwise creates the post under `freshId`. Its owner then exists.
   */
  method Create(db: Db, input: PostInput, freshId: Id) returns (r: Result<Post>)
    requires db.Valid() && !HasKey(db.posts, IdOfPost, freshId)
    modifies db`posts
    ensures db.Valid()
    ensures r.Err? <==> !HasKey(db.users, IdOfUser, input.userId)
    ensures r.Err? ==> r.error == UserMissing && db.posts == old(db.posts)
    ensures r.Ok? ==> r.value == Post(freshId, input.title, input.content, input.userId)
                      && db.posts == old(db.posts) + [r.value]
                      && HasKey(db.users, IdOfUser, r.value.userId)
  {
    var user := FindOne(db.users, IdOfUser, input.userId);
    if user.None? {
      return Err(UserMissing);
    }
    var p := db.CreatePost(input, freshId);
    r := Ok(p);
  }

  /**
   * DELETE /posts/:id: BadId for a malformed id, NotFound for an unknown one;
   * otherwise exactly that post is removed and returned.
   */
  method Delete(db: Db, id: Id) returns (r: Result<Post>)
    requires db.Valid()
    modifies db`posts
    ensures db.Valid()
    ensures !IsUuid(id) ==> r == Err(BadId)
    ensures IsUuid(id) && !HasKey(old(db.posts), IdOfPost, id) ==> r == Err(NotFound)
    ensures IsUuid(id) && HasKey(old(db.posts), IdOfPost, id) ==> r.Ok?
    ensures r.Err? ==> db.posts == old(db.posts)
    ensures r.Ok? ==> r.value.id == id && r.value in old(db.posts)
    ensures r.Ok? ==> db.posts == DeleteByKey(old(db.posts), IdOfPost, id)
    ensures r.Ok? ==> forall x :: x in db.posts <==> x in old(db.posts) && x.id != id
  {
    if !IsUuid(id) {
      return Err(BadId);
    }
    DeleteRemovesOnly(db.posts, IdOfPost, id);
    var postToDelete := db.DeletePost(id);
    if postToDelete.None? {
      return Err(NotFound);
    }
    r := Ok(postToDelete.value);
  }

  /**
   * PATCH /posts/:id: BadId for a malformed id, NotFound for an unknown one;
   * otherwise the change is merged into that post alone. A new userId is not
   * checked.
   */
  method Patch(db: Db, id: Id, c: PostChange) returns (r: Result<Post>)
    requires db.Valid()
    modifies db`posts
    ensures db.Valid()
    ensures !IsUuid(id) ==> r == Err(BadId) && db.posts == old(db.posts)
    ensures IsUuid(id) ==> var i := IndexOf(old(db.posts), IdOfPost, id);
      if i < 0 then r == Err(NotFound) && db.posts == old(db.posts)
      else r == Ok(MergePost(old(db.posts)[i], c)) && db.posts == old(db.posts)[i := r.value]
  {
    if !IsUuid(id) {
      return Err(BadId);
    }
    var postToChange := db.ChangePost(id, c);
    if postToChange.None? {
      return Err(NotFound);
    }
    r := Ok(postToChange.value);
  }
}
