# Relational data layer of the users / profiles / posts / member-types service

This Dafny project models the data layer behind the service's two API
surfaces: the REST route handlers and the GraphQL root resolvers. The layer
holds four entity kinds:

- users, each with a list `subscribedToUserIds`;
- profiles, each owned by one user and naming a member type;
- posts, each owned by one user;
- member types, from the closed set `basic`/`business`.

The model covers:

- **The id validator.** `isUUID` is modelled once, as a character-class predicate per position.
- **The entity store.** It is the class `Store.Db`, holding one sequence per kind. Its `findOne`, `findMany`, `create`, `change` and `delete` are modelled with the meaning the call sites rely on.
- **The guarded operations.** Each handler and resolver that changes the store is a method taking the `Db`; the GET handlers and the read resolvers are functions of the tables. Each runs the same chain of checks as the code, reports one `Failure` kind instead of throwing, and then makes the same store calls.
- **The DELETE /users/:id cascade.** This includes its index-based edit of the subscribers' lists.
- **The subscription list edits.** These are `indexOf`/`includes`, `push`, and `splice(start, 1)` with JavaScript's rule for a negative start.
- **The two-hop user graph** of the GraphQL `users` resolver, and the one-hop `user` resolver.

Failure kinds:

- REST handlers answer 404 for `NotFound` and 400 for every other kind.
- GraphQL resolvers report every kind as an error.

The two surfaces store a subscription differently. REST pushes the target's id onto the follower's list. GraphQL pushes the follower's id onto the target's list. Each is modelled as written.

Modules:

- `Uuid`: `isUUID`.
- `Entities`: records, inputs, partial changes, `Failure`, `Result`.
- `Store`: the store's queries, which are generic over a key accessor, and the `Db` class.
- `Subscriptions`: the list edits.
- `UsersRoutes`, `ProfilesRoutes`, `PostsRoutes`, `MemberTypesRoutes`: one per REST route file.
- `RootQuery`: the GraphQL resolvers.

Where the code differs from what the routes evidently intend:

- **The `user` resolver** returns one hop only. Its fields `userSubscribedTo` and `subscribedToUser` hold the opposite lists from the `users` resolver's fields of the same names (`RootQuery.SingleUserSwapsFields`).
- **No update checks foreign keys.** This covers `updatePost`, `updateProfile`, `updateUser` and the three REST PATCH routes. A profile or post can be moved to a missing user, and a profile can be given a second profile's owner.
- **Users can subscribe to themselves.** No handler forbids it.
- **REST `subscribeTo`** checks neither the target user's existence nor the shape of either id.
- **GraphQL `memberType`** answers an unknown listed id with no row, not an error.
- **REST `GET /:id`** does no id-shape check.
- **The REST DELETE cascade** does not remove the deleted id from every follower (see Findings).

## Model

| member | source | states |
|---|---|---|
| Uuid.IsUuid | src/routes/graphql/UUIDvalidation.ts:1-4 | the unanchored `match` plus the length test accept exactly when the string has 36 characters and each offset holds the pattern's class; acceptance implies length 36 (the copies at users/index.ts:10-13, profiles/index.ts:6-9 and posts/index.ts:6-9 are the same predicate) |
| Uuid.AcceptedShape | src/routes/graphql/UUIDvalidation.ts:1-3 | an accepted id has `-` at offsets 8, 13, 18, 23 and a lower-case hex digit at every other offset |
| Uuid.UpperCaseRejected | src/routes/graphql/UUIDvalidation.ts:1 | any string with a character `A`-`F` anywhere is rejected (the class has no case-insensitive flag) |
| Uuid.CanonicalAccepted | src/routes/graphql/UUIDvalidation.ts:1-3 | every lower-case hex 8-4-4-4-12 string joined by dashes is accepted |
| Entities.MergeUser | src/routes/users/index.ts:103-104 | `{...row, ...change}` keeps the id; each field the change carries replaces the stored one and each absent field is kept; writing back a whole record with the same id yields exactly that record |
| Entities.MergeProfile | src/routes/profiles/index.ts:96-97 | the merged profile keeps its id; each field the change carries replaces the stored one and each absent field is kept |
| Entities.MergePost | src/routes/posts/index.ts:87-88 | the merged post keeps its id; each field the change carries replaces the stored one and each absent field is kept |
| Entities.MergeMemberType | src/routes/member-types/index.ts:43-44 | the merged member type keeps its id; each field the change carries replaces the stored one and each absent field is kept |
| Entities.IsMemberTypeId | src/routes/member-types/index.ts:39 | the closed member-type check accepts exactly `basic` and `business`; profiles/index.ts:44 and rootQuery.ts:79, 89 and 119 make the same check |
| Store.IndexOf | src/routes/users/index.ts:30 | -1 exactly when no row has the key; otherwise the position of the first row with it |
| Store.FindOne | src/routes/users/index.ts:30 | `findOne({key, equals})` is some row exactly when one has the key; that row is the first stored row with the key |
| Store.FindMany | src/routes/users/index.ts:76 | `findMany({key, equals})` holds exactly the stored rows with that key |
| Store.FindManyRejectPartition | src/routes/users/index.ts:76 | the rows `findMany` selects and the rows it leaves together hold each stored row exactly as often as the table does, so `findMany` neither repeats nor drops a row |
| Store.FindManyRejectSizes | src/routes/users/index.ts:76 | the selected and the remaining rows together are exactly as many as the stored rows |
| Store.FindManyIn | src/routes/users/index.ts:71 | `findMany({key, inArray})` holds exactly the stored rows whose list contains the value |
| Store.Lookup | src/routes/users/index.ts:29-36 | GET /:id: NotFound exactly when no row has the id, otherwise a stored row with that id (profiles/index.ts:25-32, posts/index.ts:25-32 and member-types/index.ts:20-27 are the same handler) |
| Store.DeleteByKey | src/routes/users/index.ts:64 | `delete(id)` leaves the rows unchanged when no row has the id, and one row shorter otherwise |
| Store.DeleteRemovesOnly | src/routes/profiles/index.ts:74 | with unique ids, deleting by an id removes exactly the row with that id and keeps every other row |
| Store.RejectLeavesNoKey | src/routes/users/index.ts:76-77 | no row with the rejected key survives |
| Store.DeleteEachSelected | src/routes/users/index.ts:76-77 | deleting, one by one by id, each row `findMany` selects leaves exactly the unselected rows, in store order |
| Store.Db.CreateUser | src/routes/users/index.ts:46-49 | POST /users and `createUser` (rootQuery.ts:83-85): the user under a fresh id with an empty list is appended; ids stay unique |
| Store.Db.CreateProfile | src/routes/profiles/index.ts:58 | `profiles.create`: the input under a fresh id is appended; ids stay unique |
| Store.Db.CreatePost | src/routes/posts/index.ts:49 | `posts.create`: the input under a fresh id is appended; ids stay unique |
| Store.Db.ChangeUser | src/routes/users/index.ts:150 | `users.change`: none and no change for an unknown id; otherwise the merged record replaces that user alone |
| Store.Db.ChangeProfile | src/routes/profiles/index.ts:97 | `profiles.change`: none for an unknown id; otherwise the merged record replaces that profile alone |
| Store.Db.ChangePost | src/routes/posts/index.ts:88 | `posts.change`: none for an unknown id; otherwise the merged record replaces that post alone |
| Store.Db.ChangeMemberType | src/routes/member-types/index.ts:44 | `memberTypes.change`: none for an unknown id; otherwise the merged record replaces that member type alone |
| Store.Db.DeleteUser | src/routes/users/index.ts:64 | `users.delete`: the removed record (the one with the id) or none; the rows are `DeleteByKey` of the old ones |
| Store.Db.DeleteProfile | src/routes/profiles/index.ts:74 | `profiles.delete`: the removed record or none; the rows are `DeleteByKey` of the old ones |
| Store.Db.DeletePost | src/routes/posts/index.ts:65 | `posts.delete`: the removed record or none; the rows are `DeleteByKey` of the old ones |
| Subscriptions.IndexOfId | src/routes/users/index.ts:98 | `indexOf` is -1 exactly when the id is absent, and otherwise a position holding it with no earlier occurrence |
| Subscriptions.SpliceOne | src/routes/users/index.ts:130 | `splice(start, 1)` removes the element at `start` when it is in range, nothing at or past the end, and the last element for -1 |
| Subscriptions.Subscribe | src/routes/users/index.ts:98-103 | fails with AlreadySubscribed exactly when the id is listed; otherwise the id is pushed on the end |
| Subscriptions.Unsubscribe | src/routes/users/index.ts:125-130 | fails with NotSubscribed exactly when the id is not listed; otherwise exactly its first occurrence is removed, the length drops by one and the multiset loses one copy |
| Subscriptions.UnsubscribeUnchecked | src/routes/graphql/rootQuery.ts:147-148 | equal to the checked edit when the id is listed; otherwise the last entry is dropped (an empty list stays empty) |
| Subscriptions.SubscribeRoundTrip | src/routes/graphql/rootQuery.ts:136-148 | subscribing and then unsubscribing the same id restores the list, under either unsubscribe edit |
| Subscriptions.SubscribeKeepsNoRepeats | src/routes/users/index.ts:98-103 | the guarded push keeps a list without repeats free of repeats |
| Subscriptions.UnsubscribeKeepsNoRepeats | src/routes/users/index.ts:125-130 | the checked splice keeps a list without repeats free of repeats |
| Subscriptions.SubscribeTwiceFails | src/routes/users/index.ts:98-103 | a second subscribe of the same id fails with AlreadySubscribed |
| Subscriptions.UncheckedDropsLast | src/routes/graphql/rootQuery.ts:147-148 | unsubscribing an unlisted id from `["b"]` is NotSubscribed for the checked edit but empties the list for the unchecked one |
| Subscriptions.UnsubscribeRemovesAll | src/routes/users/index.ts:125-130 | for a list without repeats, the checked edit leaves no occurrence of the id |
| UsersRoutes.CascadeAsWritten | src/routes/users/index.ts:71-75 | the cascade as written keeps every non-subscriber, and changes nothing of a subscriber but its list (id, names and email kept) |
| UsersRoutes.CascadeByPlace | src/routes/users/index.ts:71-75 | the subscriber at place `k` of the query result loses index `k` of its own list, and nothing when `k` is past its end |
| UsersRoutes.CascadeKeepsDeletedId | src/routes/users/index.ts:72-73 | for two users listing `d`, the first loses an unrelated id and both still list `d` afterwards |
| UsersRoutes.CascadeIntended | src/routes/users/index.ts:71-75 | the intended cascade keeps every non-subscriber; a subscriber keeps every field but its list, which becomes its checked unsubscribe of the deleted id |
| UsersRoutes.CascadeIntendedForgets | src/routes/users/index.ts:71-75 | when lists have no repeats, no user lists the deleted id after the intended cascade |
| UsersRoutes.DeleteProfileOf | src/routes/users/index.ts:69-70 | the first profile owned by the user is deleted, if there is one |
| UsersRoutes.DropSubscriptions | src/routes/users/index.ts:71-75 | the `forEach` over subscribers leaves the users exactly as `CascadeAsWritten` says |
| UsersRoutes.DropSubscriptionsIntended | src/routes/users/index.ts:71-75 | splicing at `indexOf` of the deleted id instead leaves the users as `CascadeIntended` says |
| UsersRoutes.DeletePostsOf | src/routes/users/index.ts:76-77 | the `forEach` over the user's posts leaves exactly the posts of other users, in order |
| UsersRoutes.CascadeKeepsAbsentId | src/routes/users/index.ts:71-75 | the cascade edits lists only, so an id that no user has stays absent |
| UsersRoutes.DeleteDependents | src/routes/users/index.ts:69-77 | the profile, subscriber and post steps together: the profile is deleted by owner, the users end as `CascadeAsWritten` says, and exactly the posts of other users remain |
| UsersRoutes.Delete | src/routes/users/index.ts:59-79 | BadId before any store call; NotFound with no table changed; a well-formed id of a stored user always succeeds, and then the pre-delete record is returned, the user is gone, the profile is `DeleteByKey` by owner, no post of that user remains, the subscribers are edited as written, and a unique owner leaves no profile for the user |
| UsersRoutes.SubscribeTo | src/routes/users/index.ts:90-106 | NotFound for an unknown subscriber, AlreadySubscribed when the target is listed, otherwise exactly the target id is appended to the subscriber's list and no other user changes |
| UsersRoutes.UnsubscribeFrom | src/routes/users/index.ts:117-133 | NotFound for an unknown subscriber, NotSubscribed when the target is not listed, otherwise its first occurrence is removed from the subscriber's list alone |
| UsersRoutes.RoundTrip | src/routes/users/index.ts:98-131 | a successful subscribe followed by unsubscribe of the same pair succeeds and restores every user |
| UsersRoutes.Patch | src/routes/users/index.ts:144-156 | BadId for a malformed id, NotFound for an unknown one, otherwise only that user changes, to the merged record |
| ProfilesRoutes.Create | src/routes/profiles/index.ts:42-59 | BadMemberType, then UserMissing, then ProfileExists, with no profile added; when all three guards pass it always succeeds, the profile is appended, its user has exactly one profile, and at most one profile per user is preserved |
| ProfilesRoutes.Delete | src/routes/profiles/index.ts:69-80 | BadId, then NotFound, with nothing changed; a well-formed id of a stored profile always succeeds, and then the stored profile with that id is returned and only it is removed |
| ProfilesRoutes.Patch | src/routes/profiles/index.ts:91-103 | BadId, then NotFound; otherwise only that profile changes, to the merged record |
| PostsRoutes.Create | src/routes/posts/index.ts:42-50 | UserMissing exactly when no user has the userId, with no post added; otherwise exactly one post is appended and its owner exists |
| PostsRoutes.Delete | src/routes/posts/index.ts:60-71 | BadId, then NotFound, with nothing changed; a well-formed id of a stored post always succeeds, and then the stored post with that id is returned and only it is removed |
| PostsRoutes.Patch | src/routes/posts/index.ts:82-94 | BadId, then NotFound; otherwise only that post changes, to the merged record |
| MemberTypesRoutes.Patch | src/routes/member-types/index.ts:38-50 | BadId outside the closed set, then NotFound; otherwise that member type is merged; the member-type ids are the same in the same order afterwards |
| RootQuery.Deref | src/routes/graphql/rootQuery.ts:16 | one entry per listed id, in order; an entry is a stored user with that id exactly when one exists |
| RootQuery.Hop | src/routes/graphql/rootQuery.ts:11-14 | a neighbour's extra hop holds exactly the users that list it, in store order (the `findMany` result), and one entry per id in its own list, which is the stored user with that id when there is one and none otherwise |
| RootQuery.MemberTypeOf | src/routes/graphql/rootQuery.ts:9 | no member type without a profile; otherwise the stored member type named by the profile, when there is one |
| RootQuery.Enrich | src/routes/graphql/rootQuery.ts:17-24 | one entry per dereferenced id; a found user gets exactly one extra hop and a dangling id gives none |
| RootQuery.Followers | src/routes/graphql/rootQuery.ts:10-15 | one entry per `findMany({key: "subscribedToUserIds", inArray})` result, in its order, each that user with exactly one extra hop |
| RootQuery.FollowersExactly | src/routes/graphql/rootQuery.ts:10-15 | the followers are exactly the stored users that list the id (each one appears), each carrying its own hop |
| RootQuery.Expand | src/routes/graphql/rootQuery.ts:7-31 | the user with the first profile its owner matches, exactly the member type that profile names (none without a profile), exactly its posts in store order, all its followers in store order (`Followers`) and one entry per listed id, every neighbour expanded exactly one more hop |
| RootQuery.ListUsers | src/routes/graphql/rootQuery.ts:5-33 | one entry per stored user, in store order, each the `Expand` of that user |
| RootQuery.GetUser | src/routes/graphql/rootQuery.ts:47-62 | BadId before any lookup, NotFound exactly for an unknown id; otherwise the user, with `userSubscribedTo` holding exactly its followers in store order, `subscribedToUser` its own list dereferenced by `Deref`, exactly its posts in store order, the first profile it owns and exactly the member type that profile names |
| RootQuery.SingleUserSwapsFields | src/routes/graphql/rootQuery.ts:53-60 | `user` and `users` agree on profile, member type and posts, and each one's `userSubscribedTo` is the other's `subscribedToUser`, entry by entry, without the extra hop |
| RootQuery.ById | src/routes/graphql/rootQuery.ts:64-76 | `profile` and `post`: BadId before any lookup, NotFound exactly for an unknown id, otherwise a stored row with that id |
| RootQuery.GetMemberType | src/routes/graphql/rootQuery.ts:78-81 | BadId exactly outside the closed set; otherwise the stored row with that id, or none when there is no row |
| RootQuery.CreateProfile | src/routes/graphql/rootQuery.ts:87-95 | BadId, BadMemberType, UserMissing, ProfileExists in that order, with no profile added; when all four guards pass it always succeeds, and the profile is appended and its user has exactly one profile |
| RootQuery.CreatePost | src/routes/graphql/rootQuery.ts:97-102 | BadId, then UserMissing exactly for an unknown user, with no post added; otherwise exactly one post is appended |
| RootQuery.UpdatePost | src/routes/graphql/rootQuery.ts:104-109 | BadId, then NotFound; otherwise that post alone takes all input fields and keeps its id |
| RootQuery.UpdateProfile | src/routes/graphql/rootQuery.ts:111-116 | BadId, then NotFound; otherwise that profile alone takes all input fields and keeps its id |
| RootQuery.UpdateMemberType | src/routes/graphql/rootQuery.ts:118-121 | BadId outside the closed set with nothing changed; otherwise the merged row, or none and no change when the row is missing |
| RootQuery.UpdateUser | src/routes/graphql/rootQuery.ts:123-128 | BadId, then NotFound; otherwise that user alone takes the new names and email and keeps its id and list |
| RootQuery.SubscribeTo | src/routes/graphql/rootQuery.ts:130-139 | BadId when either id is malformed, NotFound when either user is missing, AlreadySubscribed when the target lists the follower; otherwise exactly the follower's id is appended to the target's list and no other user changes |
| RootQuery.UnsubscribeFrom | src/routes/graphql/rootQuery.ts:141-149 | BadId, NotFound; otherwise the target's list takes the unchecked edit, no other user changes, and NotSubscribed is never reported |
| RootQuery.PushThenSpliceRestores | src/routes/graphql/rootQuery.ts:136-148 | after the push both users are found at the same places, and the unchecked splice gives back the original users |
| RootQuery.RoundTrip | src/routes/graphql/rootQuery.ts:130-149 | a successful `subscribeTo` followed by `unsubscribeFrom` on the same pair succeeds and restores every user |

## Left out

- Transport:
  - Fastify plugin registration and the JSON body and parameter schemas are not modelled.
  - Status-code assignment and error message strings are replaced by the `Failure` kinds.
  - The GraphQL plumbing (graphql/index.ts, and the schema text in graphql/queryScema.ts) is not part of this model. The schema is used only to name the input records.
- Asynchrony:
  - Every `await` is a sequential step.
  - The fire-and-forget `forEach(async …)` loops of DELETE /users/:id run to completion in order before the response.
  - Arrays of unresolved promises in the GraphQL resolvers are taken as resolved.
- The store library is not among the modelled files. Its meaning comes from the call sites:
  - ids are unique in each table (`Db.Valid`);
  - `change` is `{...row, ...change}` with the id kept;
  - `findOne` finds the first match.

  Records are values, so a caller's in-place edit of a fetched record is modelled as building the edited record. Aliasing between that record and the stored one is not modelled, since every handler writes the record back with `change`.
- Store creation: how the store is created and seeded is not part of this model. `Store.Db`'s constructor gives the empty store, which satisfies `Db.Valid`.
- Fresh ids: fresh-id generation inside `create` is a parameter `freshId`. It is required to be unused in its table and is not required to be well-formed.
- The regex engine: `isUUID` is stated directly as one character class per offset. JavaScript counts `length` in UTF-16 code units and Dafny counts characters. Strings that pass the class check are ASCII, so the two agree.
- The list reads: the GraphQL `profiles`, `posts` and `memberTypes` resolvers (rootQuery.ts:35-45) and every REST `GET /` return a whole table. They carry no logic and have no member.
- The member-type closed set is checked against the constant list, as the code does, and never against the member-types table.
- ProfilesRoutes.Patch: does not preserve one profile per user, because the code does not check the new userId (profiles/index.ts:96-97). The invariant is therefore stated only for creation.
- RootQuery.UpdateProfile: does not preserve one profile per user, for the same reason (rootQuery.ts:115).

## Findings

| source | as written | input that shows it | evidently intended | confidence | as-written member | corrected member |
|---|---|---|---|---|---|---|
| src/routes/users/index.ts:72-73 | each subscriber has `splice(ind, 1)` applied to its own list, where `ind` is its place in the query result | users `a` listing `["c","d"]` and `b` listing `["d"]`, deleting `d`: `a` loses `c`, `b` loses nothing, both still list `d` (UsersRoutes.CascadeKeepsDeletedId) | each subscriber loses the deleted id, spliced at its `indexOf` position | high; not executed | UsersRoutes.CascadeAsWritten | UsersRoutes.CascadeIntended |
| src/routes/graphql/rootQuery.ts:147-148 | `splice(indexOf(userId), 1)` with no membership check | a target listing `["b"]`, unsubscribing `a`: `indexOf` gives -1 and `b` is removed (Subscriptions.UncheckedDropsLast) | fail when the follower is not listed, as the REST route does | high; not executed | Subscriptions.UnsubscribeUnchecked | Subscriptions.Unsubscribe |
