/**
 * The four entity kinds of the data layer, the inputs their create operations
 * take, the partial records their change operations merge, and the failure
 * kinds the handlers report.
 */
module Entities {

  type Id = string

  datatype Option<+T> = None | Some(value: T) {
    /** The wrapped value, or `default` when there is none. */
    function GetOr(default: T): T {
      match this
      case Some(v) => v
      case None => default
    }
  }

  /**
   * What a handler reports instead of a record. The REST routes reply 404 for
   * NotFound and 400 for every other kind; the GraphQL resolvers report them
   * as errors in the response.
   */
  datatype Failure =
    | BadId               // the id has the wrong shape for its kind
    | BadMemberType       // a memberTypeId outside the closed set
    | NotFound            // a well-formed id that no row has
    | UserMissing         // a userId that no user has (a dangling reference)
    | ProfileExists       // the user already has a profile
    | AlreadySubscribed
    | NotSubscribed

  datatype Result<+T> = Ok(value: T) | Err(error: Failure)

  datatype User = User(
    id: Id, firstName: string, lastName: string, email: string,
    subscribedToUserIds: seq<Id>)

  datatype Profile = Profile(
    id: Id, avatar: string, sex: string, birthday: int, country: string,
    street: string, city: string, userId: Id, memberTypeId: string)

  datatype Post = Post(id: Id, title: string, content: string, userId: Id)

  datatype MemberType = MemberType(id: string, discount: int, monthPostsLimit: int)

  datatype UserInput = UserInput(firstName: string, lastName: string, email: string)

  datatype ProfileInput = ProfileInput(
    avatar: string, sex: string, birthday: int, country: string, street: string,
    city: string, userId: Id, memberTypeId: string)

  datatype PostInput = PostInput(title: string, content: string, userId: Id)

  /** A partial user record: each present field replaces the stored one (`{...row, ...change}`). */
  datatype UserChange = UserChange(
    firstName: Option<string>, lastName: Option<string>, email: Option<string>,
    subscribedToUserIds: Option<seq<Id>>)

  datatype ProfileChange = ProfileChange(
    avatar: Option<string>, sex: Option<string>, birthday: Option<int>,
    country: Option<string>, street: Option<string>, city: Option<string>,
    userId: Option<Id>, memberTypeId: Option<string>)

  datatype PostChange = PostChange(title: Option<string>, content: Option<string>, userId: Option<Id>)

  datatype MemberTypeChange = MemberTypeChange(discount: Option<int>, monthPostsLimit: Option<int>)

  /** The closed set of member-type ids. */
  const MemberTypeIds: seq<string> := ["basic", "business"]

  /** `["basic", "business"].includes(id)`: true for exactly those two ids. */
  function IsMemberTypeId(id: string): (r: bool)
    ensures r <==> id == "basic" || id == "business"
  {
    id in MemberTypeIds
  }

  /** The store's key accessors, passed to its generic queries as `key`. */
  function IdOfUser(u: User): Id { u.id }
  function SubscribedToUserIdsOf(u: User): seq<Id> { u.subscribedToUserIds }
  function IdOfProfile(p: Profile): Id { p.id }
  function UserIdOfProfile(p: Profile): Id { p.userId }
  function IdOfPost(p: Post): Id { p.id }
  function UserIdOfPost(p: Post): Id { p.userId }
  function IdOfMemberType(m: MemberType): string { m.id }

  /** The change that writes a whole user record back, as the subscription handlers do. */
  function Rewrite(u: User): UserChange {
    UserChange(Some(u.firstName), Some(u.lastName), Some(u.email), Some(u.subscribedToUserIds))
  }

  /**
   * `{...u, ...c}`: the id is kept, a field the change carries replaces the
   * stored one and an absent one is kept; so writing back a whole record with
   * the same id yields that record.
   */
  function MergeUser(u: User, c: UserChange): (r: User)
    ensures r.id == u.id
    ensures c.firstName.Some? ==> r.firstName == c.firstName.value
    ensures c.firstName.None? ==> r.firstName == u.firstName
    ensures c.lastName.Some? ==> r.lastName == c.lastName.value
    ensures c.lastName.None? ==> r.lastName == u.lastName
    ensures c.email.Some? ==> r.email == c.email.value
    ensures c.email.None? ==> r.email == u.email
    ensures c.subscribedToUserIds.Some? ==> r.subscribedToUserIds == c.subscribedToUserIds.value
    ensures c.subscribedToUserIds.None? ==> r.subscribedToUserIds == u.subscribedToUserIds
    ensures forall v: User :: c == Rewrite(v) && v.id == u.id ==> r == v
  {
    User(u.id, c.firstName.GetOr(u.firstName), c.lastName.GetOr(u.lastName),
         c.email.GetOr(u.email), c.subscribedToUserIds.GetOr(u.subscribedToUserIds))
  }

  /** `{...p, ...c}`: the id is kept, a present field replaces the stored one and an absent one is kept. */
  function MergeProfile(p: Profile, c: ProfileChange): (r: Profile)
    ensures r.id == p.id
    ensures c.avatar.Some? ==> r.avatar == c.avatar.value
    ensures c.avatar.None? ==> r.avatar == p.avatar
    ensures c.sex.Some? ==> r.sex == c.sex.value
    ensures c.sex.None? ==> r.sex == p.sex
    ensures c.birthday.Some? ==> r.birthday == c.birthday.value
    ensures c.birthday.None? ==> r.birthday == p.birthday
    ensures c.country.Some? ==> r.country == c.country.value
    ensures c.country.None? ==> r.country == p.country
    ensures c.street.Some? ==> r.street == c.street.value
    ensures c.street.None? ==> r.street == p.street
    ensures c.city.Some? ==> r.city == c.city.value
    ensures c.city.None? ==> r.city == p.city
    ensures c.userId.Some? ==> r.userId == c.userId.value
    ensures c.userId.None? ==> r.userId == p.userId
    ensures c.memberTypeId.Some? ==> r.memberTypeId == c.memberTypeId.value
    ensures c.memberTypeId.None? ==> r.memberTypeId == p.memberTypeId
  {
    Profile(p.id, c.avatar.GetOr(p.avatar), c.sex.GetOr(p.sex), c.birthday.GetOr(p.birthday),
            c.country.GetOr(p.country), c.street.GetOr(p.street), c.city.GetOr(p.city),
            c.userId.GetOr(p.userId), c.memberTypeId.GetOr(p.memberTypeId))
  }

  /** `{...p, ...c}`: the id is kept, a present field replaces the stored one and an absent one is kept. */
  function MergePost(p: Post, c: PostChange): (r: Post)
    ensures r.id == p.id
    ensures c.title.Some? ==> r.title == c.title.value
    ensures c.title.None? ==> r.title == p.title
    ensures c.content.Some? ==> r.content == c.content.value
    ensures c.content.None? ==> r.content == p.content
    ensures c.userId.Some? ==> r.userId == c.userId.value
    ensures c.userId.None? ==> r.userId == p.userId
  {
    Post(p.id, c.title.GetOr(p.title), c.content.GetOr(p.content), c.userId.GetOr(p.userId))
  }

  /**
   * `{...m, ...c}`: the id is kept, so no change can add or remove a member
   * type; a present field replaces the stored one and an absent one is kept.
   */
  function MergeMemberType(m: MemberType, c: MemberTypeChange): (r: MemberType)
    ensures r.id == m.id
    ensures c.discount.Some? ==> r.discount == c.discount.value
    ensures c.discount.None? ==> r.discount == m.discount
    ensures c.monthPostsLimit.Some? ==> r.monthPostsLimit == c.monthPostsLimit.value
    ensures c.monthPostsLimit.None? ==> r.monthPostsLimit == m.monthPostsLimit
  {
    MemberType(m.id, c.discount.GetOr(m.discount), c.monthPostsLimit.GetOr(m.monthPostsLimit))
  }
}
