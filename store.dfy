/**
 * The entity store the route handlers and resolvers call (`fastify.db`): one
 * sequence of records per kind, kept in insertion order. Its queries are
 * generic over the field they filter on, given as a key accessor, as the
 * source's `findOne({key, equals})` and `findMany({key, inArray})` are.
 */
module Store {
  import opened Entities

  /** Some row's key is `v`. */
  predicate HasKey<R, K(==)>(rows: seq<R>, key: R -> K, v: K) {
    exists j :: 0 <= j < |rows| && key(rows[j]) == v
  }

  /** No two rows share a key. */
  predicate UniqueKeys<R, K(==)>(rows: seq<R>, key: R -> K) {
    forall i, j :: 0 <= i < j < |rows| ==> key(rows[i]) != key(rows[j])
  }

  /** The position of the first row whose key is `v`, or -1 when there is none. */
  function IndexOf<R, K(==)>(rows: seq<R>, key: R -> K, v: K): (i: int)
    ensures -1 <= i < |rows|
    ensures i == -1 <==> !HasKey(rows, key, v)
    ensures 0 <= i ==> key(rows[i]) == v && forall j :: 0 <= j < i ==> key(rows[j]) != v
    decreases |rows|
  {
    if |rows| == 0 then -1
    else if key(rows[0]) == v then 0
    else
      var i := IndexOf(rows[1..], key, v);
      assert forall j :: 1 <= j < |rows| ==> rows[j] == rows[1..][j - 1];
      if i < 0 then -1 else i + 1
  }

  /** `findOne({key, equals: v})`: the first row whose key is `v`, or null. */
  function FindOne<R, K(==)>(rows: seq<R>, key: R -> K, v: K): (r: Option<R>)
    ensures r.Some? <==> HasKey(rows, key, v)
    ensures r.Some? ==> key(r.value) == v && r.value in rows
    ensures r.Some? ==> r.value == rows[IndexOf(rows, key, v)]
  {
    var i := IndexOf(rows, key, v);
    if i < 0 then None else Some(rows[i])
  }

  /** `findMany({key, equals: v})`: the rows whose key is `v`, in store order. */
  function FindMany<R(!new), K(==)>(rows: seq<R>, key: R -> K, v: K): (r: seq<R>)
    ensures |r| <= |rows|
    ensures forall x :: x in r <==> x in rows && key(x) == v
    decreases |rows|
  {
    if |rows| == 0 then []
    else
      var last := rows[|rows| - 1];
      assert rows == rows[..|rows| - 1] + [last];
      FindMany(rows[..|rows| - 1], key, v) + (if key(last) == v then [last] else [])
  }

  /** The rows whose key is not `v`, in store order. */
  function Reject<R(!new), K(==)>(rows: seq<R>, key: R -> K, v: K): (r: seq<R>)
    ensures |r| <= |rows|
    ensures forall x :: x in r <==> x in rows && key(x) != v
    decreases |rows|
  {
    if |rows| == 0 then []
    else
      var last := rows[|rows| - 1];
      assert rows == rows[..|rows| - 1] + [last];
      Reject(rows[..|rows| - 1], key, v) + (if key(last) != v then [last] else [])
  }

  /** `FindMany` and `Reject` split the rows: together they hold each row exactly as often as the table does. */
  lemma {:induction false} FindManyRejectPartition<R(!new), K>(rows: seq<R>, key: R -> K, v: K)
    ensures multiset(FindMany(rows, key, v)) + multiset(Reject(rows, key, v)) == multiset(rows)
    decreases |rows|
  {
    if |rows| > 0 {
      var init := rows[..|rows| - 1];
      FindManyRejectPartition(init, key, v);
      SplitLast(FindMany(init, key, v), Reject(init, key, v), rows, key(rows[|rows| - 1]) == v);
    }
  }

  /** In particular the two parts together are exactly as long as the table. */
  lemma FindManyRejectSizes<R(!new), K>(rows: seq<R>, key: R -> K, v: K)
    ensures |FindMany(rows, key, v)| + |Reject(rows, key, v)| == |rows|
  {
    FindManyRejectPartition(rows, key, v);
    var a, b := FindMany(rows, key, v), Reject(rows, key, v);
    assert |multiset(a) + multiset(b)| == |multiset(rows)|;
    assert |multiset(a)| == |a| && |multiset(b)| == |b| && |multiset(rows)| == |rows|;
  }

  /** A split of all but the last element of `s` extends to a split of `s` by putting that element on one side. */
  lemma SplitLast<R>(a: seq<R>, b: seq<R>, s: seq<R>, left: bool)
    requires |s| > 0 && multiset(a) + multiset(b) == multiset(s[..|s| - 1])
    ensures var x := s[|s| - 1];
            var a', b' := (if left then a + [x] else a), (if left then b else b + [x]);
            multiset(a') + multiset(b') == multiset(s)
  {
    var x := s[|s| - 1];
    assert s == s[..|s| - 1] + [x];
    assert multiset(s) == multiset(s[..|s| - 1]) + multiset{x};
    assert multiset(a + [x]) == multiset(a) + multiset{x};
    assert multiset(b + [x]) == multiset(b) + multiset{x};
  }

  /** No row with key `v` survives `Reject`. */
  lemma RejectLeavesNoKey<R(!new), K>(rows: seq<R>, key: R -> K, v: K)
    ensures !HasKey(Reject(rows, key, v), key, v)
  {
    var r := Reject(rows, key, v);
    forall j | 0 <= j < |r|
      ensures key(r[j]) != v
    {
      assert r[j] in r;
    }
  }

  /** `findMany({key, inArray: v})`: the rows whose list-valued key contains `v`, in store order. */
  function FindManyIn<R(!new), K(==)>(rows: seq<R>, key: R -> seq<K>, v: K): (r: seq<R>)
    ensures |r| <= |rows|
    ensures forall x :: x in r <==> x in rows && v in key(x)
    decreases |rows|
  {
    if |rows| == 0 then []
    else
      var last := rows[|rows| - 1];
      assert rows == rows[..|rows| - 1] + [last];
      FindManyIn(rows[..|rows| - 1], key, v) + (if v in key(last) then [last] else [])
  }

  /** How many rows before position `j` `FindManyIn` selects: the place row `j` takes in its result. */
  function Rank<R(!new), K(==)>(rows: seq<R>, key: R -> seq<K>, v: K, j: nat): nat
    requires j <= |rows|
  {
    |FindManyIn(rows[..j], key, v)|
  }

  /** A GET /:id handler: the first row whose key is `v`, or NotFound. */
  function Lookup<R, K(==)>(rows: seq<R>, key: R -> K, v: K): (r: Result<R>)
    ensures r.Err? <==> !HasKey(rows, key, v)
    ensures r.Err? ==> r.error == NotFound
    ensures r.Ok? ==> key(r.value) == v && r.value in rows
  {
    match FindOne(rows, key, v)
    case None => Err(NotFound)
    case Some(x) => Ok(x)
  }

  /** The rows without the one at `i`, order kept. */
  function RemoveAt<R>(rows: seq<R>, i: nat): (r: seq<R>)
    requires i < |rows|
    ensures |r| == |rows| - 1
    ensures forall j :: 0 <= j < i ==> r[j] == rows[j]
    ensures forall j :: i <= j < |r| ==> r[j] == rows[j + 1]
  {
    rows[..i] + rows[i + 1..]
  }

  /** What `delete(v)` leaves: the first row with key `v` is gone, if there was one. */
  function DeleteByKey<R, K(==)>(rows: seq<R>, key: R -> K, v: K): (r: seq<R>)
    ensures !HasKey(rows, key, v) ==> r == rows
    ensures HasKey(rows, key, v) ==> |r| == |rows| - 1
  {
    var i := IndexOf(rows, key, v);
    if i < 0 then rows else RemoveAt(rows, i)
  }

  // ---------------------------------------------------------------------------
  // Keys

  /** With unique keys, the lookup by a row's key finds that row. */
  lemma IndexOfKeyAt<R, K>(rows: seq<R>, key: R -> K, p: nat)
    requires UniqueKeys(rows, key) && p < |rows|
    ensures IndexOf(rows, key, key(rows[p])) == p
  {
    var i := IndexOf(rows, key, key(rows[p]));
    assert HasKey(rows, key, key(rows[p]));
    assert key(rows[i]) == key(rows[p]);
  }

  /** Appending a row under an unused key keeps keys unique. */
  lemma AppendUnique<R, K>(rows: seq<R>, key: R -> K, x: R)
    requires UniqueKeys(rows, key) && !HasKey(rows, key, key(x))
    ensures UniqueKeys(rows + [x], key)
  {
    var s := rows + [x];
    forall i, j | 0 <= i < j < |s|
      ensures key(s[i]) != key(s[j])
    {
      if j == |rows| {
        assert s[i] == rows[i];
      } else {
        assert s[i] == rows[i] && s[j] == rows[j];
      }
    }
  }

  /** Replacing a row by one with the same key keeps keys unique. */
  lemma ReplaceUnique<R, K>(rows: seq<R>, key: R -> K, p: nat, x: R)
    requires UniqueKeys(rows, key) && p < |rows| && key(x) == key(rows[p])
    ensures UniqueKeys(rows[p := x], key)
  {
    var s := rows[p := x];
    forall i, j | 0 <= i < j < |s|
      ensures key(s[i]) != key(s[j])
    {
      assert key(s[i]) == key(rows[i]) && key(s[j]) == key(rows[j]);
    }
  }

  /** Removing a row keeps keys unique. */
  lemma RemoveAtUnique<R, K>(rows: seq<R>, key: R -> K, p: nat)
    requires UniqueKeys(rows, key) && p < |rows|
    ensures UniqueKeys(RemoveAt(rows, p), key)
  {
    var s := RemoveAt(rows, p);
    forall i, j | 0 <= i < j < |s|
      ensures key(s[i]) != key(s[j])
    {
      var i' := if i < p then i else i + 1;
      var j' := if j < p then j else j + 1;
      assert s[i] == rows[i'] && s[j] == rows[j'] && i' < j';
    }
  }

  /** With unique keys, deleting the row with key `v` leaves no row with key `v`. */
  lemma DeleteLeavesNoKey<R, K>(rows: seq<R>, key: R -> K, v: K)
    requires UniqueKeys(rows, key)
    ensures !HasKey(DeleteByKey(rows, key, v), key, v)
  {
    var i := IndexOf(rows, key, v);
    if 0 <= i {
      var s := RemoveAt(rows, i);
      forall j | 0 <= j < |s|
        ensures key(s[j]) != v
      {
        if j < i {
          assert s[j] == rows[j];
        } else {
          assert s[j] == rows[j + 1];
          assert key(rows[i]) != key(rows[j + 1]);
        }
      }
    }
  }

  /** With unique keys, deleting by key `v` removes exactly the row with that key. */
  lemma DeleteRemovesOnly<R, K>(rows: seq<R>, key: R -> K, v: K)
    requires UniqueKeys(rows, key)
    ensures forall x :: x in DeleteByKey(rows, key, v) <==> x in rows && key(x) != v
  {
    var i := IndexOf(rows, key, v);
    if 0 <= i {
      var s := RemoveAt(rows, i);
      DeleteLeavesNoKey(rows, key, v);
      forall x | x in s
        ensures x in rows && key(x) != v
      {
        var j :| 0 <= j < |s| && s[j] == x;
        assert key(s[j]) != v;
        if j < i {
          assert x == rows[j];
        } else {
          assert x == rows[j + 1];
        }
      }
      forall x | x in rows && key(x) != v
        ensures x in s
      {
        var j :| 0 <= j < |rows| && rows[j] == x;
        if j < i {
          assert s[j] == x;
        } else {
          assert s[j - 1] == x;
        }
      }
    } else {
      forall x | x in rows
        ensures key(x) != v
      {
        var j :| 0 <= j < |rows| && rows[j] == x;
      }
    }
  }

  /** Selecting from rows with one more at the end selects that row last, when its key matches. */
  lemma FindManyAppend<R(!new), K>(rows: seq<R>, key: R -> K, v: K, x: R)
    ensures FindMany(rows + [x], key, v) == FindMany(rows, key, v) + (if key(x) == v then [x] else [])
  {
    assert (rows + [x])[..|rows|] == rows;
  }

  /** No row has key `v`: nothing is selected. */
  lemma FindManyAbsent<R(!new), K>(rows: seq<R>, key: R -> K, v: K)
    requires !HasKey(rows, key, v)
    ensures FindMany(rows, key, v) == []
  {
    var r := FindMany(rows, key, v);
    assert forall x :: x in r ==> x in rows && key(x) == v;
  }

  // ---------------------------------------------------------------------------
  // Deleting rows one at a time

  /** Deleting by the key of each row of `xs`, first to last. */
  function DeleteEach<R, K(==)>(rows: seq<R>, key: R -> K, xs: seq<R>): (r: seq<R>)
    ensures forall x :: x in r ==> x in rows
    decreases |xs|
  {
    if |xs| == 0 then rows
    else DeleteByKey(DeleteEach(rows, key, xs[..|xs| - 1]), key, key(xs[|xs| - 1]))
  }

  /** A row appended after the others keeps its place when a different key is deleted. */
  lemma DeleteByKeyAppend<R, K>(rows: seq<R>, key: R -> K, x: R, v: K)
    requires key(x) != v
    ensures DeleteByKey(rows + [x], key, v) == DeleteByKey(rows, key, v) + [x]
  {
    var s := rows + [x];
    var i0 := IndexOf(rows, key, v);
    var i1 := IndexOf(s, key, v);
    if i0 < 0 {
      forall j | 0 <= j < |s|
        ensures key(s[j]) != v
      {
        if j < |rows| {
          assert s[j] == rows[j];
        }
      }
    } else {
      assert s[i0] == rows[i0];
      assert i1 == i0;
      assert s[..i0] == rows[..i0];
      assert s[i0 + 1..] == rows[i0 + 1..] + [x];
    }
  }

  /** Deleting by the key of the appended row, when no earlier row has it, removes that row. */
  lemma DeleteByKeyLast<R, K>(rows: seq<R>, key: R -> K, x: R)
    requires !HasKey(rows, key, key(x))
    ensures DeleteByKey(rows + [x], key, key(x)) == rows
  {
    var s := rows + [x];
    forall j | 0 <= j < |rows|
      ensures key(s[j]) != key(x)
    {
      assert s[j] == rows[j];
    }
    assert s[|rows|] == x;
    assert IndexOf(s, key, key(x)) == |rows|;
    assert s[..|rows|] == rows && s[|rows| + 1..] == [];
  }

  /** An appended row none of `xs` shares a key with survives deleting them. */
  lemma {:induction false} DeleteEachAppend<R, K>(rows: seq<R>, key: R -> K, xs: seq<R>, x: R)
    requires forall y :: y in xs ==> key(y) != key(x)
    ensures DeleteEach(rows + [x], key, xs) == DeleteEach(rows, key, xs) + [x]
    decreases |xs|
  {
    if |xs| > 0 {
      var init := xs[..|xs| - 1];
      assert forall y :: y in init ==> y in xs;
      DeleteEachAppend(rows, key, init, x);
      DeleteByKeyAppend(DeleteEach(rows, key, init), key, x, key(xs[|xs| - 1]));
    }
  }

  /** With unique keys, the last row's key is on no earlier row, and the earlier rows keep unique keys. */
  lemma LastKeyFresh<R, K>(rows: seq<R>, key: R -> K)
    requires UniqueKeys(rows, key) && |rows| > 0
    ensures forall y :: y in rows[..|rows| - 1] ==> key(y) != key(rows[|rows| - 1])
    ensures UniqueKeys(rows[..|rows| - 1], key)
  {
    var init := rows[..|rows| - 1];
    forall y | y in init
      ensures key(y) != key(rows[|rows| - 1])
    {
      var j :| 0 <= j < |init| && init[j] == y;
      assert rows[j] == y;
    }
    forall i, j | 0 <= i < j < |init|
      ensures key(init[i]) != key(init[j])
    {
      assert init[i] == rows[i] && init[j] == rows[j];
    }
  }

  /**
   * With unique keys, deleting one by one, by key, each row `findMany` selects
   * leaves exactly the rows it did not select, in store order.
   */
  lemma {:induction false} DeleteEachSelected<R(!new), K, L>(rows: seq<R>, key: R -> K, other: R -> L, v: L)
    requires UniqueKeys(rows, key)
    ensures DeleteEach(rows, key, FindMany(rows, other, v)) == Reject(rows, other, v)
    decreases |rows|
  {
    if |rows| > 0 {
      LastKeyFresh(rows, key);
      DeleteEachSelected(rows[..|rows| - 1], key, other, v);
      if other(rows[|rows| - 1]) == v {
        DeleteEachSelectedLastPicked(rows, key, other, v);
      } else {
        DeleteEachSelectedLastKept(rows, key, other, v);
      }
    }
  }

  /** The step of `DeleteEachSelected` when the last row is selected: deleting it removes it. */
  lemma DeleteEachSelectedLastPicked<R(!new), K, L>(rows: seq<R>, key: R -> K, other: R -> L, v: L)
    requires |rows| > 0 && other(rows[|rows| - 1]) == v
    requires forall y :: y in rows[..|rows| - 1] ==> key(y) != key(rows[|rows| - 1])
    requires var init := rows[..|rows| - 1];
             DeleteEach(init, key, FindMany(init, other, v)) == Reject(init, other, v)
    ensures DeleteEach(rows, key, FindMany(rows, other, v)) == Reject(rows, other, v)
  {
    var init, last := rows[..|rows| - 1], rows[|rows| - 1];
    var picked, rest := FindMany(init, other, v), Reject(init, other, v);
    assert !HasKey(rest, key, key(last)) by {
      forall j | 0 <= j < |rest|
        ensures key(rest[j]) != key(last)
      {
        assert rest[j] in init;
      }
    }
    DeleteEachLast(rows, key, picked);
  }

  /** The step of `DeleteEachSelected` when the last row is not selected: it stays, last. */
  lemma DeleteEachSelectedLastKept<R(!new), K, L>(rows: seq<R>, key: R -> K, other: R -> L, v: L)
    requires |rows| > 0 && other(rows[|rows| - 1]) != v
    requires forall y :: y in rows[..|rows| - 1] ==> key(y) != key(rows[|rows| - 1])
    requires var init := rows[..|rows| - 1];
             DeleteEach(init, key, FindMany(init, other, v)) == Reject(init, other, v)
    ensures DeleteEach(rows, key, FindMany(rows, other, v)) == Reject(rows, other, v)
  {
    var init, last := rows[..|rows| - 1], rows[|rows| - 1];
    var picked := FindMany(init, other, v);
    assert FindMany(rows, other, v) == picked;
    assert Reject(rows, other, v) == Reject(init, other, v) + [last];
    DeleteEachKeepsLast(rows, key, picked);
  }

  /** Deleting the rows of `xs` and then the last row, whose key none of them nor any survivor shares, leaves the survivors among the earlier rows. */
  lemma DeleteEachLast<R, K>(rows: seq<R>, key: R -> K, xs: seq<R>)
    requires |rows| > 0
    requires forall y :: y in xs ==> key(y) != key(rows[|rows| - 1])
    requires !HasKey(DeleteEach(rows[..|rows| - 1], key, xs), key, key(rows[|rows| - 1]))
    ensures DeleteEach(rows, key, xs + [rows[|rows| - 1]]) == DeleteEach(rows[..|rows| - 1], key, xs)
  {
    var init, x := rows[..|rows| - 1], rows[|rows| - 1];
    assert rows == init + [x];
    DeleteEachAppend(init, key, xs, x);
    assert (xs + [x])[..|xs|] == xs;
    DeleteByKeyLast(DeleteEach(init, key, xs), key, x);
  }

  /** The last row, whose key none of `xs` shares, survives deleting them and stays last. */
  lemma DeleteEachKeepsLast<R, K>(rows: seq<R>, key: R -> K, xs: seq<R>)
    requires |rows| > 0
    requires forall y :: y in xs ==> key(y) != key(rows[|rows| - 1])
    ensures DeleteEach(rows, key, xs) == DeleteEach(rows[..|rows| - 1], key, xs) + [rows[|rows| - 1]]
  {
    assert rows == rows[..|rows| - 1] + [rows[|rows| - 1]];
    DeleteEachAppend(rows[..|rows| - 1], key, xs, rows[|rows| - 1]);
  }

  // ---------------------------------------------------------------------------
  // The order of `findMany({key, inArray})`

  /** The selection from a shorter prefix is a prefix of the selection from a longer one. */
  lemma {:induction false} FindManyInPrefix<R(!new), K>(rows: seq<R>, key: R -> seq<K>, v: K, a: nat, b: nat)
    requires a <= b <= |rows|
    ensures FindManyIn(rows[..a], key, v) <= FindManyIn(rows[..b], key, v)
    decreases b - a
  {
    if a < b {
      FindManyInPrefix(rows, key, v, a, b - 1);
      assert rows[..b][..b - 1] == rows[..b - 1];
    }
  }

  /** A selected row at position `p` sits at place `Rank(p)` of the selection. */
  lemma RankSelect<R(!new), K>(rows: seq<R>, key: R -> seq<K>, v: K, p: nat)
    requires p < |rows| && v in key(rows[p])
    ensures Rank(rows, key, v, p) < |FindManyIn(rows, key, v)|
    ensures FindManyIn(rows, key, v)[Rank(rows, key, v, p)] == rows[p]
  {
    assert rows[..p + 1][..p] == rows[..p];
    assert FindManyIn(rows[..p + 1], key, v) == FindManyIn(rows[..p], key, v) + [rows[p]];
    FindManyInPrefix(rows, key, v, p + 1, |rows|);
    assert rows[..|rows|] == rows;
  }

  /** Distinct selected rows take distinct places, in store order. */
  lemma RankStrict<R(!new), K>(rows: seq<R>, key: R -> seq<K>, v: K, i: nat, j: nat)
    requires i < j < |rows| && v in key(rows[i])
    ensures Rank(rows, key, v, i) < Rank(rows, key, v, j)
  {
    assert rows[..i + 1][..i] == rows[..i];
    assert FindManyIn(rows[..i + 1], key, v) == FindManyIn(rows[..i], key, v) + [rows[i]];
    FindManyInPrefix(rows, key, v, i + 1, j);
  }

  /** Every place of the selection is taken by some selected row. */
  lemma {:induction false} RankOnto<R(!new), K>(rows: seq<R>, key: R -> seq<K>, v: K, k: nat) returns (p: nat)
    requires k < |FindManyIn(rows, key, v)|
    ensures p < |rows| && v in key(rows[p]) && Rank(rows, key, v, p) == k
    decreases |rows|
  {
    var n := |rows|;
    var init := rows[..n - 1];
    if k < |FindManyIn(init, key, v)| {
      p := RankOnto(init, key, v, k);
      assert rows[..p] == init[..p];
    } else {
      p := n - 1;
    }
  }

  // ---------------------------------------------------------------------------

  /**
   * The store. Each kind's ids are unique, because create is given a fresh id
   * and no change alters an id.
   */
  class Db {
    var users: seq<User>
    var profiles: seq<Profile>
    var posts: seq<Post>
    var memberTypes: seq<MemberType>

    ghost predicate Valid()
      reads this
    {
      && UniqueKeys(users, IdOfUser)
      && UniqueKeys(profiles, IdOfProfile)
      && UniqueKeys(posts, IdOfPost)
      && UniqueKeys(memberTypes, IdOfMemberType)
    }

    /** An empty store, which already satisfies the invariant. */
    constructor()
      ensures Valid()
      ensures users == [] && profiles == [] && posts == [] && memberTypes == []
    {
      users := [];
      profiles := [];
      posts := [];
      memberTypes := [];
    }

    /** `users.create(input)`: a new user under a fresh id, subscribed to nobody. */
    method CreateUser(input: UserInput, freshId: Id) returns (u: User)
      requires Valid() && !HasKey(users, IdOfUser, freshId)
      modifies this`users
      ensures Valid()
      ensures u == User(freshId, input.firstName, input.lastName, input.email, [])
      ensures users == old(users) + [u]
    {
      u := User(freshId, input.firstName, input.lastName, input.email, []);
      AppendUnique(users, IdOfUser, u);
      users := users + [u];
    }

    /** `profiles.create(input)`: the input under a fresh id. */
    method CreateProfile(input: ProfileInput, freshId: Id) returns (p: Profile)
      requires Valid() && !HasKey(profiles, IdOfProfile, freshId)
      modifies this`profiles
      ensures Valid()
      ensures p == Profile(freshId, input.avatar, input.sex, input.birthday, input.country,
                           input.street, input.city, input.userId, input.memberTypeId)
      ensures profiles == old(profiles) + [p]
    {
      p := Profile(freshId, input.avatar, input.sex, input.birthday, input.country,
                   input.street, input.city, input.userId, input.memberTypeId);
      AppendUnique(profiles, IdOfProfile, p);
      profiles := profiles + [p];
    }

    /** `posts.create(input)`: the input under a fresh id. */
    method CreatePost(input: PostInput, freshId: Id) returns (p: Post)
      requires Valid() && !HasKey(posts, IdOfPost, freshId)
      modifies this`posts
      ensures Valid()
      ensures p == Post(freshId, input.title, input.content, input.userId)
      ensures posts == old(posts) + [p]
    {
      p := Post(freshId, input.title, input.content, input.userId);
      AppendUnique(posts, IdOfPost, p);
      posts := posts + [p];
    }

    /** `users.change(id, c)`: the merged record, or null when no user has the id. */
    method ChangeUser(id: Id, c: UserChange) returns (r: Option<User>)
      requires Valid()
      modifies this`users
      ensures Valid()
      ensures var i := IndexOf(old(users), IdOfUser, id);
        if i < 0 then r == None && users == old(users)
        else r == Some(MergeUser(old(users)[i], c)) && users == old(users)[i := r.value]
    {
      var i := IndexOf(users, IdOfUser, id);
      if i < 0 {
        r := None;
      } else {
        var merged := MergeUser(users[i], c);
        ReplaceUnique(users, IdOfUser, i, merged);
        users := users[i := merged];
        r := Some(merged);
      }
    }

    /** `profiles.change(id, c)`: the merged record, or null when no profile has the id. */
    method ChangeProfile(id: Id, c: ProfileChange) returns (r: Option<Profile>)
      requires Valid()
      modifies this`profiles
      ensures Valid()
      ensures var i := IndexOf(old(profiles), IdOfProfile, id);
        if i < 0 then r == None && profiles == old(profiles)
        else r == Some(MergeProfile(old(profiles)[i], c)) && profiles == old(profiles)[i := r.value]
    {
      var i := IndexOf(profiles, IdOfProfile, id);
      if i < 0 {
        r := None;
      } else {
        var merged := MergeProfile(profiles[i], c);
        ReplaceUnique(profiles, IdOfProfile, i, merged);
        profiles := profiles[i := merged];
        r := Some(merged);
      }
    }

    /** `posts.change(id, c)`: the merged record, or null when no post has the id. */
    method ChangePost(id: Id, c: PostChange) returns (r: Option<Post>)
      requires Valid()
      modifies this`posts
      ensures Valid()
      ensures var i := IndexOf(old(posts), IdOfPost, id);
        if i < 0 then r == None && posts == old(posts)
        else r == Some(MergePost(old(posts)[i], c)) && posts == old(posts)[i := r.value]
    {
      var i := IndexOf(posts, IdOfPost, id);
      if i < 0 {
        r := None;
      } else {
        var merged := MergePost(posts[i], c);
        ReplaceUnique(posts, IdOfPost, i, merged);
        posts := posts[i := merged];
        r := Some(merged);
      }
    }

    /** `memberTypes.change(id, c)`: the merged record, or null when no member type has the id. */
    method ChangeMemberType(id: string, c: MemberTypeChange) returns (r: Option<MemberType>)
      requires Valid()
      modifies this`memberTypes
      ensures Valid()
      ensures var i := IndexOf(old(memberTypes), IdOfMemberType, id);
        if i < 0 then r == None && memberTypes == old(memberTypes)
        else r == Some(MergeMemberType(old(memberTypes)[i], c)) && memberTypes == old(memberTypes)[i := r.value]
    {
      var i := IndexOf(memberTypes, IdOfMemberType, id);
      if i < 0 {
        r := None;
      } else {
        var merged := MergeMemberType(memberTypes[i], c);
        ReplaceUnique(memberTypes, IdOfMemberType, i, merged);
        memberTypes := memberTypes[i := merged];
        r := Some(merged);
      }
    }

    /** `users.delete(id)`: the removed record, or null when no user has the id. */
    method DeleteUser(id: Id) returns (r: Option<User>)
      requires Valid()
      modifies this`users
      ensures Valid()
      ensures users == DeleteByKey(old(users), IdOfUser, id)
      ensures var i := IndexOf(old(users), IdOfUser, id);
        if i < 0 then r == None else r == Some(old(users)[i])
    {
      var i := IndexOf(users, IdOfUser, id);
      if i < 0 {
        r := None;
      } else {
        r := Some(users[i]);
        RemoveAtUnique(users, IdOfUser, i);
        users := RemoveAt(users, i);
      }
    }

    /** `profiles.delete(id)`: the removed record, or null when no profile has the id. */
    method DeleteProfile(id: Id) returns (r: Option<Profile>)
      requires Valid()
      modifies this`profiles
      ensures Valid()
      ensures profiles == DeleteByKey(old(profiles), IdOfProfile, id)
      ensures var i := IndexOf(old(profiles), IdOfProfile, id);
        if i < 0 then r == None else r == Some(old(profiles)[i])
    {
      var i := IndexOf(profiles, IdOfProfile, id);
      if i < 0 {
        r := None;
      } else {
        r := Some(profiles[i]);
        RemoveAtUnique(profiles, IdOfProfile, i);
        profiles := RemoveAt(profiles, i);
      }
    }

    /** `posts.delete(id)`: the removed record, or null when no post has the id. */
    method DeletePost(id: Id) returns (r: Option<Post>)
      requires Valid()
      modifies this`posts
      ensures Valid()
      ensures posts == DeleteByKey(old(posts), IdOfPost, id)
      ensures var i := IndexOf(old(posts), IdOfPost, id);
        if i < 0 then r == None else r == Some(old(posts)[i])
    {
      var i := IndexOf(posts, IdOfPost, id);
      if i < 0 {
        r := None;
      } else {
        r := Some(posts[i]);
        RemoveAtUnique(posts, IdOfPost, i);
        posts := RemoveAt(posts, i);
      }
    }
  }
}
