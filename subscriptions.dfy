/**
 * The edits the subscription handlers make to a `subscribedToUserIds` list:
 * `includes`/`indexOf` checks, `push`, and `splice(start, 1)` with the
 * JavaScript meaning of a negative or too large start.
 */
module Subscriptions {
  import opened Entities

  /** No id is listed twice. */
  predicate NoRepeats(ids: seq<Id>) {
    forall i, j :: 0 <= i < j < |ids| ==> ids[i] != ids[j]
  }

  /** `ids.indexOf(x)`: the position of the first `x`, or -1. */
  function IndexOfId(ids: seq<Id>, x: Id): (i: int)
    ensures -1 <= i < |ids|
    ensures i == -1 <==> x !in ids
    ensures 0 <= i ==> ids[i] == x && x !in ids[..i]
    decreases |ids|
  {
    if |ids| == 0 then -1
    else if ids[0] == x then 0
    else
      var i := IndexOfId(ids[1..], x);
      assert ids == [ids[0]] + ids[1..];
      assert 0 <= i ==> ids[..i + 1] == [ids[0]] + ids[1..][..i];
      if i < 0 then -1 else i + 1
  }

  /**
   * `ids.splice(start, 1)`: a negative start counts back from the end (and is
   * clamped at 0); the element at the resulting position is removed, and
   * nothing is removed when that position is past the end.
   */
  function SpliceOne(ids: seq<Id>, start: int): (r: seq<Id>)
    ensures start >= |ids| ==> r == ids
    ensures 0 <= start < |ids| ==> r == ids[..start] + ids[start + 1..]
    ensures start == -1 && |ids| > 0 ==> r == ids[..|ids| - 1]
    ensures |ids| == 0 ==> r == []
  {
    var s := if start < 0 then (if |ids| + start < 0 then 0 else |ids| + start) else start;
    if s < |ids| then ids[..s] + ids[s + 1..] else ids
  }

  /**
   * The subscribe edit: fails when `x` is already listed, and otherwise
   * pushes `x` on the end.
   */
  function Subscribe(ids: seq<Id>, x: Id): (r: Result<seq<Id>>)
    ensures r.Err? <==> x in ids
    ensures r.Err? ==> r.error == AlreadySubscribed
    ensures r.Ok? ==> r.value == ids + [x] && |r.value| == |ids| + 1
  {
    if IndexOfId(ids, x) != -1 then Err(AlreadySubscribed) else Ok(ids + [x])
  }

  /**
   * The unsubscribe edit with the membership check the users route makes:
   * fails when `x` is not listed, and otherwise removes its first occurrence
   * and nothing else.
   */
  function Unsubscribe(ids: seq<Id>, x: Id): (r: Result<seq<Id>>)
    ensures r.Err? <==> x !in ids
    ensures r.Err? ==> r.error == NotSubscribed
    ensures r.Ok? ==> |r.value| == |ids| - 1
    ensures r.Ok? ==> exists i :: 0 <= i < |ids| && ids[i] == x && x !in ids[..i] &&
                                  r.value == ids[..i] + ids[i + 1..]
    ensures r.Ok? ==> multiset(r.value) == multiset(ids) - multiset{x}
  {
    var i := IndexOfId(ids, x);
    if i == -1 then Err(NotSubscribed)
    else
      assert ids == ids[..i] + [x] + ids[i + 1..];
      Ok(SpliceOne(ids, i))
  }

  /**
   * The unsubscribe edit as the GraphQL resolver writes it: `splice(indexOf(x), 1)`
   * with no membership check. When `x` is listed it is `Unsubscribe`; when it
   * is not, `indexOf` gives -1 and the LAST id is removed instead.
   */
  function UnsubscribeUnchecked(ids: seq<Id>, x: Id): (r: seq<Id>)
    ensures x in ids ==> Unsubscribe(ids, x) == Ok(r)
    ensures x !in ids && |ids| > 0 ==> r == ids[..|ids| - 1]
    ensures x !in ids && |ids| == 0 ==> r == []
  {
    SpliceOne(ids, IndexOfId(ids, x))
  }

  /** Subscribing and then unsubscribing the same id restores the list, under either unsubscribe. */
  lemma SubscribeRoundTrip(ids: seq<Id>, x: Id)
    requires Subscribe(ids, x).Ok?
    ensures Unsubscribe(Subscribe(ids, x).value, x) == Ok(ids)
    ensures UnsubscribeUnchecked(Subscribe(ids, x).value, x) == ids
  {
    var pushed := ids + [x];
    assert pushed[..|ids|] == ids;
    assert IndexOfId(pushed, x) == |ids|;
    assert pushed[|ids| + 1..] == [];
    assert SpliceOne(pushed, |ids|) == ids;
  }

  /** The subscribe edit keeps a list free of repeats. */
  lemma SubscribeKeepsNoRepeats(ids: seq<Id>, x: Id)
    requires NoRepeats(ids) && Subscribe(ids, x).Ok?
    ensures NoRepeats(Subscribe(ids, x).value)
  {
    var r := ids + [x];
    forall i, j | 0 <= i < j < |r|
      ensures r[i] != r[j]
    {
      if j == |ids| {
        assert r[i] == ids[i];
      }
    }
  }

  /** The checked unsubscribe edit keeps a list free of repeats. */
  lemma UnsubscribeKeepsNoRepeats(ids: seq<Id>, x: Id)
    requires NoRepeats(ids) && Unsubscribe(ids, x).Ok?
    ensures NoRepeats(Unsubscribe(ids, x).value)
  {
    var i := IndexOfId(ids, x);
    var r := Unsubscribe(ids, x).value;
    assert r == ids[..i] + ids[i + 1..];
    forall a, b | 0 <= a < b < |r|
      ensures r[a] != r[b]
    {
      var a' := if a < i then a else a + 1;
      var b' := if b < i then b else b + 1;
      assert r[a] == ids[a'] && r[b] == ids[b'];
    }
  }

  /** Subscribing twice fails the second time. */
  lemma SubscribeTwiceFails(ids: seq<Id>, x: Id)
    requires Subscribe(ids, x).Ok?
    ensures Subscribe(Subscribe(ids, x).value, x) == Err(AlreadySubscribed)
  {
    assert (ids + [x])[|ids|] == x;
  }

  /** The unchecked edit drops an unrelated subscription when `x` is not listed. */
  lemma UncheckedDropsLast()
    ensures Unsubscribe(["b"], "a") == Err(NotSubscribed)
    ensures UnsubscribeUnchecked(["b"], "a") == []
  {
  }

  /** A list without repeats has no `x` left after the checked edit. */
  lemma UnsubscribeRemovesAll(ids: seq<Id>, x: Id)
    requires NoRepeats(ids)
    requires Unsubscribe(ids, x).Ok?
    ensures x !in Unsubscribe(ids, x).value
  {
    var i := IndexOfId(ids, x);
    var r := Unsubscribe(ids, x).value;
    assert r == ids[..i] + ids[i + 1..];
    forall j | 0 <= j < |r|
      ensures r[j] != x
    {
      if j < i {
        assert r[j] == ids[j];
      } else {
        assert r[j] == ids[j + 1];
      }
    }
  }
}
