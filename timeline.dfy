/**
 * The timeline shared by the search handler and the producers of diffs:
 * an ordered list of items, of which only the event id matters here.
 */
module Timelines {
  import opened Wrappers

  /** An item is identified by its `event_id`; its `content` plays no part. */
  type EventId = string

  /** The four structural changes a timeline can receive. */
  datatype TimelineDiff =
    | PushBack(item: EventId)
    | PushFront(item: EventId)
    | Insert(index: nat, item: EventId)
    | Remove(index: nat)

  /**
   * The timeline after `d`, as `apply_diff` leaves it: an `Insert` beyond the
   * end and a `Remove` at or beyond the end are ignored.
   */
  function Applied(s: seq<EventId>, d: TimelineDiff): (r: seq<EventId>)
    // An inserting diff that is not ignored adds one item, an in-range removal takes one away.
    ensures (d.PushBack? || d.PushFront? || (d.Insert? && d.index <= |s|)) ==> |r| == |s| + 1
    ensures d.Remove? && d.index < |s| ==> |r| == |s| - 1
    // An ignored diff changes nothing.
    ensures (d.Insert? && d.index > |s|) || (d.Remove? && d.index >= |s|) ==> r == s
  {
    match d
    case PushBack(x) => s + [x]
    case PushFront(x) => [x] + s
    case Insert(i, x) => if i <= |s| then s[..i] + [x] + s[i..] else s
    case Remove(i) => if i < |s| then s[..i] + s[i + 1..] else s
  }

  /**
   * The timeline's items as a bag: an inserting diff that is not ignored adds
   * exactly its item, and an in-range removal takes away exactly one item.
   */
  lemma AppliedItems(s: seq<EventId>, d: TimelineDiff)
    ensures (d.PushBack? || d.PushFront? || (d.Insert? && d.index <= |s|)) ==>
      multiset(Applied(s, d)) == multiset(s) + multiset{d.item}
    ensures d.Remove? && d.index < |s| ==>
      multiset(Applied(s, d)) + multiset{s[d.index]} == multiset(s)
  {
    match d
    case PushBack(x) =>
      assert multiset(s + [x]) == multiset(s) + multiset{x};
    case PushFront(x) =>
      assert multiset([x] + s) == multiset{x} + multiset(s);
    case Insert(i, x) =>
      if i <= |s| { InsertAddsItem(s[..i], s[i..], x); assert s[..i] + s[i..] == s; }
    case Remove(i) =>
      if i < |s| { RemoveTakesItem(s[..i], s[i], s[i + 1..]); assert s[..i] + [s[i]] + s[i + 1..] == s; }
  }

  lemma InsertAddsItem(front: seq<EventId>, back: seq<EventId>, x: EventId)
    ensures multiset(front + [x] + back) == multiset(front + back) + multiset{x}
  {
    assert multiset(front + [x] + back) == multiset(front) + multiset{x} + multiset(back);
  }

  lemma RemoveTakesItem(front: seq<EventId>, y: EventId, back: seq<EventId>)
    ensures multiset(front + back) + multiset{y} == multiset(front + [y] + back)
  {
    assert multiset(front + [y] + back) == multiset(front) + multiset{y} + multiset(back);
  }

  /** `PushBack` puts the item last and `PushFront` first; the others keep their order. */
  lemma PushesAddOneItem(s: seq<EventId>, x: EventId)
    ensures |Applied(s, PushBack(x))| == |s| + 1
    ensures Applied(s, PushBack(x))[|s|] == x
    ensures Applied(s, PushBack(x))[..|s|] == s
    ensures |Applied(s, PushFront(x))| == |s| + 1
    ensures Applied(s, PushFront(x))[0] == x
    ensures Applied(s, PushFront(x))[1..] == s
  {
  }

  /** An in-range `Insert` shifts the items from `i` on one place to the right. */
  lemma InsertShifts(s: seq<EventId>, i: nat, x: EventId)
    ensures i <= |s| ==>
      var t := Applied(s, Insert(i, x));
      |t| == |s| + 1 && t[i] == x &&
      (forall j :: 0 <= j < i ==> t[j] == s[j]) &&
      (forall j :: i <= j < |s| ==> t[j + 1] == s[j])
    ensures i > |s| ==> Applied(s, Insert(i, x)) == s
  {
  }

  /** An in-range `Remove` shifts the items after `i` one place to the left. */
  lemma RemoveShifts(s: seq<EventId>, i: nat)
    ensures i < |s| ==>
      var t := Applied(s, Remove(i));
      |t| + 1 == |s| &&
      (forall j :: 0 <= j < i ==> t[j] == s[j]) &&
      (forall j :: i < j < |s| ==> t[j - 1] == s[j])
    ensures i >= |s| ==> Applied(s, Remove(i)) == s
  {
  }

  /** The timeline behind its `RwLock`. */
  class Timeline {
    var items: seq<EventId>

    /** `Timeline::new`: an empty timeline. */
    constructor ()
      ensures items == []
    {
      items := [];
    }

    /** `get_length`. */
    function GetLength(): (n: nat)
      reads this
      ensures n == |items|
    {
      |items|
    }

    /** `get_item`: the item at `index`, or `None` past the end. */
    function GetItem(index: nat): (r: Option<EventId>)
      reads this
      ensures r.None? <==> index >= |items|
      ensures r.Some? ==> r.value == items[index]
    {
      if index < |items| then Some(items[index]) else None
    }

    /** `apply_diff`: applies one diff in place. */
    method ApplyDiff(d: TimelineDiff)
      modifies this
      ensures items == Applied(old(items), d)
    {
      match d
      case PushBack(x) =>
        items := items + [x];
      case PushFront(x) =>
        items := [x] + items;
      case Insert(i, x) =>
        if i <= |items| {
          items := items[..i] + [x] + items[i..];
        }
      case Remove(i) =>
        if i < |items| {
          items := items[..i] + items[i + 1..];
        }
    }
  }

  /**
   * `verify_result`: whether `foundIndex` names an item whose id is
   * `expected` (an index past the end is reported invalid).
   */
  function VerifyResult(timeline: Timeline, foundIndex: nat, expected: EventId): (ok: bool)
    reads timeline
    ensures ok <==> foundIndex < |timeline.items| && timeline.items[foundIndex] == expected
  {
    match timeline.GetItem(foundIndex)
    case Some(item) => item == expected
    case None => false
  }
}
