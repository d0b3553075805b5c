/**
 * `search_for_event_broken`, the naive search of the broken example: scan
 * backwards from an index, and when nothing matches, wait, re-read the length
 * and scan again from the new length, with no snapshot validation.
 *
 * What the timeline looks like on each pass is decided by other tasks during
 * the sleep, so the model takes it as input: one `Pass` per iteration of the
 * outer loop.
 */
module NaiveSearch {
  import opened Wrappers
  import opened Timelines
  import TimelineSearch

  /**
   * One iteration as observed from the search: the items under the read
   * lock, and the length `get_length` returns after the sleep.
   */
  datatype Pass = Pass(view: seq<EventId>, lengthAfter: nat)

  /** `Some(i)`, `None` after no progress, or the observations ran out (the loop would keep going). */
  datatype SearchOutcome = FoundAt(index: nat) | GaveUp | OutOfObservations

  /**
   * The inner `for i in (0..current_index.min(len)).rev()` loop: the highest
   * index below the bound holding the target. Pass by pass, it computes what
   * the correct handler's scan computes.
   */
  method ScanPass(view: seq<EventId>, target: EventId, currentIndex: nat) returns (r: Option<nat>)
    ensures r.Some? ==> r.value < Min(currentIndex, |view|) && view[r.value] == target
    ensures r.Some? ==> forall j :: r.value < j < Min(currentIndex, |view|) ==> view[j] != target
    ensures r.None? <==> forall j :: 0 <= j < Min(currentIndex, |view|) ==> view[j] != target
    ensures r == TimelineSearch.FindBackward(view, target, currentIndex)
  {
    var bound := Min(currentIndex, |view|);
    var i := bound;
    while i > 0
      invariant 0 <= i <= bound
      invariant forall j :: i <= j < bound ==> view[j] != target
    {
      i := i - 1;
      if view[i] == target {
        return Some(i);
      }
    }
    return None;
  }

  /** The scan bound of pass `k`: the starting index, then the length re-read after the previous pass. */
  function Bound(startingIndex: nat, passes: seq<Pass>, k: nat): nat
    requires k <= |passes|
  {
    if k == 0 then startingIndex else passes[k - 1].lengthAfter
  }

  /** Pass `k` found nothing and the length had moved, so the loop went round again. */
  ghost predicate WentOn(target: EventId, startingIndex: nat, passes: seq<Pass>, k: nat)
    requires k < |passes|
  {
    && TimelineSearch.FindBackward(passes[k].view, target, Bound(startingIndex, passes, k)).None?
    && passes[k].lengthAfter != Bound(startingIndex, passes, k)
  }

  /**
   * The outer loop. Every pass but the last went on; the last one either
   * returned the highest match below its bound in the items it read, or gave
   * up because the re-read length equalled its bound.
   */
  method SearchForEventBroken(target: EventId, startingIndex: nat, passes: seq<Pass>)
    returns (r: SearchOutcome, used: nat)
    ensures used <= |passes|
    ensures r.OutOfObservations? ==>
      used == |passes| && forall k :: 0 <= k < used ==> WentOn(target, startingIndex, passes, k)
    ensures !r.OutOfObservations? ==>
      1 <= used && forall k :: 0 <= k < used - 1 ==> WentOn(target, startingIndex, passes, k)
    ensures r.FoundAt? ==>
      var last := passes[used - 1];
      TimelineSearch.FindBackward(last.view, target, Bound(startingIndex, passes, used - 1)) == Some(r.index) &&
      r.index < |last.view| && last.view[r.index] == target
    ensures r.GaveUp? ==>
      var last := passes[used - 1];
      TimelineSearch.FindBackward(last.view, target, Bound(startingIndex, passes, used - 1)).None? &&
      last.lengthAfter == Bound(startingIndex, passes, used - 1)
  {
    var currentIndex := startingIndex;
    used := 0;
    while used < |passes|
      invariant used <= |passes|
      invariant currentIndex == Bound(startingIndex, passes, used)
      invariant forall k :: 0 <= k < used ==> WentOn(target, startingIndex, passes, k)
    {
      var pass := passes[used];
      var found := ScanPass(pass.view, target, currentIndex);
      used := used + 1;
      if found.Some? {
        return FoundAt(found.value), used;
      }
      if pass.lengthAfter == currentIndex {
        return GaveUp, used;
      }
      currentIndex := pass.lengthAfter;
    }
    return OutOfObservations, used;
  }
}

/**
 * `test_index_invalidation`: the naive search reports an index that two
 * prepends then move away from the target.
 */
module NaiveSearchScenarios {
  import opened Wrappers
  import opened Timelines
  import TimelineSearch
  import TimelineSearchScenarios
  import opened NaiveSearch

  /**
   * Searching `event_3` from index 8 in `event_0` .. `event_9` returns 3;
   * after `prepended_1` and `prepended_2` are inserted at the front, index 3
   * holds `event_1` and `event_3` sits at 5.
   */
  method IndexInvalidationTest() returns (r: SearchOutcome, after: seq<EventId>)
    ensures r == FoundAt(3)
    ensures |after| == 12 && after[r.index] == "event_1" && after[r.index + 2] == "event_3"
  {
    var ten := TimelineSearchScenarios.TenEvents;
    assert ten[7] != "event_3" && ten[6] != "event_3" && ten[5] != "event_3" && ten[4] != "event_3";
    assert TimelineSearch.ScanBelow(ten, "event_3", 4) == Some(3);
    assert TimelineSearch.ScanBelow(ten, "event_3", 6) == Some(3);
    assert TimelineSearch.ScanBelow(ten, "event_3", 8) == Some(3);
    var passes := [Pass(ten, 10)];
    assert TimelineSearch.FindBackward(passes[0].view, "event_3", Bound(8, passes, 0)) == Some(3);
    var used;
    r, used := SearchForEventBroken("event_3", 8, passes);
    assert !WentOn("event_3", 8, passes, 0);
    after := Applied(Applied(ten, Insert(0, "prepended_1")), Insert(0, "prepended_2"));
    assert after == ["prepended_2", "prepended_1"] + ten;
  }
}
