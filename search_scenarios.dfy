/**
 * Concrete runs of the search handler: the scenarios of its test suite, and
 * two runs where an index recorded from inside a diff is reported although
 * it does not name the target, next to the recording that was evidently
 * intended.
 */
module TimelineSearchScenarios {
  import opened Wrappers
  import opened Timelines
  import opened TimelineSearch

  /** `event_0` .. `event_9`, the timeline the test suite starts from. */
  const TenEvents: seq<EventId> :=
    ["event_0", "event_1", "event_2", "event_3", "event_4",
     "event_5", "event_6", "event_7", "event_8", "event_9"]

  /** A request for `event_3` from index 8 with a current snapshot finds it at 3. */
  lemma FullWorkflowFindsEvent3()
    ensures RequestStep(BackwardsPaginateRequest("event_3", 8, 10), TenEvents).sent
      == Some(TargetEventFound("event_3", 3))
    ensures RequestStep(BackwardsPaginateRequest("event_3", 8, 10), TenEvents).next == Idle
  {
    assert TenEvents[7] != "event_3" && TenEvents[6] != "event_3";
    assert TenEvents[5] != "event_3" && TenEvents[4] != "event_3";
    assert ScanBelow(TenEvents, "event_3", 4) == Some(3);
    assert ScanBelow(TenEvents, "event_3", 6) == Some(3);
    assert ScanBelow(TenEvents, "event_3", 8) == Some(3);
  }

  /** The index adjustments the test suite checks. */
  lemma AdjustmentExamples(x: EventId)
    ensures AdjustAll(5, [PushFront(x), PushFront(x)]) == Some(7)
    ensures AdjustIndex(10, Insert(5, x)) == Some(11)
    ensures AdjustIndex(11, Insert(15, x)) == Some(11)
    ensures AdjustIndex(10, Remove(5)) == Some(9)
    ensures AdjustIndex(9, Remove(15)) == Some(9)
  {
    assert [PushFront(x), PushFront(x)][1..] == [PushFront(x)];
    assert AdjustAll(6, [PushFront(x)]) == Some(7) by {
      assert [PushFront(x)][1..] == [];
    }
  }

  /**
   * A stale snapshot is ignored however close it is: after one prepend the
   * whole timeline is scanned and the target is found one place later.
   */
  lemma StaleSnapshotScansWholeTimeline()
    ensures RequestStep(BackwardsPaginateRequest("C", 5, 5), ["A", "B", "C", "D", "E"]).sent
      == Some(TargetEventFound("C", 2))
    ensures RequestStep(BackwardsPaginateRequest("C", 5, 5), ["Z", "A", "B", "C", "D", "E"]).sent
      == Some(TargetEventFound("C", 3))
  {
    var s := ["Z", "A", "B", "C", "D", "E"];
    assert ScanBelow(s, "C", 4) == Some(3);
    assert ScanBelow(s, "C", 6) == Some(3);
  }

  // ---------------------------------------------------------------------------
  // Indices recorded from inside a diff, as written
  // ---------------------------------------------------------------------------

  /**
   * A target appended to `["a"]` is recorded at `get_length() - 1 == 0`, read
   * before the push; the next diff reports index 0, which holds "a".
   */
  lemma PushBackReportIsStale()
    ensures DiffStep(SearchState(Some("x"), None), ["a"], PushBack("x"))
      == Stepped(SearchState(Some("x"), Some(Tracked(0, "x"))), None)
    ensures DiffStep(SearchState(Some("x"), Some(Tracked(0, "x"))), ["a", "x"], PushBack("y"))
      == Stepped(Idle, Some(TargetEventFound("x", 0)))
    ensures Applied(["a", "x"], PushBack("y"))[0] != "x"
  {
  }

  /**
   * An `Insert` beyond the end is recorded at its index although
   * `apply_diff` drops it; the next diff reports an index past the end.
   */
  lemma OutOfRangeInsertReportIsInvalid()
    ensures DiffStep(SearchState(Some("x"), None), [], Insert(5, "x"))
      == Stepped(SearchState(Some("x"), Some(Tracked(5, "x"))), None)
    ensures Applied([], Insert(5, "x")) == []
    ensures DiffStep(SearchState(Some("x"), Some(Tracked(5, "x"))), [], PushBack("y"))
      == Stepped(Idle, Some(TargetEventFound("x", 5)))
    ensures |Applied([], PushBack("y"))| <= 5
  {
  }

  /**
   * For every timeline whose last item is not the target, a target appended
   * by `PushBack` is recorded at an index that does not hold it once the
   * push is applied.
   */
  lemma PushBackRecordingIsStale(st: SearchState, items: seq<EventId>, x: EventId)
    requires st.found.None? && st.target == Some(x)
    requires |items| > 0 && items[|items| - 1] != x
    ensures DiffStep(st, items, PushBack(x)).Stepped?
    ensures DiffStep(st, items, PushBack(x)).next.found == Some(Tracked(|items| - 1, x))
    ensures !Fresh(DiffStep(st, items, PushBack(x)).next, Applied(items, PushBack(x)))
  {
    PushesAddOneItem(items, x);
    assert Applied(items, PushBack(x))[|items| - 1] == items[|items| - 1];
  }

  /**
   * For every timeline, a target carried by an `Insert` past the end is
   * recorded at that index, although `apply_diff` ignores the insert and the
   * index lies past the end.
   */
  lemma OutOfRangeInsertRecordingIsInvalid(st: SearchState, items: seq<EventId>, i: nat, x: EventId)
    requires st.found.None? && st.target == Some(x)
    requires i > |items|
    ensures DiffStep(st, items, Insert(i, x)).Stepped?
    ensures DiffStep(st, items, Insert(i, x)).next.found == Some(Tracked(i, x))
    ensures Applied(items, Insert(i, x)) == items
    ensures !Fresh(DiffStep(st, items, Insert(i, x)).next, Applied(items, Insert(i, x)))
  {
  }

  // ---------------------------------------------------------------------------
  // The recording evidently intended
  // ---------------------------------------------------------------------------

  /**
   * The index a target found inside a diff will occupy once the diff is
   * applied: the current length for `PushBack`, and nothing to track for an
   * `Insert` that `apply_diff` ignores.
   */
  function IntendedIndexInDiff(d: TimelineDiff, lenBefore: nat): (r: Option<nat>)
    requires !d.Remove?
    ensures r.None? <==> d.Insert? && d.index > lenBefore
  {
    match d
    case PushFront(_) => Some(0)
    case PushBack(_) => Some(lenBefore)
    case Insert(i, _) => if i <= lenBefore then Some(i) else None
  }

  /** The intended index names the target once the diff is applied, for every inserting diff. */
  lemma IntendedIndexInDiffNamesItem(s: seq<EventId>, d: TimelineDiff)
    requires !d.Remove?
    ensures IntendedIndexInDiff(d, |s|).Some? ==>
      IntendedIndexInDiff(d, |s|).value < |Applied(s, d)| &&
      Applied(s, d)[IntendedIndexInDiff(d, |s|).value] == d.item
  {
    if d.Insert? { InsertShifts(s, d.index, d.item); }
  }

  /**
   * With the intended recording, the state after a diff that carries the
   * target is fresh, so the report on the following diff names the target
   * (by `ReportIsFresh`).
   */
  lemma IntendedRecordingKeepsFresh(target: EventId, s: seq<EventId>, d: TimelineDiff, d2: TimelineDiff)
    requires CarriesTarget(d, target)
    requires IntendedIndexInDiff(d, |s|).Some?
    ensures
      var st := SearchState(Some(target), Some(Tracked(IntendedIndexInDiff(d, |s|).value, target)));
      var after := Applied(s, d);
      Fresh(st, after) &&
      (DiffStep(st, after, d2).Stepped? && DiffStep(st, after, d2).sent.Some? ==>
        var m := DiffStep(st, after, d2).sent.value;
        m.targetEventId == target && m.index < |Applied(after, d2)| && Applied(after, d2)[m.index] == target)
  {
    IntendedIndexInDiffNamesItem(s, d);
    var st := SearchState(Some(target), Some(Tracked(IntendedIndexInDiff(d, |s|).value, target)));
    ReportIsFresh(st, Applied(s, d), d2);
  }
}
