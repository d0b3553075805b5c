/**
 * The timeline search handler of the correct backwards-pagination example:
 * a sequential state machine over a timeline with two entry points, one per
 * arm of its `select!` loop. The pure functions give the meaning of one step;
 * the class `SearchHandler` performs the steps in place.
 */
module TimelineSearch {
  import opened Wrappers
  import opened Timelines

  /** `BackwardsPaginateRequest`. */
  datatype BackwardsPaginateRequest =
    BackwardsPaginateRequest(targetEventId: EventId, startingIndex: nat, currentTlLen: nat)

  /** `TargetEventFound`: the one message the handler sends. */
  datatype TargetEventFound = TargetEventFound(targetEventId: EventId, index: nat)

  /** The `(index, event_id)` pair kept in `found_target_event_id`. */
  datatype Tracked = Tracked(index: nat, eventId: EventId)

  /** The handler's two locals, `target_event_id` and `found_target_event_id`. */
  datatype SearchState = SearchState(target: Option<EventId>, found: Option<Tracked>)

  /** The handler's state before any request. */
  const Idle := SearchState(None, None)

  /** `found_target_event_id` is set only while `target_event_id` names the same event. */
  ghost predicate Consistent(st: SearchState)
  {
    st.found.Some? ==> st.target == Some(st.found.value.eventId)
  }

  // ---------------------------------------------------------------------------
  // The request arm
  // ---------------------------------------------------------------------------

  /**
   * The reversed scan `enumerate().take(bound).rev().find(..)` over the first
   * `bound` items: the highest index below `bound` holding `target`.
   */
  function ScanBelow(items: seq<EventId>, target: EventId, bound: nat): (r: Option<nat>)
    requires bound <= |items|
    ensures r.Some? ==> r.value < bound && items[r.value] == target
    ensures r.Some? ==> forall j :: r.value < j < bound ==> items[j] != target
    ensures r.None? <==> forall j :: 0 <= j < bound ==> items[j] != target
  {
    if bound == 0 then None
    else if items[bound - 1] == target then Some(bound - 1)
    else ScanBelow(items, target, bound - 1)
  }

  /** The scan from `start`: `take(start)` stops at the end of the timeline. */
  function FindBackward(items: seq<EventId>, target: EventId, start: nat): (r: Option<nat>)
    ensures r.Some? ==> r.value < start && r.value < |items| && items[r.value] == target
    ensures r.Some? ==> forall j :: r.value < j < Min(start, |items|) ==> items[j] != target
    ensures r.None? <==> forall j :: 0 <= j < Min(start, |items|) ==> items[j] != target
  {
    ScanBelow(items, target, Min(start, |items|))
  }

  /**
   * The validated starting index: the request's `starting_index` when its
   * snapshot length is the current length, the current length otherwise.
   */
  function ValidatedStart(request: BackwardsPaginateRequest, currentLen: nat): (start: nat)
    ensures request.currentTlLen == currentLen ==> start == request.startingIndex
    ensures request.currentTlLen != currentLen ==> start == currentLen
  {
    if request.currentTlLen == currentLen then request.startingIndex else currentLen
  }

  /** What the request arm leaves behind: the new state and the message it sends. */
  datatype RequestOutcome = RequestOutcome(next: SearchState, sent: Option<TargetEventFound>)

  /**
   * One request, handled against the current timeline `items`. A match
   * below the validated start is reported at once and clears the state;
   * otherwise the handler starts watching diffs for the target.
   */
  function RequestStep(request: BackwardsPaginateRequest, items: seq<EventId>): (r: RequestOutcome)
    ensures Consistent(r.next)
    ensures r.next.found.None?
    ensures r.sent.Some? ==>
      r.next == Idle &&
      r.sent.value.targetEventId == request.targetEventId &&
      r.sent.value.index < |items| && items[r.sent.value.index] == request.targetEventId
    ensures r.sent.Some? && request.currentTlLen == |items| ==>
      r.sent.value.index < request.startingIndex &&
      forall j :: r.sent.value.index < j < Min(request.startingIndex, |items|) ==> items[j] != request.targetEventId
    ensures r.sent.Some? && request.currentTlLen != |items| ==>
      forall j :: r.sent.value.index < j < |items| ==> items[j] != request.targetEventId
    ensures r.sent.None? <==>
      forall j :: 0 <= j < Min(ValidatedStart(request, |items|), |items|) ==> items[j] != request.targetEventId
    ensures r.sent.None? ==> r.next == SearchState(Some(request.targetEventId), None)
  {
    match FindBackward(items, request.targetEventId, ValidatedStart(request, |items|))
    case Some(index) =>
      RequestOutcome(Idle, Some(TargetEventFound(request.targetEventId, index)))
    case None =>
      RequestOutcome(SearchState(Some(request.targetEventId), None), None)
  }

  // ---------------------------------------------------------------------------
  // The diff arm
  // ---------------------------------------------------------------------------

  /** `usize::saturating_sub`. */
  function SaturatingSub(a: nat, b: nat): (r: nat)
    ensures r <= a && a <= r + b
    ensures a >= b ==> r + b == a
    ensures a < b ==> r == 0
  {
    if a >= b then a - b else 0
  }

  /**
   * The adjustment of a found index `k` for one diff, before the diff is
   * applied; `None` when the diff removes the tracked item itself.
   */
  function AdjustIndex(k: nat, d: TimelineDiff): (r: Option<nat>)
    ensures r.None? <==> d == Remove(k)
    // The `Remove` branch never saturates: `index < k` forces `k >= 1`.
    ensures d.Remove? && d.index < k ==> r == Some(k - 1)
  {
    match d
    case PushFront(_) => Some(k + 1)
    case Insert(i, _) => if i <= k then Some(k + 1) else Some(k)
    case Remove(i) =>
      if i < k then Some(SaturatingSub(k, 1))
      else if i == k then None
      else Some(k)
    case PushBack(_) => Some(k)
  }

  /**
   * The adjusted index still names the same item once the diff is applied,
   * for every diff and every in-range index.
   */
  lemma AdjustIndexFollowsItem(s: seq<EventId>, k: nat, d: TimelineDiff)
    requires k < |s|
    ensures AdjustIndex(k, d).Some? ==>
      var k' := AdjustIndex(k, d).value;
      k' < |Applied(s, d)| && Applied(s, d)[k'] == s[k]
  {
    match d
    case Insert(i, x) =>
      if i <= |s| { InsertShifts(s, i, x); }
    case Remove(i) =>
      if i < |s| { RemoveShifts(s, i); }
    case _ =>
  }

  /** `diffs` applied strictly in order. */
  function AppliedAll(s: seq<EventId>, diffs: seq<TimelineDiff>): seq<EventId>
    decreases |diffs|
  {
    if diffs == [] then s else AppliedAll(Applied(s, diffs[0]), diffs[1..])
  }

  /** The found index adjusted once per diff, in order; `None` once the item is removed. */
  function AdjustAll(k: nat, diffs: seq<TimelineDiff>): Option<nat>
    decreases |diffs|
  {
    if diffs == [] then Some(k)
    else match AdjustIndex(k, diffs[0])
      case None => None
      case Some(k') => AdjustAll(k', diffs[1..])
  }

  /**
   * Incremental adjustment agrees with rescanning: after any sequence of
   * diffs, an index that survives still names the item it named at first.
   */
  lemma {:induction false} AdjustAllFollowsItem(s: seq<EventId>, k: nat, diffs: seq<TimelineDiff>)
    requires k < |s|
    ensures AdjustAll(k, diffs).Some? ==>
      AdjustAll(k, diffs).value < |AppliedAll(s, diffs)| &&
      AppliedAll(s, diffs)[AdjustAll(k, diffs).value] == s[k]
    decreases |diffs|
  {
    if diffs != [] {
      AdjustIndexFollowsItem(s, k, diffs[0]);
      var k' := AdjustIndex(k, diffs[0]);
      if k'.Some? {
        AdjustAllFollowsItem(Applied(s, diffs[0]), k'.value, diffs[1..]);
      }
    }
  }

  /** Whether a diff carries the target: any inserting diff whose item is the target. */
  function CarriesTarget(d: TimelineDiff, target: EventId): (b: bool)
    ensures b <==> !d.Remove? && d.item == target
  {
    match d
    case PushFront(x) => x == target
    case PushBack(x) => x == target
    case Insert(_, x) => x == target
    case Remove(_) => false
  }

  /**
   * The index recorded for a target found inside a diff, read before the
   * diff is applied: 0, `get_length() - 1`, or the insert index. `None`
   * stands for the underflow of `get_length() - 1` on an empty timeline,
   * which panics.
   */
  function IndexInDiff(d: TimelineDiff, lenBefore: nat): (r: Option<nat>)
    requires !d.Remove?
    ensures r.None? <==> d.PushBack? && lenBefore == 0
  {
    match d
    case PushFront(_) => Some(0)
    case PushBack(_) => if lenBefore >= 1 then Some(lenBefore - 1) else None
    case Insert(i, _) => Some(i)
  }

  /**
   * For a target arriving by `PushFront` or by an in-range `Insert`, the
   * recorded index is where the item sits once the diff is applied.
   */
  lemma IndexInDiffNamesItem(s: seq<EventId>, d: TimelineDiff)
    requires d.PushFront? || (d.Insert? && d.index <= |s|)
    ensures IndexInDiff(d, |s|).Some? && IndexInDiff(d, |s|).value < |Applied(s, d)|
    ensures Applied(s, d)[IndexInDiff(d, |s|).value] == d.item
  {
    if d.Insert? { InsertShifts(s, d.index, d.item); }
  }

  /** What the diff arm leaves behind; `Underflow` is the panic at the `PushBack` lookup. */
  datatype DiffOutcome =
    | Stepped(next: SearchState, sent: Option<TargetEventFound>)
    | Underflow

  /**
   * One diff, handled against the timeline `items` it is about to be
   * applied to. A found index is adjusted and reported (or dropped silently
   * if its item is removed); otherwise a diff that carries the target records
   * it, to be reported on the next diff.
   */
  function DiffStep(st: SearchState, items: seq<EventId>, d: TimelineDiff): (r: DiffOutcome)
    // Every report comes from an already found index, and clears both fields.
    ensures r.Stepped? && r.sent.Some? ==> st.found.Some? && r.next == Idle
    ensures r.Stepped? && r.sent.Some? ==> r.sent.value.targetEventId == st.found.value.eventId
    // A found index is always settled by the next diff: reported, or dropped with its item.
    ensures st.found.Some? ==> r.Stepped? && r.next == Idle
    ensures st.found.Some? ==> (r.sent.None? <==> d == Remove(st.found.value.index))
    // A target seen inside a diff is recorded, never reported in the same step.
    ensures st.found.None? ==> r.Underflow? || r.sent.None?
    ensures st.found.None? && st.target.Some? && CarriesTarget(d, st.target.value) && r.Stepped? ==>
      r.next.target == st.target && r.next.found.Some? && r.next.found.value.eventId == st.target.value &&
      IndexInDiff(d, |items|) == Some(r.next.found.value.index)
    ensures st.found.None? && (st.target.None? || !CarriesTarget(d, st.target.value)) ==> r == Stepped(st, None)
    ensures r.Underflow? <==>
      st.found.None? && st.target.Some? && d == PushBack(st.target.value) && |items| == 0
    ensures Consistent(st) && r.Stepped? ==> Consistent(r.next)
  {
    if st.found.Some? then
      match AdjustIndex(st.found.value.index, d)
      case None => Stepped(Idle, None)
      case Some(k) => Stepped(Idle, Some(TargetEventFound(st.found.value.eventId, k)))
    else if st.target.Some? && CarriesTarget(d, st.target.value) then
      match IndexInDiff(d, |items|)
      case None => Underflow
      case Some(i) => Stepped(SearchState(st.target, Some(Tracked(i, st.target.value))), None)
    else
      Stepped(st, None)
  }

  /** A found index names its event in the timeline. */
  ghost predicate Fresh(st: SearchState, items: seq<EventId>)
  {
    st.found.Some? ==> st.found.value.index < |items| && items[st.found.value.index] == st.found.value.eventId
  }

  /**
   * A report made from a fresh found index names the target in the timeline
   * once the step has applied the diff. The message itself is sent before
   * the diff is applied.
   */
  lemma ReportIsFresh(st: SearchState, items: seq<EventId>, d: TimelineDiff)
    requires Fresh(st, items)
    ensures DiffStep(st, items, d).Stepped? && DiffStep(st, items, d).sent.Some? ==>
      var m := DiffStep(st, items, d).sent.value;
      m.index < |Applied(items, d)| && Applied(items, d)[m.index] == m.targetEventId
  {
    if st.found.Some? {
      AdjustIndexFollowsItem(items, st.found.value.index, d);
    }
  }

  /**
   * A target carried by a `PushFront` or an in-range `Insert` is recorded
   * where it sits once the diff is applied, so the state left behind is fresh.
   */
  lemma RecordingIsFresh(st: SearchState, items: seq<EventId>, d: TimelineDiff)
    requires st.found.None? && st.target.Some? && CarriesTarget(d, st.target.value)
    requires d.PushFront? || (d.Insert? && d.index <= |items|)
    ensures DiffStep(st, items, d).Stepped?
    ensures DiffStep(st, items, d).next.found.Some?
    ensures Fresh(DiffStep(st, items, d).next, Applied(items, d))
  {
    IndexInDiffNamesItem(items, d);
  }

  // ---------------------------------------------------------------------------
  // The handler, stateful
  // ---------------------------------------------------------------------------

  /**
   * `timeline_search_handler` stripped of its channels: each `select!` arm
   * is one method, and the caller decides which arm runs next (the `biased`
   * order is then the caller's choice). A panic stops the task: `running`
   * turns false and no further step can happen.
   */
  class SearchHandler {
    const timeline: Timeline
    var target: Option<EventId>
    var found: Option<Tracked>
    var running: bool

    ghost function State(): SearchState
      reads this
    {
      SearchState(target, found)
    }

    ghost predicate Valid()
      reads this
    {
      Consistent(State())
    }

    /** The handler before its loop starts: nothing searched, nothing found. */
    constructor (timeline: Timeline)
      ensures this.timeline == timeline
      ensures Valid() && State() == Idle && running
    {
      this.timeline := timeline;
      target := None;
      found := None;
      running := true;
    }

    /** The request arm: validate the snapshot, scan backwards, report or start watching diffs. */
    method HandleRequest(request: BackwardsPaginateRequest) returns (sent: Option<TargetEventFound>)
      requires Valid() && running
      modifies this
      ensures Valid() && running
      ensures State() == RequestStep(request, timeline.items).next
      ensures sent == RequestStep(request, timeline.items).sent
    {
      var currentTlLen := |timeline.items|;
      var startingIndex := if request.currentTlLen == currentTlLen then request.startingIndex else currentTlLen;
      var foundIndex := FindBackward(timeline.items, request.targetEventId, startingIndex);
      if foundIndex.Some? {
        target := None;
        found := None;
        sent := Some(TargetEventFound(request.targetEventId, foundIndex.value));
      } else {
        target := Some(request.targetEventId);
        found := None;
        sent := None;
      }
    }

    /**
     * The diff arm: adjust and report a found index, or look for the target
     * inside the diff; then apply the diff to the timeline.
     */
    method HandleDiff(d: TimelineDiff) returns (sent: Option<TargetEventFound>)
      requires Valid() && running
      modifies this, timeline
      ensures Valid()
      ensures DiffStep(old(State()), old(timeline.items), d).Underflow? ==>
        !running && sent.None? && timeline.items == old(timeline.items)
      ensures DiffStep(old(State()), old(timeline.items), d).Stepped? ==>
        running &&
        State() == DiffStep(old(State()), old(timeline.items), d).next &&
        sent == DiffStep(old(State()), old(timeline.items), d).sent &&
        timeline.items == Applied(old(timeline.items), d)
    {
      sent := None;
      if found.Some? {
        var targetIdx := found.value.index;
        match d {
          case PushFront(_) =>
            targetIdx := targetIdx + 1;
          case Insert(index, _) =>
            if index <= targetIdx {
              targetIdx := targetIdx + 1;
            }
          case Remove(index) =>
            if index < targetIdx {
              targetIdx := SaturatingSub(targetIdx, 1);
            } else if index == targetIdx {
              found := None;
              target := None;
            }
          case PushBack(_) =>
        }
        if found.Some? {
          sent := Some(TargetEventFound(found.value.eventId, targetIdx));
          found := None;
          target := None;
        }
      } else if target.Some? {
        if CarriesTarget(d, target.value) {
          var index: nat;
          match d {
            case PushFront(_) =>
              index := 0;
            case PushBack(_) =>
              var len := timeline.GetLength();
              if len == 0 {
                // `get_length() - 1` underflows: the task panics before the diff is applied.
                running := false;
                return;
              }
              index := len - 1;
            case Insert(i, _) =>
              index := i;
          }
          found := Some(Tracked(index, target.value));
        }
      }
      timeline.ApplyDiff(d);
    }
  }
}
