# Timeline search and companion safety examples, in Dafny

The repository is a set of Rust examples. Each shows a bug pattern from a Matrix client beside its correction. This project models the logic of those examples and proves what each one promises.

**Backwards pagination (the main part).** A client looks for one event (the *target*) in a timeline that keeps changing while it searches. The timeline is a list of event ids changed by diffs:

- `PushBack` and `PushFront` add an item at one end.
- `Insert` adds an item at an index; an index past the end is ignored.
- `Remove` deletes the item at an index; an index past the end is ignored.

The corrected handler serves two kinds of input:

- **A request (`BackwardsPaginateRequest`).** It names a target, a starting index and the timeline length the caller saw. If that length is out of date, the scan starts at the current end. The handler scans backwards below the start and either reports `TargetEventFound` at once or keeps the target pending.
- **A diff.** The handler first moves a tracked index so it keeps naming the same event; removing the tracked event forgets it. It then reports a tracked result. It then checks whether the diff itself carries the pending target. Finally it applies the diff to the timeline.

Two parts model this:

- `TimelineSearch` holds pure step functions, `RequestStep` and `DiffStep`.
- `TimelineSearch.SearchHandler` is a class over a mutable `Timelines.Timeline`. Its two methods are proved equal to those step functions.

The broken example re-reads the timeline between passes and trusts indices from an older snapshot. `NaiveSearch` models it as a loop over a sequence of observed snapshots.

**Buffered reader.** `BufReader.AsyncBufReader` is the pinned async buffered reader: a byte buffer with `filledLen` and `pos`. The async reader underneath becomes a parameter: ready with bytes, error, or pending. Three alternative designs become classes in `AlternativeBuffers`: an index range, one owned buffer with a reader over it, and a lazily allocated buffer.

**Comparators.** `Comparators` models the `qsort`-style comparator callbacks of the closure example:

- `compare_with_context`, with its threshold and reverse flag
- the in-place nested-loop sort `qsort_with_context`
- the comparator enum, including the truncating `%` of the modulo comparator

**Room display names.** `RoomNames` is the typed display-name enum with its placeholder guard. `RoomNamesString` is the string version, where an empty name looks the same as a room that was never loaded.

**RefCell cache.** `RefCellCache` models:

- the thread-local item cache, whose processing pass iterates over a snapshot of the items
- the `RefCell` counter
- the `Cell`-based `SimpleCounter`

**Room caches.** `RoomCaches` models the thread-local room cache of the UI-safety example. `SealedRooms`, `SealedApproach` and `WitnessApproach` model the sealed-trait and witness-token variants over one shared cache.

`Wrappers` holds `Option`, the byte and integer-width subset types, and `Min`.

How the model maps the code:

- Each arm of the handler's `select!` loop becomes one atomic step.
- The caller decides which input comes next, so the biased ordering is modelled as choosing between `HandleRequest` and `HandleDiff`.
- A diff yields its report as soon as it is handled; the code sends a tracked result per diff, not per batch.
- In the code, a new request overwrites any pending state, and so does the model.
- In the code, removing the tracked event clears both the target and the found index and sends nothing; so does the model.
- The handler sends only `TargetEventFound`. The code has no reset diff, no not-found or superseded message, and no fetch-and-retry loop, so the model has none either.

## Model

| member | source | states |
|---|---|---|
| Timelines.Applied | submissions/backwards-pagination/correct-example/src/main.rs:74-94 | an inserting diff that is not ignored adds one item and an in-range removal takes one away; an `Insert` past the end or a `Remove` at or past the end changes nothing |
| Timelines.AppliedItems | submissions/backwards-pagination/correct-example/src/main.rs:74-94 | as a bag of items, an applied inserting diff adds exactly its item and an applied removal takes away exactly the item at its index |
| Timelines.PushesAddOneItem | submissions/backwards-pagination/correct-example/src/main.rs:77-82 | `PushBack` appends the item at the end and `PushFront` puts it at index 0; the length grows by one and the old items keep their order |
| Timelines.InsertShifts | submissions/backwards-pagination/correct-example/src/main.rs:83-87 | an `Insert` at `i <= len` puts the item at `i` and shifts later items up by one; an index past the end leaves the timeline unchanged |
| Timelines.RemoveShifts | submissions/backwards-pagination/correct-example/src/main.rs:88-92 | a `Remove` at `i < len` drops item `i` and shifts later items down by one; an index past the end leaves the timeline unchanged |
| Timelines.Timeline.constructor | submissions/backwards-pagination/correct-example/src/main.rs:59-63 | a new timeline is empty |
| Timelines.Timeline.GetLength | submissions/backwards-pagination/correct-example/src/main.rs:65-67 | the number of items in the timeline |
| Timelines.Timeline.GetItem | submissions/backwards-pagination/correct-example/src/main.rs:69-71 | the result is absent exactly when the index is at or past the length, and otherwise is the item at that index |
| Timelines.Timeline.ApplyDiff | submissions/backwards-pagination/correct-example/src/main.rs:74-94 | the new contents are the old contents with the diff applied, as the three lemmas above describe |
| Timelines.VerifyResult | submissions/backwards-pagination/correct-example/src/main.rs:299-313 | true exactly when the index is in range and the item there has the expected id |
| TimelineSearch.ValidatedStart | submissions/backwards-pagination/correct-example/src/main.rs:132-141 | the requested starting index when the caller's snapshot length is the current length, and the current length otherwise |
| TimelineSearch.ScanBelow | submissions/backwards-pagination/correct-example/src/main.rs:144-150 | scanning down from a bound finds the highest index below it that holds the target; absent exactly when no index below the bound holds it |
| TimelineSearch.FindBackward | submissions/backwards-pagination/correct-example/src/main.rs:144-150 | the scan looks at indices below `min(start, len)` only; a found index holds the target and no higher index in that range does; nothing is found exactly when no index in that range holds the target |
| TimelineSearch.RequestStep | submissions/backwards-pagination/correct-example/src/main.rs:124-171 | the start is the requested index exactly when the caller's length is current, and the current length otherwise; a report names the target at the highest such index below the start and leaves the state idle; no report exactly when nothing in range matches, and then the target is kept pending with no found index |
| TimelineSearch.SaturatingSub | submissions/backwards-pagination/correct-example/src/main.rs:194 | `saturating_sub`: the difference when it is not negative, and 0 otherwise |
| TimelineSearch.AdjustIndex | submissions/backwards-pagination/correct-example/src/main.rs:176-207 | the tracked index is forgotten exactly when the diff removes it; a removal below it moves it down by one (the saturating subtraction never saturates on this path) |
| TimelineSearch.AdjustIndexFollowsItem | submissions/backwards-pagination/correct-example/src/main.rs:176-207 | an adjusted index names the same event after `apply_diff` as before, for every diff kind |
| TimelineSearch.AdjustAllFollowsItem | submissions/backwards-pagination/correct-example/src/main.rs:176-207 | the adjustment of `AdjustIndex`, repeated over any sequence of diffs, keeps naming the same event while it survives; this is a fact about the adjustment, since the handler itself reports or drops a found index on the very next diff |
| TimelineSearch.CarriesTarget | submissions/backwards-pagination/correct-example/src/main.rs:220-227 | a diff carries the target exactly when it is not a removal and its item has the target id |
| TimelineSearch.IndexInDiff | submissions/backwards-pagination/correct-example/src/main.rs:231-236 | the index is read before the diff is applied; there is no index (the `get_length() - 1` underflow) exactly when a `PushBack` meets an empty timeline, and every other inserting diff yields one |
| TimelineSearch.IndexInDiffNamesItem | submissions/backwards-pagination/correct-example/src/main.rs:231-246 | for `PushFront` and in-range `Insert`, the recorded index is where the item sits after the diff is applied at line 246 |
| TimelineSearch.DiffStep | submissions/backwards-pagination/correct-example/src/main.rs:174-246 | a tracked result is reported and the state goes idle, unless the diff removes the tracked event, which clears the state without a report; a diff that does not carry the pending target changes nothing; a carried target is recorded as found under its own id, at the index `IndexInDiff` gives; the step fails exactly on the `PushBack` underflow; consistency (a found index only while a target is pending) is preserved |
| TimelineSearch.RecordingIsFresh | submissions/backwards-pagination/correct-example/src/main.rs:218-246 | a target carried by a `PushFront` or an in-range `Insert` is recorded at an index that holds it once the diff is applied at line 246, so the state the step leaves is fresh |
| TimelineSearch.ReportIsFresh | submissions/backwards-pagination/correct-example/src/main.rs:176-217 | if the tracked index named its event before the diff, then any reported result names that event in the timeline after the diff |
| TimelineSearch.SearchHandler.constructor | submissions/backwards-pagination/correct-example/src/main.rs:104-115 | the handler starts running, idle, over the given timeline |
| TimelineSearch.SearchHandler.HandleRequest | submissions/backwards-pagination/correct-example/src/main.rs:124-171 | the new state and the sent result are those of `RequestStep` on the current timeline, and the timeline is unchanged |
| TimelineSearch.SearchHandler.HandleDiff | submissions/backwards-pagination/correct-example/src/main.rs:174-246 | the new state and the sent result are those of `DiffStep`, and the timeline has the diff applied; on the `PushBack` underflow the handler stops, as the code would panic |
| TimelineSearchScenarios.FullWorkflowFindsEvent3 | submissions/backwards-pagination/correct-example/src/main.rs:489-534 | over `event_0`..`event_9` with start 8 and a current length, `event_3` is reported at index 3 and the handler goes idle |
| TimelineSearchScenarios.AdjustmentExamples | submissions/backwards-pagination/correct-example/src/main.rs:430-486 | index 5 becomes 7 after two prepends, 10 becomes 11 after an insert at 5, and 10 becomes 9 after a remove at 5; diffs after the index leave it alone |
| TimelineSearchScenarios.StaleSnapshotScansWholeTimeline | submissions/backwards-pagination/correct-example/src/main.rs:132-150 | a request with a current length scans below its starting index; with a stale length the scan starts at the real end and finds the shifted event |
| TimelineSearchScenarios.PushBackReportIsStale | submissions/backwards-pagination/correct-example/src/main.rs:233 | as written, a target arriving by `PushBack` is recorded one below its real position, so the later report names the wrong event |
| TimelineSearchScenarios.OutOfRangeInsertReportIsInvalid | submissions/backwards-pagination/correct-example/src/main.rs:234 | as written, an out-of-range `Insert` of the target is recorded although `apply_diff` drops it, so the report names an index past the end |
| TimelineSearchScenarios.PushBackRecordingIsStale | submissions/backwards-pagination/correct-example/src/main.rs:233 | for every timeline whose last item is not the appended target, the `PushBack` recording at `get_length() - 1` names an index that does not hold the target after the push |
| TimelineSearchScenarios.OutOfRangeInsertRecordingIsInvalid | submissions/backwards-pagination/correct-example/src/main.rs:234 | for every timeline, an `Insert` of the target past the end is recorded at its index although `apply_diff` (line 84) leaves the timeline unchanged, so the recorded index lies past the end |
| TimelineSearchScenarios.IntendedIndexInDiff | submissions/backwards-pagination/correct-example/src/main.rs:231-236 | corrected recording: the length before a `PushBack`, and nothing for an `Insert` that `apply_diff` would ignore |
| TimelineSearchScenarios.IntendedIndexInDiffNamesItem | submissions/backwards-pagination/correct-example/src/main.rs:231-246 | every index the corrected recording yields names the carried item once the diff is applied, for all three diff kinds |
| TimelineSearchScenarios.IntendedRecordingKeepsFresh | submissions/backwards-pagination/correct-example/src/main.rs:218-246 | with the corrected recording, the result reported on the next diff names the target in the timeline after that diff |
| NaiveSearch.ScanPass | submissions/backwards-pagination/broken-example/src/main.rs:77-86 | one pass checks indices below `min(current_index, len)` from high to low and returns the highest one holding the target, which agrees with `FindBackward` |
| NaiveSearch.SearchForEventBroken | submissions/backwards-pagination/broken-example/src/main.rs:64-110 | a returned index holds the target in the snapshot of that pass; the search gives up only when the re-read length equals the last bound, and otherwise continues with the new length as its bound |
| NaiveSearchScenarios.IndexInvalidationTest | submissions/backwards-pagination/broken-example/src/main.rs:243-292 | the naive search returns index 3, and after two prepends index 3 holds `event_1` while `event_3` sits at 5 |
| BufReader.AsyncBufReader.constructor | submissions/pin-self-referential/correct-example/src/async_buf_reader.rs:42-56 | a zeroed buffer of the given capacity, with nothing filled and the position at 0 |
| BufReader.AsyncBufReader.Filled | submissions/pin-self-referential/correct-example/src/async_buf_reader.rs:64-68 | the first `filledLen` bytes of the buffer |
| BufReader.AsyncBufReader.Available | submissions/pin-self-referential/correct-example/src/async_buf_reader.rs:71-74 | the filled bytes from `pos` onwards |
| BufReader.AsyncBufReader.Consume | submissions/pin-self-referential/correct-example/src/async_buf_reader.rs:77-80 | `pos` becomes `min(pos + amt, filledLen)`, keeping `pos <= filledLen <= capacity` |
| BufReader.AsyncBufReader.PollFillBuf | submissions/pin-self-referential/correct-example/src/async_buf_reader.rs:87-126 | with unread bytes, returns them and does not poll the inner reader; otherwise `pos` becomes 0, and a ready read fills the buffer and returns exactly the new bytes; an error or pending leaves the old fill in place |
| BufReader.AsyncBufReader.PollFillBufIntended | submissions/pin-self-referential/correct-example/src/async_buf_reader.rs:87-126 | corrected variant: an error or pending poll leaves `pos` alone, so consumed bytes are not offered again |
| BufReader.AsyncBufReader.PollRead | submissions/pin-self-referential/correct-example/src/async_buf_reader.rs:131-151 | copies `min(available, remaining)` bytes from the front of the available bytes and consumes exactly that many |
| BufReader.FillReturnsAllBytes | submissions/pin-self-referential/correct-example/src/async_buf_reader.rs:175-191 | the first fill of a 1024-byte reader returns every ready byte, for any input of at most 1024 bytes (the test's 20-byte string among them) |
| BufReader.ConsumeScenario | submissions/pin-self-referential/correct-example/src/async_buf_reader.rs:194-213 | reading 5 bytes of "0123456789" gives "01234" and leaves "56789" available |
| BufReader.ReplayAfterPending | submissions/pin-self-referential/correct-example/src/async_buf_reader.rs:103 | as written, after all bytes are consumed a pending poll resets `pos`, and the next read returns the consumed bytes again |
| BufReader.NoReplayWhenIntended | submissions/pin-self-referential/correct-example/src/async_buf_reader.rs:87-126 | with the corrected poll, the same sequence leaves nothing available |
| AlternativeBuffers.FillPrefixTruncates | submissions/pin-self-referential/correct-example/src/alternative_designs.rs:33-37 | filling copies `min(len, capacity)` bytes to the front, truncating longer input silently, and leaves the later bytes unchanged |
| AlternativeBuffers.IndexBased.constructor | submissions/pin-self-referential/correct-example/src/alternative_designs.rs:26-31 | a 1024-byte buffer with an empty filled range |
| AlternativeBuffers.IndexBased.FillWith | submissions/pin-self-referential/correct-example/src/alternative_designs.rs:33-41 | the buffer takes the truncated prefix, the range becomes `0..min(len, capacity)`, and the filled slice is that prefix of the input |
| AlternativeBuffers.IndexBased.GetFilled | submissions/pin-self-referential/correct-example/src/alternative_designs.rs:39-41 | the bytes of the filled range, position by position |
| AlternativeBuffers.Buffer.constructor | submissions/pin-self-referential/correct-example/src/alternative_designs.rs:68-73 | a zeroed buffer of the given size with nothing filled |
| AlternativeBuffers.Buffer.FillWith | submissions/pin-self-referential/correct-example/src/alternative_designs.rs:75-84 | the same truncating fill, with `filled_len = min(len, capacity)` |
| AlternativeBuffers.Buffer.GetFilled | submissions/pin-self-referential/correct-example/src/alternative_designs.rs:82-84 | the first `filled_len` bytes, position by position |
| AlternativeBuffers.Reader.constructor | submissions/pin-self-referential/correct-example/src/alternative_designs.rs:93-98 | a reader over a fresh, empty 1024-byte buffer at position 0 |
| AlternativeBuffers.Reader.Available | submissions/pin-self-referential/correct-example/src/alternative_designs.rs:100-102 | needs `pos <= filled_len`; the result is the filled bytes after `pos` |
| AlternativeBuffers.LazyBuffer.constructor | submissions/pin-self-referential/correct-example/src/alternative_designs.rs:124-129 | an empty 1024-byte buffer |
| AlternativeBuffers.LazyBuffer.FillWith | submissions/pin-self-referential/correct-example/src/alternative_designs.rs:131-140 | the same truncating fill, after which `filled` is the prefix of the input |
| AlternativeBuffers.LazyBuffer.Filled | submissions/pin-self-referential/correct-example/src/alternative_designs.rs:138-140 | the first `filled_len` bytes, position by position |
| AlternativeBuffers.TestIndexBased.constructor | submissions/pin-self-referential/correct-example/src/alternative_designs.rs:163-170 | the test type copies at most 100 bytes without clamping, and `get` returns them |
| AlternativeBuffers.TestIndexBased.Get | submissions/pin-self-referential/correct-example/src/alternative_designs.rs:172-174 | the bytes of the range, position by position |
| AlternativeBuffers.TestBuffer.constructor | submissions/pin-self-referential/correct-example/src/alternative_designs.rs:191-196 | an empty 100-byte buffer |
| AlternativeBuffers.TestBuffer.Write | submissions/pin-self-referential/correct-example/src/alternative_designs.rs:198-205 | `write` does not clamp, so it needs at most 100 bytes; `read` then returns exactly those bytes |
| AlternativeBuffers.TestBuffer.Read | submissions/pin-self-referential/correct-example/src/alternative_designs.rs:203-205 | the first `len` bytes, position by position |
| AlternativeBuffers.IndexBasedKeepsBytes | submissions/pin-self-referential/correct-example/src/alternative_designs.rs:177-180 | `new(b"test").get()` is "test" |
| AlternativeBuffers.BufferReadsWhatWasWritten | submissions/pin-self-referential/correct-example/src/alternative_designs.rs:208-215 | writing "hello" then reading returns "hello" |
| AlternativeBuffers.RefillResetsRange | submissions/pin-self-referential/correct-example/src/alternative_designs.rs:33-41 | a second fill replaces the range from 0, whatever the first fill left |
| Comparators.Cmp | submissions/closure-ffi-abi/correct-example/src/main.rs:177-198 | the three-way `cmp` of two integers |
| Comparators.CompareAscending | submissions/closure-ffi-abi/correct-example/src/main.rs:24-30 | -1, 0 or 1 exactly when `a < b`, `a == b` or `a > b` |
| Comparators.CompareDescending | submissions/closure-ffi-abi/correct-example/src/main.rs:32-38 | the negation of the ascending comparison |
| Comparators.CompareWithContext | submissions/closure-ffi-abi/correct-example/src/main.rs:86-111 | 1 whenever `a` is above the threshold, -1 when only `b` is; otherwise the ascending comparison, or its negation when `reverse` is set |
| Comparators.ContextCompareConsistent | submissions/closure-ffi-abi/correct-example/src/main.rs:105-109 | on values at or below the threshold, the context comparator is antisymmetric and transitive |
| Comparators.AboveThresholdIsInconsistent | submissions/closure-ffi-abi/correct-example/src/main.rs:97-102 | two values above the threshold each compare greater than the other, so there the comparator is no ordering |
| Comparators.QsortWithContext | submissions/closure-ffi-abi/correct-example/src/main.rs:115-138 | the nested swap loops permute the array, and the result is sorted under any comparator that is consistent on its elements |
| Comparators.ContextSortedMeans | submissions/closure-ffi-abi/correct-example/src/main.rs:105-109 | below the threshold, sorted by the context comparator means ascending, or descending when `reverse` is set |
| Comparators.SortWithinThreshold | submissions/closure-ffi-abi/correct-example/src/main.rs:115-138 | sorting values at or below the threshold permutes them into ascending or descending order, as `reverse` says |
| Comparators.BoundedElements | submissions/closure-ffi-abi/correct-example/src/main.rs:115-138 | a bound holds for every position exactly when it holds for every element of the multiset |
| Comparators.ContextSortDemo | submissions/closure-ffi-abi/correct-example/src/main.rs:140-164 | the demo array `[5, 2, 8, 1, 9, 3]` comes out ascending, and descending with `reverse`, as a permutation both times |
| Comparators.TruncRem | submissions/closure-ffi-abi/correct-example/src/main.rs:191-198 | the remainder of a division truncated toward zero, as `%` on `i32` computes it |
| Comparators.TruncQuot | submissions/closure-ffi-abi/correct-example/src/main.rs:196 | the quotient of division truncated toward zero, the partner of `TruncRem` in `a == q * m + r` |
| Comparators.CanCompare | submissions/closure-ffi-abi/correct-example/src/main.rs:196 | the inputs on which `%` does not panic: a non-zero modulus, and not `i32::MIN % -1` |
| Comparators.Compare | submissions/closure-ffi-abi/correct-example/src/main.rs:177-198 | ascending orders by `a < b`, descending by `a > b`, and the modulo comparator orders by the truncated remainders |
| Comparators.AscendingDescendingOpposite | submissions/closure-ffi-abi/correct-example/src/main.rs:177-189 | the descending comparator is the flipped ascending one; the ascending one is antisymmetric, equal only on equal values, and transitive |
| Comparators.ModuloIsTruncating | submissions/closure-ffi-abi/correct-example/src/main.rs:191-198 | the modulo comparator uses the truncating remainder: -4 sorts before 2 under modulo 3, although their Euclidean remainders agree |
| Comparators.ModuloEqualRemainders | submissions/closure-ffi-abi/correct-example/src/main.rs:191-198 | the modulo comparator says equal exactly when the remainders agree, and it is antisymmetric |
| RoomNames.ToDisplayString | submissions/room-displayname-type-safety/correct-example/src/main.rs:25-33 | each variant's display text, with "Empty (was …)" and "Unnamed Room" for the empty variants |
| RoomNames.IsPlaceholder | submissions/room-displayname-type-safety/correct-example/src/main.rs:36-38 | true exactly for `Empty` and `EmptyWas` |
| RoomNames.PlaceholderDisplaysText | submissions/room-displayname-type-safety/correct-example/src/main.rs:36-38 | a placeholder name never displays as empty text |
| RoomNames.UpdatedRooms | submissions/room-displayname-type-safety/correct-example/src/main.rs:71-84 | an unknown room or a placeholder name changes nothing; otherwise only that room's name is set, and the room ids stay the same |
| RoomNames.DisplayName | submissions/room-displayname-type-safety/correct-example/src/main.rs:87-93 | the stored name's display text, or "Invite to Unnamed Room" for an unknown or unloaded room |
| RoomNames.UpdateThenDisplay | submissions/room-displayname-type-safety/correct-example/src/main.rs:71-93 | after a real update the room displays the new name; every other room, and every room after a placeholder update, displays as before |
| RoomNames.RoomsList.constructor | submissions/room-displayname-type-safety/correct-example/src/main.rs:59-68 | the room list starts empty |
| RoomNames.RoomsList.UpdateRoomName | submissions/room-displayname-type-safety/correct-example/src/main.rs:71-84 | the stored rooms become `UpdatedRooms` of the old ones |
| RoomNames.DisplayNameScenario | submissions/room-displayname-type-safety/correct-example/src/main.rs:96-141 | the demo rooms display "General Chat", "Invite to Unnamed Room" and "Unnamed Room", then "Private Chat" once the second room's name loads |
| RoomNamesString.UpdatedRooms | submissions/room-displayname-type-safety/broken-example/src/main.rs:30-42 | an empty string stores no name and any other string stores itself; unknown rooms and other rooms are untouched |
| RoomNamesString.DisplayName | submissions/room-displayname-type-safety/broken-example/src/main.rs:45-50 | the stored string, or "Unknown Room" |
| RoomNamesString.EmptyUpdateLooksUnloaded | submissions/room-displayname-type-safety/broken-example/src/main.rs:30-50 | after an empty-name update, a room displays the same as an unloaded room and as an unknown one |
| RoomNamesString.UpdateThenDisplay | submissions/room-displayname-type-safety/broken-example/src/main.rs:30-50 | a non-empty update displays the new name; other rooms display as before |
| RoomNamesString.RoomsList.constructor | submissions/room-displayname-type-safety/broken-example/src/main.rs:18-27 | the room list starts empty |
| RoomNamesString.RoomsList.UpdateRoomName | submissions/room-displayname-type-safety/broken-example/src/main.rs:30-42 | the stored rooms become `UpdatedRooms` of the old ones |
| RoomNamesString.EmptyUpdateScenario | submissions/room-displayname-type-safety/broken-example/src/main.rs:53-86 | a room given an empty name displays "Unknown Room", like a room that never loaded |
| RefCellCache.Contains | submissions/refcell-double-borrow-panic/correct-example/src/main.rs:38 | `str::contains`: the pattern is a prefix of the string or of one of its suffixes |
| RefCellCache.ContainsIsOccurrence | submissions/refcell-double-borrow-panic/correct-example/src/main.rs:38 | `contains` is true exactly when the pattern occurs at some position |
| RefCellCache.ShortDoesNotContain | submissions/refcell-double-borrow-panic/correct-example/src/main.rs:38 | a string shorter than the pattern does not contain it |
| RefCellCache.Derived | submissions/refcell-double-borrow-panic/correct-example/src/main.rs:35-41 | a processing pass adds at most one item per snapshot item |
| RefCellCache.DerivedMembers | submissions/refcell-double-borrow-panic/correct-example/src/main.rs:35-41 | every added item is `derived-` plus a snapshot item containing "special", and every such item yields one |
| RefCellCache.Cache.constructor | submissions/refcell-double-borrow-panic/correct-example/src/main.rs:13-15 | the cache starts empty |
| RefCellCache.Cache.AddToCache | submissions/refcell-double-borrow-panic/correct-example/src/main.rs:17-22 | the item is appended |
| RefCellCache.Cache.ProcessItemsCorrect | submissions/refcell-double-borrow-panic/correct-example/src/main.rs:27-42 | the pass iterates over a snapshot of the items, so the cache becomes the old items followed by their derived items |
| RefCellCache.CloneAndReleaseTest | submissions/refcell-double-borrow-panic/correct-example/src/main.rs:177-189 | "test" and "special-item" become those two plus "derived-special-item", so some item contains "derived" |
| RefCellCache.CacheDemo | submissions/refcell-double-borrow-panic/correct-example/src/main.rs:120-126 | the demo cache ends with "derived-special-banana" appended |
| RefCellCache.Counter.constructor | submissions/refcell-double-borrow-panic/correct-example/src/main.rs:48-50 | the counter starts at 0 |
| RefCellCache.Counter.UpdateAndLogCorrect | submissions/refcell-double-borrow-panic/correct-example/src/main.rs:55-70 | the counter grows by one |
| RefCellCache.SimpleCounter.constructor | submissions/refcell-double-borrow-panic/correct-example/src/main.rs:82-86 | the counter starts at 0 |
| RefCellCache.SimpleCounter.Increment | submissions/refcell-double-borrow-panic/correct-example/src/main.rs:89-91 | the counter grows by one |
| RefCellCache.SimpleCounter.Get | submissions/refcell-double-borrow-panic/correct-example/src/main.rs:94-96 | the current value, read without change |
| RefCellCache.SimpleCounter.UpdateAndLog | submissions/refcell-double-borrow-panic/correct-example/src/main.rs:99-108 | the counter grows by one, and the logged value is the new value |
| RefCellCache.SingleBorrowTest | submissions/refcell-double-borrow-panic/correct-example/src/main.rs:192-200 | one update gives 1 and a second gives 2 |
| RefCellCache.CellCounterTest | submissions/refcell-double-borrow-panic/correct-example/src/main.rs:203-213 | a new counter reads 0, and two increments plus one update give 3 |
| RefCellCache.NestedCallsTest | submissions/refcell-double-borrow-panic/correct-example/src/main.rs:216-227 | ten rounds of increment, read and update give 20 |
| RoomCaches.RoomCache.constructor | submissions/thread-local-ui-safety/correct-example/src/main.rs:31-33 | the cache starts empty |
| RoomCaches.RoomCache.GetRoom | submissions/thread-local-ui-safety/correct-example/src/main.rs:69-73 | a room is returned exactly when its id is cached, and it is the cached one |
| RoomCaches.RoomCache.AddRoom | submissions/thread-local-ui-safety/correct-example/src/main.rs:63-67 | the room is stored under its id, and every other id reads as before |
| RoomCaches.RoomCache.UpdateUnreadCount | submissions/thread-local-ui-safety/correct-example/src/main.rs:75-81 | only a cached room's unread count changes; an unknown id changes nothing |
| RoomCaches.RoomCache.ClearAllRooms | submissions/thread-local-ui-safety/correct-example/src/main.rs:93-97 | afterwards no room is found |
| RoomCaches.UiContextUsageTest | submissions/thread-local-ui-safety/correct-example/src/main.rs:188-210 | the added room reads back as "Test Room" with 5 unread, and is gone after clearing |
| RoomCaches.UnknownUpdateTest | submissions/thread-local-ui-safety/correct-example/src/main.rs:75-81 | an update for an unknown id leaves the cached room and the absence of that id as they were |
| SealedRooms.RoomCache.constructor | submissions/sealed-trait-example.rs:43-46 | the shared cache starts empty |
| SealedApproach.AddRoom | submissions/sealed-trait-example.rs:76-80 | the room is stored under its id |
| SealedApproach.GetRoom | submissions/sealed-trait-example.rs:82-86 | a room is returned exactly when its id is cached |
| WitnessApproach.AddRoom | submissions/sealed-trait-example.rs:105-109 | the room is stored under its id |
| WitnessApproach.GetRoom | submissions/sealed-trait-example.rs:111-115 | a room is returned exactly when its id is cached |
| SharedRoomCache.GetRoomsAgree | submissions/sealed-trait-example.rs:82-115 | the sealed and the witness lookups return the same room for every id |
| SharedRoomCache.CrossApproachTest | submissions/sealed-trait-example.rs:76-115 | rooms added through one approach are found through the other, and other ids stay absent |
| SharedRoomCache.ApproachTests | submissions/sealed-trait-example.rs:195-220 | each approach's test finds the room it added |
| Wrappers.Min | submissions/backwards-pagination/correct-example/src/main.rs:144-150 | the smaller of two naturals, used for the scan range `take(min(start, len))` |

## Left out

- Channels and tasks: the tokio channels, `select! { biased; }`, `RwLock` and `Arc`, the spawned `simulate_concurrent_updates` producers and the sleeps. Each `select!` arm is one atomic step, and the caller chooses the order.
- Console output: every `println!`, including the logging branch `if count > 5` of the counter examples, which only prints.
- TimelineSearch.SearchHandler.HandleDiff: the `PushBack` underflow at main.rs line 233 panics in a debug build and wraps in a release build. The model treats it as a stop (`running` becomes false) and does not model the wrap-around value.
- Within one diff step the code sends the report (main.rs lines 212-215) before it applies the diff (line 246). The model treats the step as atomic: `ReportIsFresh` places the reported index in the timeline once the step has applied the diff, and a reader that looks at the timeline between the send and the apply sees the old contents.
- Comparators.Compare: requires `CanCompare`, so the panics of `%` by zero and of `i32::MIN % -1` are excluded rather than modelled.
- AlternativeBuffers.TestIndexBased.constructor: requires at most 100 bytes; `copy_from_slice` panics on longer input, and that panic is not modelled.
- AlternativeBuffers.TestBuffer.Write: requires at most the buffer's length; the panic of `copy_from_slice` on longer input is not modelled.
- RefCellCache.Counter.UpdateAndLogCorrect, RefCellCache.SimpleCounter.Increment and RefCellCache.SimpleCounter.UpdateAndLog: require the value to be below `i32::MAX`; the overflow panic of `+= 1` is not modelled.
- The `+= 1` counters and `usize` lengths: their overflow is not modelled, apart from the `i32` bound the counter methods require.
- NaiveSearch.SearchForEventBroken: the snapshots the loop observes are an input sequence. When the sequence runs out, the outcome is `OutOfObservations`, a fuel bound the Rust loop does not have.
- The pin example's `Pin`, `PhantomPinned`, `pin_project`, `Context` and the raw `filled_ptr`. `filled_ptr` always points at the buffer start, so `Filled` is computed from the buffer and `filledLen`. The inner reader writes from the buffer start, and its result is a parameter.
- The other pin files (`pin_basics.rs`, `why_ub.rs`, the broken `main.rs`, `naive_future.rs`, the correct `main.rs`): they show move and raw-pointer semantics and have no stateful logic.
- The C `qsort` call through FFI and the closure transmute of the broken closure example. The model sorts with the Rust fallback loops of `qsort_with_context`, with the comparator as a function parameter.
- `rust_sort` and the `sort_by` demo of solution 3: the model states the comparators, not the library sort.
- `get_room_cache` returns a shared `Rc` to the thread-local map. The model passes the cache object instead; other threads would see their own empty cache, and that isolation is not modelled.
- The `UiContext` and sealed-token types: they only restrict who may call, which Dafny's module boundaries do not express here. The broken example's `Mutex` lock is not modelled either; its cache operations equal the correct ones.
- The `RefCell` borrow flags: a double borrow would panic, but the corrected code never takes one, so the model has plain fields. The broken RefCell example only shows a panic and is not part of this model.

## Findings

| source | as written | input that shows it | evidently intended | confidence | as-written member | corrected member |
|---|---|---|---|---|---|---|
| submissions/backwards-pagination/correct-example/src/main.rs:233 | a target arriving by `PushBack` is recorded at `get_length() - 1`, read before the push | timeline `["a"]`, pending target `"x"`, diff `PushBack("x")`: recorded index 0, but `"x"` lands at index 1 | record the length before the push, which is the index the item gets | not executed | TimelineSearchScenarios.PushBackRecordingIsStale | TimelineSearchScenarios.IntendedIndexInDiffNamesItem |
| submissions/backwards-pagination/correct-example/src/main.rs:234 | an `Insert` of the target is recorded at its index even when the index is past the end, although `apply_diff` (line 84) ignores it | empty timeline, pending target `"x"`, diff `Insert(5, "x")`: index 5 is reported for a timeline without `"x"` | record nothing for an `Insert` that will be ignored | not executed | TimelineSearchScenarios.OutOfRangeInsertRecordingIsInvalid | TimelineSearchScenarios.IntendedRecordingKeepsFresh |
| submissions/pin-self-referential/correct-example/src/async_buf_reader.rs:103 | `pos` is reset to 0 before polling the inner reader, and the reset is kept when the poll is pending or an error | fill `[1, 2]`, read 2 bytes, then a pending poll followed by another read: the bytes `[1, 2]` come back a second time | reset `pos` only once new bytes have arrived | not executed | BufReader.ReplayAfterPending | BufReader.AsyncBufReader.PollFillBufIntended |
