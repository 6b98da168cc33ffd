# Production recording, replay and reporting: a Dafny model

This project models the part of the factory server that records production and repairs what
it recorded, and the algorithms around it that have properties of their own.

- **Cycle recording** (`Common`, `StateLog`, `CycleRecorder`, `CycleTheorems`,
  `StateLogTheorems`). A station has cycle rows, a log of UP and DOWN rows, inventory batches
  and hour counters. Completing a cycle picks one of four transactional strategies. Each is a
  method over those tables, proved against a function on table values; the theorems speak of
  runs of any length.
- **Replay reconciliation** (`Text`, `Timestamps`, `ReplayProtocol`, `ReplayStore`,
  `RepairRuns`, `MetricBuckets`, `Reconcile`). Trackers merge time stamps into a stored window and debounce a
  job; the job takes the window, repairs the state log and moves archived buckets back. The
  protocol is a state machine over single store operations, in any interleaving, with crashes,
  failing jobs, expiring windows and recovery.
- **Metric streaming** (`AsyncQueue`, `CanonicalKey`, `ValueStream`). A hand-written queue, the
  canonical key of a request, and the subscribe, buffer, snapshot, drain order run against
  writers that store first and publish later.
- **Parser, compiler, interval arithmetic** (`FixedWidth`, `FixedWidthTheorems`,
  `FixedWidthRoundTrip`, `FixedWidthDocument`, `CycleFilter`, `ShiftClamp`, `Kpi`).
- **Two agreements** (`Iam`, `Dispositions`). The permission check against the list of
  accessible sites, and the running bad-item counter against the disposition logs.

Times are integer milliseconds, ratios exact reals. `Math.round(ms / 1000)` is rounding half up
on exact numbers. Ids the database draws are numbers from a supply, or fresh ids the caller passes.

Run `dafny verify dfyconfig.toml` in this directory to check the whole project with Dafny 4.11.

## Where the code and its comments part ways

The model follows the code. These are the places where a promise holds only under a condition;
each has a lemma with the exact condition or a concrete input.

- The two live strategies record the same cycles only while no call but the last steps back in
  time (`CycleTheorems.StrategyEquivalence`), and the job version on an open/close cycle lags
  one call (`CycleTheorems.StoredJobVersionLags`).
- The comment on `transitionToDown` says it closes the current entry and opens a new one; the
  code changes the open entry in place and keeps its start.
- A repair leaves overlapping rows when a closed row of positive length starts after the window
  (`StateLogTheorems.RepairKeepsDisjointIff`; `RepairOverlapsInRun` gives runs that do).
- A repair also takes the time before the window off the record where a replaced row covered it
  (`StateLogTheorems.LostByRepair`). A row flipped DOWN in place keeps its old start, so the
  usual reconcile leaves the time from that start to the window unrecorded.
- A tracking call that overlaps an active reconcile can leave a window that nothing reads
  (`ReplayProtocol.OverlapForgets`), and recovery does not revive a window whose job record is a
  failed one (`ReplayProtocol.RecoveryForgets`); the next tracking call does.
- Un-archiving conserves buckets (`MetricBuckets.UnarchiveConserves`), but it is two statements.
  When the archive worker runs between them, its copy skips the row that is still archived and
  both drops remove it (`MetricBuckets.InterleavingLoses`; exactly which drops lose a bucket is in
  `MetricBuckets.StepLosesIff`).
- A cycle tracked at the last instant of a repaired window is recorded by the open row after it
  alone, which the next repair removes (`RepairRuns.InOrderLosesLastInstants`; the exact
  condition for every instant is in `RepairRuns.StillUpIff`).
- The value stream drops a buffered event that is not newer than the snapshot's value. The two
  times it compares come from different clocks: after a completion a status event carries the
  cycle's time stamp, a bucket event the time of its receipt, and the snapshot the time the row
  was updated. A status sent with an earlier time than the row read is dropped, and the last
  value emitted stays stale (`ValueStream.EarlierStampDropsLastWrite`; the exact condition is in
  `ValueStream.ConvergesIff`).
- OEE is documented as availability times performance times quality. A bucket with output and
  no run time has OEE but zero performance (`Kpi.OutputWithoutRunTime`; exactly when the
  product fails is in `Kpi.OeeIsTheProduct`).

## Model

| member | source | states |
|---|---|---|
| CycleRecorder.StationTables.Complete | packages/services/src/cycle/cycle.ts:71-252 | A missing station, a job without a version or a foreign job is refused and leaves the tables alone; otherwise the tables change as the two options ask for: without keepOpen one complete cycle chained to the latest end, with it every open cycle closed and a new one opened; a batch for each cycle newly completed; when replayed log and counters untouched, else the station UP and the counters raised |
| CycleRecorder.StrategyCompletes | packages/services/src/cycle/cycle.ts:157-180 | For any tables, setup and options: the strategy chosen has that effect, read off the tables before and after, down to the slow mark, the rounded standard time and the rounded cycle time |
| CycleRecorder.StationTables.CompleteImmediate | packages/services/src/cycle/cycle.ts:261-400 | One completed cycle chained to the latest end, the state log moved to UP, one inventory batch, the hour counters raised by the rounded clamped duration |
| CycleRecorder.StationTables.CompleteOpenClose | packages/services/src/cycle/cycle.ts:404-486 | Every open cycle is closed and gets its batch (or a zero cycle is recorded on a new station), the state log moves to UP, a new cycle is opened |
| CycleRecorder.StationTables.CompleteImmediateReplay | packages/services/src/cycle/cycle.ts:490-561 | The immediate strategy without state log and counters |
| CycleRecorder.StationTables.CompleteOpenCloseReplay | packages/services/src/cycle/cycle.ts:565-626 | The open/close strategy without state log and counters |
| CycleRecorder.StationTables.CloseOpenCycles | packages/services/src/cycle/cycle.ts:414-447 | What the open/close strategies do before they open the next cycle, with the number of items made |
| CycleRecorder.StationTables.TransitionToUp | packages/services/src/facility/station/state.ts:367-417 | The open row ends at the time stamp and a new UP row starts there, SLOW if the cycle was, in the block of an UP row it follows and in a new block otherwise; the entry closed is reported |
| CycleRecorder.StationTables.TransitionToDown | packages/services/src/facility/station/state.ts:487-539 | An open UP row is DOWN in both columns, with its id and start, under a block no row has and with the given job version; nothing else changes; with no open row one starts DOWN at the time stamp; an open DOWN row stays as it is |
| CycleRecorder.StationTables.TransitionToSlow | packages/services/src/facility/station/state.ts:431-466 | An open UP row is SLOW and otherwise as it was; with no open row an UP and SLOW one starts at the time stamp; an open DOWN row stays as it is |
| CycleRecorder.StationTables.FixStateEntries | packages/services/src/cycle/replay.ts:210-254 | Deleted are exactly the open rows and those that meet the window; the window and the time after it are UP rows in one new block with the active job version |
| CycleTheorems.ImmediateClosedForm | packages/services/src/cycle/cycle.ts:283-306 | The exact cycle rows, batches and latest end after any immediate run on an empty station |
| CycleTheorems.OpenCloseClosedForm | packages/services/src/cycle/cycle.ts:414-467 | The exact cycle rows and batches after any open/close run on an empty station |
| CycleTheorems.StrategyEquivalence | packages/services/src/cycle/cycle.ts:283-467 | For every run: open/close leaves the completed cycles [t1,t1],[t1,t2],...,[tn-1,tn] and one cycle open at tn; immediate leaves the same completed cycles if and only if no call but the last steps back in time |
| CycleTheorems.SameBatches | packages/services/src/cycle/cycle.ts:386-447 | Under both strategies call i makes exactly one batch, under its own job, on the i-th completed cycle, for any time stamps |
| CycleTheorems.StoredJobVersionLags | packages/services/src/cycle/cycle.ts:449-467 | The job version stored on an open/close cycle is the one of the call that opened it, one call behind the immediate strategy |
| CycleTheorems.SameLogAndCounts | packages/services/src/cycle/cycle.ts:318-486 | In order, both strategies also write the same state log, allocate the same items and raise the same counters except the cycle seconds |
| CycleTheorems.DurationsOfRows | packages/services/src/cycle/cycle.ts:286-306 | The durations a run contributes are the clamped lengths of exactly the rows it added |
| CycleTheorems.DurationsTelescope | packages/services/src/cycle/cycle.ts:286-296 | From any station, the clamped durations of a run add up to how far the latest end moved |
| CycleTheorems.CounterError | packages/services/src/cycle/cycle.ts:386-396 | From any station, the whole seconds added are within half a second per call of that movement |
| CycleTheorems.TelescopingFromEmpty | packages/services/src/cycle/cycle.ts:286-396 | From an empty station, in any order: the durations sum to exactly max(t) - t1 and the counter is off by at most (n-1)/2 seconds |
| CycleTheorems.InventoryBalanced | packages/services/src/cycle/cycle.ts:261-626 | Over every mix of the four strategies: one batch on each completed cycle and none on an open one, every item allocated once, at most one open cycle |
| StateLogTheorems.AtMostOneOpenAlways | packages/db/migrations/20260311210000_enforce_single_open_state_log/migration.sql:39-41 | Over every mix of completions, DOWN and SLOW transitions and repairs, at most one live row is open; the index never has to reject a write |
| StateLogTheorems.FoundIsTheOpenRow | packages/services/src/facility/station/state.ts:54-59 | In every run the lookup of the open row finds exactly the one live row without an end, so its sort order does not matter |
| StateLogTheorems.DetectedDownIsDown | packages/services/src/facility/station/state.ts:487-539 | After any run, a detected downtime leaves the station DOWN: exactly one row is open and it is DOWN in both columns, from its own start if it was UP; every other row is as before |
| StateLogTheorems.DetectedSlowIsSlow | packages/services/src/facility/station/state.ts:431-466 | After any run, a detected slowness leaves an UP station UP and SLOW and a DOWN one DOWN, and changes nothing else |
| StateLogTheorems.CompletionIsUp | packages/services/src/cycle/cycle.ts:262-626 | After any run, a live completion leaves the station UP from its time stamp on, and a replayed one leaves the log alone |
| StateLogTheorems.RepairIsUp | packages/services/src/cycle/replay.ts:210-254 | After any run, a repair deletes exactly what it should and leaves the station UP |
| StateLogTheorems.TilesIffInOrder | packages/services/src/cycle/cycle.ts:307-337 | Without repairs the live rows tile time with one open row at the end if and only if no step came before the open row's start |
| StateLogTheorems.BlocksOfRun | packages/services/src/cycle/cycle.ts:307-337 | Two live rows share a block if and only if every row from the one to the other is UP |
| StateLogTheorems.LiveAfterRepair | packages/services/src/cycle/replay.ts:217-253 | The live rows after a repair are the survivors in order, then the two new rows |
| StateLogTheorems.RepairCorrect | packages/services/src/cycle/replay.ts:217-253 | The survivors are exactly the old live rows that ended before the window or are closed and start after it; every instant from the window start on is covered by UP rows; exactly one live row is open |
| StateLogTheorems.RepairKeepsDisjointIff | packages/services/src/cycle/replay.ts:217-253 | A repair keeps live rows pairwise disjoint if and only if no closed row of positive length starts after the window |
| StateLogTheorems.RepairOverlapsInRun | packages/services/src/cycle/replay.ts:217-253 | Every run of completions in time order with at least two after the window: its live rows tile time before the repair and overlap after it |
| StateLogTheorems.LostByRepair | packages/services/src/cycle/replay.ts:217-228 | With disjoint live rows, a recorded instant goes off the record if and only if it is before the window and in a replaced row |
| StateLogTheorems.NothingLostIff | packages/services/src/cycle/replay.ts:217-228 | A repair keeps every recorded instant on record if and only if every row it replaces starts in or after the window |
| StateLogTheorems.OpenRowLosesItsPast | packages/services/src/cycle/replay.ts:198-228 | The open row is always replaced, so its time before the window goes off the record |
| StateLogTheorems.TilesAfterRepairIff | packages/services/src/cycle/replay.ts:217-253 | The live rows tile time after a repair if and only if no row survives it |
| StateLogTheorems.RepairTwice | packages/services/src/cycle/replay.ts:217-253 | A second repair of the same window changes nothing but row ids and the block |
| StateLogTheorems.AfterRepair | packages/services/src/cycle/replay.ts:198-254 | After a repair at any moment, any further completions and transitions leave the survivors alone, and the rows from the window on tile if and only if those steps were in order |
| RepairRuns.WindowRowStaysIff | packages/services/src/cycle/replay.ts:210-254 | Over every run of completions, transitions and repairs: the UP row written for a window is live at the end if and only if no later repair touches the window |
| RepairRuns.WindowStaysUp | packages/services/src/cycle/replay.ts:210-254 | Until then every instant of the window but the last is recorded as UP, whatever else happens |
| RepairRuns.StillUpIff | packages/services/src/cycle/replay.ts:198-254 | Over every run of replayed completions and repairs, from any log: an instant of a repaired window is never on record as anything but UP, and it is on record at the end if and only if its own repair or a later one still accounts for it, by a window no later repair touches or by the open row of the last repair |
| RepairRuns.InOrderLosesLastInstants | packages/services/src/cycle/replay.ts:198-254 | When windows are repaired in time order, an instant of one stays on record if and only if it is not the window's last instant or no repair follows |
| Timestamps.TimeFollowsFields | packages/services/src/cycle/replay.ts:104-110 | Instants compare in milliseconds exactly as their calendar fields do from the year down |
| Timestamps.TextOrderIsTimeOrder | packages/services/src/cycle/replay.ts:75-80 | Comparing the two ISO texts as strings agrees with comparing the instants if and only if both years or neither are above 9999 and two negative years are equal; so always within years 0 to 9999, section 5.1 of RFC 3339 |
| Timestamps.ParseIsoText | packages/services/src/cycle/replay.ts:152-153 | Parsing the 24-character text gives back the instant it was printed from |
| Timestamps.IsoTextShape | packages/services/src/cycle/replay.ts:104-110 | The text is the complete date and time of section 5.6 of RFC 3339 in UTC: digits and separators at their places |
| Timestamps.TimeCountsTicks | packages/services/src/cycle/replay.ts:152-153 | Time is zero at the start of 1970 and one more with every millisecond of clock and calendar |
| ReplayProtocol.WindowIsExact | packages/services/src/cycle/replay.ts:64-86 | Any merges in any order leave the text of the true earliest and latest time stamp, the first site and the number of merges |
| ReplayProtocol.WithinWindow | packages/services/src/cycle/replay.ts:64-86 | Every merged time stamp lies within the stored bounds |
| ReplayProtocol.MergeOrderIndependent | packages/services/src/cycle/replay.ts:64-86 | Permuting the merges changes nothing but possibly the site, which is the first merge's |
| ReplayProtocol.EveryTrackedOnce | packages/services/src/cycle/replay.ts:104-153 | Under every interleaving with crashes, failures and expiry, each tracked time stamp is in exactly one window, and each window is exactly what its stretch merges to |
| ReplayProtocol.CountsAddUp | packages/services/src/cycle/replay.ts:104-153 | Tracking updates = counts of windows taken + count of the stored window + counts of windows expired |
| ReplayProtocol.AttendedStep | packages/services/src/cycle/replay.ts:104-149 | An event leaves a stored window unattended if and only if it is one of the named forgetting events |
| ReplayProtocol.AttendedIffNeverForgets | packages/services/src/cycle/replay.ts:104-149 | A whole run keeps every stored window attended if and only if no forgetting event happens in it |
| ReplayProtocol.NoForgottenWindow | packages/services/src/cycle/replay.ts:104-149 | In every run without crashes, early failures or overlap of tracking with an active job, a stored window always has a waiting job, a tracker yet to add one, or a job yet to read it |
| ReplayProtocol.OverlapForgets | packages/services/src/cycle/replay.ts:115-127 | A concrete run with overlap ends with a stored window that nothing will read |
| ReplayProtocol.RecoveryForgets | packages/services/src/cycle/replay.ts:344-380 | A concrete run that ends in recovery with a stored window, a failed record and no tracker in flight |
| ReplayProtocol.TrackingRevives | packages/services/src/cycle/replay.ts:104-127 | The next tracking call run on its own gives any stored window a waiting job again |
| ReplayProtocol.RetriedJobTakesWindow | packages/services/src/cycle/replay.ts:140-149 | A job that is handed out again takes whatever window is stored by then |
| ReplayProtocol.ExpiredWindowIsGone | packages/services/src/cycle/replay.ts:64-86 | An expired window is gone unread, and nothing else changes |
| ReplayStore.Stores.UpdateWindow | packages/services/src/cycle/replay.ts:64-86 | Creates or widens the station's window and counts one more; other stations are untouched |
| ReplayStore.Stores.TrackReplayedCycle | packages/services/src/cycle/replay.ts:104-127 | One uninterrupted tracking call: the window merged, the job removed and added again unless it is active |
| ReplayStore.Stores.TakeWindow | packages/services/src/cycle/replay.ts:143-149 | Reads and deletes the window in one step |
| ReplayStore.Stores.RecoverReplayWindows | packages/services/src/cycle/replay.ts:344-380 | Whatever the scan pages repeat or list in vain, every stored window ends with exactly one job record, existing records are untouched, new ones are waiting |
| ReplayStore.RecoveredWindowAttended | packages/services/src/cycle/replay.ts:344-380 | After any trace, recovery gives a stored window a record, and the window is attended if and only if the record found was not a failed or spent one or a tracker is still to add one |
| ReplayStore.RecoveryWithoutWindow | packages/services/src/cycle/replay.ts:344-380 | Without a stored window, recovery adds a record only for a station a stale scan lists and that has none |
| Reconcile.MergedWindowEncloses | packages/services/src/cycle/replay.ts:151-154 | A window made by merging parses to bounds that enclose, and are attained by, the tracked instants |
| Reconcile.ReconcileReplay | packages/services/src/cycle/replay.ts:140-192 | Takes the window, repairs the log over it and moves exactly the archived buckets back that have time in common with it, or changes nothing else when there is none |
| Reconcile.TrackedCyclesAreUp | packages/services/src/cycle/replay.ts:104-254 | Whatever the log said, after the reconcile the station is recorded as UP, and as nothing else, at the time of every tracked cycle |
| Reconcile.EveryTakenWindowRestores | packages/services/src/cycle/replay.ts:104-254 | Over every trace of the protocol, each window taken leaves the station recorded as UP at every time stamp of its own stretch of what was tracked |
| Reconcile.AfterAllReconciles | packages/services/src/cycle/replay.ts:104-254 | Over every trace of the protocol and any number of reconciles of windows taken, in any order: every tracked time stamp of a reconciled window ends up as UP or off the record, on record exactly when that repair or a later one accounts for it |
| MetricBuckets.BucketTables.UnarchiveAffected | packages/services/src/cycle/replay.ts:263-336 | Of the archived buckets with a length, exactly those of the station, its site, work center or job that share a millisecond with the window leave the archive; they are live afterwards unless their id or key was; nothing else moves |
| MetricBuckets.AffectedMeets | packages/services/src/cycle/replay.ts:266-288 | The test on start and duration picks exactly the buckets of the four entities that have a millisecond of the window in them, or, for a window of one instant, have it inside them |
| MetricBuckets.UnaffectedIsWithoutIds | packages/services/src/cycle/replay.ts:330-335 | Deleting by the ids restored removes exactly the affected rows |
| MetricBuckets.InsertNewIs | packages/services/src/cycle/replay.ts:318-328 | Inserting with skipped duplicates appends exactly the rows whose id and key are both new |
| MetricBuckets.UnarchiveMoves | packages/services/src/cycle/replay.ts:263-336 | No live row is overwritten; no affected bucket that overlaps the window stays archived; every other row stays where it was |
| MetricBuckets.KeyKeptIff | packages/services/src/cycle/replay.ts:318-335 | Over any two tables: the key of an archived bucket survives if and only if the bucket is not both affected and of an id that a live row with another key has |
| MetricBuckets.KeysConservedIff | packages/services/src/cycle/replay.ts:263-336 | Over any two tables: the set of stored keys is unchanged if and only if no affected archived bucket has such a clash, which no reachable pair of tables has |
| MetricBuckets.IdsAlwaysAgree | packages/services/src/metrics/archive.ts:172-228 | Over every sequence of single statements (new rows, copies and drops in both directions, half-done or interleaved) an id carries one key in both tables |
| MetricBuckets.UnarchiveConserves | packages/services/src/cycle/replay.ts:263-336 | In every reachable pair of tables un-archiving leaves the set of stored keys unchanged, without condition |
| MetricBuckets.ArchiveConserves | packages/services/src/metrics/archive.ts:172-228 | And so does archiving any of the live rows |
| MetricBuckets.StepLosesIff | packages/services/src/cycle/replay.ts:318-335 | A single statement loses a stored key if and only if it drops a row whose key the other table does not hold |
| MetricBuckets.InterleavingLoses | packages/services/src/cycle/replay.ts:295-335 | For every bucket, an archiving between the copy and the drop of its un-archiving is a run that leaves it in neither table |
| MetricBuckets.NoKeyAppears | packages/services/src/cycle/replay.ts:263-336 | No key appears that neither table had |
| MetricBuckets.UnarchiveTwice | packages/services/src/cycle/replay.ts:263-336 | Un-archiving the same scope again is a no-op |
| AsyncQueue.Queue.Push | apps/api/src/rpc/metrics.ts:316-359 | A push before close goes to the first waiting reader or to the store; after close it is dropped |
| AsyncQueue.Queue.Shift | apps/api/src/rpc/metrics.ts:316-359 | A shift takes the first stored value, gets null on a drained closed queue, or waits |
| AsyncQueue.Queue.Close | apps/api/src/rpc/metrics.ts:316-359 | Every waiting reader gets null; stored values stay |
| AsyncQueue.Run | apps/api/src/rpc/metrics.ts:316-359 | After any sequence of calls, what was handed out and what is stored are the values pushed up to the first close, in order |
| AsyncQueue.ObserveIs | apps/api/src/rpc/metrics.ts:316-359 | What a sequence of calls amounts to: the values pushed up to the first close, the number of shifts, and whether there was a close |
| AsyncQueue.FirstInFirstOut | apps/api/src/rpc/metrics.ts:316-359 | Values handed out plus values stored are the values pushed before close, in order; stored values and waiters never coexist; after close exactly the readers without a value got null |
| AsyncQueue.ClosedSettles | apps/api/src/rpc/metrics.ts:316-359 | After close, later calls change no promise: stored values still drain in order and further readers get null |
| CanonicalKey.StringifyIffEquivalent | apps/api/src/rpc/metrics.ts:192-207 | Two JSON values have the same canonical text if and only if they are equal up to the order of object keys, with the escapes of section 7 of RFC 8259 |
| CanonicalKey.RequestKeyIff | apps/api/src/rpc/metrics.ts:209-211 | With no colon in type, entity and metric key, request keys agree if and only if all four parts do |
| CanonicalKey.NormalizedForm | apps/api/src/rpc/metrics.ts:213-261 | A normalized request carries no arguments when live and otherwise one granularity alone: the one its own arguments name, which the catalog lists for its metric key |
| CanonicalKey.AcceptedIff | apps/api/src/rpc/metrics.ts:213-261 | A request is accepted if and only if its key is catalogued, its entity type listed, and it asks for a live value without arguments or names a listed granularity; otherwise the first of these that fails gives the error |
| CanonicalKey.BucketKeysIff | apps/api/src/rpc/metrics.ts:209-261 | Two accepted requests for bucket values share a key if and only if entity type, entity, metric key and the granularities they name agree |
| CanonicalKey.NormalizedKeysDistinct | apps/api/src/rpc/metrics.ts:209-261 | For colon-free catalog keys and entity ids, normalized requests share a key if and only if they are the same request |
| ValueStream.Stream.Receive | apps/api/src/rpc/metrics.ts:361-377 | An event of another site or key is ignored, otherwise buffered or queued |
| ValueStream.Stream.FinishSnapshot | apps/api/src/rpc/metrics.ts:552-573 | Emits the snapshot, then the buffered events observed after the snapshot value of their key, in order |
| ValueStream.Stream.Next | apps/api/src/rpc/metrics.ts:575-583 | Emits the next queued event as an update |
| ValueStream.Throughout | apps/api/src/rpc/metrics.ts:517-591 | Every state of every run: nothing delivered is lost or reordered, and what went out for a key is the snapshot, the buffered events sent as newer, then the queued ones pulled |
| ValueStream.EmittedThroughout | apps/api/src/rpc/metrics.ts:517-591 | Every state of every run, across keys: what arrived is what was delivered for the site and keys, in order; once the snapshot is out, the first emissions are one value per requested key, marked initial, and all others are updates, not marked so: the buffered events sent after the value read for their key, then the queued ones pulled, in order of arrival |
| ValueStream.SnapshotOutput | apps/api/src/rpc/metrics.ts:552-583 | After the snapshot, each buffered event of a key sent as newer than its value is emitted once, in arrival order, ahead of the queued ones |
| ValueStream.ConvergesIff | apps/api/src/rpc/metrics.ts:517-591 | In every run, once everything written to a requested key is published, delivered and drained: the last write is the last one emitted if and only if something was queued, nothing was buffered, the last buffered event was sent as newer than the value read, or the value read is the last write and no buffered event was sent as newer |
| ValueStream.Converges | apps/api/src/rpc/metrics.ts:517-591 | With stored times that increase and sent times that never decrease and are never before the stored time, every run converges to the last write |
| ValueStream.EarlierStampDropsLastWrite | packages/services/src/cycle/cycle.ts:205-226 | For any two writes of a key, the second sent as observed no later than the first was stored: a run at rest that emits the first and never the second |
| FixedWidth.ParseFixedWidthSections | packages/db/seed/import/utils.ts:70-107 | The loop over lines yields the sections by name, comments dropped, a later section replacing an earlier one |
| FixedWidth.ParseFixedWidthTable | packages/db/seed/import/utils.ts:119-168 | The rows below the first dash line as objects by column name, blank and footer lines skipped |
| FixedWidth.FindColumns | packages/db/seed/import/utils.ts:127-137 | The loop over dash groups yields one named column per group |
| FixedWidthTheorems.ColumnsAreMaximalRuns | packages/db/seed/import/utils.ts:127-137 | The columns are exactly the maximal dash groups of the line, increasing and disjoint |
| FixedWidthTheorems.MarkerIsFirstMatch | packages/db/seed/import/utils.ts:20 | A line is a section marker if and only if the pattern matches it, and the name is the group of the match that greedy and lazy quantifiers prefer |
| FixedWidthTheorems.SpacesAre | packages/db/seed/import/utils.ts:70-164 | What trimming and the patterns take for white space and line ends, as in sections 12.2 and 12.3 of ECMA-262 |
| FixedWidthTheorems.CommentIff | packages/db/seed/import/utils.ts:93-97 | A line is a comment if and only if two slashes or a hash come first after white space |
| FixedWidthTheorems.DashLineIff | packages/db/seed/import/utils.ts:120-121 | A line fixes the columns if and only if it has a dash and nothing else but white space |
| FixedWidthTheorems.SkippedIff | packages/db/seed/import/utils.ts:146-158 | A line below the dashes carries no row if and only if it is blank, a count of affected rows or a completion time, indented or not |
| FixedWidthTheorems.NullReadsEmpty | packages/db/seed/import/utils.ts:162-163 | NULL in a cell reads as the empty text, whatever white space is around it |
| FixedWidthTheorems.HeaderIsTheLineAbove | packages/db/seed/import/utils.ts:120-125 | Whatever stands above the header is ignored |
| FixedWidthTheorems.NoHeaderNoRows | packages/db/seed/import/utils.ts:120-122 | Without a line of dashes, or without a header above it, there are no rows |
| FixedWidthRoundTrip.CellComesBack | packages/db/seed/import/utils.ts:158-161 | A padded cell comes back unchanged if and only if it is trimmed and is not NULL |
| FixedWidthRoundTrip.TrimmedLineReads | packages/db/seed/import/utils.ts:160-165 | A row line that lost the white space at its end reads the same at every column |
| FixedWidthRoundTrip.TableReadBack | packages/db/seed/import/utils.ts:119-168 | Parsing a printed table with any footers gives its records |
| FixedWidthDocument.LinesReadBack | packages/db/seed/import/utils.ts:74 | Splitting joined lines gives the lines back with either line ending |
| FixedWidthDocument.MarkerAlone | packages/db/seed/import/utils.ts:76-107 | A marker with no line under it makes no section |
| FixedWidthDocument.DocumentReadBack | packages/db/seed/import/utils.ts:70-107 | Printing any document of named tables, with preamble, comments and footers, and parsing it gives its meaning |
| FixedWidthDocument.DocumentComesBack | packages/db/seed/import/utils.ts:70-168 | With distinct names, the parse equals the tables printed if and only if every cell is trimmed and none is NULL |
| CycleFilter.RuleReadBack | apps/api/src/rpc/logs.ts:1207-1247 | Every compiled rule is one SQL predicate and is never empty |
| CycleFilter.EmitNotEmpty | apps/api/src/rpc/logs.ts:1195-1205 | No compiled part is empty, so no part is filtered out and no empty list is joined |
| CycleFilter.FilterReadBack | apps/api/src/rpc/logs.ts:1195-1205 | Read with the precedence of OR, AND and BETWEEN, the emitted text is the filter's own tree, in any context |
| CycleFilter.RuleMeaning | apps/api/src/rpc/logs.ts:1207-1247 | A rule's SQL predicate is true in three-valued logic if and only if column and operand are known and compare as the rule says |
| CycleFilter.FilterKeepsMeaning | apps/api/src/rpc/logs.ts:1187-1247 | For every nested filter, every row with possible nulls and every comparison, the WHERE clause keeps the row if and only if two-valued evaluation accepts it; empty groups, unknown fields and malformed ranges accept, an empty IN rejects |
| CycleFilter.RulesOnFields | apps/api/src/rpc/logs.ts:1049-1058 | A rule on a name other than the eight, or with an unknown operator, lets every row through; null tests test the column |
| CycleFilter.ComparisonRules | apps/api/src/rpc/logs.ts:1212-1223 | In a database that orders values by rank, each comparison rule compares the ranks of cell and value |
| CycleFilter.RangeRules | apps/api/src/rpc/logs.ts:1234-1239 | There, a between rule keeps the cells from one bound to the other, and notBetween the rest |
| CycleFilter.TextRules | apps/api/src/rpc/logs.ts:1224-1227 | In a database that matches patterns as LIKE does up to case, contains and beginsWith look for a text without wildcards anywhere in the cell, or at its start |
| CycleFilter.TextOfValue | apps/api/src/rpc/logs.ts:1224-1227 | The text of a value as String gives it, lists joined by commas |
| ShiftClamp.GroupShifts | apps/api/src/rpc/logs.ts:535-541 | The map groups the shifts by work center in order |
| ShiftClamp.SearchRows | apps/api/src/rpc/logs.ts:534-574 | The nested loops yield, entry by entry, the clamped pieces over the shifts of the station's work center, or else the site's; raw entries without shifts |
| ShiftClamp.SearchFinds | apps/api/src/rpc/logs.ts:534-574 | With shifts known, the rows are exactly the times of closed entries inside the shifts that count for their station, of at least half a second, with the rounded seconds |
| ShiftClamp.SearchWithoutShifts | apps/api/src/rpc/logs.ts:575-599 | Without shifts, the rows are the entries as they are, in order, open ones without seconds |
| ShiftClamp.ApplicableIs | apps/api/src/rpc/logs.ts:536-547 | The shifts that apply are exactly those of the station's work center, or the site's own when it has none, each once and in order |
| ShiftClamp.PiecesInOrder | apps/api/src/rpc/logs.ts:549-573 | One entry gives one row for each applicable shift it is long enough in, in the order of the shifts |
| ShiftClamp.RowsArePieces | apps/api/src/rpc/logs.ts:549-572 | The rows of an entry are exactly its pieces of at least half a second, each inside its entry and its shift |
| ShiftClamp.PiecesMeasureCover | apps/api/src/rpc/logs.ts:549-554 | The pieces never total less than the entry's overlap with the union of the shifts, and exactly that if and only if no two pieces share an instant |
| ShiftClamp.ClampingConserves | apps/api/src/rpc/logs.ts:543-574 | Over disjoint shifts the pieces of a closed entry total its overlap with their union, and the reported seconds are within half a second per shift reached |
| ShiftClamp.SearchConserves | apps/api/src/rpc/logs.ts:534-574 | The same for the whole answer: open entries add nothing |
| Kpi.SumKpis | packages/metrics/src/index.ts:148-156 | The nested loops sum every additive field, absent values counting as zero, and leave the standard cycle null |
| Kpi.TotalGrows | packages/metrics/src/index.ts:143-155 | One more bucket adds its figures and nothing where it has none; no bucket gives zeros |
| Kpi.RollUpInStages | packages/metrics/src/index.ts:136-156 | Rolling up in groups, in any grouping and any order, equals the flat roll-up |
| Kpi.AvailabilityBetween | packages/metrics/src/index.ts:173-176 | The rolled-up availability lies between those of two of its buckets when no bucket without planned time reports run time (RunOutsidePlannedTime shows why) |
| Kpi.PerformanceBetween | packages/metrics/src/index.ts:184-188 | The same for performance when every bucket has run time |
| Kpi.RatiosSolve | packages/metrics/src/index.ts:173-219 | Without planned time no ratio is defined; with it each ratio times its divisor is its dividend, and a ratio whose own divisor is not positive is zero |
| Kpi.OeeIsTheProduct | packages/metrics/src/index.ts:173-219 | The four ratios are null together, and OEE equals availability times performance times quality if and only if there is not output without run time |
| Kpi.OutputWithoutRunTime | packages/metrics/src/index.ts:184-219 | Every bucket with planned time, ideal time and good items but no run time has positive OEE and zero availability and performance, so OEE is not the product |
| Kpi.OeeBetweenProducts | packages/metrics/src/index.ts:212-219 | The rolled-up OEE lies between the smallest pace (ideal over planned time) times the smallest quality and the largest times the largest, whichever buckets they come from |
| Kpi.OeeBetweenAtSameYield | packages/metrics/src/index.ts:212-219 | With one quality in common, the rolled-up OEE is that quality times the pace and lies between those of two buckets (without, OeeNotBetween) |
| Kpi.OeeBetweenAtSamePace | packages/metrics/src/index.ts:212-219 | With one pace in common, the same with the quality in its place |
| Iam.GetEffectivePermissions | packages/services/src/iam/permissions.ts:84-113 | The set returned is exactly the permissions the user holds in the context |
| Iam.HasPermission | packages/services/src/iam/permissions.ts:115-118 | True if and only if the user holds the permission |
| Iam.Catalogued | packages/services/src/iam/permissions.ts:4-32 | The catalogue is reading, writing and administering each of the eleven areas, and owning everything |
| Iam.StaffPermissions | packages/services/src/iam/permissions.ts:58-61 | Support staff read every area but billing and nothing else; engineers do everything but own |
| Iam.GetAccessibleSites | packages/services/src/iam/permissions.ts:129-160 | The loop with its early return yields all sites, or exactly the sites granted |
| Iam.PermissionAgreement | packages/services/src/iam/permissions.ts:84-160 | For every user, table and catalogued permission, the check at a site holds if and only if the list says all or names the site; without a site if and only if it says all |
| Iam.ConsistentAgreement | packages/services/src/iam/permissions.ts:84-160 | In consistent tables the two agree on every string, since no role lists an uncatalogued one |
| Iam.Run | packages/services/src/iam/roles.ts:30-73 | After any sequence of assign, unassign and role edits the tables are consistent, the system roles are as they were, and check and list agree for everybody |
| Iam.ListedSites | packages/services/src/iam/permissions.ts:162-177 | A site is offered if and only if it is the workspace's and the check at it would succeed |
| Iam.ListedSitesBelong | packages/services/src/iam/permissions.ts:151-159 | In consistent tables no listed site belongs to another workspace |
| Iam.OwnersHoldSystemRoles | packages/services/src/iam/permissions.ts:22-72 | Ownership is held only through a system role of the same workspace and never by internal staff |
| Iam.Directory.Assign | packages/services/src/iam/assignments.ts:35-82 | Refuses for the first failing check in order; otherwise adds one assignment, keeping scope, site, membership, workspace and customer status consistent |
| Iam.AcceptedIff | packages/services/src/iam/assignments.ts:35-82 | An assignment is accepted if and only if some membership of the user makes it one that fits the tables |
| Iam.RefusedWith | packages/services/src/iam/assignments.ts:35-82 | Which error each refused assignment gets |
| Iam.Directory.Unassign | packages/services/src/iam/assignments.ts:84-86 | Removes exactly the assignment with the id, or reports that there is none |
| Iam.Directory.CreateRole | packages/services/src/iam/roles.ts:30-45 | Refuses uncatalogued permissions, the owner permission and a taken name, in that order |
| Iam.Directory.UpdateRole | packages/services/src/iam/roles.ts:47-65 | Leaves system roles alone and never gives a role the owner permission; scope and workspace never change |
| Iam.Directory.RemoveRole | packages/services/src/iam/roles.ts:67-73 | Removes a custom role with its assignments, does nothing for a missing one, refuses for a system role |
| Iam.AssignmentGrants | packages/services/src/iam/assignments.ts:35-82 | A new assignment changes the answers for its user, workspace, site and its role's catalogued permissions, and no others |
| Iam.RemovedRoleGrantsNothing | packages/services/src/iam/roles.ts:67-73 | After removal, exactly what was granted through other roles is still granted |
| Dispositions.PairAccepted | packages/services/src/inventory/disposition-log.ts:93-152 | A pair passes if and only if both parts are absent, or both name a usable disposition and a reason linked to it at the site |
| Dispositions.PairRefusedWith | packages/services/src/inventory/disposition-log.ts:93-152 | Which error each refused pair gets |
| Dispositions.CreateAcceptedIff | packages/services/src/inventory/disposition-log.ts:257-340 | A log is accepted if and only if the station is of the site, the pair passes and the product version exists; otherwise the first that fails gives the error |
| Dispositions.UpdateAcceptedIff | packages/services/src/inventory/disposition-log.ts:400-451 | An update is accepted if and only if the pair it leaves, with what it sets and what it keeps, passes and no id it sets is empty |
| Dispositions.LiveTotalIs | packages/services/src/inventory/disposition-log.ts:327-330 | What a counter should say is the sum over the logs of its station made in its hour and not deleted |
| Dispositions.DispositionLogs.Create | packages/services/src/inventory/disposition-log.ts:257-340 | Refuses for the first failing check; otherwise adds one log and issues its quantity, 1 when not given |
| Dispositions.DispositionLogs.Update | packages/services/src/inventory/disposition-log.ts:400-451 | Edits a live log and issues the difference of the quantities if there is one |
| Dispositions.DispositionLogs.Remove | packages/services/src/inventory/disposition-log.ts:453-474 | Soft-deletes a live log and takes its quantity back |
| Dispositions.DispositionLogs.Apply | packages/services/src/inventory/disposition-log.ts:327-330 | One issued delta, whichever comes first, reaches its counter |
| Dispositions.DispositionLogs.CountersAgree | packages/services/src/inventory/disposition-log.ts:257-474 | With nothing under way, a counter equals the live quantities of its slot if and only if the deltas lost there cancel out; each log has both a disposition and a reason or neither |
| Dispositions.RunAndSettle | packages/services/src/inventory/disposition-log.ts:257-474 | After any calls interleaved with deliveries and failed ones, and the rest delivered in any order, every counter is the sum over the live logs less what was lost in its slot, and with nothing lost the sum over the logs of its station and hour that are not deleted |

## Left out

- Advisory locks: each strategy, transition and repair is one atomic step. In the source the open/close strategies take the station's lock only when they change the state log, so two of them racing on the cycle rows is not modelled.
- Station metric context, detection scheduling, metric publishing and the cascade of roll-ups: no state of theirs is used here.
- Creating items: a batch is one row with the number of items its job yields, and order allocation is a count of allocated items. Scrap deduction and recomputation of all KPIs are not modelled.
- The hour counters are sums; which hour bucket an increment falls into is not modelled, nor the failure of an increment.
- Splitting a DOWN entry and assigning downtime reasons, which also write the state log.
- Queue and key-value store internals: adding an existing job id does nothing, removing an active job does nothing, single operations are atomic. The delay of a job is not timed; a waiting job may start at any moment.
- Years outside 0 to 9999 in the replay protocol, whose windows use the 24-character form of a time stamp.
- ReplayProtocol.NoForgottenWindow: speaks of runs in which no tracking call dies half-way, no job fails before it reads and none overlaps an active job; the exact set of events that break it is in AttendedIffNeverForgets.
- ReplayStore.Stores.RecoverReplayWindows: the scan is given as the pages it returns, with every key stored throughout listed at least once; a window stored during the scan is not modelled.
- Reconcile.ReconcileReplay: the station's work center, job and active job version are arguments; scheduling detection and recomputing KPIs afterwards are left out.
- MetricBuckets: the figures of a bucket are one opaque value, since they are copied as a whole; archived rows are not edited in place.
- CanonicalKey: a number is the numeral JSON prints for it; lone surrogates, characters above the basic plane in sort order, and undefined fields are not modelled.
- ValueStream: the events of a key are published in the order their values were stored, and delivered in the order published. Authorization, serialization, abort of the pump and closing of the queue by the pump (see AsyncQueue) are left out of the whole-run model.
- ValueStream.Converges: asks for clocks that agree; the exact condition without that is in ConvergesIff.
- FixedWidth: file reading and its cache; a section or column named `__proto__`, which a JavaScript object would not store as a key.
- Import helpers: the lookup of new ids by the ids of the imported data (IdMap) and writing rows in batches (batchUpsert).
- FixedWidthDocument.DocumentComesBack: the conditions on lines (no newline inside, not a marker, comment, footer or dash line where a row or header stands) are preconditions a caller can check on the printed lines.
- CycleFilter: fields named like inherited object properties, values that make the database raise a type error, and the order-by and paging parts of the query.
- CycleFilter.FilterKeepsMeaning: comparison and pattern matching of known values are arbitrary functions of the database, so collation is not fixed; ComparisonRules and TextRules say what the rules mean where the database orders by rank and matches as LIKE does.
- MetricBuckets.AffectedMeets: asks that a bucket has a length, as every bucket the program makes does; one of zero seconds shares no millisecond with anything, yet is picked when it starts inside the window.
- ShiftClamp: the queries that select entries and shifts, the columns copied through to a row, and the filter, sort and paging applied afterwards.
- Kpi: rounding of floating-point division; the arithmetic is exact.
- Kpi.AvailabilityBetween: asks that a bucket without planned time reports no run time; RunOutsidePlannedTime shows why.
- Iam: users, memberships and sites are fixed tables; invitations, member management and seeding, which also write roles and assignments, are not modelled. Role descriptions are left out.
- Iam.Directory.Assign: the id of the new row is fresh by assumption, as a random UUID is.
- Dispositions: resolving current versions before a log is created; calls are sequential, so two updates of one log racing each other are not modelled. Empty ids written by an update are refused as malformed, as the database does for a column of UUIDs.
- Dispositions.DispositionLogs.Apply: the hour bucket of a log is an arbitrary function of station and time, and roll-ups to larger buckets are not modelled.
- HTTP and RPC handlers, schemas, the object-relational mapper and process start and stop.
