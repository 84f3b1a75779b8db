# Verified model of the state kit's history, escalation and metrics core

The repository collects the health of components, lets a fleet of scrapers
fetch it, and keeps a bounded history of it. These Dafny modules model the parts
of it that hold state over time and prove what those parts promise. Loops and
updates in place are methods here, proved against a specification function or
predicate (the exceptions are under "Left out"); the theorems are lemmas about
those specifications, over every input, every run or every reachable state.

Run `dafny verify dfyconfig.toml` to check everything.

## What is modelled

**Escalation delivery** (`Cursor`, `EscalationModel`, `EscalationSource`,
`EscalationProtocol`, `EscalationTold`, `EscalationDelivery`). A source numbers events, buffers
them per incident, expires and acknowledges; a scraper keeps one watermark and
moves it only after a successful ingest; a store deduplicates. The protocol is a
state machine whose steps include lost requests, lost replies, failed ingests
and a restart of the source under a fresh epoch. `NothingIsLostEndToEnd` follows
an event from the call that appended it to the store's table; `LivesItsTime` says
how long an incident is held, and `DocumentTells` what a source shows, by what was
asked of it.

**The incident sink** (`EventOrder`, `EventListing`, `Incidents`,
`IncidentStore`). Ingesting events cuts them to the newest few at every step;
`StoredAreNewest` says that this equals cutting once, at the end, everything
ever ingested.

**Bounded history** (`TransitionRing`, `Snapshots`, `Tracker`, `Timelines`,
`RingOffers`, `TimelineStore`). From the tracker of one component through the history a
display format carries to the ring of an identity and the backstop over all
rings. `OrderIsIrrelevantWithoutTies` and `DeliveredExactlyWhenFrequent` give
the exact conditions under which the ring is independent of arrival order and
under which no transition is lost on the way.

**The journal** (`JournalFile`, `RingRecovery`, `RingRestart`, `IncidentRecovery`,
`MuteRecovery`, `MuteStore`, `JournalMix`). What a restart recovers from a file
that is appended to and sometimes rewritten. Drops and evictions leave no trace in
the file, a restart evicts in turn, and a replayed mute ignores an expired later
one; `RestartRecoversExactly` and `MutesRecoverExactly` say exactly when a restart
gives what the store had. `DroppedRingDisplaces`, `RetentionMakesRoom` and
`ShortenedComesBack` are inputs for which it does not.

**The memory store** (`Flatten`, `FlattenTree`, `DocumentScopes`, `DocumentStates`,
`MemoryStore`). What is stored of a document, told by its tree of snapshots alone,
and the class that composes the above. Its `Valid()` includes that the journal file, as it is at
that moment, recovers the store; every public operation keeps it.

**The metrics store** (`StringDictionary`, `LabelPostings`, `SeriesColumns`,
`MetricsModel`, `MetricsChanges`, `MetricsIngest`, `MetricsDescriptors`,
`MetricsCompaction`, `MetricsQuery`, `MetricsStore`, `SeriesHistory`,
`MetricsHistory`). An interned dictionary,
labels as postings, parallel columns and a cached trailing run, against a plain
map from (key, metric, labels) to lists of points, called the view.
`CompactDictionary` rewrites every id and leaves the view unchanged;
`SampleIsReturned` follows an observed sample to the answer of a later query.

**Charts** (`ChartRing`, `ChartRange`, `ChartStore`, `ChartDigest`, `ChartFile`).
A round-robin array against an unbounded log, and a deduplicated file, swept by
day, that rebuilds it. `LiveAnswersLikeLog` follows a store through any number of
restarts. Lists of at most twelve states are sorted by insertion, as Go's
`sort.Slice` does; what it does to longer ones is a parameter, a function from
their identities to the places of a sorted list.

**Windowed counters** (`EpochCounter`, `FailRatio`, `HttpMetrics`, `HttpPruning`,
`HttpCollector`, `HttpTruth`). Counters that rotate between two buckets and interpolate with
truncating division, and a collector that deletes counters whose estimate has
reached zero. `PruningIsInvisible` compares whole runs with a collector that
never deletes, and `EverySnapshotTellsCalls` the snapshots with the calls.

**Prometheus labels** (`Labels`). Printer and parser, which live in different
packages, against each other. The text follows the Prometheus exposition format
0.0.4, section "Text format details", subsection "Comments, help text, and type
information".

`Basics` and `Sorting` hold shared helpers. Times are integers in nanoseconds
(seconds where the original uses seconds); every method that reads the clock
takes the time as a parameter. Go's map iteration order is left open: loops over
maps pick elements arbitrarily.

## Where the code is not what one would expect

- storage/metrics.go:94 against storage/metrics.go:405-425: the postings are
  ordered by the text of the label names, although the comment on the field says
  by name id. The model follows the code.
- storage/storage.go:663-669: a dropped ring is still in the journal, so a restart
  can bring it back, and evict live transitions for it. An evicted one is in the
  journal too (storage/storage.go:701-723), but the restart evicts it again, unless
  retention has made room. `RingRestart` states exactly when.
- storage/storage.go:406-411: a mute that was replaced by a shorter one is back
  after a restart past the shorter expiry. `MuteRecovery` states exactly when.
- storage/storage.go:1171-1176 against storage/storage.go:1326-1334: the kind of a
  document is part of its key but not of the identities of its states, so two
  kinds under one label path can drop each other's details. `DocumentScopes`
  states exactly when.
- storage/chart_file.go:235-239: the digest sorts by identity with a sort that is
  stable only on short lists, while the order of states that share an identity
  decides what a write leaves. `ChartDigest` states exactly when a skipped write
  would have mattered: never, up to twelve states.
- scraper/metrics.go:281: the parser cuts a line at the first closing brace, so a
  label value that holds one is not read back. `Labels.RoundTrip` is an
  equivalence for that reason.

## Model

| member | source | states |
|---|---|---|
| `Labels.PrintLabels` | registry_prometheus.go:232-246 | the printed label text is the names in ascending order, each with its escaped value, whatever order the map is met in |
| `Labels.PlainIsPrintedAsItIs` | registry_prometheus.go:15-18 | a value is printed as it is if and only if it has no backslash, line feed or quote |
| `Labels.ParseSampleLabels` | scraper/metrics.go:307-355 | the index-driven loop returns what the structural reader `LabelsOf` reads, on every text, well formed or not |
| `Labels.ParseSampleLine` | scraper/metrics.go:274-305 | the line parser computes `SampleOf` on every line, each of its error returns included, whatever texts `strconv.ParseFloat` reads |
| `Labels.ReadEscaped` | registry_prometheus.go:15-18 | reading an escaped value stops at its closing quote and gives the value back, whatever text follows |
| `Labels.ReadPair` | scraper/metrics.go:307-355 | the parser takes exactly one printed `name="value"` pair off the front of any text |
| `Labels.RoundTrip` | scraper/metrics.go:274-305 | printing a sample whose value reads as a number and parsing the line gives the sample back if and only if no label value holds a closing brace |
| `Labels.PrintedSampleIsOneLine` | registry_prometheus.go:165-179 | a printed sample holds no line feed and survives trimming, so the line splitting of the scraper keeps it whole |
| `EpochCounter.EpochWeightedCounters.constructor` | util/epoch_weighted_counter.go:64-79 | a new counter starts at the bucket of its time with all slots zero |
| `EpochCounter.EpochWeightedCounters.RotateTo` | util/epoch_weighted_counter.go:174-209 | the in-place rotation equals `Rotate` on the old state and reports whether the time was not stale |
| `EpochCounter.EpochWeightedCounters.AddValues` | util/epoch_weighted_counter.go:94-102 | the in-place add equals `Add` on the old state; a stale time changes nothing |
| `EpochCounter.EpochWeightedCounters.CurrentValue` | util/epoch_weighted_counter.go:123-139 | writes the blended estimate of the old state into the front of dst and leaves the rest of dst alone |
| `EpochCounter.EpochWeightedCounters.CurrentWindowValue` | util/epoch_weighted_counter.go:149-164 | writes the sliding-window estimate of the old state into the front of dst and leaves the rest of dst alone |
| `EpochCounter.RotateTwice` | util/epoch_weighted_counter.go:174-209 | rotating in two steps is rotating once, so catching up late loses nothing |
| `EpochCounter.ReadsAreInvisible` | util/epoch_weighted_counter.go:123-164 | a read at time a changes no value reported at or after a, whatever adds and reads lie between |
| `EpochCounter.CountersRefineLog` | util/epoch_weighted_counter.go:94-102 | over every run, curr and prev are the sums of the accepted adds in the current and the preceding bucket |
| `EpochCounter.InOrderAcceptsAll` | util/epoch_weighted_counter.go:174-209 | with times in order no add is ever dropped |
| `EpochCounter.WindowErrorBound` | util/epoch_weighted_counter.go:149-164 | the window estimate differs from the true count of the last span seconds by at most the preceding bucket |
| `EpochCounter.WindowEstimatesTruth` | util/epoch_weighted_counter.go:149-164 | the same bound over every ordered run, against the log of adds itself |
| `EpochCounter.BlendWeighsBuckets` | util/epoch_weighted_counter.go:123-139 | the blended value lies between the counts of the preceding and the current bucket, is their average by the time the current one has lasted, rounded down, and at its start is the preceding count |
| `FailRatio.FailRatioState.Record` | state_failratio.go:77-94 | one outcome enters the window counters, or the running totals when there is no window; the list of outcomes counted grows by it, unless its time lies before the current bucket |
| `FailRatio.FailRatioState.RatioCounts` | state_failratio.go:160-176 | without a window exactly the outcomes and failures recorded; with one, each right for the outcomes of the last span seconds but for what came in the bucket before the current one; in any case the raw window estimates, which none of the three clamps ever changes |
| `FailRatio.FailRatioState.constructor` | state_failratio.go:45-67 | fresh counters over the span of the window asked for, started at the bucket of the clock, with no outcome recorded |
| `FailRatio.WindowTells` | state_failratio.go:160-176 | from counters that refine a list of outcomes the two estimates tell that list, within the bucket before the current one |
| `FailRatio.EstimatesOrdered` | state_failratio.go:160-176 | failures and total are estimated in order, 0 <= failures <= total, at every time |
| `HttpCollector.HTTPMetrics.ObservePathLocked` | collectors/http.go:448-473 | one request enters the path's counters and its status counter, each made on first use |
| `HttpCollector.HTTPMetrics.Observe` | collectors/http.go:431-446 | a request enters the global and its own path's counters as the specification says, and the running totals; what that counts is told by `HttpTruth.RunTallied` |
| `HttpCollector.HTTPMetrics.TakeSnapshot` | collectors/http.go:235-312 | the nested deleting loops give the snapshot and the pruned state of the specification, or the cached snapshot while it is fresh |
| `HttpCollector.ReadStatuses` | collectors/http.go:253-301 | the inner loop keeps exactly the status counters whose estimate is not zero, in any iteration order |
| `HttpPruning.ForgetZero` | collectors/http.go:253-301 | a counter whose estimates are all zero may be deleted: it then agrees, now and later, with the undeleted one |
| `HttpPruning.PathEstimatesBounded` | collectors/http.go:253-301 | for one path the errors and the sum of the status estimates stay within the requests, in spite of each being rounded apart |
| `HttpCollector.RunRelated` | collectors/http.go:235-312 | the invariant that relates a pruning collector to one that never deletes, over every ordered run |
| `HttpCollector.PruningIsInvisible` | collectors/http.go:253-301 | every snapshot of every run equals that of a collector that never deletes a counter |
| `HttpCollector.SnapshotsAreConsistent` | collectors/http.go:235-312 | in every snapshot ever returned errors and status counts are bounded by the requests of their path |
| `HttpTruth.RunTallied` | collectors/http.go:431-473 | over every ordered run a collector that never deletes has counted exactly the calls: it has a path if and only if a request counted for it, the global one for all of them, and each of its counters refines the requests of that path, and of that status |
| `HttpTruth.SnapshotTellsTheCalls` | collectors/http.go:235-312 | a snapshot taken after any ordered run of calls lists every path requested in the current bucket, and none that was requested neither in it nor in the one before; its requests, errors and count of each status, per path and globally, differ from the number of such calls in the last span seconds by at most their number in the preceding bucket, and its average latency is that of an estimate as right; failing and unknown requests are listed for exactly the paths that had them |
| `HttpTruth.EverySnapshotTellsCalls` | collectors/http.go:235-312 | every snapshot a run returns, from the cache or not, is one that so tells the calls up to a time less than the refresh interval ago |
| `ChartRing.SameSlotFar` | storage/chart.go:206-212 | two buckets after 1970 share a slot only if they are at least a whole window apart |
| `ChartRing.RingAgreesWithLog` | storage/chart.go:89-107 | the ring answers with a bucket's full merge or with nothing, and with the full merge on each of the last window buckets |
| `ChartRing.MergedIsLastWord` | storage/chart.go:89-107 | the full merge of a bucket has of each identity the last state recorded in that bucket, and no identity without one |
| `ChartRange.DisplayIsExact` | storage/chart.go:109-160 | each native bucket of the range lies in exactly one display bucket, the one the index arithmetic picks |
| `ChartRange.StepIsEvenShare` | storage/chart.go:109-160 | the step between display buckets is an even share of the range, rounded down, and at least one |
| `ChartRange.WorstIsWorst` | storage/chart.go:109-160 | the status counted for an identity is a known one that was seen in the display bucket, and none seen is worse |
| `ChartRange.WorstIgnoresOrder` | storage/chart.go:109-160 | the counted status depends on what was seen only, not on slots or order |
| `ChartRange.TallyIsWorstMap` | storage/chart.go:109-160 | a map that records, per identity, the worst seen is unique, so the nondeterministic map loop has one result |
| `ChartRange.CountValues` | storage/chart.go:109-160 | the closing loop counts each identity once, under its one status |
| `ChartRange.CountedBySeverity` | storage/chart.go:109-160 | an identity is counted as down if it was seen down, as failing if seen so and never down, as warning if seen so and never worse, as passing if seen so and never worse, and otherwise not at all |
| `ChartRange.CountsBySeverity` | storage/chart.go:109-160 | a display bucket has a count for exactly the statuses some identity is so counted under, and it is the number of those identities |
| `ChartRange.ScopeSelects` | storage/chart.go:214-224 | the scope of a target selects exactly the states of that target, and the fleet all of them |
| `ChartStore.MemoryChartStore.constructor` | storage/chart.go:76-87 | an empty ring, with the defaults for a bucket size or window that is not positive |
| `ChartStore.MemoryChartStore.Record` | storage/chart.go:89-107 | the slot of the bucket takes the states in, and a slot of another bucket is emptied first |
| `ChartStore.MemoryChartStore.Bucket` | storage/chart.go:162-188 | exactly the held states that match the scope, in order, or an error if and only if the scope is unknown |
| `ChartStore.MemoryChartStore.Range` | storage/chart.go:109-160 | an error if and only if the query is not valid, else n buckets at even steps with the exact counts of worst statuses |
| `ChartFile.FileChartStore.constructor` | storage/chart_file.go:48-68 | opening, with the defaults for a bucket size or window that is not positive, replays exactly the admissible records into the ring and removes exactly the outdated segments |
| `ChartFile.FileChartStore.Record` | storage/chart_file.go:90-109 | the ring takes every record; the file skips an empty one and one with the bucket and the digest of the last it wrote |
| `ChartFile.FileChartStore.AppendRecord` | storage/chart_file.go:126-147 | the line goes to the segment of its day, and a new day sweeps the outdated segments |
| `ChartFile.FileChartStore.Replay` | storage/chart_file.go:155-175 | segments are replayed day by day, in ascending order, records not after the cutoff left out |
| `ChartFile.FileChartStore.ReplaySegment` | storage/chart_file.go:177-196 | a segment adds its admissible records to the ring, in file order |
| `ChartFile.CutoffIsWindow` | storage/chart_file.go:155-175 | the cutoff admits exactly the last window buckets up to now |
| `ChartDigest.InsertionSorts` | storage/chart_file.go:235-239 | the insertion sort by which short lists are sorted puts identities in order, each element once, and keeps equal ones as they were |
| `ChartDigest.DigestDecidesExactly` | storage/chart_file.go:235-239 | all writes of two given lists of identities that have one digest leave the same states if and only if the sort puts the last of each identity at the same place of both |
| `ChartDigest.ShortAgree` | storage/chart_file.go:235-239 | so they do whenever one list has at most twelve states, an identity named twice or not |
| `ChartDigest.OnceAgree` | storage/chart_file.go:235-239 | and whenever one list names each identity once, whatever the sort |
| `ChartDigest.DisagreeMisleads` | storage/chart_file.go:235-239 | where the sort does not, there are two writes of those identities with one digest that leave different states |
| `ChartDigest.ReversedMisleads` | storage/chart_file.go:235-239 | a sort that leaves a sorted long list alone and turns a falling one around gives a list and its reversal one digest, though an identity named twice is left at different states |
| `ChartDigest.MergeAgain` | storage/chart_file.go:97-101 | a write skipped for having the digest of the one before would have changed nothing, over whatever was there |
| `ChartFile.OrdinaryWritesAgree` | storage/chart_file.go:90-109 | what the theorems on runs ask of long writes holds of those that name each identity once or list their identities in one order |
| `ChartFile.DisagreeingStoreIsWrong` | storage/chart_file.go:90-109 | what they ask is needed: for any two lists of identities the sort treats differently there are two writes after which the running store is right and the one opened next is not |
| `ChartFile.WrittenMerges` | storage/chart_file.go:90-109 | over any run of writes and restarts the deduplicated file merges to what the full log merges to, in every bucket, when the sort treats alike the identities of writes of more than twelve states to one bucket |
| `ChartFile.SweepKeepsAdmissible` | storage/chart_file.go:200-218 | removing whole days never removes a record that a later cutoff would admit |
| `ChartFile.SweptExactly` | storage/chart_file.go:200-218 | a segment is removed if and only if its whole day, the end of it included, lies before the cutoff |
| `ChartFile.FedMerges` | storage/chart_file.go:155-196 | what the running store was fed since it was opened is in time order and merges to the whole log in every bucket its window still admits |
| `ChartFile.LiveAnswersLikeLog` | storage/chart_file.go:90-109 | over any run of writes and restarts the running store answers like the unbounded log of everything recorded, on each of the last window buckets |
| `ChartFile.ReopenedAnswersLikeLive` | storage/chart_file.go:155-196 | the store opened next, on what any run of writes and restarts left on disk, answers like the running one and like the unbounded log, on every admitted bucket |
| `TransitionRing.Ring.Add` | storage/storage.go:1137-1155 | the in-place insertion equals the sorted, deduplicated, capped insertion, and reports what it added and dropped |
| `TransitionRing.Ring.Contains` | storage/storage.go:1137-1155 | the first loop finds a transition by its time and status |
| `TransitionRing.Ring.FindPlace` | storage/storage.go:1137-1155 | the backward loop finds the place behind all entries that are not later |
| `TransitionRing.AddAllRetains` | storage/storage.go:1137-1155 | after any additions the ring holds only added keys, in time order, without repeats, and whatever it misses has cap entries not older |
| `TransitionRing.OrderIsIrrelevantWithoutTies` | storage/storage.go:1143-1152 | the order of additions never matters if and only if no two of the newest ringCap keys share a time |
| `TransitionRing.ReingestKeepsRing` | storage/storage.go:1137-1155 | ingesting again what was ingested before leaves every entry of the ring as it is |
| `Tracker.StateTracker.constructor` | state_tracker.go:21-37 | a tracker starts passing, since its time, without history |
| `Tracker.StateTracker.Set` | state_tracker.go:39-65 | a changed status is recorded and the history cut to its newest ten, an unchanged one only refreshes the reason; what is recorded over a run is told by `Tracker.TrackerShowsRecorded` |
| `Tracker.TrackerShowsRecorded` | state_tracker.go:39-65 | over any run the status and its time are those of the last transition recorded, the history is the newest ten of them and the reason the last given, where recorded are the statuses asked for, capped at warn only if the state is informational, repeats of the last one left out |
| `Tracker.StateTracker.TakeSnapshot` | state_tracker.go:67-95 | the index loop reverses the history to newest first |
| `Snapshots.LimitHistory` | registry_display.go:76-99 | the recursive loop cuts every history, at every depth, to its newest entries, and nothing else |
| `Tracker.CollectTransitions` | storage/storage.go:1229-1248 | the backward loop turns a newest-first history into transitions, oldest first |
| `Tracker.AppendTransition` | storage/storage.go:1250-1257 | a transition equal to the last is not repeated |
| `Tracker.ShownIsLast` | registry_display.go:61-99 | what a display format carries is exactly the last 0, 4 or 10 transitions the tracker recorded |
| `Tracker.SentIs` | storage/storage.go:1229-1257 | what one ingest delivers is exactly the last transitions its format carries |
| `Tracker.NoTransitionIsLost` | state_tracker.go:39-65 | with at most as many recorded transitions between ingests as the format carries, the ring holds the newest ringCap transitions ever recorded, as told by the events alone |
| `Tracker.DeliveredExactlyWhenFrequent` | registry_display.go:89-99 | with one display format, every transition recorded, as told by the events alone, is delivered if and only if no ingest came too late |
| `Timelines.MergedOk` | storage/storage.go:673-697 | merging keeps every ring non-empty, sorted, without repeats and within the cap |
| `Timelines.ShedStep` | storage/storage.go:701-723 | evicting the oldest of all keeps: what is left is the newest part of each ring, and nothing evicted is newer than anything kept |
| `Timelines.NothingEvicted` | storage/storage.go:673-697 | within the backstop nothing at all is evicted |
| `Timelines.EvictedAbsorbs` | storage/storage.go:366-404 | evicting, bringing in one more ring and evicting again is evicting once with that ring there from the start |
| `RingOffers.OneMoreOffered` | storage/storage.go:673-697 | merging and evicting one identity after another: either nothing was ever cut, or the rings hold as much as the backstop lets them and everything missing is not newer than anything held, or was crowded out of a full ring |
| `RingOffers.NewestAgree` | storage/storage.go:673-697 | two selections of the newest of the same transitions hold the same keys, when nothing missing from one ties with what it keeps |
| `TimelineStore.TimelineStore.AppendTransitions` | storage/storage.go:673-697 | merges, journals exactly the accepted transitions, and evicts the oldest until the total is within the backstop |
| `TimelineStore.TimelineStore.AddTransitions` | storage/storage.go:673-697 | the loop over one ring: the running total follows the ring's length, and what was new is journaled in order |
| `TimelineStore.TimelineStore.MergeTransitions` | storage/storage.go:673-697 | the part before the eviction: the total still is the sum of the ring lengths |
| `TimelineStore.TimelineStore.EvictToBackstop` | storage/storage.go:673-697 | the loop ends, at the backstop and not below it, with nothing evicted newer than anything kept |
| `TimelineStore.TimelineStore.EvictOldestTransition` | storage/storage.go:701-723 | removes one head that no other head is older than, and the ring with it when it was the last |
| `TimelineStore.TimelineStore.FindOldest` | storage/storage.go:701-723 | the map loop finds an identity whose first transition is the oldest of all |
| `TimelineStore.TimelineStore.DropRing` | storage/storage.go:663-669 | dropping a ring takes its length off the total and touches no other ring |
| `TimelineStore.TimelineStore.StateTimeline` | storage/storage.go:984-1000 | the loop turns the ring from newest to oldest; an identity without a ring gives an empty list |
| `TimelineStore.TimelineStore.ListRings` | storage/storage.go:427-448 | compaction lists each ring once, whole and in order |
| `TimelineStore.TimelineStore.NewestOf` | storage/storage.go:366-404 | the newest time of the transitions read for an identity |
| `TimelineStore.TimelineStore.ReplayTransitions` | storage/storage.go:366-404 | the rings read are those with something within retention, cut to the backstop as if evicted once at the end, in whatever order they are met |
| `Cursor.CursorRoundTrip` | escalation.go:376-398 | a cursor gives its number back under its own epoch or none, and reads as zero under any other epoch |
| `Cursor.CursorsDiffer` | escalation.go:376-384 | two numbers or two epochs never share a cursor |
| `EscalationSource.Escalations.constructor` | escalation.go:138-152 | a fresh source: no incident, no number given out |
| `EscalationSource.Escalations.Start` | escalation.go:154-183 | refuses, after expiring, if and only if the budget is used up; else opens an incident and appends its first event |
| `EscalationSource.Escalations.EscalationDisplay` | escalation.go:185-209 | expires, acknowledges, and shows of each incident the events past the cursor; how long incidents stay is told by `EscalationProtocol.LivesItsTime`, what is shown by `EscalationTold.DocumentTells` |
| `EscalationSource.Escalations.AppendEvent` | escalation.go:211-223 | one event under the next number, at the end of its incident's buffer |
| `EscalationSource.Escalations.CountUnacknowledged` | escalation.go:225-233 | the loop counts the incidents with something unacknowledged |
| `EscalationSource.Escalations.AcknowledgeUpTo` | escalation.go:235-251 | filters each buffer in place, raises each acknowledged number to at most the incident's last, and marks closed incidents acknowledged once nothing is left |
| `EscalationSource.Escalations.DropExpired` | escalation.go:253-265 | removes exactly the expired incidents, from the table and from the order; which those are over a run is told by `EscalationProtocol.HeldExactlyWhileAlive` |
| `EscalationSource.Escalations.CloseIncident` | escalation.go:282-295 | an incident still held becomes closed and takes one more event, whatever its status was; a gone one does nothing |
| `EscalationSource.Escalations.AddEvent` | escalation.go:297-311 | appends to any incident still held, whatever its status and whatever the budget; a gone one takes nothing |
| `EscalationSource.LocalIncident.EventsAfter` | escalation.go:313-332 | the loop keeps exactly the events numbered past the cursor, in order |
| `EscalationSource.LocalIncident.TakeSnapshot` | escalation.go:313-332 | the document of an incident with the events past the cursor |
| `EscalationModel.AfterEventsOf` | escalation.go:235-251 | filtering a buffer by cursor is moving the lower bound of a slice of the append log |
| `EscalationModel.StartOk` | escalation.go:154-183 | Start keeps: each buffer is exactly the events appended past the acknowledged number, and a closed incident has one |
| `EscalationModel.AddOk` | escalation.go:297-311 | adding keeps the same invariant |
| `EscalationModel.CloseOk` | escalation.go:282-295 | closing keeps the same invariant |
| `EscalationModel.ServedOk` | escalation.go:185-209 | serving a display, with its expiry and acknowledgement, keeps the same invariant |
| `EscalationModel.StartKeepsBudget` | escalation.go:154-183 | a Start that is let through leaves the unacknowledged incidents within the budget |
| `EscalationModel.AddMayExceedBudget` | escalation.go:297-311 | an added event makes one more incident unacknowledged exactly when its incident was acknowledged in full; nothing checks the budget |
| `EscalationTold.RefusedExactly` | escalation.go:154-183 | a Start is refused if and only if there is a budget and that many of the incidents still within their time have something left to acknowledge |
| `EscalationTold.RunTold` | escalation.go:154-311 | over any run the events of the current epoch are those asked for, in the order asked, with their times, topics and messages; every incident still held has its own title, creation, expiry and last update, is open until closed, and acknowledged by the first request after that which leaves nothing of it unacknowledged |
| `EscalationTold.DocumentTells` | escalation.go:185-209 | in every reachable state a document lists each incident that has something unacknowledged past the cursor once, and no other, as it was asked for and with exactly those events, under a watermark that is the number of the last event of all |
| `EscalationProtocol.StepKeepsInv` | scraper/escalations.go:28-42 | the protocol invariant is kept by every step: starts, logs, closes, sends, lost requests and replies, failed ingests, restarts |
| `EscalationProtocol.RunKeepsInv` | scraper/escalations.go:28-42 | the protocol invariant holds in every reachable state |
| `EscalationProtocol.HeldExactlyWhileAlive` | escalation.go:253-265 | after any run the source holds exactly the incidents it opened in the current epoch whose time, creation plus their own time to live or else the policy's, was not over at any Start or request since |
| `EscalationProtocol.LivesItsTime` | escalation.go:154-183 | an incident started at some time is held, through whatever follows in its epoch, if and only if no Start or request came later than that time plus its time to live (a sum that is the zero time never ends) |
| `EscalationProtocol.NothingAcknowledgedIsLost` | scraper/escalations.go:28-42 | an appended event of the current epoch is buffered, or was handed to a successful ingest, or some Start or request came after its incident's creation plus its time to live |
| `EscalationProtocol.WatermarkIsIngested` | scraper/escalations.go:28-42 | every event of the current epoch at or below the watermark was ingested, unless some Start or request came after its incident's creation plus its time to live |
| `EscalationProtocol.KeysTellEventsApart` | storage/storage.go:797-815 | two events appended in whatever epochs share a stored key only if they are the same event |
| `EscalationProtocol.StoredOnce` | storage/storage.go:797-815 | over a whole run with restarts a stored key only ever receives one event, and only events really appended |
| `EscalationProtocol.OneGoodTickDelivers` | scraper/escalations.go:28-42 | from any reachable state one undisturbed tick delivers every event of the current epoch, unless some Start or request came after its incident's creation plus its time to live |
| `EscalationProtocol.BuffersHoldTheUnacknowledged` | escalation.go:211-251 | in every reachable state a buffer is exactly what was appended past the acknowledged number, numbered in increasing order, and not empty once closed |
| `EscalationProtocol.NumbersOnlyGrow` | escalation.go:211-251 | no step takes back an acknowledgement or an event number |
| `EscalationProtocol.ForeignCursor` | escalation.go:386-398 | after a restart under a fresh epoch every cursor ever given out reads as none |
| `EscalationDelivery.RunKeepsTogether` | storage/storage.go:768-827 | the joint invariant of source, scraper and sink over every run |
| `EscalationDelivery.IngestHolds` | storage/storage.go:797-815 | an event in an ingested document has arrived in the sink, and stays arrived through every later ingest |
| `EscalationDelivery.ArrivedIsStored` | storage/storage.go:832-841 | an arrived event is stored, unless its incident was dropped or cap newer events hold its place |
| `EscalationDelivery.NothingIsLostEndToEnd` | storage/storage.go:768-827 | an event of the current epoch is buffered, or stored, or crowded out by cap newer ones, or went in a sweep after its last delivery with its incident closed and idle, or some Start or request came after its incident's creation plus its time to live |
| `EventOrder.TopAbsorbs` | storage/storage.go:832-841 | cutting to the newest cap before more arrives makes no difference after the next cut |
| `EventOrder.KeepAbsorbs` | storage/storage.go:832-841 | the same for the events with their contents |
| `EventOrder.DroppedIsOlder` | storage/storage.go:832-841 | what a cut drops has cap kept events newer than it, and nothing older kept |
| `EventOrder.TopSize` | storage/storage.go:832-841 | a cut leaves at most cap events |
| `EventOrder.IssuedIsNumbered` | storage/storage.go:1403-1408 | the number the store parses out of a cursor is the number the source gave it |
| `EventOrder.NewerIsLater` | storage/storage.go:1384-1408 | of two events numbered in one epoch the newer is the one with the larger number |
| `EventListing.SortEvents` | storage/storage.go:1384-1401 | the events of a map, met in any order, come out as its one sorted list |
| `EventListing.CapEvents` | storage/storage.go:832-841 | the list and the map after a cut both hold exactly the newest cap events |
| `EventListing.ListingUnique` | storage/storage.go:1384-1401 | the sorted list of a map of events is unique |
| `EventListing.KeepIsLast` | storage/storage.go:832-841 | cutting the sorted list at its end is keeping the newest by rank |
| `Incidents.StepKeepsSink` | storage/storage.go:768-877 | ingests, sweeps and acknowledgements keep: each incident stores exactly the newest cap of all its events seen |
| `Incidents.OnlyClosedIdleGo` | storage/storage.go:855-877 | a stored incident goes if and only if a sweep finds it closed, and neither updated nor observed for the retention; one still open stays stored |
| `Incidents.StoredAsGiven` | storage/storage.go:768-827 | what an ingest stores of an incident, besides its events, is what its document says, under its own provenance or the source's; no other incident changes |
| `Incidents.PutIsLastWord` | storage/storage.go:797-815 | of the events that arrive for an incident the last under each cursor is taken, and known ones that none of them replaces stay |
| `Incidents.AcknowledgedAsAsked` | storage/storage.go:1099-1126 | an acknowledgement changes the status and the time of the last created incident of that source and number, and nothing else |
| `Incidents.StoredAreNewest` | storage/storage.go:832-841 | over any run an incident stores, in order, exactly the newest cap events ever ingested for it, however spread and repeated |
| `IncidentStore.IncidentStore.IngestIncident` | storage/storage.go:768-827 | one incoming incident is merged with what is stored, its events united and cut, its index kept, and the result journaled |
| `IncidentStore.IncidentStore.IngestEscalations` | storage/storage.go:768-827 | a document is ingested incident by incident, each result journaled, then the stale ones are swept |
| `IncidentStore.IncidentStore.IndexIncident` | storage/storage.go:843-851 | an incident enters the index of its source and id once |
| `IncidentStore.IncidentStore.SweepClosedIncidents` | storage/storage.go:855-877 | removes exactly the incidents closed and idle for the retention, from table, events and index alike |
| `IncidentStore.IncidentStore.AcknowledgeIncident` | storage/storage.go:1099-1126 | acknowledges and journals the last created incident of that source and id, or reports that there is none |
| `IncidentStore.IncidentStore.ReplayIncident` | storage/storage.go:415-423 | a journaled incident takes the place of what was replayed before it, index and events included |
| `IncidentStore.IncidentStore.ListIncidents` | storage/storage.go:427-448 | compaction writes entries from which a replay rebuilds the table exactly |
| `IncidentStore.UpsertsRebuild` | storage/storage.go:768-827 | the entries journaled by an ingest keep the file rebuilding the table |
| `JournalFile.Journal.AppendEntry` | storage/journal.go:128-144 | an entry goes to the end of the file and its length to the size |
| `JournalFile.Journal.Rewrite` | storage/journal.go:187-241 | the file becomes exactly the given entries |
| `RingRecovery.AppendRebuilds` | storage/storage.go:673-697 | journaling the accepted transitions keeps the file rebuilding every ring |
| `RingRecovery.CompactionRebuilds` | storage/storage.go:427-448 | a file written by compaction rebuilds every ring |
| `RingRecovery.DropIsNotJournaled` | storage/storage.go:663-669 | after dropping an identity the file still rebuilds the rings if and only if it had none |
| `RingRecovery.EvictionIsNotJournaled` | storage/storage.go:701-723 | the backstop loop writes nothing: the file goes on rebuilding the rings as they were before it, which are those after it if and only if nothing was evicted |
| `RingRecovery.ReplayIsRecent` | storage/storage.go:366-404 | replaying a file that rebuilds the rings gives them all but those whose newest transition is past retention |
| `RingRecovery.StepKeepsRecoverable` | storage/storage.go:366-448 | kept by appends, drops, evictions, compactions and restarts: all that is held is journaled, and until a ring is dropped the file rebuilds the rings, or once something was evicted the rings are the newest of what the file has |
| `RingRecovery.AppendMatches` | storage/storage.go:673-697 | merging, journaling what is accepted and evicting keeps it so, over any number of evictions |
| `RingRestart.RestartIsNewest` | storage/storage.go:366-404 | every restart, its own eviction included, leaves the newest of what the file has of the identities within retention, as much as the backstop lets in |
| `RingRestart.RestartExactly` | storage/storage.go:366-404 | for any file and any rings, what a restart leaves are the recent ones of these, key by key, if and only if they are such a selection themselves, provided nothing missing ties with what is kept |
| `RingRestart.RestartRecoversExactly` | storage/storage.go:366-404 | the same after any run whatever, drops and evictions included |
| `RingRestart.RestartRecovers` | storage/storage.go:366-404 | after any run without a drop since the file was last rewritten a restart has every ring within retention, entry by entry, if nothing was evicted since; and in any case all rings, key by key, if all that is journaled is within retention and nothing missing ties with what is kept |
| `RingRestart.EvictionIsRepeated` | storage/storage.go:701-723 | what the backstop evicted stays evicted: the restart evicts the same again, under the same two conditions |
| `RingRestart.RetentionMakesRoom` | storage/storage.go:366-404 | the first of them is needed: a ring past retention is not replayed, and an evicted transition of another comes back in its place |
| `RingRestart.HeldIsRecoveredOrOutdated` | storage/storage.go:366-404 | after any run a held transition of an identity within retention is there after every restart, or its own ring is full of ones not older, or the store is full of ones not older; of an identity past retention there is nothing |
| `RingRestart.DroppedRingDisplaces` | storage/storage.go:663-669 | a dropped ring can take the place of a live one: after such a run the store holds one transition, and every restart has the dropped one instead |
| `MuteRecovery.MutesRecoverExactly` | storage/storage.go:406-411 | a restart at a given time recovers the active mutes if and only if no journaled mute outlives the last upsert of its identity |
| `IncidentRecovery.RunRebuilds` | storage/storage.go:855-877 | in every reachable state the file has each stored incident as it is, and what else it has is stale |
| `IncidentRecovery.RestartRecovers` | storage/storage.go:366-404 | after any run whatever, a restart and a sweep give the incidents the running store has after that sweep |
| `MuteRecovery.MutesRecoverUnlessShortened` | storage/storage.go:406-411 | every restart from a time on recovers the active mutes if and only if no mute still active then was cut short |
| `MuteRecovery.ShortenedComesBack` | storage/storage.go:406-411 | a mute that was cut short is back after a restart at any time from its new expiry to its old one |
| `MuteRecovery.RunMirrors` | storage/storage.go:532-578 | over any run, restarts included, the active mutes held are the active last upserts of the file, at every time from the clock on |
| `MuteRecovery.RestartRecovers` | storage/storage.go:406-411 | a restart after any run recovers the active mutes if and only if no journaled mute outlives the last upsert of its identity at that time |
| `MuteRecovery.CompactedRecovers` | storage/storage.go:427-448 | from a compacted file every later restart recovers the active mutes |
| `MuteStore.MuteStore.Upsert` | storage/storage.go:532-564 | accepts a mute if and only if it has an identity, a known status and an expiry in the future, stamps and journals it, and drops the expired |
| `MuteStore.MuteStore.Delete` | storage/storage.go:566-578 | removes one mute and reports whether it was there |
| `MuteStore.MuteStore.SweepExpired` | storage/storage.go:603-612 | keeps exactly the active mutes and reports whether any went |
| `MuteStore.MuteStore.Replay` | storage/storage.go:406-411 | a journaled mute counts only while it is active |
| `MuteStore.MuteStore.ListMutes` | storage/storage.go:427-448 | compaction lists exactly the active mutes |
| `JournalMix.RestartRestores` | storage/storage.go:366-404 | one mixed file recovers rings, incidents and mutes at once: the rings, after the eviction of the restart, exactly when they are the newest of what the file has, and as far as the theorems on runs say; the incidents always; the mutes under their own exact condition |
| `JournalMix.TransitionsMerged` | storage/storage.go:673-697 | appended transitions leave what the file says of incidents and mutes alone, and keep the rings matching the file, evictions included |
| `JournalMix.Compacted` | storage/storage.go:427-448 | a file written from the live state recovers all three layers, whatever was lost before |
| `Flatten.IdentitiesAreDistinct` | storage/storage.go:1178-1223 | with siblings named apart, every state of a document has an identity of its own |
| `Flatten.IdentitiesTellDocuments` | storage/storage.go:1326-1334 | documents under different label paths share no identity |
| `Flatten.ParentsResolve` | storage/storage.go:1178-1223 | each parent identity in a flattened document is empty or that of a state listed earlier |
| `FlattenTree.EntriesAreTheTree` | storage/storage.go:1163-1223 | flattening a document gives exactly one entry for each of its snapshots, at whatever depth, and no other: under the names on the way to it, with its own name, status, reason and time of change (of observation if it has none), the nearest provenance above, its identity from all that, and the identity of the snapshot above it as its parent |
| `FlattenTree.TransitionKeys` | storage/storage.go:1229-1257 | the transitions of an entry are those of its snapshot's history that have a time, and the one to its present status, whatever their order |
| `FlattenTree.LimitKeepsTree` | registry_display.go:76-99 | cutting histories for a display keeps every snapshot, at whatever depth, and all of it but the history, of which it keeps the newest entries |
| `DocumentScopes.CommonIdentity` | storage/storage.go:1326-1334 | two documents have an identity in common if and only if they come under one label path and have a state with the same path and provenance |
| `DocumentScopes.KeysTellSources` | storage/storage.go:1171-1176 | two documents come from one source if and only if they have one kind and one label path |
| `DocumentScopes.IngestMirrorsExactly` | storage/storage.go:462-530 | one ingest keeps the details right if and only if its document neither restates nor drops a state another heard source shows, and no source it silences has a state in common with one that stays |
| `DocumentScopes.RightThroughoutExactly` | storage/storage.go:462-530 | over any run of any kinds the details are exactly the states of the latest documents, all the way, if and only if no arrival was such a disturbance |
| `DocumentScopes.DetailsAreLatestDocuments` | storage/storage.go:462-530 | after any run in which documents of different kinds under one label path share no state, the details are exactly the states of the latest document of every source not gone silent |
| `DocumentStates.StatesAreStored` | storage/storage.go:462-530 | after such a run, with siblings named apart, every snapshot, at whatever depth, of the latest document of every source not gone silent is a stored detail with its name, status, reason and time, and every stored detail is one of them |
| `DocumentStates.MirroredStates` | storage/storage.go:462-530 | wherever the details mirror the latest documents, that holds of them; of siblings that share a name, of the last |
| `DocumentStates.IngestStores` | storage/storage.go:462-530 | any one ingest stores every snapshot of its document, at whatever depth, but one whose identity a source that it silences has too |
| `DocumentScopes.ScopesAreDisjointExactly` | storage/storage.go:462-530 | after any run at all the scopes are disjoint if and only if no two remembered documents of different kinds under one label path share a state |
| `DocumentScopes.KindsCollide` | storage/storage.go:1171-1176 | two kinds that share a state: when one source no longer shows it, the other's detail of it goes too, though its latest document still has it |
| `DocumentScopes.ScopesPartitionDetails` | storage/storage.go:729-752 | in such a run the scopes are disjoint and cover the details, and the bookkeeping maps share their keys |
| `DocumentScopes.OneKindIsRight` | storage/storage.go:462-530 | with documents of one kind only, both hold of every run without a condition |
| `DocumentScopes.FirstSeenStays` | storage/storage.go:462-530 | a state that stays current keeps the time it was first seen |
| `MemoryStore.MemoryStore.NewMemoryStore` | storage/storage.go:331-359 | a store opened on a journal has exactly what the file rebuilds within retention, the rings cut to the backstop, and a compacted file |
| `MemoryStore.MemoryStore.ReplayJournal` | storage/storage.go:366-404 | replays rings, incidents and mutes, sweeps, and leaves a valid store over a compacted file |
| `MemoryStore.MemoryStore.ReadJournal` | storage/storage.go:366-404 | the reading loop sorts the lines into transitions per identity, incidents and active mutes |
| `MemoryStore.MemoryStore.CompactJournal` | storage/storage.go:427-448 | rewrites the file from the live state, which does not change and which the file now recovers in full |
| `MemoryStore.MemoryStore.IngestDocument` | storage/storage.go:462-530 | takes the document's states in place of its source's last ones, so that every snapshot of it, at whatever depth, is stored, drops silent sources, expires mutes, sweeps incidents, and keeps the file recovering the store; the rings are as StoreDocument leaves them |
| `MemoryStore.MemoryStore.StoreDocument` | storage/storage.go:462-530 | the same for the details and the rings alone: every snapshot of the document is stored; the rings are the old ones with the document's transitions merged in, or, once the backstop cuts in, hold exactly as many transitions as it allows, and the newest of all there were; rings of live identities only, if it was so before |
| `MemoryStore.MemoryStore.StoreEntries` | storage/storage.go:462-530 | the loop over the states: each detail put, each ring merged, no ring made for anything else, and over all turns the newest of everything offered kept |
| `MemoryStore.DocumentIsOffered` | storage/storage.go:462-530 | what a document offers the ring of an identity includes, for the snapshot at every place of its tree, the transitions of that snapshot's history and the one to its present status |
| `MemoryStore.MemoryStore.StateTimeline` | storage/storage.go:984-1000 | not found if and only if the identity has neither a ring nor a detail; else its ring from newest to oldest |
| `MemoryStore.MemoryStore.NoteSource` | storage/storage.go:462-530 | the source's scope, last time and interval; an interval only from the second document on |
| `MemoryStore.MemoryStore.DropIdentity` | storage/storage.go:663-669 | the detail and the ring of an identity go; a ring that was there makes the file outdated |
| `MemoryStore.MemoryStore.SweepExpiredScopes` | storage/storage.go:729-752 | drops exactly the sources silent for too long, but never the current one, with all their details and rings |
| `MemoryStore.MemoryStore.IngestEscalations` | storage/storage.go:768-827 | the incidents change as the sink says, nothing else does, and the file still recovers the store |
| `MemoryStore.MemoryStore.AcknowledgeIncident` | storage/storage.go:1099-1126 | one incident changes, nothing else does, and the file still recovers the store |
| `MemoryStore.MemoryStore.UpsertMute` | storage/storage.go:532-564 | a mute is put or, without an identity, a known status or a future expiry, refused; nothing else changes, and the file still recovers the store |
| `MemoryStore.MemoryStore.DeleteMute` | storage/storage.go:566-578 | a mute goes, and the file is rewritten so that a restart does not bring it back |
| `StringDictionary.StringDictionary.Intern` | storage/metrics.go:438-449 | a string gets its one id, and no id ever changes its string |
| `StringDictionary.Base36OneToOne` | storage/metrics.go:405-425 | two numbers never share their base-36 text |
| `StringDictionary.SignaturesAreOneToOne` | storage/metrics.go:405-425 | different postings never share a signature |
| `LabelPostings.EncodeLabels` | storage/metrics.go:405-425 | the postings decode to the labels without `scrape_path`, under the signature of the postings |
| `LabelPostings.DecodeLabels` | storage/metrics.go:427-436 | the loop decodes postings to their label set |
| `LabelPostings.PostingsAreUnique` | storage/metrics.go:405-425 | a label set has one encoding only, so equal labels always meet in one series |
| `LabelPostings.PostingsStay` | storage/metrics.go:438-449 | strings interned later change nothing for postings written before |
| `LabelPostings.CanonicalLabels` | storage/metrics.go:458-474 | the sorting key of a label set is its names in ascending order, each with its value |
| `SeriesColumns.RunLengthIsLongest` | storage/metrics.go:510-523 | the cached count means the longest run of equal values at the end |
| `SeriesColumns.UpdateConstantRun` | storage/metrics.go:496-508 | recounts the trailing run after the last value was replaced |
| `SeriesColumns.ConstantRunEndingAt` | storage/metrics.go:510-523 | the run that ends at any position is exact, cached count or not |
| `SeriesColumns.ObserveSample` | storage/metrics.go:120-207 | a sample of the last second replaces, a later one is appended, an older one is dropped, and the cached run stays exact; what that adds up to is told by `SeriesHistory.SeriesIsItsLog` |
| `SeriesHistory.SeriesIsItsLog` | storage/metrics.go:175-206 | a series fed any observations has, in time order, exactly those not older than one before them, and of these the last of each second |
| `SeriesHistory.OnePointASecond` | storage/metrics.go:175-206 | with times that do not go back it has exactly one point for each second observed, with the last value observed in it |
| `SeriesColumns.TrimSeries` | storage/metrics.go:325-354 | exactly the points at or after the cutoff stay, and the cached run stays exact |
| `SeriesColumns.Slice` | storage/metrics.go:209-268 | exactly the points of the range, flagged constant if and only if they all have one value |
| `SeriesColumns.FirstAtLeast` | storage/metrics.go:325-354 | the binary search finds the first time that is not before the given one |
| `MetricsModel.SlotsAreOneToOne` | storage/metrics.go:120-207 | no two series stand for the same key, metric and labels |
| `MetricsModel.SameLabelsSameSlot` | storage/metrics.go:405-425 | a label set finds the series it was stored under, and no other |
| `MetricsModel.ViewIsOk` | storage/metrics.go:120-207 | every series is a non-empty list of points with strictly increasing times |
| `MetricsChanges.CapDrops` | storage/metrics.go:301-323 | cutting behind the first cap ranks leaves cap series, and none dropped ends in a larger value than one kept |
| `MetricsChanges.TrimIsTrimmed` | storage/metrics.go:325-354 | trimming series by series is trimming the view: older points go, and series left empty go |
| `MetricsCompaction.TwinIsNew` | storage/metrics.go:358-403 | a rewritten series never lands on the slot of another under the new signatures |
| `MetricsCompaction.RewrittenAll` | storage/metrics.go:358-403 | when every series is rewritten, the decoded map from key, metric and labels to points is unchanged |
| `MetricsCompaction.DescsCarriedOver` | storage/metrics.go:358-403 | the descriptor of every metric that still has a series reads as before |
| `MetricsCompaction.Rewrite` | storage/metrics.go:358-403 | the postings of one series decode under the new dictionary as they did under the old |
| `MetricsDescriptors.MetricDescriptor` | storage/metrics.go:476-494 | the loop finds the first description whose name, with a suffix its type allows or none, is the sample's name |
| `MetricsIngest.ChooseSamples` | storage/metrics.go:120-207 | the first cap samples of a metric are taken: larger values first, equal ones by the canonical text of their labels |
| `MetricsIngest.QueryIsExact` | storage/metrics.go:209-268 | a query after a trim returns a point if and only if it lies in the range and within retention |
| `MetricsIngest.IngestedWithinCap` | storage/metrics.go:120-207 | an ingest leaves every key and metric within the series cap |
| `MetricsHistory.ObservedIsKept` | storage/metrics.go:120-207 | over any run of observations and queries a series observed at some second, not before any earlier observation of it and not again in that second, has a point of that second with an observed value, as long as it is within retention and the metric's series have room under the cap |
| `MetricsHistory.SampleIsReturned` | storage/metrics.go:209-268 | such a sample is returned, with its value, by a query whose range holds its second |
| `MetricsQuery.CollectedAnswers` | storage/metrics.go:209-268 | sorting what a map loop gathered gives the answer for a metric: each series with points in the range once, and nothing else |
| `MetricsQuery.AllAsked` | storage/metrics.go:209-268 | the same for all metrics of a key |
| `MetricsStore.GroupByName` | storage/metrics.go:120-207 | the samples with a name, grouped by it, in their order |
| `MetricsStore.MemoryMetricsStore.constructor` | storage/metrics.go:104-118 | an empty store, with the defaults for a retention or cap that is not positive |
| `MetricsStore.MemoryMetricsStore.IngestMetrics` | storage/metrics.go:120-207 | an observation is taken in as a whole, metric by metric, and then trimmed; without a key or a named sample nothing happens; metrics with series show the descriptor of the newest document that has one, whether or not the dictionary is compacted |
| `MetricsStore.MemoryMetricsStore.TrimAfter` | storage/metrics.go:120-207 | what is too old goes, and a compaction, at most one a minute, changes neither points nor descriptors |
| `MetricsStore.MemoryMetricsStore.ObserveOne` | storage/metrics.go:120-207 | one sample changes the points of one key, metric and label set, and no other |
| `MetricsStore.MemoryMetricsStore.IngestMetric` | storage/metrics.go:120-207 | the samples of one metric are chosen, observed and capped, its descriptor is filed, and every other metric stays |
| `MetricsStore.MemoryMetricsStore.Metrics` | storage/metrics.go:209-268 | an error if and only if the key or the range is empty; else the exact answer over the view trimmed to the query's retention; descriptors of live metrics stay |
| `MetricsStore.MemoryMetricsStore.EnforceSeriesCap` | storage/metrics.go:301-323 | one metric is cut to the cap, those with the smallest last values and, among equals, the latest signatures going first, and no other metric is touched |
| `MetricsStore.MemoryMetricsStore.Trim` | storage/metrics.go:325-354 | the view is trimmed, and the result says whether a series went |
| `MetricsStore.MemoryMetricsStore.CompactDictionary` | storage/metrics.go:358-403 | the view and the descriptors of live metrics stay as they are, and the new dictionary holds no string without use |

## Left out

- HTTP handlers, routing, ETags, YAML, JSON, compression and caches: encoding is the identity here, and `hashJSON` is an injective function whose result is never empty.
- Browser code, info pages, configuration merging, health rollup, thresholds, counters and gauges, readers of the operating system and the runtime: folds or input and output with little state.
- Mutexes: every public call is one step.
- FailRatioState.Record: the policies and the tracker that follow a recorded outcome are not part of this model, and the cumulative counts have no upper limit.
- EpochWeightedCounters.CurrentWindowValue: products of counts and spans are unbounded integers, so an overflow of int64 is not modelled; spans and times do have their 32-bit range.
- HTTPMetrics.TakeSnapshot: the rates and ratios in floating point are left out, and the collector's maps hold counters as values, so the update in place of a counter behind a map entry is not captured; `EpochCounter` has that update.
- ParseSampleLine: the number `strconv.ParseFloat` reads stays text, and which texts it reads is a parameter; the lossy `%.4g` of the printer is left out.
- ChartFile.FileChartStore.Record: writes that fail and lines that do not parse are left out.
- ChartFile.WrittenMerges: asks of writes of more than twelve states to one bucket that the sort treat their identities alike; without that it is false (`DisagreeingStoreIsWrong`). The sort of such lists, which in Go depends on the version of the library, is a parameter.
- ChartFile.FedMerges: asks the same of long writes.
- ChartFile.LiveAnswersLikeLog: asks the same of long writes.
- ChartFile.ReopenedAnswersLikeLive: asks the same of long writes.
- RingAgreesWithLog: asks for non-decreasing record times after 1970; on earlier times `SlotIndex` follows the code, but two buckets less than a window apart can then meet in one slot for some bucket sizes.
- EscalationProtocol.OneGoodTickDelivers: the tick of the scraper is three steps of the state machine over values, so that requests and replies can be lost between them; its captured watermark is a field of the state, and the merging of labels is left out.
- EscalationProtocol.StepKeepsInv: one scraper, as any other client's acknowledgement clears the buffers; event numbers stop at the largest 64-bit number instead of wrapping around.
- Escalations.Start: severity, type, labels and data of an incident are copied and never decided on, so they are left out; an incident's id is the number in its `ID-` text.
- IncidentStore.IncidentStore.IngestIncident: asks that every event's cursor has a number, as cursors given out by a source do; among cursors without one the comparator of the sort is no order. Type, severity, topics, labels, label path and event data are copied by the code and left out here.
- IncidentStore.IncidentStore.IngestEscalations: asks the same of a document.
- MemoryStore.MemoryStore.IngestEscalations: asks the same of a document.
- EventListing.SortEvents: asks the same of the events of a map.
- EventListing.CapEvents: asks the same of the events of a map.
- Incidents.StepKeepsSink: runs skip an incident with such a cursor.
- Incidents.StoredAreNewest: runs skip an incident with such a cursor.
- EvictOldestTransition: which of several equally old transitions goes first depends on the iteration order of a Go map and is left open.
- NewMemoryStore: asks for a journal whose incidents list their own events in order, as the store writes them; lines that do not parse, such as one cut off by a crash, which the code skips, and errors of the file system are left out, and a line's length comes from a function.
- MemoryStore.MemoryStore.ReplayJournal: asks the same of the journal or the entry.
- MemoryStore.MemoryStore.ReadJournal: asks the same of the journal or the entry.
- IncidentStore.IncidentStore.ReplayIncident: asks the same of the journal or the entry.
- IngestDocument: the target summaries, the fleet rollup, the muted view of the current layer and the call into the chart store are left out. That the summaries equal the muted view is not claimed: the code rebuilds only the targets of the ingested document after expiring mutes.
- MemoryStore.MemoryStore.StoreDocument: without the bookkeeping of targets.
- MemoryStore.MemoryStore.SweepExpiredScopes: without the bookkeeping of targets.
- MuteStore.MuteStore.Upsert: the target key, the name and the original status, which the code copies from a stored detail, and the view a mute produces are left out.
- MemoryStore.MemoryStore.UpsertMute: the target key, the name and the original status, which the code copies from a stored detail, and the view a mute produces are left out.
- DetailsAreLatestDocuments: asks that documents of different kinds under one label path share no state; `RightThroughoutExactly` says when it holds in general.
- RingRestart.RestartExactly: asks that no transition missing after the restart shares its time with one kept in its ring, or in any if its ring has room; the order of journaling or of a Go map breaks such ties. Reasons of transitions are not compared.
- RingRestart.RestartRecoversExactly: asks the same.
- RingRestart.RestartRecovers: asks the same once something was evicted.
- RingRestart.EvictionIsRepeated: asks the same.
- ScopesPartitionDetails: asks that documents of different kinds under one label path share no state; without that it is false (`KindsCollide`), and `ScopesAreDisjointExactly` says when the scopes are disjoint in general.
- MemoryStore: its fields are grouped into the objects of `TimelineStore`, `IncidentStore` and `MuteStore`, to which the journal is passed.
- MemoryMetricsStore.IngestMetrics: the three nested maps are one map keyed by key, metric and signature; postings are pairs of ids instead of a flat slice; series are values, so the update in place of a column behind a map entry is not captured; ids have no 32-bit limit; values are reals, and the filter for NaN and infinities is left out.
- MetricsHistory.ObservedIsKept: asks that the metric never has more label sets or samples than the cap; which of too many series are cut depends on their values (`CapDrops`).
- MetricsHistory.SampleIsReturned: asks the same, and that the samples of that second for those labels agree, since the order of equal labels is by value.
- MetricsStats and ChartStats: counts of what is held.
- Times beyond the range of a 64-bit count of nanoseconds.
