# A verified model of RillDNS

RillDNS is a control plane for DNS zones. This project models the parts of it that keep
state or transform data under hard guarantees, in Dafny, and proves those guarantees for
all inputs and for whole runs:

- **Zone store** (`Zone*.dfy`): revision-checked changes, rollback, creation and deletion
  over a disk on which every file operation and every wait for the name server may fail,
  and writes may fail before or after they take effect. Once a zone file was changed, the
  revision it had does not come back in the same lifetime of the zone (the span between its
  creation and its deletion), nothing published is ever lost, and every file is valid at
  every moment.
- **Cloudflare changes** (`Cloudflare*.dfy`): RRset edits are compiled to batches of deletes,
  patches and creates. The compiler is proved right against an executor of batches, and the
  whole call, with its compensating rollback, against an all-or-nothing specification, with the
  exact condition under which the rollback restores the zone.
- **Query analytics** (`HeavyHitters`, `Ranking`, `Buckets`, `Windows`, `Ring`, `Analytics*`,
  `SnapshotMeaning`):
  Misra-Gries sketches in time buckets, merged into windows and ranked, against the history of
  all observations, counted by their fields.
- **Secondary replication** (`Secondary*.dfy`): probe, transfer, validation, publication and
  retries, over all runs of one primary and one secondary, and for the very states that a
  zone store goes through.
- **Idempotency keys** (`Idempotency*.dfy`): the begin/finish protocol over all interleavings,
  failed saves and restarts.
- **Requests from end to end** (`RequestRuns.dfy`): handlers, keys, the zone store and crashes
  in the middle of an operation, run together. A request changes a zone at most once, and a
  replayed success tells of exactly one publication.
- **Reverse-zone reconciler** (`Reverse*.dfy`, `Listings`): which findings and proposals the
  records call for, and that applying the proposals is a fixpoint.
- **Audit log reader** (`AuditLog.dfy`): a ring that refines "the last records, newest first".

Results that a reader of the code would not expect:

- The rollback of a Cloudflare change looks its RRset up by the type as given, not trimmed
  (`internal/cloudflare/apply.go:334`, unlike `internal/cloudflare/planner.go:118`). It reaches
  the RRset of a change exactly when the type has no surrounding white space
  (`RollbackReaches`), and `UntrimmedTypeNotRestored` is a request that is not undone.
- The rollback deletes what its own listing shows, and is only reached when the listings before it
  were behind. It restores the zone exactly when that listing names the affected records that are
  really there (`RestoresExactly`); `StaleListingNotRestored` is a request for which it reports
  success and leaves the zone neither changed as asked nor restored.
- An upsert does not clear a comment or tags that it leaves empty: a record that is kept has the
  settings of its operation exactly if the operation leaves out none that the record has
  (`SettingsReached`).
- The capacity check of the analytics counts floor(retention / bucket width) + 1 buckets; the
  true maximum is ceil(retention / bucket width) + 2, and it is reached (`ReachBucketBound`).
- A retry delay is the promised one for every number of failures exactly when no doubling lands
  between 2^62 and the maximum (`BackoffExact`); `WrapExample` has a negative delay.
- A zone whose serial is 0 never refreshes without error (`RefreshSucceeds`).
- While the store waits for the name server the new content is on disk, and it may be taken back
  afterwards. Secondaries are safe exactly when that does not happen (`StoreChronicle`); when it
  does, one that transferred in between moves to an older version without error
  (`TookBackUnsafe`), or keeps the one that was taken back (`SameSerialKept`).
- The serial step is newer under section 3.2 of RFC 1982 exactly unless the date serial is
  2^31 or more ahead (`SerialAdvances`).

## How to read the model

Objects whose methods update fields are classes (`ZoneStore.Store`, `AnalyticsService.Analytics`,
`SecondaryService.Service`, `IdempotencyService.IdempotencyStore`, `CloudflareService.Client`);
their contracts tie the new state to functions and predicates on values, and the lemmas are about
those. What the outside world does (reads, writes, the name server, the provider, clocks) is a
parameter of each operation, a `World`. Library functions are parameters too: name
canonicalization, the subdomain test, the record parser and the printed line of a record, JSON
decoding and the revision hash, which is assumed to be collision-free.

A run is a sequence of states whose neighbours satisfy the transition relation that the methods
establish (`ZoneRuns.Operates`, `SecondaryRuns.FileAfter`, `IdempotencyRuns.Step`). The zone store
also records every disk state inside an operation (`moments`), so that a crash is a transition to one
of them.

## Model

| member | source | states |
|---|---|---|
| `HeavyHitters.IncrementBounded` | internal/querytelemetry/analytics.go:384-401 | the in-place update computes one sketch step, and returns true exactly when every counter was lowered |
| `HeavyHitters.SketchSize` | internal/querytelemetry/analytics.go:384-401 | for every stream, at most `limit` keys are held and every count is positive |
| `HeavyHitters.Accounting` | internal/querytelemetry/analytics.go:384-401 | sum of counts + (limit+1) times the overflowing calls = length of the stream |
| `HeavyHitters.CounterBounds` | internal/querytelemetry/analytics.go:384-401 | a count never exceeds the true count, and falls short of it by at most the number of overflows |
| `HeavyHitters.MisraGries` | internal/querytelemetry/analytics.go:384-401 | the heavy-hitters bound: true - N/(limit+1) <= count <= true, so a key seen more than N/(limit+1) times is present; exact if no call overflowed |
| `HeavyHitters.OverflowNeedsMany` | internal/querytelemetry/analytics.go:384-401 | a call overflows only after more than `limit` different keys, so a stream with no more is counted exactly |
| `Ranking.MergeCounts` | internal/querytelemetry/analytics.go:403-407 | the loop adds the counts key by key |
| `Ranking.Rank` | internal/querytelemetry/analytics.go:409-431 | the list is sorted by count, then name, has the right items, and nothing left out ranks above anything kept |
| `Ranking.RankingUnique` | internal/querytelemetry/analytics.go:421-430 | the ranking is determined by the counts, whatever order the map was read in |
| `Buckets.CountQuery` | internal/querytelemetry/analytics.go:200-203 | counting a query updates the three sketches, the total and the flags |
| `Buckets.CountBlocked` | internal/querytelemetry/analytics.go:204-208 | counting a blocked query updates the two blocked sketches, the blocked total and the flags |
| `Buckets.SummaryStep` | internal/querytelemetry/analytics.go:190-208 | a bucket that summarizes a log (five sketches, totals, flags set exactly on loss) summarizes it with one more observation |
| `Windows.ShortfallBound` | internal/querytelemetry/analytics.go:247-264 | the shortfalls of all buckets in a window add up to at most N/(limit+1) of the window |
| `Windows.MergesStep` | internal/querytelemetry/analytics.go:252-264 | merging one more bucket keeps: counts at most true, short by at most the summed N/(k+1), exact if not truncated |
| `Windows.RankingReports` | internal/querytelemetry/analytics.go:265-273 | listed names carry their true counts up to the error, and a name not listed was seen at most as often as the last listed one, up to the error |
| `Windows.CountedNames` | internal/querytelemetry/analytics.go:268-269 | the tracked names are names that occurred, and all of them when there is no error |
| `QueryAnalytics.DropExpired` | internal/querytelemetry/analytics.go:485-492 | the prune loop keeps exactly the buckets still in retention |
| `QueryAnalytics.BucketBound` | internal/querytelemetry/analytics.go:485-492 | after every prune at most ceil(retention / width) + 2 buckets remain |
| `QueryAnalytics.TotalCounters` | internal/querytelemetry/analytics.go:143-149 | the counters of each kind in all buckets are at most the capacity for the number of buckets |
| `QueryAnalytics.CapacityIs` | internal/querytelemetry/analytics.go:143-149 | that capacity is limit times number of buckets |
| `QueryAnalytics.CountedFaithful` | internal/querytelemetry/analytics.go:189-208 | recording keeps the buckets faithful to the history of observations |
| `QueryAnalytics.CountObservation` | internal/querytelemetry/analytics.go:190-208 | the bucket of an observation is found or made and updated, and the buckets stay well filed, faithful and bounded |
| `QueryAnalytics.MergeBucket` | internal/querytelemetry/analytics.go:256-263 | one bucket is merged into the window, in all five counters, totals and flag |
| `QueryAnalytics.Gather` | internal/querytelemetry/analytics.go:244-264 | the loop over the buckets gathers exactly those in the window, and is truncated exactly if one of them is |
| `QueryAnalytics.Summarize` | internal/querytelemetry/analytics.go:265-273 | the four lists are rankings of the gathered counts |
| `QueryAnalytics.SnapshotBound` | internal/querytelemetry/analytics.go:244-273 | a snapshot never over-reports, under-reports by at most the summed bucket error, and is exact when not truncated |
| `QueryAnalytics.WindowSnapshot` | internal/querytelemetry/analytics.go:244-273 | the snapshot computed from faithful buckets is truthful about the observations in the window |
| `SnapshotMeaning.TrueCounts` | internal/querytelemetry/analytics.go:200-208 | the true counts that the sketches are measured against, by fields: observations of a domain, blocked ones of a domain, of a client, blocked ones of a client, of a type |
| `SnapshotMeaning.TruthfulTells` | internal/querytelemetry/analytics.go:232-283 | by the fields of the observations in the window: queries and blocked queries are counted exactly; in each list a name is short by at most N/(limit+1), and exact unless truncated; a name left out occurred at most that much more often than the last one listed |
| `SnapshotMeaning.TruncatedMany` | internal/querytelemetry/analytics.go:189-208 | counts are lost, and a snapshot says so, only if the window has more domains, clients or types than fit in a bucket |
| `SnapshotMeaning.WindowBetween` | internal/querytelemetry/analytics.go:244-256 | for any property of observations: a window holds all of the last `duration` that have it, and none that is off by the width of a bucket |
| `SnapshotMeaning.NormalizedFields` | internal/querytelemetry/analytics.go:157-188 | which observations are counted, and under which domain, client, type and time |
| `SnapshotMeaning.RecentTells` | internal/querytelemetry/analytics.go:274-281 | the recent list shows events of the window at descending places, and leaves out none that is newer than the oldest shown |
| `QueryAnalytics.RecentInWindow` | internal/querytelemetry/analytics.go:274-281 | the recent queries of the window, newest first, up to the limit |
| `AnalyticsState.TrimCounts` | internal/querytelemetry/analytics.go:433-446 | trimming keeps the highest-ranked counts, and everything if within the limit |
| `AnalyticsState.ListBuckets` | internal/querytelemetry/analytics.go:292-299 | saving lists every bucket once, by start time |
| `AnalyticsState.LoadBuckets` | internal/querytelemetry/analytics.go:328-341 | loading files the persisted buckets by truncated start and trims their counts |
| `AnalyticsState.LoadSaved` | internal/querytelemetry/analytics.go:285-341 | loading what was just saved gives back the same buckets |
| `Ring.Overwrite` | internal/querytelemetry/analytics.go:466-483 | overwriting the oldest slot keeps the ring equal to the last `capacity` elements added |
| `QueryAnalytics.Configure` | internal/querytelemetry/analytics.go:111-149 | settings are accepted exactly if, with the defaults filled in, they are in range and within the capacity |
| `QueryAnalytics.DefaultsAccepted` | internal/querytelemetry/analytics.go:111-149 | settings that are left out are filled in with values that are accepted |
| `AnalyticsService.Analytics.constructor` | internal/querytelemetry/analytics.go:150 | a service with an accepted configuration starts valid, faithful and empty |
| `AnalyticsService.Analytics.Prune` | internal/querytelemetry/analytics.go:485-492 | prunes the buckets, within the bucket bound |
| `AnalyticsService.Analytics.AddRecent` | internal/querytelemetry/analytics.go:466-473 | the ring afterwards holds the last events including the new one |
| `AnalyticsService.Analytics.OrderedRecent` | internal/querytelemetry/analytics.go:475-483 | the last min(n, capacity) events added, in order |
| `AnalyticsService.Analytics.Record` | internal/querytelemetry/analytics.go:157-212 | an accepted observation is normalized, counted and remembered; others change nothing; the buckets stay faithful and at most one more than the bound, and so the counters at most limit times that |
| `AnalyticsService.Analytics.File` | internal/querytelemetry/analytics.go:190-208 | the observation is counted in its own bucket, which is made if it is missing |
| `AnalyticsService.Analytics.SnapshotOf` | internal/querytelemetry/analytics.go:232-283 | the snapshot is truthful about the history, also by fields, and in detailed mode shows the newest events of the window that the ring holds |
| `AnalyticsService.Analytics.TakeSnapshot` | internal/querytelemetry/analytics.go:214-283 | errors exactly for unknown ranges and limits out of bounds; otherwise a snapshot whose counts and lists are told by the fields of the observations of the window |
| `AnalyticsService.Analytics.Save` | internal/querytelemetry/analytics.go:285-302 | the state lists the pruned buckets and the ring in order |
| `AnalyticsService.Analytics.LoadRecent` | internal/querytelemetry/analytics.go:351-355 | the ring holds the loaded events that are in retention |
| `AnalyticsService.Analytics.Load` | internal/querytelemetry/analytics.go:304-359 | refuses other versions; otherwise the buckets and the ring come from the state, trimmed |
| `AnalyticsService.Restart` | internal/querytelemetry/analytics.go:285-359 | save then load at one instant reproduces buckets, flags and recent events, and the loaded ring is right |
| `AnalyticsService.ReachBucketBound` | internal/querytelemetry/analytics.go:143-149 | for every statistics configuration a run reaches the bucket bound, which is above the budgeted number |
| `CloudflareReconcile.ReconcileRRset` | internal/cloudflare/planner.go:201-234 | the greedy loop computes the edit; it is an error exactly when an existing record has a blank identifier; what the edit does is told by `ReconcileFulfils` and `ReconcileExact` |
| `CloudflareReconcile.ReconcileCorrect` | internal/cloudflare/planner.go:201-234 | executing the edit gives exactly the desired values and TTLs, as multisets |
| `CloudflareReconcile.ReconcileExact` | internal/cloudflare/planner.go:201-244 | the greedy match is the full multiset intersection by value: deleted values are existing minus desired, created ones desired minus existing |
| `CloudflareReconcile.ReconcileMinimal` | internal/cloudflare/planner.go:201-244 | no batch that reaches the desired values and keeps the values of patched records removes fewer records, or has fewer deletes or creates |
| `CloudflareFulfilment.ReconcileFulfils` | internal/cloudflare/planner.go:201-244 | executing the edit gives records that pair one to one with the desired operations, each with the same data and TTL, and with the proxying, comment and tags that its operation gives, or its own where the operation gives none |
| `CloudflareFulfilment.SettingsReached` | internal/cloudflare/planner.go:223-225 | a kept record gets all settings of its operation exactly if the operation leaves out none that the record has: what is left out is not cleared |
| `CloudflareFulfilment.EditedMatched` | internal/cloudflare/planner.go:215-226 | a matched record is patched where that is needed, and the others are edited as if it were not there |
| `CloudflarePlanner.PlanChangeConfined` | internal/cloudflare/planner.go:113-176 | the operations planned for a change touch only records of its own RRset |
| `CloudflareFulfilment.OwnerNamed` | internal/cloudflare/planner.go:267-282 | which owner a change names: "@", a name in the zone, or one relative to it; case, white space and one final dot do not matter |
| `CloudflareFulfilment.DesiredExactly` | internal/cloudflare/planner.go:148-160 | the values of a change are accepted exactly if each parses and no two give the same operation |
| `CloudflareFulfilment.SettingsAsRequested` | internal/cloudflare/planner.go:291-332 | settings that a change leaves open stay as they were if all records of the RRset agreed on them; given ones are taken, tags sorted |
| `CloudflarePlanner.JoinInjective` | internal/cloudflare/planner.go:320-327 | comparing joined tags is comparing tags, for tags without NUL characters that are not empty |
| `CloudflarePlans.PlanCorrect` | internal/cloudflare/planner.go:83-195 | executing an accepted plan gives every changed RRset the expected values and TTLs and leaves every other RRset exactly as it was |
| `CloudflareFulfilment.PlanFulfils` | internal/cloudflare/planner.go:83-195 | on the executed zone, the records of every planned RRset pair one to one with the expected operations and fulfil them, settings included |
| `CloudflareFulfilment.ChangeFulfilled` | internal/cloudflare/planner.go:113-176 | then every change is done, by the fields of the request: a deleted RRset is empty, an upserted one has one record for each value, with the TTL and the settings asked for |
| `CloudflareOrder.OrderIrrelevant` | internal/cloudflare/planner.go:113-176 | every permutation of accepted changes is accepted and gives the same executed zone, up to new identifiers |
| `CloudflareOrder.AcceptancePermutes` | internal/cloudflare/planner.go:83-181 | whether a request is accepted does not depend on the order of its changes |
| `CloudflareOrder.PlanPatches` | internal/cloudflare/planner.go:161-168 | no record is patched twice by a plan |
| `CloudflareOrder.BatchOrderIrrelevant` | internal/cloudflare/planner.go:182-193 | sorting the deletes, patches and creates does not change the executed zone, up to order and new identifiers |
| `CloudflarePlans.TypeTracking` | internal/cloudflare/planner.go:95-176 | the incrementally kept type sets are the types present after executing the plan |
| `CloudflarePlans.CnameSafety` | internal/cloudflare/planner.go:177-181 | an accepted plan never leaves a CNAME beside other types at an owner whose types changed |
| `CloudflarePlans.SameTypeSet` | internal/cloudflare/planner.go:253-263 | the size-and-membership test is set equality |
| `CloudflarePlans.GroupRecords` | internal/cloudflare/planner.go:94-109 | the index holds every RRset and the types at every owner |
| `CloudflarePlans.DesiredRecords` | internal/cloudflare/planner.go:148-160 | the desired operations, in order; an error for an invalid or repeated value |
| `CloudflarePlans.PlanOne` | internal/cloudflare/planner.go:114-175 | one change is planned from the index as from the zone |
| `CloudflarePlans.PlanSteps` | internal/cloudflare/planner.go:111-176 | the loop joins the steps of all changes, refuses repeated RRsets, and tracks the types |
| `CloudflarePlans.CnameRuleHolds` | internal/cloudflare/planner.go:177-181 | the final check accepts exactly if the CNAME rule holds at every owner |
| `CloudflarePlans.PlanChanges` | internal/cloudflare/planner.go:83-195 | accepts exactly the acceptable requests, with the joined plan |
| `CloudflareApply.MatchAll` | internal/cloudflare/apply.go:309-321 | greedy matching with used flags succeeds exactly when both multisets are equal |
| `CloudflareApply.PlanMatches` | internal/cloudflare/apply.go:290-324 | true exactly when every changed RRset has the expected values and TTLs, as multisets |
| `CloudflareFulfilment.PlanShown` | internal/cloudflare/apply.go:290-324 | the check of an RRset is true exactly when its records pair one to one with the expected operations, by data and TTL |
| `CloudflareApply.PlanThenExecute` | internal/cloudflare/apply.go:57-79 | plan, execute, check: `planMatches` is true for every accepted request and every assignment of identifiers |
| `CloudflareRollback.BuildRollback` | internal/cloudflare/apply.go:331-347 | the two loops delete the affected records of the latest zone and create the original ones |
| `CloudflareRollback.RollbackRestores` | internal/cloudflare/apply.go:326-348 | whatever the latest state, the batch restores every affected RRset up to identifiers and touches nothing else |
| `CloudflareRollback.RollbackVerifies` | internal/cloudflare/apply.go:348-356 | right after the batch the check of the rollback is true |
| `CloudflareRollback.SelectRecords` | internal/cloudflare/apply.go:372-381 | the map has exactly the affected RRsets |
| `CloudflareRollback.AffectedRecordsMatch` | internal/cloudflare/apply.go:371-406 | true exactly when every affected RRset has the same multiset of content, TTL, proxying and priority |
| `CloudflareFulfilment.OriginalShown` | internal/cloudflare/apply.go:371-406 | for one RRset: exactly when its records pair one to one with the original ones, by content, TTL, proxying and priority |
| `CloudflareRollback.RollbackReaches` | internal/cloudflare/apply.go:331-335 | the rollback reaches the RRset of an accepted change exactly when its type was given without surrounding white space |
| `CloudflareRollback.RollbackLeavesOthers` | internal/cloudflare/apply.go:326-348 | apply then rollback leaves RRsets that no change names as they were |
| `CloudflareRollback.ApplyThenRollback` | internal/cloudflare/apply.go:326-348 | apply then rollback gives back the original RRset of a change with a trimmed type, and leaves that of any other applied |
| `CloudflareRollback.UntrimmedTypeNotRestored` | internal/cloudflare/apply.go:334 | a concrete request that the planner accepts and that empties an RRset, which is still empty after the rollback |
| `CloudflareService.Client.SendBatch` | internal/cloudflare/apply.go:249-267 | the batch is executed unless it failed before taking effect |
| `CloudflareService.Client.WaitForPlan` | internal/cloudflare/apply.go:269-288 | true exactly when one of the polls shows the planned records |
| `CloudflareService.Client.WaitForOriginal` | internal/cloudflare/apply.go:351-368 | true exactly when one of the polls shows the original records |
| `CloudflareService.Client.Rollback` | internal/cloudflare/apply.go:326-369 | the records after each way it can end, for any listing it may have been shown, and true exactly if the batch was answered and the original seen |
| `CloudflareService.Client.Carry` | internal/cloudflare/apply.go:71-100 | flags, error and records for every combination of failures |
| `CloudflareService.Client.ApplyChanges` | internal/cloudflare/apply.go:50-101 | for any listing that may be shown: unconfirmed, unlisted or refused requests change nothing; an empty plan is a success; otherwise the outcome of `Carry` |
| `CloudflareService.AllOrNothing` | internal/cloudflare/apply.go:50-101 | whatever fails: verified means all changes, settings of single records included; not rolled back means all or none; rolled back means none exactly when the listing of the rollback named the affected records that were really there, as a current one does |
| `CloudflareService.AllChangesDone` | internal/cloudflare/apply.go:50-101 | all changes: each change of the request is done, by its fields |
| `CloudflareService.NothingToDo` | internal/cloudflare/apply.go:66-70 | an empty plan is rightly answered as verified: the zone already is as every change asks |
| `CloudflareService.CompensatedExactly` | internal/cloudflare/apply.go:326-349 | a rollback that took effect restores every RRset exactly when its listing names, by identifier, the affected records that are there |
| `CloudflareCompensation.RestoresExactly` | internal/cloudflare/apply.go:336-348 | the same for any records that differ from the original at affected RRsets only, and any listing |
| `CloudflareStale.StaleListingNotRestored` | internal/cloudflare/apply.go:327-356 | a concrete accepted request: with listings that are behind, the rollback reports success and the zone has neither all changes nor none |
| `CloudflareService.FreshPollVerifies` | internal/cloudflare/apply.go:78-92 | an accepted batch is verified as soon as one poll is current |
| `ZoneRecords.SetSoaSerial` | internal/zones/store.go:834-841 | in place, the first SOA gets the serial and nothing else changes |
| `ZoneRecords.SerialKeepsValid` | internal/zones/store.go:246-247 | a new serial keeps a valid zone valid |
| `ZoneRecords.RenderLoads` | internal/zones/store.go:809-832 | what is rendered from a valid zone loads again with the same serial |
| `ZoneRecords.RenderOrdered` | internal/zones/store.go:809-832 | every rendered content has the same records in file order, by fields: the SOA first, then the name servers of the zone, then the rest; per owner by type, then by printed line |
| `ZoneRecords.RenderUnique` | internal/zones/store.go:809-832 | the same records give the same content, in whatever order they were, if no two have the same sort key |
| `ZoneRecords.DigitsLess` | internal/zones/store.go:831 | five-digit type numbers sort as the numbers do |
| `ZoneRecords.SerialAdvances` | internal/zones/store.go:843-853 | the next serial is larger, the larger one of the date serial and the successor, and newer under RFC 1982 exactly unless the date serial is 2^31 or more ahead; up to the year 2147 always |
| `ZoneRecords.DateSerialReads` | internal/zones/store.go:843-853 | a date serial reads as year, month, day and 00 |
| `ZoneValidation.Validate` | internal/zones/store.go:728-777 | accepts exactly the valid zones, a property of the records as a multiset, so their order does not matter |
| `ZoneValidation.CheckCnames` | internal/zones/store.go:767-775 | the final loop accepts exactly if no owner has a CNAME beside a type that it excludes |
| `ZoneChanges.Compact` | internal/zones/store.go:701-707 | the in-place filter keeps exactly the records of other RRsets, in order |
| `ZoneChanges.RunChange` | internal/zones/store.go:683-726 | applies one change, with every refusal of the source |
| `ZoneChanges.RunChanges` | internal/zones/store.go:224-230 | applies the changes in order, and stops at the first one that is refused |
| `ZoneChanges.ApplyEditEffect` | internal/zones/store.go:683-726 | a change sets the RRset it names to one TTL and the given data, and leaves all others |
| `ZoneChanges.ChangesTaken` | internal/zones/store.go:224-230 | the last change of a request that names an RRset gets what it asks for, by its fields; RRsets that no change names keep their records |
| `ZoneChanges.SoaKept` | internal/zones/store.go:683-694 | no accepted change adds or removes an SOA or a record of a query type |
| `ZoneChanges.GroupRRsets` | internal/zones/store.go:779-807 | each RRset is listed once, with its TTL and sorted data |
| `ZoneChanges.DiffUpserts` | internal/zones/store.go:393-406 | the first loop lists the RRsets to write, and leaves in the map those that only `from` has |
| `ZoneChanges.DiffRRsets` | internal/zones/store.go:391-413 | the difference is the upserts, then the removals |
| `ZoneDiffs.DiffDistinct` | internal/zones/store.go:391-413 | no RRset is named twice |
| `ZoneDiffs.DiffThenApply` | internal/zones/store.go:391-413 | applying the difference to `from` is accepted, gives `to` on every RRset but the SOA as the API shows it, and leaves the SOA |
| `ZoneDiffs.DiffThenApplyRecords` | internal/zones/store.go:391-413 | record by record, TTLs included, for RRsets with one TTL as section 5.2 of RFC 2181 asks |
| `ZoneDiffs.DiffEmpty` | internal/zones/store.go:391-413 | the difference is empty exactly when both agree outside the SOA |
| `ZoneDisk.HistoryEvolves` | internal/zones/store.go:654-666 | saving the current content keeps the history, named by revision, and has the content unless it failed before |
| `ZoneDisk.WriteEvolves` | internal/zones/store.go:898-934 | once the old content is saved, a newer one may replace it, and the old one may be put back |
| `ZoneRuns.SerialMonotone` | internal/zones/store.go:241-304 | within a lifetime the serial on disk never decreases, in any run with faults and crashes |
| `ZoneRuns.RevisionGone` | internal/zones/store.go:206-304 | once an operation changed a zone file, whatever it answered, the revision it found does not come back within the lifetime |
| `ZoneRuns.ChangedOnce` | internal/zones/store.go:206-304 | within a lifetime at most one operation that expects a given revision changes the zone file, failed ones included |
| `ZoneRuns.PublishedOnce` | internal/zones/store.go:206-304 | within a lifetime no two publications carry the same expected revision, and published serials strictly increase |
| `ZoneRuns.NeverLost` | internal/zones/store.go:241-304 | content that was once live stays live or in history, even through deletion and creation |
| `ZoneRuns.PublishedKept` | internal/zones/store.go:264-304 | the content of every publication stays live or in history |
| `ZoneRuns.HistoryKept` | internal/zones/store.go:654-666 | history entries never change and never go |
| `ZoneRuns.RunSound` | internal/zones/store.go:728-777 | the validity of every zone file and history file, which each operation of `ZoneStore.Store` promises for its disk, read over a whole run |
| `ZoneTraces.InterruptedOperated` | internal/zones/store.go:241-304 | an operation stopped at any of its moments is still one that keeps everything required of an operation |
| `ZoneTraces.TraceSound` | internal/zones/store.go:241-532 | the validity of all files at every moment, which each operation of `ZoneStore.Store` promises, read over all states of a trace |
| `ZoneTraces.NeverFalls` | internal/zones/store.go:264-282 | the serial on disk never falls, moments inside operations included, exactly when no operation took a content back |
| `ZoneStore.LoadContent` | internal/zones/store.go:602-640 | a content loads exactly when it is a valid zone of some name, and then as that zone |
| `ZoneStore.Store.Get` | internal/zones/store.go:183-204 | the zone with its role, or which error |
| `ZoneStore.Store.SaveCurrent` | internal/zones/store.go:654-666 | saves the current content under its revision, once; the directory or the file may fail even if the content is there |
| `ZoneStore.Store.PutZone` | internal/zones/store.go:898-934 | an atomic write that may fail before or after taking effect |
| `ZoneStore.Store.Swap` | internal/zones/store.go:268-282 | the moments are the old content, then the new, then, only if it was put back, the old again; and the zone files for every ending |
| `ZoneStore.Store.Replace` | internal/zones/store.go:264-282 | save, write, wait and restore, with the zone files after every combination of failures |
| `ZoneStore.Store.Publish` | internal/zones/store.go:264-304 | the answer, the event and the disk after publishing, including an audit failure after publication; only this zone is touched, at its current revision |
| `ZoneStore.Store.Commit` | internal/zones/store.go:241-304 | next serial, dry run without any change, or publication over the expected revision |
| `ZoneStore.CommittedRecords` | internal/zones/store.go:242-247 | what is written, by its records: those given with the new serial in the SOA, which comes first, all in file order |
| `ZoneStore.CommittedSame` | internal/zones/store.go:242-247 | the same records in another order give the same content, and so the same revision |
| `ZoneStore.CommitTells` | internal/zones/store.go:248-304 | the result has the previous revision and serial, and those of the file that is there after publication |
| `ZoneStore.FailedCommitUndone` | internal/zones/store.go:264-282 | which failures leave the new content in place: a write that failed after taking effect, and a restore that failed; all others leave the zones as they were |
| `ZoneStore.PublishedNewer` | internal/zones/store.go:242-246 | a published serial is newer under RFC 1982 exactly unless the date serial is 2^31 or more ahead; up to the year 2147 always |
| `ZoneStore.TookBackCommit` | internal/zones/store.go:271-282 | a commit that took its content back had it on disk, and left the zones as they were |
| `ZoneStore.Store.Access` | internal/zones/store.go:210-219 | the first checks, in the order of the source |
| `ZoneStore.AccessGranted` | internal/zones/store.go:210-219 | granted exactly to a readable zone whose role is recorded as primary, over its own revision; each refusal has its own reason |
| `ZoneStore.Store.Apply` | internal/zones/store.go:206-235 | refusals change nothing, and only a zone whose role is recorded as primary is ever changed; otherwise the changed records, if valid, are committed; the result tells of the file before and after; every moment is sound and touches only this zone at the expected revision |
| `ZoneStore.Store.LoadHistory` | internal/zones/store.go:371-384 | a history file loads, has the zone's origin and its own revision, so the later checks cannot fail |
| `ZoneStore.Store.Rollback` | internal/zones/store.go:351-387 | commits the records of the target revision and reports the difference from the current zone; only a zone whose role is recorded as primary is ever changed |
| `ZoneStore.TargetGranted` | internal/zones/store.go:363-375 | the target is another revision that is in history and readable; each refusal has its own reason |
| `ZoneStore.Store.Prepare` | internal/zones/store.go:435-445 | accepts exactly a valid role with zone text that parses to a valid zone |
| `ZoneStore.RoleGiven` | internal/zones/store.go:556-565 | the roles that are accepted, and primary if none is given |
| `ZoneStore.Store.Install` | internal/zones/store.go:450-472 | error, zone files and roles after every combination of failures in a creation, and the zone files at every moment |
| `ZoneStore.Store.Enlist` | internal/zones/store.go:457-472 | role and wait: the file is removed again, and the role with it, when one fails |
| `ZoneStore.Store.Create` | internal/zones/store.go:423-481 | each refusal, the dry run, and the zone files, roles and audit that a published or failed creation leaves |
| `ZoneStore.FailedCreationUndone` | internal/zones/store.go:450-472 | a failed creation leaves neither file nor role, unless a write failed after taking effect or what undoes it failed |
| `ZoneStore.Store.Forget` | internal/zones/store.go:504-523 | error, zone files and roles once the file is gone, for every combination of failures; the file stays gone if the roles cannot be read |
| `ZoneStore.Store.Uninstall` | internal/zones/store.go:497-523 | error, zone files and roles after every combination of failures; the file is gone only if its content is in history |
| `ZoneStore.Store.Delete` | internal/zones/store.go:483-532 | each refusal, the dry run, and the zone files, roles and audit that a published or failed deletion leaves |
| `ZoneStore.FailedDeletionUndone` | internal/zones/store.go:497-523 | a failed deletion leaves the zone and its role, unless the roles cannot be read or what undoes it failed; otherwise both are gone and the content is in history |
| `ZoneStore.DeletionGranted` | internal/zones/store.go:483-495 | granted exactly to a readable zone over its own revision, whatever its role; each refusal has its own reason |
| `SecondaryTransfer.CheckTransfer` | internal/secondary/secondary.go:422-458 | accepts exactly a complete version closed by an SOA of the same name and serial |
| `SecondaryTransfer.AxfrAccepted` | internal/secondary/secondary.go:451-458 | the AXFR stream of every complete version is accepted |
| `SecondaryTransfer.AcceptedPrefixFree` | internal/secondary/secondary.go:422-458 | no accepted stream is a proper prefix of another |
| `SecondaryTransfer.PrefixRefused` | internal/secondary/secondary.go:422-458 | of the prefixes of an AXFR stream exactly the whole one is accepted |
| `SecondaryTransfer.InspectZone` | internal/secondary/secondary.go:465-494 | the serial of the last SOA and the number of records; an error for unparsable text and for serial 0 |
| `SecondaryTransfer.CompleteInspected` | internal/secondary/secondary.go:465-494 | a published version is read back with its own serial, unless that is 0 |
| `SecondaryRetry.RetryDelay` | internal/secondary/secondary.go:364-371 | the loop in 64-bit arithmetic, wrap-around included |
| `SecondaryRetry.BackoffExact` | internal/secondary/secondary.go:364-371 | the delay is min(minimum * 2^(failures-1), maximum) for all failures exactly when no doubling can wrap |
| `SecondaryRetry.NoWrap` | internal/secondary/secondary.go:364-371 | it never wraps for a maximum up to 2^62 |
| `SecondaryRetry.WrapExample` | internal/secondary/secondary.go:364-371 | just above, the second delay is negative |
| `SecondaryRuns.RefreshFile` | internal/secondary/secondary.go:265-293 | one refresh keeps the file, removes it, or makes it exactly the version served; when it may go is told by `GoesOnlyWhenGone` |
| `SecondaryRuns.SkipSound` | internal/secondary/secondary.go:284-293 | leaving out the transfer on equal serials is sound: the file is the probed version |
| `SecondaryRuns.RefreshUpToDate` | internal/secondary/secondary.go:284-302 | after a refresh without error the file is at least as new as the probed version |
| `SecondaryRuns.CutShort` | internal/secondary/secondary.go:422-449 | a transfer cut short anywhere is refused and the last good file kept |
| `SecondaryRuns.RefreshSucceeds` | internal/secondary/secondary.go:294-302 | when nothing fails, a refresh ends without error exactly if the serial it ends with is not 0 |
| `SecondaryRuns.NewerThrough` | internal/secondary/secondary.go:265-317 | in every run the file never becomes an older version, not even after it went away and came back |
| `SecondaryRuns.AlwaysVersion` | internal/secondary/secondary.go:265-317 | in every run the file is absent or exactly one complete version |
| `SecondaryRuns.ReplicationSafe` | internal/secondary/secondary.go:265-317 | safety over whole runs: complete versions only, and a later file is the same or has a larger serial |
| `SecondaryRuns.ReplicationUpToDate` | internal/secondary/secondary.go:265-317 | in every run a refresh without error leaves a file at least as new as probed |
| `SecondaryRuns.GoesOnlyWhenGone` | internal/secondary/secondary.go:271-282 | the file goes in a refresh only if the service discovers its zones, the primary says that the zone is gone, and the file can be removed |
| `SecondaryRuns.StaysWithoutDiscovery` | internal/secondary/secondary.go:271-282 | without discovery a file that is there stays in every later state |
| `SecondaryRuns.GoneBetween` | internal/secondary/secondary.go:271-282 | a file that is there in one state and absent in a later one went in a refresh between them that was told so |
| `SecondaryRuns.GoneRemoves` | internal/secondary/secondary.go:271-282 | told that the zone is gone, a service with discovery ends without the file if it could remove it, and any other keeps it and reports an error |
| `SecondaryRuns.ErrorKeepsFile` | internal/secondary/secondary.go:265-317 | a refresh with an error keeps the last good file, unless the error is in reading back a new one |
| `SecondaryStore.ZoneTransfers` | internal/zones/store.go:728-777 | a valid zone of the store, SOA first, is a complete version with the same records |
| `SecondaryStore.StoreChronicle` | internal/zones/store.go:264-282 | what a store has on disk over a lifetime, moments inside operations, faults and crashes included, is a history that replication is safe for exactly when no operation took a content back |
| `SecondaryStore.TookBackUnsafe` | internal/zones/store.go:275-281 | after an operation that took a content back there is a run of honest, error-free refreshes in which the file moves to an older version |
| `SecondaryStore.SameSerialKept` | internal/secondary/secondary.go:284-293 | a version is kept without error when another one with the same serial is probed |
| `SecondaryStore.TakenBackKept` | internal/zones/store.go:242-282 | how that comes about: after a commit took its content back, other records committed on the same day get the same serial, and a secondary that has the first content keeps it |
| `SecondaryStore.RestingChronicle` | internal/zones/store.go:241-304 | what is on disk between operations is such a history in any case |
| `SecondaryService.CanonicalZones` | internal/secondary/secondary.go:106-117 | accepts exactly distinct zones other than the root, in canonical form |
| `SecondaryService.CanonicalForm` | internal/secondary/secondary.go:108 | the canonical form: trimmed, in lower case, with a final dot |
| `SecondaryService.RetryBounds` | internal/secondary/secondary.go:76-98 | 0 < minimum <= maximum <= refresh, with the defaults of the source for values that are not positive |
| `SecondaryService.FileNamesDiffer` | internal/secondary/secondary.go:535 | different zones have different files |
| `SecondaryService.Service.AddZone` | internal/secondary/secondary.go:243-257 | zones stay without duplicates, sorted and within the maximum; false exactly when full |
| `SecondaryService.Service.Fetch` | internal/secondary/secondary.go:288-292 | only an accepted and written transfer replaces the file |
| `SecondaryService.Service.Refresh` | internal/secondary/secondary.go:270-302 | file, error and metadata after one refresh |
| `SecondaryService.Service.ScheduleRetry` | internal/secondary/secondary.go:341-353 | failure count and timer are cleared on success and set by the count on failure |
| `SecondaryService.Service.Conclude` | internal/secondary/secondary.go:303-313 | errors, failures and timers have the same zones; failures counts those since the last success; success exactly if there are no errors |
| `SecondaryService.Service.DelayPromised` | internal/secondary/secondary.go:341-371 | with a maximum up to 2^62, every scheduled delay is min(RetryMin * 2^(n-1), RetryMax) for the n failures since the last success |
| `SecondaryService.Service.SyncZone` | internal/secondary/secondary.go:265-317 | all of it; the files of other zones are untouched; the status tells the serial and the number of records of the file after a refresh without error; the file stays unless the zones are discovered and this one is gone |
| `IdempotencyEntries.Prune` | internal/api/idempotency.go:105-123 | live entries only, at most 1000; a live entry goes only if 1000 others stay, none of them older |
| `IdempotencyEntries.KeysByAge` | internal/api/idempotency.go:115-119 | every key once, oldest first |
| `IdempotencyEntries.DropOldest` | internal/api/idempotency.go:120-122 | the first keys of the sorted list are deleted, and no others |
| `IdempotencyEntries.PruneKeeps` | internal/api/idempotency.go:105-114 | with at most 1000 live entries exactly those stay |
| `IdempotencyEntries.ValidKey` | internal/api/idempotency.go:151-161 | accepts exactly 1 to 255 visible ASCII characters |
| `IdempotencyRuns.StepInv` | internal/api/idempotency.go:72-103 | every step keeps: a running handler holds its key alone, and no live response is stored for it |
| `IdempotencyRuns.OneHandlerPerKey` | internal/api/idempotency.go:72-103 | in every reachable state at most one handler runs per key, and at most 1000 entries are held |
| `IdempotencyRuns.InFlightDecides` | internal/api/idempotency.go:72-89 | while a handler runs, the same request with its key is told to wait and any other is a mismatch |
| `IdempotencyRuns.Replayed` | internal/api/idempotency.go:72-89 | until expiry or eviction the same fingerprint gets the recorded response and any other gets a mismatch, never a new run |
| `IdempotencyRuns.ReplayedAcrossRestarts` | internal/api/idempotency.go:53-89 | the same through restarts before which the last save succeeded |
| `IdempotencyRuns.RunInSync` | internal/api/idempotency.go:91-103 | the file has every remembered response whenever the last save succeeded, whatever earlier ones did |
| `IdempotencyRuns.FinishRecords` | internal/api/idempotency.go:91-103 | a response that is not a server error is recorded with the fingerprint of its handler, its own status, body and entity tag and the time of the finish, unless 1000 others remain that were recorded no earlier |
| `IdempotencyRuns.ServerErrorForgotten` | internal/api/idempotency.go:91-103 | a server error is not recorded, so the next request with that key runs again |
| `IdempotencyRuns.RememberedFor` | internal/api/idempotency.go:72-89 | a recorded response is replayed, field by field, to the same request within 24 hours unless it was evicted |
| `IdempotencyRuns.LeavesByEviction` | internal/api/idempotency.go:105-123 | a live response leaves only when 1000 others remain, none of them older |
| `RequestRuns.OperationExecutes` | internal/zones/store.go:206-532 | every operation of the store, whole or stopped at a moment, is an execution of a request in the sense of the runs below |
| `RequestRuns.DiskRun` | internal/api/idempotency.go:165-215 | in a run of handlers, store and restarts together, the disk runs through states of the zone store |
| `RequestRuns.ChangesOnce` | internal/api/idempotency.go:91-103 | per fingerprint, within a lifetime of the zone at most one execution changes the zone file, under any keys and through server errors, expiry, eviction and crashes in the middle |
| `RequestRuns.RetryRefused` | internal/api/idempotency.go:91-103 | a request carried out again after an attempt changed the zone file, whatever that attempt answered, gets an error and changes nothing |
| `RequestRuns.OneAtWork` | internal/api/idempotency.go:190-214 | a handler is let through only when no other one is at work for its key |
| `RequestRuns.ReplayedExecution` | internal/api/idempotency.go:190-211 | what is replayed has the status, body and entity tag of an earlier execution of this very request under this key, which was no server error; if that was refused, it had changed nothing |
| `RequestRuns.RefusalStatus` | internal/api/server.go:813-829 | the status tells the refusals of the store apart; every other failure is a server error, and so not remembered |
| `RequestRuns.ReplayedPublication` | internal/api/idempotency.go:190-211 | a replay that tells of a publication belongs to exactly one publication within the lifetime, whose content is still live or in history |
| `IdempotencyService.IdempotencyStore.constructor` | internal/api/idempotency.go:53-70 | a start loads the live entries of any file, and at most 1000 |
| `IdempotencyService.IdempotencyStore.Begin` | internal/api/idempotency.go:72-89 | is the begin step of the protocol |
| `IdempotencyService.IdempotencyStore.Finish` | internal/api/idempotency.go:91-103 | is the finish step of the protocol, tells the recorded entry by its fields, and reports a failed save |
| `IdempotencyService.IdempotencyStore.Save` | internal/api/idempotency.go:125-149 | the file becomes the entries, or stays as it was |
| `ReverseNames.ReverseRoundTrip` | cmd/rill-reconcile/main.go:237-243 | an address is read back from its own reverse name |
| `ReverseNames.ReverseSpells` | cmd/rill-reconcile/main.go:237-243 | a name below in-addr.arpa names exactly the address whose octets its labels spell, the last octet first |
| `Listings.SortedList` | cmd/rill-reconcile/main.go:252-282 | the members in order, whatever order the map was read in |
| `ReverseReport.IsAllowed` | cmd/rill-reconcile/main.go:206-217 | allowed exactly if excepted by name or without an excluded suffix |
| `ReverseReport.FilterNames` | cmd/rill-reconcile/main.go:196-204 | the allowed names, in order |
| `ReverseMeaning.AllowedIs` | cmd/rill-reconcile/main.go:206-217 | allowed exactly if excepted by name or ending in none of the excluded suffixes, whatever their case and final dots |
| `ReverseReport.IndexForward` | cmd/rill-reconcile/main.go:88-110 | the two indexes of the A records in the network |
| `ReverseReport.IndexPtrs` | cmd/rill-reconcile/main.go:112-130 | the targets by address of the PTR records in the network |
| `ReverseReport.CompareAddress` | cmd/rill-reconcile/main.go:133-177 | proposal, findings and alignment for one address |
| `ReverseReport.CompareReverse` | cmd/rill-reconcile/main.go:178-191 | the finding for an address that only the reverse zone has |
| `ReverseReport.Reconcile` | cmd/rill-reconcile/main.go:83-194 | an error exactly for input that does not parse; otherwise the report of the indexed zones |
| `ReverseMeaning.ViewSets` | cmd/rill-reconcile/main.go:88-130 | the indexes by the records: the forward names of an address, the addresses of a name, the PTR targets of an address |
| `ReverseMeaning.FindingsDue` | cmd/rill-reconcile/main.go:132-191 | a report has a finding of a kind about an address and its targets exactly when the records call for it, for each of the eight kinds |
| `ReverseMeaning.ProposalsDue` | cmd/rill-reconcile/main.go:136-142 | a PTR is proposed exactly for an address without one whose only allowed name has no other address |
| `ReverseMeaning.FindingText` | cmd/rill-reconcile/main.go:143-191 | a finding names all forward names of its address; a mismatch that only the reverse zone has names the addresses of one of its targets |
| `ReverseMeaning.CountsAre` | cmd/rill-reconcile/main.go:131-194 | the three counts, by the records: forward addresses, reverse addresses, and those that an allowed target points back to |
| `ReverseFixpoint.IndexesInverse` | cmd/rill-reconcile/main.go:95-109 | the two forward indexes are inverse to each other |
| `ReverseFixpoint.LineProposals` | cmd/rill-reconcile/main.go:136-154 | at most one proposal per address, to an allowed forward name of an address without PTR |
| `ReverseFixpoint.ProposalsSettle` | cmd/rill-reconcile/main.go:83-217 | with the proposed PTRs added, the report has no proposals, identical findings, and both counts grow by the number of proposals |
| `AuditLog.Put` | internal/api/audit.go:104-110 | the ring holds the last `limit` matching lines with the new one |
| `AuditLog.NewestFirst` | internal/api/audit.go:115-119 | walking backwards gives the newest first |
| `AuditLog.Collect` | internal/api/audit.go:77-111 | the ring and the number of skipped lines after the whole log |
| `AuditLog.ReadAudit` | internal/api/audit.go:66-121 | the last `limit` matching lines, newest first, for every log, filter and limit |
| `AuditLog.PageShows` | internal/api/audit.go:77-120 | by the fields of the lines: the page shows lines that match zone, provider and actor, newest first, at most `limit`, and leaves out none that is newer than the oldest shown; `skipped` counts the lines that are no records |

## Left out

- HTTP handlers, JSON encoding, OIDC and cookies, MCP tools and the control client: plumbing over libraries.
- DNS messages, TSIG, DNS-over-HTTPS and name-server polling: modelled as answers of the outside world.
- The zone-file parser and printer, SHA-256 and real file-system calls: parameters with a round trip, collision freedom, and writes that may fail before or after taking effect.
- Locks: every operation of a class is atomic, as it is under the mutex of the source; in the idempotency store the steps of different handlers interleave.
- `List`, `Revisions` and the NOTIFY warning of the zone store, and the status file, listed zones and zone discovery of the secondary: their contracts would only repeat their bodies.
- Text functions (trimming, case folding) are over ASCII; addresses in reverse names that contain a colon are not modelled.
- The summary texts and warnings of plans and reports, and the difference between nil and empty tags.
- Counters are unbounded: the wrap-around of 64-bit counts is not modelled. Percent fields are not modelled.
- Persisted analytics buckets that are null, and a saved idempotency file that holds `null`.
- AnalyticsService.Restart: requires an instant later than the retention period after time zero, since the zero time marks an unset bucket start.
- CloudflarePlans.PlanChanges: leaves out the final sorting of the plan lists; `CloudflareOrder.BatchOrderIrrelevant` shows that it does not change what executing the plan does.
- CloudflareService.AllOrNothing: assumes that no one else changes the zone during the call and that the first listing is current; the listing of the rollback and the polls may show anything.
- ZoneChanges.GroupRRsets: leaves out the final sorting of the list by name and type, which only orders the reported changes.
- ZoneDiffs.DiffThenApply: for RRsets whose type, owner and data the record parser reads back as they were printed.
- SecondaryTransfer.InspectZone: leaves out the earliest signature expiry, which is only reported.
- SecondaryStore.StoreChronicle: takes the names in zone files as absolute, so that canonical names differ from them by case only.
