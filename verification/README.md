# Verified models of Curio's hard loops and protocols

Curio runs Filecoin storage providers. This project models the parts of it whose correctness
depends on more than one function: protocols over database tables, timed runs, and loops with
delicate arithmetic. It is written for Dafny 4.11; verify it with `dafny verify dfyconfig.toml`.

## What is modelled

* **IP offence throttle** (`IpOffenseThrottle`, `IpOffenseRuns`, `IpOffenseBlocks`,
  `IpOffenseMemory`, `IpOffenseCleanup`). A class with the throttle's nested map, and theorems about every timed run of
  offences, blocked-checks and background cleanups, of any IPs and offence kinds. Each entry is shown
  to evolve on its own; the throttle that deletes entries is compared with one that never does.
* **SP-to-SP pulls** (`PullLedger`, `PullProtocol`, `PullRefs`, `PullEffects`, `PullProgress`,
  `PullAdmission`, `PullStatus`). The
  tables for pulls, items, parked rows, refs and piecerefs, as a state machine whose steps are the
  database transactions: admission, the PullPiece task with its retries, completion, failure and
  expiry, the five-day cleanup, piece collection, and other subsystems that share parked rows.
* **Sector-extension planner** (`ExtensionGroups`, `ExtensionLimits`, `ExtensionMessages`,
  `ExtensionTheorems`). Grouping by tolerance under every map iteration order, when its promises hold
  under the network's limits, slicing into messages, and the split of verified claims.
* **Closed-deadline walk** (`DeadlineWalk`). The backward enumeration of WindowPoSt deadlines and what
  a sequence of alert checks covers.
* **Sub-piece layout** (`PieceSizes`, `SubPieceLayout`, `ClientChunks`). FR32 sizes, the server's add
  handler with its shared records, the upload client's chunking, and why the two fit together.
* **Chain-node proxy** (`ProviderRetry`). Cyclic provider choice with bounded retry and sticky nodes.
* **Alert delivery** (`AlertQueue`, `AlertRuns`). Events and condition episodes, interleaved with the
  steps of alert runs.
* **Storage discovery** (`StorageDiscovery`). The bounded breadth-first scan against a description of
  what there is to find in a directory tree.

SQL statements become functions on table values, with the cascades of the schema in
`harmony/harmonydb/sql/20260521-pdp-v0-pull-refactor.sql` and
`harmony/harmonydb/sql/20240930-pdp.sql`. Clocks, chain state, hashes, CID parsing, random picks, the
scheduler's view of a task and the answers of remote nodes are parameters. Integers that Go keeps in
`uint64` and lets wrap are reduced modulo 2^64 where the add handler sums them. Go's map iteration
order is an arbitrary choice. Mutexes and transactions make each call one step; clock readings do not
go back from step to step.

## Where code and promise differ

* The throttle's cleanup is not invisible under every policy. It is exactly when each policy has
  `Hits <= 1`, or a block at least as long as the window, or a window of at most one nanosecond. The
  shipped policy qualifies.
* `sptool sectors extend` says it does not exceed each sector's maximum life
  (cmd/sptool/sector.go:724). Grouping may place a sector up to `tolerance` epochs past it. For given
  network limits the promise holds exactly when the tolerance is not positive, or is at least the
  maximum extension or every maximum lifetime, less one epoch. With the limits the help text names,
  1278 days and five years, that means no positive tolerance below 3680639; the default is 20160.
* With a negative tolerance a sector replaces another with the same target in its group, so that the
  first is lost, whenever any sector can be worth extending at all.
* A sector that is reported as skipped because of a claim may still be named in a message: exactly
  when its first claim passes and a later one does not (cmd/sptool/sector.go:1142).
* A comment says that retries will do their best when every provider looks unhealthy
  (deps/apiinfo.go:286). In that case the code makes a single attempt.
* Not every file the client cuts and groups is accepted by the server. It is exactly when the v1 CIDs
  of its chunks are all different and the raw sizes stored for them sum to the client's, set by set.
  The first fails for a file with two equal chunks. The second can fail because a v1 CID does not
  carry the raw size and the first stored row keeps its own (lib/parkpiece/upsert.go:32-43,
  pdp/handlers_upload.go:83-110): after 100 zero bytes, a file of 120 zero bytes is refused.
* The comment at pdp/handlers_pull.go:234-235 says the overall status is the worst one, with failed
  worst of all. `ComputeOverallStatus` agrees exactly when no piece failed or all did; for one failed
  and one complete piece it says complete.
* A condition that is resolved and raised again while an alert run is under way can be marked as
  notified although no run selected it.

## Model

| member | source | states |
|---|---|---|
| `IpOffenseThrottle.Throttle.CleanupIpLocked` | pdp/ip_offense_throttle.go:75-90 | the in-place deletion loop keeps exactly the entries of known offences that are not expired, and drops the IP with its last entry |
| `IpOffenseThrottle.SweepIsExact` | pdp/ip_offense_throttle.go:64-90 | entry by entry: a sweep deletes exactly the entries of unknown offences and those whose block is over and which count nothing or whose window began two windows ago; other IPs stay, and no IP stays without entries |
| `IpOffenseThrottle.Throttle.CleanupAll` | pdp/ip_offense_throttle.go:92-101 | sweeping every IP leaves exactly the unexpired entries of all IPs, in any iteration order |
| `IpOffenseThrottle.Throttle.Record` | pdp/ip_offense_throttle.go:145-197 | new state and verdict are those of sweeping the IP and striking one entry; an unknown offence or an empty IP is told nothing and changes nothing |
| `IpOffenseThrottle.Throttle.LongestBlock` | pdp/ip_offense_throttle.go:199-237 | refuses exactly when some block of the IP is running, for the longest remaining time, with the reason of a longest block |
| `IpOffenseRuns.Projection` | pdp/ip_offense_throttle.go:145-237 | other IPs and offences affect an entry only by sweeping it |
| `IpOffenseRuns.TraceIsView` | pdp/ip_offense_throttle.go:145-237 | in every run the throttle behaves at each entry like that entry's own small automaton, answers included |
| `IpOffenseRuns.UnblockedBound` | pdp/ip_offense_throttle.go:161-196 | in every run at most 2*Hits-3 offences of one IP and kind less than Window apart pass unblocked |
| `IpOffenseRuns.BurstIsBlocked` | pdp/ip_offense_throttle.go:161-196 | any more than that include one answered with a block |
| `IpOffenseRuns.UnblockedBoundIsTight` | pdp/ip_offense_throttle.go:161-196 | for every policy with Hits >= 2 and a window of two ticks or more, and from every starting time, some run lets exactly 2*Hits-3 through |
| `IpOffenseBlocks.BlocksAreEarned` | pdp/ip_offense_throttle.go:175-196 | a new block answers exactly Hits offences of that IP and kind, none refused before, all within one Window |
| `IpOffenseBlocks.BurstEarnsBlock` | pdp/ip_offense_throttle.go:175-196 | the other way: after a quiet Window, the Hits-th offence within one Window starts a block and is told its whole length |
| `IpOffenseBlocks.OffenseIsTold` | pdp/ip_offense_throttle.go:171-196 | in every run an offence is told the time left of a block in force, the whole Block when it starts one, and no wait otherwise |
| `IpOffenseBlocks.StrangersAreIgnored` | pdp/ip_offense_throttle.go:146-154 | in every run an unknown offence or an empty IP is told nothing, and the state stays as it is |
| `IpOffenseBlocks.BlocksLast` | pdp/ip_offense_throttle.go:175-196 | until the block ends every further offence of that kind is refused with exactly the time left, whatever happens in between |
| `IpOffenseBlocks.BlocksRefuse` | pdp/ip_offense_throttle.go:223-236 | until the block ends every blocked-check of that IP refuses it for at least the time left |
| `IpOffenseBlocks.BlockHasCause` | pdp/ip_offense_throttle.go:187-196 | a block in force was imposed by an earlier offence and ends Block after it |
| `IpOffenseBlocks.RefusalsHaveCause` | pdp/ip_offense_throttle.go:199-237 | a refused check names an offence kind of that IP whose earlier block is still running |
| `IpOffenseMemory.KeptForAReason` | pdp/ip_offense_throttle.go:64-101 | an entry that survives a sweep has an offence behind it whose block is running, or that was let through less than two Windows ago |
| `IpOffenseMemory.RecentIsRemembered` | pdp/ip_offense_throttle.go:64-101 | no sweep forgets an offence whose block is running, nor one let through less than a Window ago with no block since |
| `IpOffenseMemory.OneOffenseForgotten` | pdp/ip_offense_throttle.go:64-73 | a single offence is forgotten exactly from two Windows after it on |
| `IpOffenseCleanup.AlikeStep` | pdp/ip_offense_throttle.go:64-90 | from entries that differ only in what deletion removes, the deleting and the keeping throttle answer alike and stay alike |
| `IpOffenseCleanup.HarmlessIsInvisible` | pdp/ip_offense_throttle.go:64-101 | under harmless policies both throttles answer alike in every run |
| `IpOffenseCleanup.HarmfulShows` | pdp/ip_offense_throttle.go:64-101 | for any other policy, IP and starting time a run exists in which deletion changes an answer |
| `IpOffenseCleanup.CleanupInvisibleExactly` | pdp/ip_offense_throttle.go:64-101 | deletion is invisible in all runs if and only if every policy is harmless |
| `IpOffenseCleanup.DefaultPolicyCleansInvisibly` | pdp/ip_offense_throttle.go:103-112 | the shipped policy is harmless |
| `IpOffenseCleanup.FifthInAMinute` | pdp/ip_offense_throttle.go:103-112 | under the shipped policy the fifth offence within a minute, after a quiet minute, is answered with a block of five minutes |
| `PullLedger.EffectiveClientLimit` | pdp/pull_types.go:513-525 | a client may have 108 pieces less those the others hold, but never fewer than ten |
| `PullLedger.RetryAfter` | pdp/pull_types.go:527-544 | whole minutes: one per started ten pieces over the limit, five exactly from the fifth ten on |
| `PullLedger.EnforceBackpressure` | pdp/pull_types.go:421-511 | refuses exactly when the unique pieces would exceed 120 in all, or ten of this client and 108 together with what the others hold; the wait fits the excess, the global one first |
| `PullLedger.UniqueKeys` | pdp/pull_types.go:427-440 | the deduplicating loop lists each piece of the request once, whatever its URLs |
| `PullLedger.BackpressureExactly` | pdp/pull_types.go:496-544 | the same decision and wait in numbers, for every state of the tables |
| `PullLedger.InsertItems` | pdp/pull_types.go:324-333 | inserts exactly the request's items, failing exactly when two collide on the primary key |
| `PullLedger.CreateTransaction` | pdp/pull_types.go:281-355 | finds the pull of that key, or refuses, rolls back or admits, each with its exact effect on every table |
| `PullLedger.PullStore.CreatePullWithPieces` | pdp/pull_types.go:281-355 | commits that transaction's outcome |
| `PullLedger.PullStore.CleanupOldPulls` | pdp/handlers.go:1323-1356 | old pulls go with their items, and a ref goes exactly when only old pulls held it and it is not promoted |
| `PullLedger.OldRefsAre` | pdp/handlers.go:1324-1346 | which refs the first cleanup statement deletes |
| `PullLedger.FiveDaySweeps` | pdp/handlers.go:1323-1356 | the two statements with their cascades meet that description; younger pulls, items and promoted refs are untouched |
| `PullProtocol.CleanedItem` | tasks/pdpv0/task_pull_piece.go:1175-1251 | what cleaning a pull-owned row does to each item: unfinished owned ones are detached, all flags stay |
| `PullRefs.ReleaseAndDrop` | tasks/pdpv0/task_pull_piece.go:1175-1251 | detaching unfinished items and deleting exactly the refs they held keeps every reference sound and accounted for |
| `PullRefs.CleanOwnedKeeps` | tasks/pdpv0/task_pull_piece.go:1175-1251 | cleanup of a pull-owned row keeps the invariant |
| `PullRefs.ExpireKeeps` | tasks/pdpv0/task_pull_piece.go:287-505 | so does expiring any set of unfinished items |
| `PullRefs.PullKeeps` | tasks/pdpv0/task_pull_piece.go:677-797 | so does claiming a row, cleaning a stale one first if need be, and attaching a fresh ref to each item |
| `PullRefs.CompleteKeeps` | tasks/pdpv0/task_pull_piece.go:1254-1321 | so does completing an item with or without an existing ref |
| `PullRefs.FailKeeps` | tasks/pdpv0/task_pull_piece.go:1047-1127 | so does a permanent failure |
| `PullRefs.CollectKeeps` | tasks/pdpv0/task_piece_gc.go:219-241 | so does collecting a promoted piece |
| `PullRefs.CreateKeeps` | pdp/pull_types.go:281-355 | so does every outcome of admission |
| `PullRefs.SweepKeeps` | pdp/handlers.go:1323-1356 | so does the five-day cleanup |
| `PullRefs.StepKeeps` | tasks/pdpv0/task_pull_piece.go:237-797 | every step of the protocol keeps the invariant |
| `PullRefs.RunKeeps` | tasks/pdpv0/task_pull_piece.go:237-797 | it holds in every state of every run from empty tables |
| `PullRefs.NoRefLeaks` | tasks/pdpv0/task_pull_piece.go:1175-1251 | in every run a ref that is neither foreign nor promoted is held by exactly one unfinished item |
| `PullRefs.NoDanglingPointer` | harmony/harmonydb/sql/20260521-pdp-v0-pull-refactor.sql:16-20 | in every run no foreign key dangles: refs point at rows, piecerefs at refs, items at pulls, and both item pointers at a ref and at a row |
| `PullRefs.PromotionNeverCollides` | tasks/pdpv0/task_pull_piece.go:1254-1321 | completing an active item never violates the uniqueness of a pieceref's ref |
| `PullRefs.RetryOverwritesNothing` | tasks/pdpv0/task_pull_piece.go:690-797 | after cleaning a stale row no unfinished item of the piece holds a ref and the row is no longer pull-owned |
| `PullRefs.OnePullPerKey` | pdp/pull_types.go:281-355 | at most one pull per service, extra-data hash, data set and record keeper, in every run |
| `PullEffects.CleaningIsExact` | tasks/pdpv0/task_pull_piece.go:1175-1251 | cleaning a pull-owned row detaches exactly the unfinished items recorded on it and deletes exactly their refs, and nothing else changes but the row: unfinished, it goes if nothing refers to it and is handed back to ParkPiece otherwise |
| `PullEffects.ExpiryIsExact` | tasks/pdpv0/task_pull_piece.go:287-490 | expiry fails and detaches exactly the stale items and deletes exactly the refs they held; of the rows created for them, unfinished ones are handed back if something refers to them and deleted otherwise if still kept from ParkPiece; nothing else changes |
| `PullEffects.DirectClaimIsExact` | tasks/pdpv0/task_pull_piece.go:677-684 | a claim creates a row, unfinished and kept from ParkPiece, exactly when the piece has none, and changes nothing else |
| `PullEffects.PullAttaches` | tasks/pdpv0/task_pull_piece.go:758-794 | attaching changes exactly the chosen items and adds exactly the refs given out |
| `PullEffects.PullGivesOwnRef` | tasks/pdpv0/task_pull_piece.go:677-797 | in every run PullPiece changes exactly the chosen items: each gets a ref that did not exist before, to the row of its piece, held by no other item, and has that row recorded as its own, unfinished and kept from ParkPiece, exactly when the task created it |
| `PullEffects.CompletionServes` | tasks/pdpv0/task_pull_piece.go:1254-1321 | a completed item holds a newly promoted ref to the complete row of its piece, the one it had or else a new one, and no other item, ref or row changes |
| `PullEffects.CollectionIsExact` | tasks/pdpv0/task_piece_gc.go:219-241 | collecting a promoted ref removes it and the pointers to it, and nothing else |
| `PullEffects.FlagsMoveOnlyBy` | tasks/pdpv0/task_pull_piece.go:237-797 | in every run an item becomes complete only by its completion and failed only by a permanent failure or its expiry, and each of them has that effect |
| `PullEffects.FailureIsExact` | tasks/pdpv0/task_pull_piece.go:1065-1087 | a permanent failure marks the item and changes nothing else |
| `PullProgress.CleansExactly` | tasks/pdpv0/task_pull_piece.go:690-738 | a claim cleans first exactly when an earlier task left an unfinished row of its own for the piece |
| `PullProgress.PullAlwaysPossible` | tasks/pdpv0/task_pull_piece.go:677-797 | in every reachable state, for any of the items of a piece that need a ref, a claim and refs exist for all of them: the task is never stuck |
| `PullProgress.OnlyChosenAttached` | tasks/pdpv0/task_pull_piece.go:758-794 | only active items of the piece without a ref, or with one that had to be cleaned, are ever attached |
| `PullProgress.EveryItemCanComplete` | tasks/pdpv0/task_pull_piece.go:1254-1321 | every run can go on so that a given active item is completed |
| `PullAdmission.AdmissionAdds` | pdp/pull_types.go:281-355 | admission adds exactly the request's keys to the active set and to its client, and changes no other client |
| `PullAdmission.OtherStepsShrink` | tasks/pdpv0/task_pull_piece.go:237-797 | no step but admission makes a piece active |
| `PullAdmission.CapsHold` | pdp/pull_types.go:158-167 | in every run at most 120 unique active pieces, at most 108 of one client |
| `PullAdmission.OutcomeExactly` | pdp/pull_types.go:281-355 | in every run, when a request finds its pull, is refused, rolls back or is admitted, each if and only if |
| `PullAdmission.OtherKeysAre` | pdp/pull_types.go:470-477 | what the other clients hold is what each of them holds |
| `PullAdmission.LoneClientBorrows` | pdp/pull_types.go:513-525 | in every run a client that is alone may have up to 108 pieces, and no more |
| `PullAdmission.NewcomerExactly` | pdp/pull_types.go:496-525 | a client with nothing active and at most ten pieces is admitted if and only if the global cap allows it |
| `PullAdmission.LoneBorrowerStarvesNobody` | pdp/pull_types.go:496-525 | in every reachable state where one client holds everything active, ten pieces of any other client are admitted |
| `PullAdmission.SameKeySamePull` | pdp/pull_types.go:289-313 | asking again with the same key finds the same pull, as long as it lives, and changes no table |
| `PullAdmission.RefusalChangesNothing` | pdp/pull_types.go:315-322 | a refusal leaves every table as it was, a cap was indeed exceeded, and the wait fits the excess |
| `PullStatus.StatusFromItem` | pdp/pull_types.go:400-417 | terminal exactly for finished items, failed exactly for failed ones, pending exactly without a live task |
| `PullStatus.PullResponse.ComputeOverallStatus` | pdp/pull_types.go:186-235 | terminal only when every piece is, complete as soon as one then is, otherwise the most active kind of work |
| `PullStatus.OverallIsUnique` | pdp/pull_types.go:186-235 | that description determines the status |
| `PullStatus.DocumentedOrderExactly` | pdp/handlers_pull.go:234-235 | the status is the documented worst case if and only if no piece failed or all did |
| `PullStatus.DocumentedOrderFails` | pdp/handlers_pull.go:234-235 | a failed and a complete piece: documented failed, computed complete |
| `PullStatus.ReportedWorstExactly` | pdp/handlers_pull.go:234-235 | the same condition on the items of a pull in the ledger |
| `PullStatus.TerminalMeansIdle` | pdp/pull_types.go:186-235 | the overall status is terminal exactly when the pull has items and none is active |
| `PullStatus.TerminalForGood` | pdp/pull_types.go:186-235 | once a client was told complete or failed, every later answer in any run says the same |
| `ExtensionGroups.AddToBucket` | cmd/sptool/sector.go:1027-1041 | a sector joins some bucket within tolerance if there is one, otherwise it starts its own |
| `ExtensionGroups.ClampedIsBest` | cmd/sptool/sector.go:989-1013 | for either flag, the expiration aimed at is the latest one no later than asked for, than the maximum extension from now, and than the maximum lifetime |
| `ExtensionGroups.WorthExactly` | cmd/sptool/sector.go:1015-1017 | a sector is skipped exactly when the best it can get is not later than what it has, or by no more than the tolerance |
| `ExtensionGroups.GroupSectors` | cmd/sptool/sector.go:987-1043 | yields a possible grouping; fails exactly when a sector worth extending has no location |
| `ExtensionGroups.GroupingPlaces` | cmd/sptool/sector.go:987-1043 | for every map order each sector worth extending gets one group of its partition, strictly later than its expiration, within the limit and within tolerance of its own target |
| `ExtensionGroups.PlacedGains` | cmd/sptool/sector.go:987-1043 | such a place lies in the partition of the sector, gains, and is within the tolerance of the best it can get; a sector without one was not worth extending |
| `ExtensionGroups.GroupsApart` | cmd/sptool/sector.go:1027-1041 | for every map order no two groups of a partition are within tolerance of each other |
| `ExtensionGroups.WorthyAre` | cmd/sptool/sector.go:1015-1017 | which sectors are worth extending |
| `ExtensionGroups.NothingLostOrDoubled` | cmd/sptool/sector.go:987-1043 | for every map order, pooling the buckets of all groups gives back the sectors worth extending, as a multiset |
| `ExtensionGroups.BucketsKeptExactly` | cmd/sptool/sector.go:1027-1041 | adding a sector keeps every bucket if and only if the tolerance is not negative |
| `ExtensionLimits.GroupedKeys` | cmd/sptool/sector.go:1018-1041 | every bucket key is the clamped target of some sector worth extending |
| `ExtensionLimits.GroupedMembers` | cmd/sptool/sector.go:1018-1041 | for every tolerance, a bucket's members are sectors worth extending whose own targets are the key or within tolerance of it |
| `ExtensionLimits.OverstaysByTolerance` | cmd/sptool/sector.go:1000-1041 | under any network limits that leave room, and at any epoch at which such sectors exist, two live sectors are grouped so that one passes its maximum lifetime |
| `ExtensionLimits.MaxLifeRespectedExactly` | cmd/sptool/sector.go:724-724 | for given limits and live sectors the promise of the help text holds if and only if the tolerance is not positive or leaves no room for two different new expirations |
| `ExtensionLimits.HelpTextHoldsExactly` | cmd/sptool/sector.go:734-735 | with the limits the help text names: only without a positive tolerance, or with one of at least 3680639 epochs |
| `ExtensionLimits.LosesASector` | cmd/sptool/sector.go:1027-1041 | with a negative tolerance, under any limits and at any epoch, the second of two like sectors replaces the first |
| `ExtensionLimits.ConservesExactly` | cmd/sptool/sector.go:987-1043 | for given limits, grouping loses and doubles no sector if and only if the tolerance is not negative or no sector can be worth extending |
| `ExtensionMessages.JudgeClaim` | cmd/sptool/sector.go:1116-1140 | kept exactly when the claim is known and outlives the new expiration, dropped exactly when it does not and the sector is known and both FIP-0045 conditions and the flag hold, an error exactly when a lookup fails |
| `ExtensionMessages.ScanClaims` | cmd/sptool/sector.go:1115-1143 | how far the claim loop gets, what it collected and when it fails |
| `ExtensionMessages.StopMeans` | cmd/sptool/sector.go:1110-1155 | where the loop stops decides whether the sector is named and whether it gets a split |
| `ExtensionMessages.SplitIsGood` | cmd/sptool/sector.go:1120-1140 | when all claims pass, kept and dropped ones are a disjoint split: kept outlive the new expiration, dropped ones meet the flag and both FIP-0045 conditions |
| `ExtensionMessages.ScanSector` | cmd/sptool/sector.go:1106-1155 | a sector is named, declared or faulty as its claims say |
| `ExtensionMessages.ScanBatch` | cmd/sptool/sector.go:1102-1157 | a batch's sector set and splits are exactly those of its listed and declared sectors |
| `ExtensionMessages.BatchesJoin` | cmd/sptool/sector.go:1094-1100 | batches concatenate back to the group, hold between one and batchSize sectors, and all but the last hold batchSize |
| `ExtensionMessages.BatchMessage` | cmd/sptool/sector.go:1102-1169 | one message for a batch that names a sector, none otherwise |
| `ExtensionMessages.GroupMessages` | cmd/sptool/sector.go:1094-1171 | the slicing loop renders every batch of the group in order |
| `ExtensionMessages.PartitionMessages` | cmd/sptool/sector.go:1081-1171 | the loop over one partition's expirations, in any map order |
| `ExtensionMessages.BuildMessages` | cmd/sptool/sector.go:1078-1172 | every group is rendered exactly once, or the run fails exactly when a claim or sector cannot be looked up |
| `ExtensionTheorems.MessagesAreBounded` | cmd/sptool/sector.go:1078-1172 | every message names between one and batchSize sectors, and splits only claims of sectors it names |
| `ExtensionTheorems.PassesExactly` | cmd/sptool/sector.go:1116-1140 | a claim lets the sector through exactly when it outlives the new expiration or may be dropped, in epochs |
| `ExtensionTheorems.NamedExactly` | cmd/sptool/sector.go:1106-1155 | a sector is named exactly when it has no claims entry or its first claim lets it through, and gets a split exactly when it has claims and all of them do |
| `ExtensionTheorems.NamedWithoutSplitExactly` | cmd/sptool/sector.go:1142-1155 | a sector with claims is named without a split exactly when its first claim passes and a later one does not |
| `ExtensionTheorems.SkippedSectorIsNamed` | cmd/sptool/sector.go:1129-1155 | at any epoch and under any limits, a run with one sector whose second claim stands in the way succeeds, and its only message names the sector without a split |
| `ExtensionTheorems.NamedSectorsGain` | cmd/sptool/sector.go:987-1172 | from sectors to messages: a named sector was asked for, lies in that partition, gains, stays within the limits and within the tolerance of the best it can get |
| `ExtensionTheorems.MemberNamedExactly` | cmd/sptool/sector.go:1078-1172 | a member of a group is named in its messages if and only if its claims let it be listed |
| `ExtensionTheorems.WorthySectorsAreNamed` | cmd/sptool/sector.go:987-1172 | every sector worth extending has a suitable group, and is named there exactly when its claims allow |
| `ExtensionTheorems.NamedNoMoreThanAsked` | cmd/sptool/sector.go:987-1172 | a sector is named in at most as many messages as it was asked for and worth extending |
| `ExtensionTheorems.MessagesAreDisjoint` | cmd/sptool/sector.go:987-1172 | when the sectors asked for are different, no two messages name the same one |
| `DeadlineWalk.ClosedDeadlines` | alertmanager/alerts.go:545-583 | fails exactly on inconsistent metadata; otherwise exactly the deadlines closed in the window, each once, latest first, across period wraps |
| `DeadlineWalk.SameClose` | alertmanager/alerts.go:561-583 | two deadlines closing less than a window apart are the same |
| `DeadlineWalk.EveryDeadlineExamined` | alertmanager/alerts.go:471-583 | checks at most N-4 epochs apart examine every deadline of a fixed grid between the first window's start and the last one's end |
| `DeadlineWalk.GapMissesADeadline` | alertmanager/alerts.go:471-583 | over any larger gap, a deadline closing just before the later window goes unexamined |
| `DeadlineWalk.CoverageExactly` | alertmanager/alerts.go:471-583 | every closing epoch is covered if and only if there is no such gap |
| `PieceSizes.PaddedIsLeast` | tasks/pdpv0/task_pull_piece.go:681-681 | the padded size a parked row is created with is the least legal size that can hold the data |
| `PieceSizes.PadPieceSizeIsLeast` | pdp/piece_cid.go:123-129 | zero exactly for no data, and otherwise the least legal size that can hold it |
| `PieceSizes.PaddedMonotone` | pdp/piece_cid.go:123-129 | padding is monotone |
| `SubPieceLayout.CollectPiece` | pdp/handlers_add.go:54-82 | the first pass over one piece refuses malformed sub-pieces and repeats anywhere in the request so far |
| `SubPieceLayout.CollectCids` | pdp/handlers_add.go:51-87 | succeeds exactly when all entries are well formed and no sub-piece occurs twice in the request |
| `SubPieceLayout.LoadInfos` | pdp/handlers_add.go:94-138 | one record per known CID, from its first row, no record shared |
| `SubPieceLayout.FirstIsFirst` | pdp/handlers_add.go:94-138 | the row used for a CID is the first one stored for it |
| `SubPieceLayout.LayOutPiece` | pdp/handlers_add.go:148-169 | writes each sub-piece's running offset through the shared records and touches no other record |
| `SubPieceLayout.RunningIsPrefix` | pdp/handlers_add.go:148-169 | the wrapping running sum is the prefix sum modulo 2^64 |
| `SubPieceLayout.LayOutAll` | pdp/handlers_add.go:148-188 | succeeds exactly when every piece CID aggregates, and then all offsets hold together |
| `SubPieceLayout.CheckSizes` | pdp/handlers_add.go:219-235 | passes exactly when padded sizes never grow and the raw sizes sum to the declared one |
| `SubPieceLayout.CheckAll` | pdp/handlers_add.go:201-253 | those checks for every piece, and the call data: the piece CIDs in request order |
| `SubPieceLayout.TransformAddPieces` | pdp/handlers_add.go:51-253 | succeeds exactly on acceptable requests, with every offset in place and the piece CIDs as call data |
| `SubPieceLayout.ReadBack` | pdp/handlers_add.go:496-523 | what is read later through the shared map is each sub-piece's own prefix sum |
| `SubPieceLayout.InsertPieceAdds` | pdp/handlers_add.go:496-533 | one row per sub-piece in request order, with data set and message hash of the call, piece CID, index and sub-piece CID of the request, its own prefix sum as offset, and size and ref of its stored row |
| `SubPieceLayout.ColumnsAre` | pdp/handlers_add.go:515-522 | those columns one by one, for the row at the position of each sub-piece |
| `SubPieceLayout.Aligned` | pdp/handlers_add.go:219-231 | in an accepted order every sub-piece starts at a multiple of its own size |
| `SubPieceLayout.TilesExactly` | pdp/handlers_add.go:148-169 | the sub-pieces tile the piece without gap or overlap |
| `SubPieceLayout.AcceptedLayout` | pdp/handlers_add.go:51-253 | for accepted requests with padded sizes and no overflow the recorded offset is the prefix sum and a multiple of the size |
| `SubPieceLayout.FlawedRefused` | pdp/handlers_add.go:51-253 | each flaw of one piece is enough to refuse the request |
| `SubPieceLayout.RepeatRefused` | pdp/handlers_add.go:63-80 | so is a sub-piece that occurs twice, be it in different pieces |
| `SubPieceLayout.FlatRepeats` | pdp/handlers_add.go:63-80 | no sub-piece occurs twice exactly when the list of all of them has no repeats |
| `ClientChunks.ChunkPads` | cmd/pdptool/main.go:748-749 | a full chunk pads to exactly the memtree limit and nothing shorter exceeds it |
| `ClientChunks.NoRoomMeansFull` | cmd/pdptool/main.go:842-849 | a set of full chunks without room for one more piece is exactly full |
| `ClientChunks.AddPieceToSets` | cmd/pdptool/main.go:842-853 | one more piece in the last set, or in a new one exactly when the last would overflow, with its running size |
| `ClientChunks.UploadFile` | cmd/pdptool/main.go:785-858 | for every file size the pieces are the file's consecutive chunks, all full but the last, in sets that fit a 64 GiB sector, fill it when another follows, and never grow in size; it fails only when preparing a chunk fails |
| `ClientChunks.ClientMeetsServer` | cmd/pdptool/main.go:785-858 | the server accepts what the client makes of a non-empty file if and only if its chunks' v1 CIDs are all different and the raw sizes stored for them sum to the client's, set by set |
| `ClientChunks.OwnRowsAgree` | pdp/handlers_add.go:219-235 | the raw sizes agree where the first stored row of each chunk is the client's own |
| `ClientChunks.ClientIsLaidOut` | cmd/pdptool/main.go:785-858 | an accepted client request is recorded with each offset the sum of the sizes before it and a multiple of its own size, with no further hypothesis |
| `ClientChunks.ClientIsTiled` | cmd/pdptool/main.go:785-858 | and the recorded rows of a set tile its padded total |
| `ClientChunks.TwinChunksRefused` | cmd/pdptool/main.go:785-858 | a file of two full chunks with the same CID, with the tables it leads to, is refused |
| `ClientChunks.ShorterTwinRefused` | pdp/handlers_add.go:233-235 | with 100 zero bytes stored, the file of 100 zero bytes is accepted and that of 120 is refused, although no chunk is repeated |
| `ProviderRetry.NextHealthyProvider` | deps/apiinfo.go:180-191 | the first healthy provider going round from the start, or the all-bad mark exactly when none is healthy |
| `ProviderRetry.Call` | deps/apiinfo.go:276-357 | attempts follow the next healthy provider, end for the stated reason, start at the settled node if any, and settle on the last one used |
| `ProviderRetry.EndExactly` | deps/apiinfo.go:340-357 | the last attempt decides why a call ends, each reason if and only if; every earlier one met a retryable error while the caller was waiting |
| `ProviderRetry.CallTwice` | deps/apiinfo.go:145-147 | of two calls on one single-node context the second starts where the first ended |
| `ProviderRetry.NextInList` | deps/apiinfo.go:180-191 | choosing goes round the list of healthy providers |
| `ProviderRetry.CallGoesRound` | deps/apiinfo.go:299-315 | under steady health, from its first healthy attempt and at the latest from the second, a call visits only healthy providers, cyclically, and as many different ones as it can |
| `ProviderRetry.RetryBudget` | deps/apiinfo.go:340-357 | only retryable errors and no cancellation mean five attempts when any provider is healthy and one when none is |
| `ProviderRetry.OrdinaryCall` | deps/apiinfo.go:276-357 | such an ordinary call with h healthy providers makes five attempts, in cyclic order, on min(h, 5) different healthy ones and on no other |
| `AlertQueue.AlertTables.EmitEvent` | alertmanager/curioalerting/curioalerting.go:39-61 | appends exactly one pending event with that name and message and changes nothing else, or refuses empty fields and changes nothing |
| `AlertQueue.AlertTables.ActivateCondition` | alertmanager/curioalerting/curioalerting.go:63-92 | starts a fresh pending episode, or bumps the running one and keeps its episode and notification mark; other keys, events and history untouched |
| `AlertQueue.AlertTables.ResolveCondition` | alertmanager/curioalerting/curioalerting.go:94-127 | moves the running episode with its repeat count to the history as exactly one row; other keys untouched, nothing happens without one |
| `AlertQueue.IsAlertMuted` | alertmanager/task_alert.go:448-463 | muted exactly when some mute matches name and pattern |
| `AlertQueue.ContainsExactly` | alertmanager/task_alert.go:448-463 | a pattern matches exactly when the message is something, the pattern, and something |
| `AlertQueue.AlertTables.CollectEvents` | alertmanager/task_alert.go:318-348 | every pending event in exactly one list, and the unmuted names in the payload |
| `AlertQueue.AlertTables.CollectConds` | alertmanager/task_alert.go:350-385 | the same for conditions |
| `AlertQueue.AlertTables.CollectQueuedAlerts` | alertmanager/task_alert.go:318-385 | both together; whatever is listed for sending puts something into the payload |
| `AlertQueue.AlertTables.MarkQueuedAlertsProcessed` | alertmanager/task_alert.go:387-417 | row by row: an event changes exactly when it is named and pending, a condition exactly when it is named, and then only in its mark |
| `AlertQueue.MarkedExactly` | alertmanager/task_alert.go:387-417 | the same of the two updates as functions on the tables |
| `AlertRuns.RunNumbered` | alertmanager/curioalerting/curioalerting.go:63-127 | in every run each row has an episode of its own and a resolved episode never returns |
| `AlertRuns.EpisodeSelectedOnce` | alertmanager/task_alert.go:276-314 | under any interleaving an episode is selected twice only if a run broke off in between |
| `AlertRuns.EventSelectedOnce` | alertmanager/task_alert.go:276-314 | the same for events |
| `AlertRuns.RecordsStay` | alertmanager/task_alert.go:387-417 | what was recorded as sent or resolved stays so |
| `AlertRuns.MarkedEventWasListed` | alertmanager/task_alert.go:318-417 | in every run an event stays pending until a collection lists it, and is recorded as sent to plugins only if it was listed for sending and a send followed |
| `AlertRuns.MarkedCondWasListed` | alertmanager/task_alert.go:350-417 | a marked condition was listed under its key by some collection |
| `AlertRuns.FinishedRunRecords` | alertmanager/task_alert.go:275-314 | after a run that did not break off, every event pending at its start is recorded, as sent to plugins exactly when there are plugins and nothing mutes it |
| `AlertRuns.FinishedRunMarks` | alertmanager/task_alert.go:275-314 | and every condition episode pending at its start is marked, unless it is over |
| `AlertRuns.RunCanEnd` | alertmanager/task_alert.go:279-314 | a run in progress can always be brought to its end |
| `AlertRuns.ResolvedRowsCount` | alertmanager/curioalerting/curioalerting.go:72-122 | a history row's repeat count is the episode's activations less one, and no episode has two rows |
| `AlertRuns.MarkHitsSelectedExactly` | alertmanager/task_alert.go:402-414 | a mark hits the selected episode if and only if that episode began before the collection |
| `AlertRuns.SilencedEpisode` | alertmanager/task_alert.go:402-414 | for every condition a run exists that marks an episode nobody selected |
| `AlertRuns.BrokenRunRepeats` | alertmanager/task_alert.go:284-305 | a run that breaks off before marking leads to a second selection |
| `StorageDiscovery.Discovery.AddPath` | pdpnode/storage_discover.go:90-105 | keeps one canonical path per file among the paths offered so far |
| `StorageDiscovery.Discovery.ScanChildren` | pdpnode/storage_discover.go:133-151 | queues the passable directories of one listing in order and offers its writable hot-data directory |
| `StorageDiscovery.HotOneLevel` | pdpnode/storage_discover.go:133-151 | what lies below a directory is in it or below a child that is entered |
| `StorageDiscovery.Discovery.Scan` | pdpnode/storage_discover.go:115-152 | the queue loop ends, fails exactly when a directory within reach is unreadable, and otherwise offers exactly the reachable writable hot-data directories |
| `StorageDiscovery.DiscoverWritableStoragePaths` | pdpnode/storage_discover.go:74-156 | a sorted list with one entry per file for the writable root and the hot-data directories at most three levels down; empty for a missing root, an error exactly in the error cases |
| `StorageDiscovery.WantedExactly` | pdpnode/storage_discover.go:107-151 | what is listed, in plain words: the writable root and the writable hot-data directories at most three levels down, each under the path that spells out the way, which avoids every directory to be left alone |
| `StorageDiscovery.BelowExactly` | pdpnode/storage_discover.go:154-154 | the order is that of the bytes at the first difference |
| `StorageDiscovery.SortStringsSorts` | pdpnode/storage_discover.go:154-154 | sorted in byte order, and the same strings |
| `StorageDiscovery.ListedOnce` | pdpnode/storage_discover.go:90-105 | a wanted directory has exactly one entry, however many paths lead to it |
| `StorageDiscovery.OneEntryPerFile` | pdpnode/storage_discover.go:90-105 | no two entries are equal or name one file, and every wanted path has an entry that is its canonical form or names the same file |

## Left out

- HTTP handlers, JSON, authentication, command-line parsing, logging and the web interface.
- CID conversion, CommP and piece aggregation: they are parameters of the add handler and of the client.
- The PullPiece task's transactions, its scheduling, downloads and retry counters: each transaction is a function on the table values, not a method, so the order of statements inside one is not captured; which items are stale, which sources fail and when tasks run is arbitrary.
- Duplicate active parked rows: the model keeps rows unique by CID and padded size, as the partial unique index does. The non-atomic fallback used while that index is invalid (lib/parkpiece/upsert.go:96-107) can create duplicates for a time.
- The long-term flag and the cleanup mark of parked rows: only active long-term rows are modelled.
- The single-statement race windows between reading and marking: collecting queued alerts and marking conditions are each one step of the run model, while the code issues one statement per table and per condition.
- A pull item of raw size zero: `PadPieceSize` returns 0 for it (pdp/piece_cid.go:126-128) while its row is created with 128, so the code finds no complete row where the model allows a completion.
- Failures of the database itself, other than the roll-back of a transaction that inserts colliding items.
- SubPieceLayout.LoadInfos: has no error for an undecodable CID in a row, because the query selects only rows whose CID is the string of a CID the handler has just parsed.
- ClientChunks.UploadFile: folds the errors of reading, uploading and listing a chunk into the failure of preparing it; each ends the loop in the same way.
- AlertQueue.AlertTables.CollectQueuedAlerts: models the names in the payload, not the text and its truncation (alertmanager/task_alert.go:423-442).
- Alerts computed by the periodic checks, which share a run's payload but not the queue tables; `permanentStorageCheck`, which subtracts from a loop copy and so does not do what it documents.
- The back-off sleeps between attempts, the provider health watcher and the classification of errors in the proxy.
- The message cost limit and confirmation dialogue of `sectors extend`, and how sectors are chosen for it before clamping.
- Writing the storage configuration for discovered paths, and symbolic links: an entry that is not a directory is ignored, as in the source.
- `discardOrphanPiecrefsForSubPieces` and the cleanup of streaming uploads, which need the snapshot semantics of the database.
- DeadlineWalk.EveryDeadlineExamined: needs deadline parameters that do not change between checks, because a changed grid has other deadlines.
- ProviderRetry.CallGoesRound: assumes health flags that do not change during one call, as do the results built on it; with changing flags each attempt still follows `ProviderRetry.Call`.
