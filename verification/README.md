# Verified model of the vault synchronisation service

The service keeps groups of IP records on remote vaults up to date. It ingests external feeds, replicates
one vault's changes to others, delivers record batches over an unreliable network, and guards its own API
with keys, permission rows and signed requests. This project models that logic in Dafny and proves what
the service promises about it, for all inputs and all runs.

| file | models |
|---|---|
| `RemoteVault.dfy` | a record group on a receiving vault, and the meaning of an upsert and of a replacing batch |
| `Backoff.dfy`, `Delivery.dfy` | one request, the retry loop, and the split-in-half work queue, against an arbitrary network |
| `Late.dfy` | requests that take effect after their outcome was reported, in any order the network allows |
| `Jobs.dfy` | chunking, the mode of each chunk, pushing to every target, the job slots |
| `Ingestion.dfy` | filtering and merging of feeds, and the outcome of an ingestion run |
| `SyncProtocol.dfy`, `SyncJob.dfy` | inter-vault replication as a state machine, and one run of the job as a path of it |
| `Keys.dfy` | API keys, grants and ownership as a state machine |
| `Replay.dfy`, `ReplayConcurrent.dfy` | the anti-replay ledger, sequentially and under every interleaving of its locks |
| `Proxies.dfy` | the walk over `X-Forwarded-For`, and the cache of resolved proxy names |
| `Bogon.dfy` | CIDR blocks and the reserved-range filter |
| `Feed.dfy` | the line parser, and unpacking of zipped feeds under a byte budget |
| `Primes.dfy`, `Fips180.dfy`, `Sha256Fallback.dfy` | the first primes, SHA-256 and HMAC by their standards, and the browser fallback that computes them |

## The main results

* **Delivery is atomic in effect.** A network is any function from request number to reply, where a
  refused or broken request may still have been applied. At every point of every delivery, finishing what
  is still owed in one request would give exactly one atomic batch of the whole list
  (`Delivery.DeliveryRefinesAtomicBatch`). The queue loop, the chunk loop and the target loop are proved
  to produce only such deliveries, within a bound on requests and sleep.
* **Late effects.** A failed request may take effect at any later moment, even after later requests. An
  upsert delivery of a list survives every such order if and only if its records do not contradict each
  other (`LateDelivery.LateUpsertIff`), which holds for everything the service sends. In either mode, a
  delivery of such a list survives every order if and only if each replacing request that took effect
  without being accepted carried every address the list leaves live (`LateDelivery.LateLandingIff`).
* **The mirror theorem.** In every reachable state, every kept source row last changed before the stored
  high-water mark is mirrored in every target (`SyncProtocol.MirrorTheorem`). The imperative run, from its
  start time through paging, filtering and pushing to the stored mark, is a path of that machine in every
  shuffle with clock ticks, source changes, other triggers and drops, and lock poisoning
  (`SyncJob.SyncTask.Run`), so its targets really are mirrors afterwards (`SyncJob.RunMirrors`).
* **Who may do what.** One call changes only what its caller may change: keys below the caller, rows on
  resources it manages, resources it owns (`Keys.WhoseKeys`, `Keys.WhoseRows`, `Keys.WhoseResources`), and
  for every handler it is stated exactly when it is done and what it then does.
* **Confinement.** Without the Master, a verb on a resource can reach a key that did not hold it if and
  only if some key can delegate it (`Keys.SpreadsIffDelegable`); global flags only shrink.
* **Forgetting is invisible.** The swept replay ledger answers like one that never forgets
  (`Replay.ReplayGuard.CheckAndRecord`). Under every interleaving of its locks, exactly when a call is
  accepted is stated in terms of the earlier acceptances and sweeps (`ReplayConcurrent.AcceptedIff`).
* **The fallback is SHA-256.** The signed 32-bit, in-place JavaScript computes FIPS 180-4 and RFC 2104
  (`Sha256Fallback.Sha256Bytes`, `Sha256Fallback.HmacSha256`); the constant tables are proved to be the
  root fractions that the standard prescribes, of primes proved to be the first ones.

## Where the code does less than a reader may expect

* A replacing request that times out and takes effect after later pieces were accepted takes down, unnoticed,
  exactly the addresses owed beyond its own piece that nothing landing later carries
  (`LateDelivery.LateReplaceTakesDown`); `LateDelivery.LateReplaceHappens` is such a delivery of two
  addresses. A request of an earlier replication run that lands on a mirrored row undoes the mirroring
  exactly when the row has changed since in something it carries (`LateService.StrayKeepsMirrorIff`).
* A request that goes away while trusted proxy names are being looked up leaves the answers it got beside the
  old snapshot. The stored snapshot then lags (`ProxyCache.TrustedProxies.SnapshotLagsIff`,
  `ProxyCache.SnapshotCanLag`), but it is never served in that state.
* A replacing run of an empty list sends nothing and clears nothing. It has the effect of replacing
  exactly when the target has nothing live (`Ingestion.EmptyReplaceClearsNothing`).
* Cutting a comment does not always leave the longest prefix without a marker: it does exactly when the
  first comment of the line does not start with two slashes (`Lines.CutIsLongestIff`, `Lines.CutCanBeShort`).
* Concurrent calls less than a window apart can both pass the replay ledger. It happens exactly when a
  sweep that reads a full window after an acceptance gets the lock before a call which that acceptance
  should have refused (`ReplayConcurrent.TooCloseIffLateSweep`); `ReplayConcurrent.LateSweepForgets` is such
  a run, with two calls three quarters of a window apart.
* Joining archive members can exceed the byte limit by one separator, exactly when the last file fills its
  budget and a separator precedes it (`Archive.OvershootsIff`, `Archive.OvershootHappens`).
* Once the job lock is poisoned, a dropped guard leaves its job marked as running for good; without that,
  the running set is exactly the jobs with a live guard (`SyncProtocol.NoOverlap`).
* With a chunk size of zero the chunking loop drops its whole input; the service only uses 5,000
  (`Jobs.ChunkRecords`).
* Text prepended to `X-Forwarded-For` can decide the resolved address when the proxies' own chain holds no
  untrusted entry (`ForwardedFor.ForgeryHarmlessIff` says exactly when, `ForwardedFor.ForgeryCanDecide` is
  such a header in dotted quads).
* The comment on `BatchMode::parse` asks callers not to fall back to a default; the ingestion job does
  fall back, to upsert. The model follows the job.

## Model

| member | source | states |
|---|---|---|
| `RemoteVault.UpsertAt` | tests/common/mod.rs:488-528 | the records of a batch act on each address only through that address's own records, in order |
| `RemoteVault.FoldIsSummary` | tests/common/mod.rs:493-528 | a run of records for one address leaves the last flags and stamps, the last carried cause and sighting, and the creation stamp of the first row |
| `RemoteVault.UpsertMeans` | src/client.rs:48-49 | an upsert batch leaves the field-by-field summary at every named address and touches no other |
| `RemoteVault.UpsertTwice` | src/client.rs:48-49 | sending an upsert batch twice is sending it once, with duplicates and omitted fields |
| `RemoteVault.ReplaceThenUpsert` | src/client.rs:50-55 | a replacing head followed by the tail as an upsert equals the whole as one replacing batch |
| `RemoteVault.ReplaceTwice` | src/client.rs:50-55 | a replacing batch is idempotent |
| `RemoteVault.SecretAttemptAbsorbed` | src/client.rs:47-56 | an applied but unacknowledged head is absorbed by any later batch that starts with it in the same mode |
| `RemoteVault.HeadThenTail` | src/client.rs:318-322 | an accepted head in the run's mode and then the tail as an upsert is the whole batch |
| `RemoteVault.ReplaceLiveSet` | tests/common/mod.rs:530-546 | after a replacing batch an address is live exactly when its last record in the batch is not a tombstone |
| `RemoteVault.ReplaceMeans` | tests/common/mod.rs:488-546 | a replacing batch leaves the summary at every named address, marks every other live row deleted and updated on arrival with the rest kept, and changes nothing else |
| `Backoff.Delay` | src/retry.rs:23-32 | every delay lies between the capped exponential and that plus the larger of half of it and 1 ms, and is at most 45 s |
| `Backoff.CappedDoubles` | src/retry.rs:24-28 | the capped value starts at the base, doubles for ten steps until it saturates at 30 s, and is then constant |
| `Backoff.DelayRange` | src/retry.rs:28-31 | the delays an attempt can have are exactly the capped value and up to half as much again, or 1 ms more |
| `Delivery.DeliveryRefinesAtomicBatch` | src/client.rs:323-379 | at every point of every history, completing what is owed equals one atomic batch of the whole list |
| `Delivery.AcceptedIsPrefix` | src/client.rs:340-376 | accepted records followed by what is owed equal the input list, so each record is accepted at most once and in order |
| `Delivery.NoReplaceAfterAcceptance` | src/client.rs:364-372 | no replacing request follows an accepted piece |
| `Delivery.UpsertStaysUpsert` | src/client.rs:364-367 | a delivery in upsert mode never sends a replacing request |
| `Delivery.DeliveredEndsInUpsert` | src/client.rs:364-372 | once anything is delivered, replacing is over |
| `Delivery.CompleteDeliveryIsAtomic` | src/client.rs:323-379 | a completed delivery leaves the group of one atomic batch |
| `Delivery.BurstTracks` | src/client.rs:277-303 | the requests of one retry loop advance the delivery by its piece if accepted and not at all otherwise |
| `Delivery.SplitHeadKeepsQueue` | src/client.rs:346-372 | halving the head keeps the queued records in order and uses up one node and one split of the budget |
| `Delivery.AcceptedTurnExplains` | src/client.rs:341-342 | accepting the head piece keeps the history, queue, group and total in agreement |
| `Delivery.FailedTurnExplains` | src/client.rs:343-375 | a failed burst keeps them in agreement even when it was applied |
| `Delivery.SplitExplains` | src/client.rs:346-372 | splitting keeps them in agreement and only the first piece may still replace |
| `Delivery.TurnWithinBudget` | src/client.rs:340-376 | each turn of the queue loop stays within, and uses up, the halving-tree budget |
| `Delivery.BudgetBounds` | src/client.rs:340-376 | the budget is at most (2n-1)(R+1) requests and (2n-1)R + (n-1) pauses for n >= 1 |
| `Delivery.TotalMsBound` | src/retry.rs:28-31 | pauses of at most 45 s each add up to at most 45 s times their number |
| `Delivery.ResponsesAppend` | src/client.rs:125-132 | merged totals of two histories are the merged total of their concatenation |
| `Delivery.ResponsesAreSums` | src/client.rs:125-132 | the merged response is, counter by counter, the sum over the accepted requests |
| `Delivery.NextQueueMeans` | src/client.rs:340-375 | an accepted piece leaves the queue; one of several records refused with 413, 429, 502, 503 or 504 is replaced by its halves, the second upserting; any other error leaves the queue |
| `Delivery.TurnChains` | src/client.rs:340-375 | a request that follows a refusal repeats it, unless the status was 413, or carries its first half in the same mode |
| `Delivery.Endpoint.PostOnce` | src/client.rs:216-270 | one request is logged with its reply, the reply is reported field for field, and the remote group changes exactly when the reply says it was applied |
| `Delivery.Endpoint.PostWithRetry` | src/client.rs:277-303 | at most R+1 identical requests, all but the last refused with 429, 502, 503 or 504, pauses numbered from one, given up on one of those only with the retries spent, and the last reply is what is reported |
| `Delivery.Endpoint.Turn` | src/client.rs:340-375 | the head piece is dropped, halved in place, or left on an error that no smaller request cures, with a pause before halving unless the status is 413 |
| `Delivery.Endpoint.Advance` | src/client.rs:340-376 | one turn of the loop keeps history, queue, group, total and budget in agreement, and either makes the queue cheaper or stops on the last reply |
| `Delivery.Endpoint.Drain` | src/client.rs:335-378 | the loop invariant: history, queue, group, total and budget agree at every turn |
| `Delivery.Endpoint.PostBatch` | src/client.rs:323-379 | success leaves the atomic batch and the summed responses; an error leaves a prefix accepted and reports the last reply, and with status 413, 429, 502, 503 or 504 only for a piece of at most one record, so on a network that answers nothing worse a delivery fails only on such a piece; each request repeats the one before it or carries its first half, as the status allows; requests, pauses and sleep are bounded |
| `LateDelivery.ReplayAt` | tests/common/mod.rs:488-546 | requests landing in any order act on each address through its own records and the sweeps alone |
| `LateDelivery.CoreAfter` | tests/common/mod.rs:493-546 | cause, creation and sighting of a row depend only on the order in which its own records land, never on sweeps |
| `LateDelivery.SettledFrom` | tests/common/mod.rs:493-546 | a row keeps the flags of a record that landed unless a later replacing request misses its address |
| `LateDelivery.FirstLanded` | src/client.rs:340-372 | however late requests land, the first record to land for an address is the first one of the list |
| `LateDelivery.LandedMembers` | src/client.rs:340-376 | a completed delivery lands, for every address, exactly the list's records for it |
| `LateDelivery.LateLandingIsAtomic` | src/client.rs:323-379 | a completed delivery of records that agree is one atomic batch in every landing order that takes no live address down |
| `LateDelivery.LandingAtOnce` | src/client.rs:277-303 | requests that land when they are sent are one of those orders |
| `LateDelivery.LateLandingIff` | src/client.rs:305-322 | in either mode, every landing order gives the atomic batch exactly when each replacing request applied without acceptance carried every live address |
| `LateDelivery.StrayTakesDown` | src/client.rs:50-55 | otherwise there is an order that takes down a named address the atomic batch leaves live |
| `LateDelivery.ContradictionHarms` | src/client.rs:277-303 | a list with two records that contradict each other has a timed-out retry that ends differently |
| `LateDelivery.LateUpsertIff` | src/client.rs:48-49 | an upsert list survives every history and landing order, from every group, exactly when its records do not contradict each other |
| `LateDelivery.LateReplaceDecides` | src/client.rs:50-55 | the last replacing request to land and all that lands after it act as one replacing batch |
| `LateDelivery.LateReplaceLiveSet` | src/client.rs:50-55 | the live addresses are those of that request and of what lands after it |
| `LateDelivery.LateReplaceTakesDown` | src/client.rs:364-372 | exactly which addresses a late replacing request takes down |
| `LateDelivery.LateReplaceHappens` | src/client.rs:340-376 | two addresses cut in half: the timed-out first half takes the second one down |
| `LateService.LateIngestionIsAtomic` | src/jobs/external_ingestion.rs:245-282 | an ingestion run in upsert mode is atomic in every landing order |
| `LateService.LateReplicationIsAtomic` | src/jobs/vault_sync.rs:141-169 | so is one replication run's delivery to a target |
| `LateService.StrayKeepsMirrorIff` | src/jobs/vault_sync.rs:141-169 | a request of an earlier run keeps a mirrored row mirrored exactly when the row has not changed since in what it carries |
| `Jobs.ChunkRecords` | src/jobs/mod.rs:65-76 | non-empty chunks of at most the maximum, all but the last full, that join to the input |
| `Jobs.TracksExtend` | src/jobs/mod.rs:78-95 | a delivery of a head is a delivery of any longer list with the same head |
| `Jobs.FirstChunk` | src/jobs/mod.rs:61-76 | the first chunk is the first 5,000 records, or all of them |
| `Jobs.PushChunk` | src/jobs/vault_sync.rs:153-163 | one chunk is delivered in front of what is still to come, in requests of 1 to 5,000 records, the first carrying the whole chunk |
| `Jobs.PushChunks` | src/jobs/external_ingestion.rs:252-278 | the chunks of one target form one delivery of the whole list, complete exactly when the verdict is positive, and then the group is the atomic batch; every request carries 1 to 5,000 records |
| `Jobs.VerdictSnoc` | src/jobs/vault_sync.rs:164-168 | the running all and any verdicts follow the per-target verdicts |
| `Jobs.PushTargets` | src/jobs/vault_sync.rs:135-169 | every target is served whatever the others do; a missing vault fails only itself; all and any verdicts are exact |
| `Jobs.PushList` | src/jobs/external_ingestion.rs:230-282 | the same for a list chunked by 5,000; the first request carries the first 5,000 records or all |
| `Jobs.PushTarget` | src/jobs/vault_sync.rs:142-168 | one configured target: a missing vault fails unsent, an existing one goes through one delivery |
| `Jobs.PushNext` | src/jobs/vault_sync.rs:141-169 | serving one more target disturbs no other |
| `Jobs.JobSlots.TryStart` | src/jobs/mod.rs:49-56 | a slot is claimed exactly when the lock is sound and the job is not running, as in the machine's trigger step |
| `Jobs.JobSlots.DropGuard` | src/jobs/mod.rs:37-43 | dropping a guard frees its own slot only, and nothing under a poisoned lock, as in the machine's drop step |
| `SyncProtocol.MirroredMeans` | src/jobs/vault_sync.rs:94-105 | mirrored means equal deletion flag and stamp, update and sighting times, and cause when the source has one |
| `SyncProtocol.PieceMirrors` | tests/common/mod.rs:488-528 | a delivered piece is mirrored and disturbs nothing else |
| `SyncProtocol.CopiedRow` | src/jobs/vault_sync.rs:94-105 | a row the target did not have arrives with its cause and creation time; one it had keeps its creation time |
| `SyncProtocol.DeltaMeans` | tests/common/mod.rs:385-403 | a fetch brings every row without a mark, and with one exactly the rows seen or deleted since the last whole second up to it |
| `SyncProtocol.AnyChangeHappens` | tests/common/mod.rs:488-528 | at any later moment the source may change any row to anything stamped with that moment |
| `SyncProtocol.SlotLostHappens` | src/jobs/mod.rs:37-51 | a run in which a guard dropped after the lock was poisoned leaves the slot taken with nothing running |
| `SyncProtocol.BatchMeans` | src/jobs/vault_sync.rs:124-132 | a record is pushed exactly when it was fetched and survives the configured filter |
| `SyncProtocol.ChangeKeeps` | tests/common/mod.rs:385-403 | a source change during a run breaks nothing the run or the mark vouches for |
| `SyncProtocol.TriggerKeeps` | src/scheduler.rs:157-166 | a tick or a manual trigger keeps the invariant, whether or not it gets the slot |
| `SyncProtocol.PoisonKeeps` | src/jobs/mod.rs:45-51 | poisoning the lock keeps the invariant |
| `SyncProtocol.FetchCovers` | src/client.rs:411-413 | asking since the mark rounded down to seconds misses no row that the mark does not vouch for |
| `SyncProtocol.FetchKeeps` | src/jobs/vault_sync.rs:69-92 | a successful fetch keeps the invariant |
| `SyncProtocol.SendKeepsCovered` | src/jobs/vault_sync.rs:153-163 | one request, applied or not, leaves every row the mark vouches for mirrored |
| `SyncProtocol.PieceDelivered` | src/jobs/vault_sync.rs:153-163 | the delivered part of the batch stays mirrored and grows by each accepted piece |
| `SyncProtocol.NextTargetKeeps` | src/jobs/vault_sync.rs:164-168 | leaving a fully served target keeps the invariant |
| `SyncProtocol.GiveUpKeeps` | src/jobs/vault_sync.rs:157-168 | leaving a failed target keeps the invariant and clears the all-succeeded flag |
| `SyncProtocol.FinishKeeps` | src/jobs/vault_sync.rs:37-43 | moving the mark to the run's start time, only when every target succeeded, is sound |
| `SyncProtocol.DropKeeps` | src/jobs/mod.rs:37-43 | dropping a guard at any moment keeps the invariant |
| `SyncProtocol.StepKeeps` | src/jobs/vault_sync.rs:19-46 | every event of the machine keeps the invariant |
| `SyncProtocol.InvAlongRun` | src/jobs/vault_sync.rs:19-46 | the invariant holds in every reachable state |
| `SyncProtocol.MirrorTheorem` | src/jobs/vault_sync.rs:15-46 | in every reachable state, each kept source row, deletions included, last changed before the mark is mirrored in every target |
| `SyncProtocol.StuckMeans` | src/jobs/mod.rs:37-43 | a job is left marked as running exactly when a guard was dropped after the lock was poisoned |
| `SyncProtocol.NoOverlap` | src/jobs/mod.rs:28-56 | runs of one job never overlap, and the running set is exactly the jobs of live guards unless a guard was dropped after the lock was poisoned |
| `SyncProtocol.MarkNeverMovesBack` | src/jobs/vault_sync.rs:39-43 | the stored mark never moves backwards |
| `SyncJob.SourceClient.GetPage` | src/client.rs:445-472 | at most R+1 requests, every one but the last refused with 429, 502, 503 or 504, a backoff pause before each retry, served exactly when the last request is |
| `SyncJob.SourceClient.GetDelta` | src/client.rs:480-505 | the whole listing, each record once and in order, exactly when the last request is served, in pages of 5,000 up to the first short one; a bounded number of requests |
| `SyncJob.PushDelta` | src/jobs/vault_sync.rs:107-177 | exact conditions for SUCCESS and FAILED, the item count, the all-succeeded flag, and what every target went through |
| `SyncJob.Execute` | src/jobs/vault_sync.rs:48-203 | the same for fetch and push together; a missing source or a failed fetch fails the run and touches no target |
| `SyncJob.ExecuteOn` | src/jobs/vault_sync.rs:48-203 | the same for targets with given groups |
| `SyncJob.HistoryIsSends` | src/jobs/vault_sync.rs:153-163 | every delivery history is a sequence of the machine's send steps |
| `SyncJob.TargetIsAPath` | src/jobs/vault_sync.rs:141-169 | serving one target, by itself, is a path of the machine |
| `SyncJob.PushIsAPath` | src/jobs/vault_sync.rs:141-169 | serving all targets, by itself, is a path of the machine |
| `SyncJob.PushElsewhere` | src/jobs/vault_sync.rs:141-169 | a pushing step does the same whatever the clock, the source and other jobs do |
| `SyncJob.ForeignStep` | src/jobs/vault_sync.rs:19-46 | ticks, source changes, poisoning, and other guards' triggers and drops leave the run, the targets and the mark alone |
| `SyncJob.ShuffleIsAPath` | src/jobs/vault_sync.rs:19-46 | pushing steps and foreign events, each a path by itself, are a path in every shuffle, with the joint result |
| `SyncJob.ExecutionIsAPath` | src/jobs/vault_sync.rs:69-169 | from its fetch on, an execution is a path of the machine in every shuffle with foreign events, and moves the mark exactly when every target succeeded and the result was stored |
| `SyncJob.ExecuteAt` | src/jobs/vault_sync.rs:48-203 | the imperative execution realises such a path, whatever foreign events are shuffled in, and reports the number of kept records of the delta, with exact conditions for SUCCESS and FAILED; without a delta it reports FAILED and 0 |
| `SyncJob.SyncTask.Run` | src/jobs/vault_sync.rs:19-46 | the run, with a failure of any of its database calls, is such a path ending in the targets and the mark as they now are; the mark is the start time exactly when every target succeeded and both writes did; exactly when the run reports a missing task or a database error; and otherwise the item count and exactly when it reports SUCCESS or FAILED |
| `SyncJob.RunMirrors` | src/jobs/vault_sync.rs:15-46 | after any run from a reachable state, in any shuffle, each kept source row last changed before the mark is mirrored in every target |
| `SyncJob.Fire` | src/scheduler.rs:157-166 | a tick runs the job exactly when the slot was free, reports what the run does, frees the slot afterwards, and otherwise changes nothing, as the machine's trigger does |
| `Bogon.BogonIffTouchesReserved` | src/bogon.rs:78-80 | a block is refused exactly when one of its addresses lies in a reserved range |
| `Bogon.BogonIffRange` | src/bogon.rs:68-80 | in plain numbers, a block is refused exactly when one of the addresses from its masked base on, as many as its host bits count, lies in a literal reserved interval |
| `Bogon.ReservedIsRanges` | src/bogon.rs:23-66 | the tables hold exactly the addresses of those intervals, written out from first to last address |
| `Cidr.OverlapsIffShared` | src/bogon.rs:68-74 | containing the other's base address either way is exactly sharing an address, host bits allowed |
| `Cidr.ContainsIsRange` | src/bogon.rs:72-74 | a block holds exactly the addresses of its family from `ip / size * size` on, `size` of them, with `size` two to the number of host bits |
| `Cidr.NestedOrDisjoint` | src/bogon.rs:68-74 | of two overlapping blocks the wider contains every address of the narrower |
| `Bogon.ReservedIsValid` | src/bogon.rs:24-66 | every reserved literal is a valid block |
| `Bogon.Sanitize` | src/bogon.rs:88-98 | keeps exactly the parseable disjoint records, in order, and counts the rest |
| `Bogon.SurvivingMembers` | src/bogon.rs:82-98 | a record is kept exactly when it is in the input, parses and touches nothing reserved |
| `Bogon.SetPassIsDirect` | src/jobs/vault_sync.rs:129-130 | filtering by a set of surviving addresses is judging each record directly |
| `Bogon.FilterInputs` | src/jobs/vault_sync.rs:124-132 | the two-pass filter equals the direct one, duplicates included, with kept plus removed equal to the input |
| `Ingestion.MergeInto` | src/jobs/external_ingestion.rs:218-222 | merging through the seen set gives the first occurrences of everything merged so far |
| `Ingestion.Aggregate` | src/jobs/external_ingestion.rs:197-228 | the aggregate is the first occurrences of the successful feeds' contributions, each filtered by the feed its name finds; failures and removed addresses are counted |
| `Ingestion.FeedNamedIsOwn` | src/jobs/external_ingestion.rs:205-205 | with unique names, looking a feed up by its name finds that feed |
| `Ingestion.JudgedByOwnFeed` | src/jobs/external_ingestion.rs:187-216 | so every feed's records are judged by that feed's own age limit and bogon policy, in feed order |
| `Ingestion.JudgedMeans` | src/jobs/external_ingestion.rs:163-217 | an address gets through a feed exactly when a record of it was seen within the feed's days of 86,400 s, or has no sighting, or there is no limit, and when the feed's own setting or else the group's waives the reserved-range filter, or it passes |
| `Ingestion.YoungAppend` | src/jobs/external_ingestion.rs:168-177 | filtering by age keeps the order of the records |
| `Ingestion.FirstOccurrencesMembers` | src/jobs/external_ingestion.rs:195-222 | deduplication neither loses nor invents an address |
| `Ingestion.FirstOccurrencesMean` | src/jobs/external_ingestion.rs:195-222 | deduplication repeats nothing and keeps the order of first appearance |
| `Ingestion.FailedMeans` | src/jobs/external_ingestion.rs:228-289 | the error count equals the feed count exactly when all failed, and is zero exactly when none did |
| `Ingestion.Execute` | src/jobs/external_ingestion.rs:179-313 | exact conditions for SUCCESS and FAILED, the item count, and what every target went through; a run in mode `full_replace` leaves exactly the sent addresses live in every target that took a non-empty list, a run in any other mode takes no live address down anywhere and adds the sent ones where it succeeds; the accepted records are the bare addresses in order |
| `Ingestion.ReplacedLiveSet` | src/jobs/external_ingestion.rs:245-282 | a target that accepted a non-empty replacing run has exactly the sent addresses live |
| `Ingestion.UpsertedLiveSet` | src/jobs/external_ingestion.rs:245-282 | an upserting delivery takes no live address down however far it gets, and a finished one adds exactly the sent ones |
| `Ingestion.TargetMeans` | src/jobs/external_ingestion.rs:234-282 | both of these by the name of the mode alone |
| `Ingestion.AcceptedAreBare` | src/jobs/external_ingestion.rs:254-265 | the accepted records are the addresses of the list in order, with no other field |
| `Ingestion.EmptyReplaceClearsNothing` | src/jobs/external_ingestion.rs:230-282 | an empty list changes nothing, which is replacing exactly when nothing was live |
| `Keys.CreateKeeps` | src/api/keys.rs:131-169 | creating a key keeps the database well kept and the Master's row |
| `Keys.UpdateKeeps` | src/api/keys.rs:194-237 | updating a key keeps them |
| `Keys.DeleteKeeps` | src/api/keys.rs:283-323 | a cascading delete leaves no key with a deleted parent, no row of a deleted key, no resource with a deleted owner |
| `Keys.OtherKeeps` | src/api/keys.rs:415-498 | grants, revocations and resource steps keep them |
| `Keys.StepKeeps` | src/api/keys.rs:131-498 | every handler, refused or not, keeps them |
| `Keys.RunKeeps` | src/api/keys.rs:131-498 | over whole runs: one Master whose row never changes and is never deleted, and no orphan of any kind |
| `Keys.AllDescendFromMaster` | src/api/keys.rs:145-160 | every key descends from the Master |
| `Keys.Acyclic` | src/api/keys.rs:145-160 | no key is its own proper ancestor |
| `Keys.StepConfines` | src/api/guards.rs:89-125 | one call by anyone but the Master spreads no verb that nobody can delegate, and creates no delegate |
| `Keys.Confinement` | src/api/guards.rs:89-125 | the same over whole runs |
| `Keys.DelegationSpreads` | src/api/keys.rs:415-467 | a delegate can bring the verb to a new key in two calls |
| `Keys.SpreadsIffDelegable` | src/api/guards.rs:89-125 | a verb can spread without the Master exactly when some key can delegate it |
| `Keys.StepFlags` | src/api/guards.rs:24-39 | one call by anyone but the Master gives no key a global flag |
| `Keys.FlagsOnlyShrink` | src/api/guards.rs:24-39 | over whole runs without the Master, the holders of each global flag only become fewer |
| `Keys.WhoseKeys` | src/api/keys.rs:69-323 | whoever calls whatever: a key goes only by a call of the Master or of an ancestor through its own child, its fields change only by a call of the Master or of its parent, and it appears only as a child of the caller |
| `Keys.WhoseRows` | src/api/keys.rs:283-498 | a permission row changes only by the Master, by a key that manages keys and the resource, by its holder creating the resource, or with its key |
| `Keys.WhoseResources` | src/api/guards.rs:61-70 | ownership never passes on: a resource belongs to its creator until the Master, its owner or the owner of its vault deletes it |
| `Keys.DeleteKeyMeans` | src/api/keys.rs:283-323 | exactly when a deletion is done, in conflict or finds nothing, and that it takes the key, its descendants and their rows and nothing else |
| `Keys.UpdateKeyMeans` | src/api/keys.rs:194-237 | exactly when an update is done, and that it changes the named flags of that key and nothing else |
| `Keys.CreateKeyMeans` | src/api/keys.rs:131-169 | exactly when a key is created, with which flags and parent, and that nothing else changes |
| `Keys.GrantMeans` | src/api/keys.rs:415-467 | exactly when a grant is done, and that it sets that row and no other |
| `Keys.RevokeMeans` | src/api/keys.rs:469-498 | exactly when a revocation is done, and that it removes that row and no other |
| `Keys.ResourceMeans` | src/api/sources.rs:262-407 | exactly when a resource is created or deleted, its owner and first row, and what stays |
| `Keys.EditMeans` | src/api/guards.rs:41-59 | the settings of a resource are edited exactly by the Master or by a key that manages keys and holds `manage` on it |
| `Keys.OneCallRuns` | src/api/keys.rs:131-498 | any call by a stored key is a run of the machine, with new ids for new resources |
| `Keys.ChildrenMean` | src/api/keys.rs:243-247 | one round of the search finds each child of the frontier once and nothing else |
| `Keys.CollectSubtree` | src/api/keys.rs:239-251 | the search terminates with the root and all its descendants, each once |
| `Replay.ReplayGuard.PruneIfDue` | src/replay.rs:67-90 | a sweep, a quarter of a window after the last one or at 100,000 entries, removes exactly the expired entries, and nothing changes when none is due |
| `Replay.ReplayGuard.CheckAndRecord` | src/replay.rs:48-65 | a call is accepted exactly when a ledger that never forgets holds no acceptance less than one window old; it records its expiry and sweeps when that is due |
| `Replay.ReplayGuard.constructor` | src/replay.rs:35-43 | the window is the given number of seconds brought into 1 to 3,600, the ledger is empty and the last sweep is now |
| `ReplayConcurrent.SingleKept` | src/replay.rs:48-91 | every lock-level step keeps the first acceptance recorded and unique while readings stay within its window |
| `ReplayConcurrent.InvAlongRun` | src/replay.rs:48-91 | that holds in every reachable state of every interleaving |
| `ReplayConcurrent.AtMostOnceInWindow` | src/replay.rs:48-91 | at most one call per signature is accepted while all readings lie within one window of the first accepted one |
| `ReplayConcurrent.OneStepAtATime` | src/replay.rs:48-91 | a call that has arrived has at most one step it can take |
| `ReplayConcurrent.Undisturbed` | src/replay.rs:48-91 | a call that nobody interrupts sweeps, decides and records as the sequential code does |
| `ReplayConcurrent.SeenUntilOvertaken` | src/replay.rs:58-90 | from one acceptance to the next, the ledger holds its expiry exactly until a sweep a full window late takes the lock |
| `ReplayConcurrent.AcceptedAgainIff` | src/replay.rs:58-64 | after an acceptance, the next decision is positive exactly when its reading is a full window later or such a sweep came between |
| `ReplayConcurrent.AcceptedIff` | src/replay.rs:48-91 | in every run, a call is accepted exactly when no latest acceptance of its signature stands in its way in that sense |
| `ReplayConcurrent.TooCloseIffLateSweep` | src/replay.rs:48-91 | in every run, two acceptances closer than a window occur exactly when such a sweep precedes a call that should have been refused |
| `ReplayConcurrent.CloseMeansOvertaken` | src/replay.rs:48-91 | between any two acceptances closer than a window there is a sweep a full window after the first |
| `ReplayConcurrent.LateSweepForgets` | src/replay.rs:67-90 | a run of a newly built ledger, with one reading a full window later, in which two calls closer than a window are both accepted |
| `ForwardedFor.LastUntrustedMeans` | src/config.rs:595-603 | the search finds the rightmost untrusted entry, and nothing exactly when every entry is trusted |
| `ForwardedFor.ResolutionMeans` | src/config.rs:589-616 | an untrusted peer is the client; behind a trusted one it is the rightmost entry that reads as an address outside the networks, else a readable `X-Real-IP`, else the peer |
| `ForwardedFor.WalkMeans` | src/config.rs:594-603 | the walk over the header's parts finds that entry, and nothing exactly when there is none |
| `ForwardedFor.SplitMeans` | src/config.rs:596-597 | the parts hold no comma and join to the header |
| `ForwardedFor.NormalizeMeans` | src/config.rs:76-84 | a mapped address becomes the IPv4 address inside it, and any other stays |
| `ForwardedFor.SplitPrepended` | src/config.rs:596-597 | splitting a prepended header splits its two parts |
| `ForwardedFor.PrependingHarmless` | src/config.rs:594-607 | prepended text leaves the walk unchanged exactly when the original chain has an untrusted entry or the prepended one has none |
| `ForwardedFor.ForgeryHarmlessIff` | src/config.rs:589-616 | the resolved address is unchanged exactly when the peer is untrusted, the chain has an untrusted entry, the prepended part has none, or its last one is what would be resolved anyway |
| `ForwardedFor.ForgeryCanDecide` | src/config.rs:589-616 | a dotted-quad header whose prepended entry becomes the client |
| `ForwardedFor.ResolutionIgnoresPrefix` | src/config.rs:589-616 | with an untrusted entry of its own, the chain resolves to its rightmost one whatever is prepended |
| `ProxyCache.TrustedProxies.RefreshName` | src/config.rs:367-378 | an attempt younger than the positive time to live if it found addresses, or the negative one if not, is reused untouched; any other is looked up once and replaced by the answer |
| `ProxyCache.TrustedProxies.RefreshNext` | src/config.rs:367-378 | refreshing one name keeps what is known of the others |
| `ProxyCache.TrustedProxies.RefreshOrStall` | src/config.rs:367-378 | a request that goes away while it waits for a lookup changes no entry, takes its time, and leaves that name not fresh |
| `ProxyCache.TrustedProxies.RefreshAll` | src/config.rs:367-378 | a finished loop has looked up every expired or unknown name, fresh ones cost nothing, and every lookup was due; an abandoned one keeps the answers it got and leaves a name that is not fresh |
| `ProxyCache.TrustedProxies.Merge` | src/config.rs:380-385 | the merged list is the literal networks followed by each name's addresses in order |
| `ProxyCache.TrustedProxies.RefreshLocked` | src/config.rs:366-388 | a finished refresh rebuilds the snapshot from the hosts; an abandoned one leaves the snapshot as it was, and the cache valid |
| `ProxyCache.TrustedProxies.ReadPath` | src/config.rs:347-356 | a hit happens exactly when the snapshot is built and every name is fresh, and returns what the hosts say |
| `ProxyCache.TrustedProxies.WritePath` | src/config.rs:358-363 | a refresh with nothing expired looks nothing up and returns what a hit returns; only an abandoned one returns nothing |
| `ProxyCache.TrustedProxies.Networks` | src/config.rs:342-363 | the result is the literal networks followed by each name's addresses; a hit or a name-free configuration changes nothing; a miss makes only due lookups, none forced, and one for every name that was not fresh, unless the request goes away first |
| `ProxyCache.TrustedProxies.Prime` | src/config.rs:390-405 | every name is looked up again, and the names without an address are reported in order |
| `ProxyCache.UnresolvedMembers` | src/config.rs:404-404 | a name is reported exactly when it is configured and has no address |
| `ProxyCache.TrustedProxies.SnapshotIsLatest` | src/config.rs:347-356 | a snapshot that can be served is the literal networks followed by the latest answer for each name, whatever requests were abandoned before |
| `ProxyCache.TrustedProxies.SnapshotLagsIff` | src/config.rs:366-388 | the stored snapshot is wrong about a network exactly when it is not literal and the answers as of the last rebuild and the latest ones disagree about it, and then a refresh was abandoned since and some name is not fresh |
| `ProxyCache.AbandonedRefreshLags` | src/config.rs:373-376 | with two names expired and a new network in the next answer, a request that waits for one lookup leaves the snapshot without it |
| `ProxyCache.SnapshotCanLag` | src/config.rs:366-388 | such a state arises from a new cache |
| `ProxyCache.SpacedSnoc` | src/config.rs:200-206 | a lookup made only after the previous outcome's time to live keeps all lookups spaced |
| `ProxyCache.TrustedProxies.LookupsApart` | src/config.rs:200-206 | two successive lookups of a name, the later not forced, are at least the positive time to live apart after an answer with addresses and the negative one after an answer without |
| `Lines.StripComment` | src/parsers/regex_line.rs:56-68 | a prefix free of comment starts that stops only at a comment start |
| `Lines.StripIsLongest` | src/parsers/regex_line.rs:55-68 | it is marker free, and exactly which longer prefixes are too |
| `Lines.CutIsLongestIff` | src/parsers/regex_line.rs:55-68 | the cut is the longest marker-free prefix exactly when the first comment does not start with two slashes |
| `Lines.CutCanBeShort` | src/parsers/regex_line.rs:64-66 | a line cut one character short |
| `Lines.Parse` | src/parsers/regex_line.rs:93-113 | the loop yields the tokens of each cleaned line in order |
| `Lines.LineMeans` | src/parsers/regex_line.rs:97-101 | a line yields exactly what the extractor finds between the white space around it, before a comment, and nothing if that is empty |
| `Lines.CommentIsInvisible` | src/parsers/regex_line.rs:55-68 | text after `#`, `;` or `//` never changes the tokens |
| `Lines.LinesMean` | src/parsers/regex_line.rs:97-97 | a line feed ends a line, one carriage return before it goes too, and a last line needs none |
| `Lines.SplitAfterLf` | src/parsers/regex_line.rs:97-111 | lines of a text that ends its last line are independent of what follows |
| `Lines.CrIsInvisible` | src/parsers/regex_line.rs:97-101 | a trailing carriage return never reaches the extractor |
| `Lines.LfIsInvisible` | src/parsers/regex_line.rs:97-111 | ending the last line changes no token |
| `Archive.Unpack` | src/jobs/decompress.rs:77-100 | success exactly when every member is readable and every file meets a non-zero budget that covers it; the output is the join; the files are read in order, each against what the earlier ones leave and to at most one byte beyond it, and every one of them on success |
| `Archive.AddMember` | src/jobs/decompress.rs:79-98 | what one member does to the output and how much of it is read, directory, unreadable, over budget or broken |
| `Archive.ReadingBounded` | src/jobs/decompress.rs:60-65 | at most one byte beyond the limit is ever decompressed, all members together |
| `Archive.DecompressIfZip` | src/jobs/decompress.rs:66-101 | pass-through unless the bytes start with one of the two archive signatures, bad archive, empty archive, and the above, reads included |
| `Archive.OutputBounded` | src/jobs/decompress.rs:55-65 | at most the limit in member bytes and at most one more byte in all |
| `Archive.OvershootsIff` | src/jobs/decompress.rs:83-98 | the output exceeds the limit exactly when the last file fills its budget after a separator |
| `Archive.OvershootHappens` | src/jobs/decompress.rs:95-97 | the extra byte does occur |
| `Archive.AppendParses` | src/jobs/decompress.rs:95-98 | appending a member appends its tokens |
| `Archive.JoinParsesEach` | src/jobs/decompress.rs:55-58 | parsing the joined output is parsing each member alone, so no token is fused |
| `Archive.ReadCappedBody` | src/jobs/decompress.rs:112-121 | the whole body exactly when the stream is unbroken and within the ceiling |
| `Primes.TableIsFirstPrimes` | static/app.js:15-26 | the table behind both constant lists is in order and lists exactly the primes up to 311 |
| `Fips180.RoundConstantsAreCubeRoots` | static/app.js:15-24 | the 64 round constants are the first 32 fraction bits of the cube roots of the first 64 primes |
| `Fips180.InitialHashIsSquareRoots` | static/app.js:25-26 | the initial hash is the first 32 fraction bits of the square roots of the first 8 primes |
| `Fips180.PadLength` | static/app.js:28-34 | the padding of section 5.1.1 of FIPS 180-4 fills whole blocks with none to spare |
| `Fips180.LogicMeans` | static/app.js:46-50 | the bitwise operations act on each of the 32 positions alone |
| `Fips180.ShiftMeans` | static/app.js:40-41 | shifts move every bit and fill with zeros |
| `Fips180.RotationMeans` | static/app.js:64-66 | rotation moves every bit down, round the end of the word |
| `Fips180.WordBytes` | static/app.js:32-38 | words and bytes correspond with the most significant byte first |
| `Fips180.ScheduleMeans` | static/app.js:38-43 | the first sixteen schedule words are the block's, and each later one comes from four earlier ones |
| `Sha256Fallback.RotrAgrees` | static/app.js:64-66 | the signed rotation is the rotation of 32-bit words |
| `Sha256Fallback.PaddedLength` | static/app.js:29-29 | the two shifts round down to a multiple of 64 |
| `Sha256Fallback.PadMessage` | static/app.js:28-34 | the buffer is the padded message of section 5.1.1 of FIPS 180-4 |
| `Sha256Fallback.NextWord` | static/app.js:40-42 | the stored sum is the next schedule word |
| `Sha256Fallback.FillSchedule` | static/app.js:38-43 | the reused array holds the message schedule of the block |
| `Sha256Fallback.Temp1` | static/app.js:46-48 | the signed sum is the first temporary word of section 6.2.2 of FIPS 180-4 |
| `Sha256Fallback.Temp2` | static/app.js:49-51 | the signed sum is the second |
| `Sha256Fallback.OneRound` | static/app.js:45-54 | the reassignments compute one round |
| `Sha256Fallback.WorkRounds` | static/app.js:44-54 | the loop computes all 64 rounds |
| `Sha256Fallback.OneBlock` | static/app.js:37-57 | one block updates the hash value as section 6.2.2 of FIPS 180-4 says |
| `Sha256Fallback.AllBlocks` | static/app.js:36-57 | the outer loop computes the hash value of all blocks |
| `Sha256Fallback.Emit` | static/app.js:58-60 | the digest bytes are the words in big-endian order |
| `Sha256Fallback.Sha256Bytes` | static/app.js:14-62 | the result is SHA-256 of the input |
| `Sha256Fallback.ConcatBytes` | static/app.js:87-92 | the result is the first array followed by the second |
| `Sha256Fallback.PadKey` | static/app.js:72-76 | the key is filled with zeros to one block |
| `Sha256Fallback.StoredXorAgrees` | static/app.js:80-81 | the signed 32-bit xor, wrapped by the byte array, is the byte-wise one |
| `Sha256Fallback.XorPad` | static/app.js:77-82 | every key byte is combined with the pad byte |
| `Sha256Fallback.PrepareKey` | static/app.js:69-76 | the key is brought to one block as section 2 of RFC 2104 says |
| `Sha256Fallback.HmacSha256` | static/app.js:68-85 | the result is HMAC as section 2 of RFC 2104 defines it, over SHA-256 |

## Left out

- HTTP, TLS, URL joining, JSON and request signing: foreign libraries; a request is its records, mode and reply.
- The secret envelope and HMAC primitives of src/crypto.rs: the primitives are foreign and the round trips easy.
- src/middleware.rs and src/master.rs: request plumbing over database lookups.
- Scheduler registration and cron parsing: a wrapper over foreign crates; a tick is an arbitrary trigger event.
- Migrations, entities, retention, health, audit and log listing: database plumbing with no deep property.
- The rest of static/app.js: user interface code.
- IP text, regular expressions, trimming and time parsing: parameters of the model; parsed blocks are integers with a prefix length.
- UTF-8: lines are byte strings, so lossy decoding and multi-byte white space are not captured.
- The other feed parsers, and fetching of feeds: a feed's result is an input of the ingestion run.
- Locked records on the receiving vault, and the counters it returns beyond their field-wise sum.
- Receiving-side clocks: a defaulted stamp is the symbol `Arrival`, so two arrivals are not told apart.
- Late application in the job and replication models: there a request takes effect, if at all, before its outcome is reported; `Late.dfy` states what a delivery leaves otherwise.
- chunks_sent, durations and messages of a job summary: they follow from the modelled verdicts.
- Delivery.Endpoint.PostBatch: a piece whose reply is a success with an unreadable body counts as broken, since the caller cannot tell.
- SyncProtocol.MirrorTheorem: assumes one fixed task configuration, one clock, a source that stamps every change with the current time and stays stable during one paged fetch, targets written by this task only, and no request that lands after its run (`LateService.StrayKeepsMirrorIff` says what one does).
- Replay.ReplayGuard.CheckAndRecord: does not model poisoned locks, which refuse every call.
- ProxyCache.TrustedProxies.Networks: the two lock sections are separate atomic methods; other callers between them are any calls that keep `Valid()`. A lookup that was abandoned has no outcome and is not counted.
- ProxyCache.TrustedProxies.Prime: is not abandoned, since it runs in a task of its own; stopping the process is not modelled.
- Sha256Fallback.Sha256Bytes: needs length + 72 below 2^31, beyond which the shifts of the source overflow; HMAC needs the same of its key and 64 bytes more of its message.
- Keys.RunKeeps: handlers are atomic steps; rotation, `bound_ips` and listing endpoints change none of the modelled columns.
- SyncJob.SyncTask.Run: the fetch is one moment, by the stable source; events of other runs of the same task are not shuffled in, since they cannot occur while this one holds the slot (`SyncProtocol.NoOverlap`).
- SyncJob.Fire: the slots object is not changed by other jobs while the method runs; the machine's own triggers and drops are.
- Keys.CollectSubtree: the table is fixed while the search runs.
- Keys.EditMeans: who may edit a resource's settings; the settings themselves are not modelled.
- Ingestion.Execute: the concurrent fetch is an arbitrary list of feed results; `Ingestion.JudgedByOwnFeed` is about those in feed order, as the fetch returns them.
