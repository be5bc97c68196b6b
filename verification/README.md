# WaveHouse in Dafny

WaveHouse is a multi-tenant ingest, query and streaming gateway. This project models the
parts of it whose correctness rests on many interleavings or on arithmetic that is easy to get
wrong, and proves what the code promises about them, for all inputs and all runs:

- the ingest dedupe protocol: reserve, publish, commit and release over the embedded store, with
  its expiry sweep (`DedupeStore`, `DedupeManaged`, `IngestWindow`, `IngestBatch`,
  `DedupeProtocol`, `DedupeWindow`, `DedupeExclusivity`);
- result-cache invalidation: the in-process version index refined to a cache in which a write
  erases what depends on it (`VersionIndex`, `LocalCache`, `LocalCacheHistory`), and the shared
  Redis protocol of random tokens with deferred bumps (`RedisKeys`, `PendingBumps`, `RedisBumps`,
  `SharedCache`, `SharedCacheHistory`);
- connection-pool reconcile under a global ceiling, with undo of refused moves (`PoolWalk`,
  `PoolReconcile`, `PoolAccept`, `Pools`);
- shard ownership: membership leases, the capped rendezvous assignment, the claiming ticks and the
  bounded consumer of a shard (`LeaseTable`, `Assign`, `ShardClaims`, `ClaimLoop`, `Consumer`);
- retry backoff and the arithmetic of the dedupe lease (`Backoff`, `LeaseWindow`);
- the key encoding all of them rest on (`Bytes`, `KeyEnc`, `Decimal`, `DedupeKey`).

`dafny verify dfyconfig.toml` checks all of it.

## How it is built

What the source does to an object step by step is written twice: as functions on a value that is
the object's state, and as a class whose methods change fields in place, loop as the source loops,
and promise in `ensures` that the new state is that function of the old. The theorems are about
the functions. Concurrent parts are state machines: a step is one lock-protected section or one
call to another process, `Valid` says which sequences of steps can happen, and the theorems speak
of every one of them. `Exec` is the state after it.

What the environment answers is given to the model as arguments, so that a theorem holds for every
answer: clock readings (never going back), the queue's accepted, full or uncertain, a failed store
read or write, a pool that cannot be opened or resized, a lost or corrupted token, a command that
runs late or never, jitter, the score of a unit and a slot, SHA-256.

Four promises fail in a corner of the code. Each is stated with the input that shows it and with
the condition under which the promise holds:

- exclusivity of a committed claim (`DedupeStore.LateCommitShortensRetention`): `Commit` is
  unconditional. It holds unless a later commit of the key, by a request whose claim had lapsed,
  expires earlier, and exactly then fails (`DedupeStore.LateCommitReopensExactlyWhen`);
- the local cache as the simple cache (`LocalCache.InterruptedLookupMayFindVoidedFill`): `Lookup`
  reads its key and then the store, with no lock across. What it finds is what the simple cache
  holds exactly when no invalidation has reached the entry since its key read
  (`LocalCache.LookupRefinesSimple`);
- the connection ceiling (`PoolReconcile.FailedShrinkBreaksCeiling`): a resize that fails keeps the
  old size, which the plan has already given away. It holds while no shrink's dial fails, and
  whichever fail exactly when the sizes kept fit beside the plan of the others
  (`PoolReconcile.CeilingExactlyWhen`). Pools left above it are brought back by an error-free
  reconcile exactly when what is asked in all fits (`PoolReconcile.SuccessSumsTheAsks`);
- disjoint shard ownership between live members (`ShardClaims.RejoinedProcessMayOverlap`): a tick
  that rejoins under another slot and then cannot read the members keeps the units of the old one.
  What two processes may own of one view is disjoint exactly when the slots they acted in differ
  (`ShardClaims.DisjointExactlyWhen`), as they do while both memberships acted under are live.

The backoff's delay formula holds up to a cap of base·2^30 and no further
(`Backoff.DoublingEndsExactly`); the lease rule refuses one lease, of 59s and one nanosecond, that
would be safe (`LeaseWindow.RuleIsTight`).

## Model

| member | source | states |
|---|---|---|
| DedupeProtocol.NoRecordIsLost | internal/api/ingest.go:826-989 | over every interleaving of any number of requests, sweeps and crashes, a record a non-aborted window reports as a duplicate has a key some request really published |
| DedupeProtocol.InvRun | internal/dedupe/embedded.go:164-293 | what every step keeps: only published keys are ever committed, and each window is consistent with its phase, over every run |
| DedupeProtocol.ReserveDoneOK | internal/dedupe/managed.go:127-174 | after a Reserve with nothing in flight, every duplicate of the window rides on a published key or on a claim the same window will publish |
| DedupeProtocol.PublishOK | internal/api/ingest.go:852-875 | a publish, accepted, refused or uncertain, leaves every duplicate backed, and only published claims go to commit |
| DedupeExclusivity.HeldWhileLeased | internal/dedupe/embedded.go:178-205 | while a claim's lease runs and its own request still holds it, no Reserve of its key answers Claimed and its pending entry stays, whatever any other request does |
| DedupeExclusivity.KeptWhileRetained | internal/dedupe/embedded.go:239-272 | the sweep's guarantee and Reserve's, over every run: while a commit's retention runs and no later commit shortens it, no sweep, whatever its unlocked scan proposed, removes it, and no Reserve answers Claimed |
| DedupeExclusivity.CommittedInTimeIsExclusive | internal/dedupe/embedded.go:178-293 | from the Reserve that answered Claimed to the same request's Commit of that claim before the lease lapses, and on to the end of the retention (the commit's clock plus the batch's retention, at most the end of int64), no Reserve answers Claimed for the key, also between the batch write and the dropping of the pending entry, in every interleaving without a crash before the commit, unless a later commit of the key expires earlier |
| DedupeExclusivity.EveryRunOwnsTokens | internal/dedupe/embedded.go:178-205 | in every reachable state each claim not yet settled is held by one request, in one place, under a token no other claim has or will have |
| DedupeExclusivity.HeldMeansKept | internal/dedupe/embedded.go:280-293 | a claim its request still holds was dropped by nobody: no stranger's release matches its token, and a claim once dropped does not come back |
| DedupeExclusivity.HeldStep | internal/dedupe/embedded.go:164-293 | what a request holds only shrinks, but for what Reserve grants it, through reserve, publish, commit and release |
| DedupeExclusivity.AnswerTakenOnce | internal/dedupe/managed.go:162-173 | each of the store's answers is taken by at most one record of the window |
| DedupeExclusivity.SoleCommitIsExclusive | internal/dedupe/embedded.go:239-258 | the same in every continuation, the exception replaced by a test at the commit: no other unsettled claim on the key is outstanding |
| DedupeProtocol.SweepSparesUnexpired | internal/dedupe/sweep.go:174-210 | one locked delete: whatever the unlocked scan proposed, it removes exactly the candidates dead by then and changes nothing else |
| DedupeWindow.RequestIsWindow | internal/api/ingest.go:826-989 | whatever other requests, the sweep and the clock do in between, a request that has its answers and is not cut off by a crash comes to exactly what its window comes to alone: the same records, aborted or not, and the same claims handed to Commit and to Release in the same order |
| DedupeWindow.SkippedIsWindow | internal/api/ingest.go:826-850 | the same for a window with nothing to reserve or the store switched off |
| DedupeWindow.BatchLands | internal/dedupe/embedded.go:239-258 | a batch that is written stores each of its keys until the clock's reading plus its retention, and no other key |
| DedupeWindow.DropLands | internal/dedupe/embedded.go:280-293 | a dropped claim is pending under its token no more, and no other claim is touched |
| DedupeWindow.DroppedAreGone | internal/dedupe/embedded.go:280-293 | whatever runs beside it, once a request that committed or released a claim has nothing left to drop, the claim is pending under its token no more |
| DedupeWindow.ReleaseLands | internal/dedupe/embedded.go:280-293 | a Release that gets through drops all the claims handed to it, one that does not leaves them to lapse, and neither stores anything |
| DedupeWindow.FailureLands | internal/dedupe/embedded.go:164-176 | a Reserve that fails leaves every claim it had been given to be dropped, and aborts its request |
| DedupeStore.ClaimedExactlyWhen | internal/dedupe/embedded.go:178-205 | Reserve answers InFlight, Duplicate or Claimed exactly by whether a live claim, or else a live commit, is there |
| DedupeStore.ReserveUndone | internal/dedupe/embedded.go:164-176 | a Reserve that fails part way gives back every claim it made and none it did not |
| DedupeStore.UndoneSpares | internal/dedupe/embedded.go:164-176 | and leaves every claim that was running |
| DedupeStore.LateCommitShortensRetention | internal/dedupe/embedded.go:239-258 | counterexample to plain exclusivity: Commit is unconditional, so a claimant whose lease lapsed can overwrite a longer commit with a shorter one |
| DedupeStore.LateCommitReopensExactlyWhen | internal/dedupe/embedded.go:239-272 | such a late commit lets the key be claimed again within the earlier retention if and only if it expires earlier |
| DedupeStore.CommitLasts | internal/dedupe/embedded.go:263-272 | a commit at now, kept for a retention, has a later Reserve of its key with nothing pending answer Duplicate exactly until now + retention, for good where there is no retention, and until the end of int64 where that would pass it |
| DedupeStore.AllCommitted | internal/dedupe/embedded.go:239-258 | a Commit of claimed keys stores each until now + retention (never, or the end of int64, where that applies) and leaves none pending under its token; what else is stored or pending stays as it was |
| DedupeStore.ReserveLeaves | internal/dedupe/embedded.go:178-205 | one Reserve leaves a claim pending under a new token until now plus the lease, and changes nothing else |
| DedupeStore.EachAnsweredAlone | internal/dedupe/embedded.go:164-205 | of different keys reserved together each is answered as it would have been alone |
| DedupeStore.SweptShard | internal/dedupe/embedded.go:320-330 | the claim sweep drops exactly the lapsed claims of its shard, at most once in 30 seconds, and touches no commit |
| DedupeStore.SweepableIsDead | internal/dedupe/sweep.go:214-222 | what the sweep may remove is exactly what no Reserve would answer Duplicate for |
| DedupeStore.Embedded.ReserveOne | internal/dedupe/embedded.go:178-205 | the reserve section computes the specified step; a failed read claims nothing |
| DedupeStore.Embedded.Reserve | internal/dedupe/embedded.go:164-176 | claims the keys in order under one clock reading, or on a failed read holds none of them and leaves every running claim |
| DedupeStore.Embedded.Commit | internal/dedupe/embedded.go:239-258 | writes every key, kept until now + retention, or none, and only then drops the pending entries the tokens own, and no others |
| DedupeStore.Embedded.Release | internal/dedupe/embedded.go:280-293 | drops exactly the pending entries still held under the claims' own tokens |
| DedupeStore.Embedded.SweepCandidates | internal/dedupe/sweep.go:145-168 | a chunk proposes exactly the sweepable keys between its start and the next chunk's, which comes after 1024 keys |
| DedupeStore.Embedded.DeleteSweepable | internal/dedupe/sweep.go:174-210 | deletes exactly the candidates that are still sweepable when re-read |
| DedupeStore.Embedded.SweepNextChunk | internal/dedupe/sweep.go:118-139 | one chunk removes exactly the keys of its range that were sweepable when it read them |
| DedupeStore.Embedded.Sweep | internal/dedupe/sweep.go:96-111 | a complete pass with no Commit removes exactly the values that were expired or no commit at the moment the pass read them, and terminates |
| DedupeManaged.Managed.Apply | internal/dedupe/managed.go:75-98 | follows the setting: a store is opened once, kept across repeats, dropped when switched off; a failed open or close is reported |
| DedupeManaged.Managed.Reserve | internal/dedupe/managed.go:127-174 | asks the store once per distinct key and answers every position: the store's answer the first time, Duplicate on repeats; a store error only if a read failed, and then nothing is left claimed |
| DedupeManaged.Unique | internal/dedupe/managed.go:141-148 | every key of the request exactly once |
| DedupeManaged.SpreadOfDistinct | internal/dedupe/managed.go:159-161 | without repeats the answers are the store's own, which is the shortcut taken |
| DedupeManaged.Managed.Commit | internal/dedupe/managed.go:178-203 | on success every claim answered Claimed is stored until now + retention and pending under its token no more, and every other key keeps its value; it succeeds exactly when there is none to commit or the store is open and its write does not fail |
| IngestWindow.WindowSettlesEveryClaim | internal/api/ingest.go:826-989 | whatever reserve and publish answer, each claim goes to exactly one of Commit (if and only if its record was published), Release, or left to lapse; the one left is the record's whose publish was uncertain, and nothing is left otherwise; a window that does not abort publishes all it did not skip |
| IngestWindow.PublishSettles | internal/api/ingest.go:852-875 | the same from any point of the publishing loop, with where it stopped |
| IngestWindow.DuplicatesExactly | internal/api/ingest.go:930-943 | a record is reported a duplicate exactly when the store answered Duplicate for it |
| IngestWindow.AbortsExactly | internal/api/ingest.go:826-989 | a window is aborted exactly when it has keys and the store fails or answers InFlight for one, or else when the queue does not accept a record that is neither rejected nor a duplicate |
| IngestWindow.ClaimsOf | internal/api/ingest.go:1041-1049 | what goes to Release is claimed by a record of the window, and what goes to Commit by one the queue took, all of them |
| IngestWindow.BatchesKeepEveryClaim | internal/api/ingest.go:1055-1079 | grouping by retention drops no claim and adds none |
| IngestWindow.BatchesByRetention | internal/api/ingest.go:1055-1079 | each group has its own retention and holds only claims of records kept for that long |
| IngestWindow.AbsorbPointwise | internal/api/ingest.go:930-943 | each keyed record takes its own answer and no other record changes |
| IngestWindow.ClaimedIn | internal/api/ingest.go:1041-1049 | collects exactly the claims answered Claimed, in order |
| IngestWindow.CommitClaims | internal/api/ingest.go:1055-1079 | the two loops over a map and a list of retentions issue the specified groups in order |
| IngestWindow.CollectKeyed | internal/api/ingest.go:828-833 | collects exactly the records with a dedupe key that were not rejected, in order |
| IngestWindow.TakeAnswers | internal/api/ingest.go:930-953 | writes the answers into the records in place and reports whether one was in flight elsewhere |
| IngestWindow.PublishAndSettle | internal/api/ingest.go:852-989 | the publishing loop, with its settlement at the end or at the first failure, computes the specified outcome in place |
| IngestWindow.RunWindow | internal/api/ingest.go:826-989 | the whole window computes the specified outcome |
| IngestBatch.HandleBatch | internal/api/ingest.go:395-491 | the request is aborted if and only if an item ends it or the n-th window of the batch, of the window size or the rest, aborts; otherwise every item went through one window, in order: failed counts the rejected records, duplicates the duplicate ones and succeeded the rest, and results are in index order |
| IngestBatch.Flush | internal/api/ingest.go:416-428 | runs one window and, unless it aborts, adds the verdict of each of its records to the summary, one for one |
| IngestBatch.Add | internal/api/ingest.go:496-512 | one record changes the one counter of its verdict, and the result list while it is under its limit |
| IngestBatch.CountsAddUp | internal/api/ingest.go:496-512 | over any records the three verdicts partition them |
| IngestBatch.SummaryIs | internal/api/ingest.go:496-512 | the summary counts as failed the rejected records, as duplicates the duplicate ones, as succeeded those that are neither, and lists as much for each of the first ten thousand under its index |
| IngestBatch.WindowKeepsRecords | internal/api/ingest.go:826-875 | a window changes only the outcome fields of its records |
| KeyEnc.SplitJoin | internal/keyenc/keyenc.go:69-101 | Split(Join(fields)) = fields for every non-empty field list and legal separator |
| KeyEnc.UnescapeEscape | internal/keyenc/keyenc.go:29-56 | unescaping an escaped string gives it back, for every byte string |
| KeyEnc.UnescapeFailsExactly | internal/keyenc/keyenc.go:51-56 | unescaping fails exactly where some '%' is not followed by two hex digits, of either case |
| KeyEnc.JoinInjective | internal/keyenc/keyenc.go:69-86 | equal joins come from equal field lists |
| KeyEnc.EscapeInjective | internal/keyenc/keyenc.go:29-49 | escaping is injective |
| KeyEnc.PlainExactly | internal/keyenc/keyenc.go:24-49 | a string is its own escaped form exactly when it holds only letters, digits, '_' and '-' |
| KeyEnc.JoinBytes | internal/keyenc/keyenc.go:74-86 | a join holds only kept bytes, escapes and its separator |
| KeyEnc.AppendEscape | internal/keyenc/keyenc.go:39-49 | the byte loop appends exactly the escaped form |
| KeyEnc.EscapeField | internal/keyenc/keyenc.go:29-36 | the scan that returns an unescaped string as it is agrees with escaping it |
| KeyEnc.AppendJoin | internal/keyenc/keyenc.go:74-86 | the field loop appends exactly the joined form |
| KeyEnc.SplitFields | internal/keyenc/keyenc.go:90-101 | the splitting loop computes Split, errors included |
| DedupeKey.HashedMeansLong | internal/dedupe/key.go:55-63 | the two length shortcuts agree with measuring the escaped id |
| DedupeKey.KeysAreLaidOut | internal/dedupe/key.go:49-101 | the layout in which keys are stored: tenant, escaped table and escaped id between slashes, an id over 1024 bytes escaped, or an empty sort key, as # and its digest in hex |
| DedupeKey.StoredIdInjective | internal/dedupe/key.go:67-83 | stored ids are injective given no hash collision, and a hashed one never equals a verbatim one |
| DedupeKey.StoredKeyInjective | internal/dedupe/key.go:49-70 | stored keys of different tenants, tables or ids differ |
| DedupeKey.SortKeyBounds | internal/dedupe/key.go:91-101 | every sort key is non-empty and at most 1024 bytes |
| DedupeKey.PartitionedKeyInjective | internal/dedupe/key.go:91-101 | partition and sort key together determine tenant, table and id |
| Decimal.ParseFormat | internal/cache/version_manager.go:111-124 | a version number reads back from its decimal form, which holds only kept bytes |
| LocalCache.LookupRefinesSimple | internal/cache/local.go:40-94 | over every run of key reads, store reads, fills, invalidations, prunes and evictions, and however long after its key read a Lookup reads the store: what it finds was filled from a snapshot of the same entry with no bump reaching the entry between the two key reads, and it is what the simple cache (in which a write erases all it reaches and voids fills taken before it) holds if and only if no bump has reached the entry since this Lookup's key read |
| LocalCache.NothingElseIsOrphaned | internal/cache/local.go:40-94 | until something is evicted, a Lookup no bump has reached since its key read answers exactly as the simple cache, misses too |
| LocalCache.InterruptedLookupMayFindVoidedFill | internal/cache/local.go:40-54 | the run that shows the condition is needed: a Lookup between its two reads when an invalidation comes may find a fill the simple cache voids |
| LocalCacheHistory.FoundExactlyWhen | internal/cache/local.go:40-86 | over every run, a lookup finds a value exactly when it was the last to be filled of its entry from a lookup with no invalidation of the entry in between, and has not been evicted since |
| LocalCacheHistory.SameKeyExactlyWhen | internal/cache/version_manager.go:83-125 | over every run, two lookups read one key exactly when they are of one entry and no invalidation reached it between them |
| LocalCache.RunKeepsHistory | internal/cache/local.go:40-94 | snapshots with one key were read with no reaching bump in between, and each is current exactly until one comes |
| LocalCache.RunKeepsInv | internal/cache/local.go:40-94 | the coupling between the two caches, kept by every event |
| LocalCache.SnapBump | internal/cache/local.go:77-86 | a bump makes a snapshot stale exactly when it reaches one of its dependencies or its tenant, for good |
| LocalCache.SameKey | internal/cache/version_manager.go:99-125 | two snapshots with one key are of one entry, and stale together |
| LocalCache.Local.Find | internal/cache/local.go:40-54 | Lookup reads the store under the current key and returns that key; a foreign dependency is an error that changes nothing |
| LocalCache.Local.Set | internal/cache/local.go:58-64 | stores under the snapshot's key, or nothing |
| LocalCache.Local.InvalidateNamespaces | internal/cache/local.go:77-86 | bumps every namespace in turn, whole table or scope |
| VersionIndex.VersionsNeverGoBack | internal/cache/version_manager.go:83-207 | over every sequence of operations, each dependency's (generation, table version, scope version) never goes back lexicographically, although scope and tenant maps are dropped and re-read as 0 |
| VersionIndex.SegStep | internal/cache/version_manager.go:156-207 | one operation outdates a key segment exactly when it reaches it, and an outdated one never comes back |
| VersionIndex.GenStep | internal/cache/version_manager.go:190-207 | the same for a tenant's generation |
| VersionIndex.RenderInjective | internal/cache/version_manager.go:99-125 | equal keys come from the same tenant, generation, query and multiset of versioned dependencies |
| VersionIndex.RenderCanonical | internal/cache/version_manager.go:111-124 | the order of the dependencies does not change the key |
| VersionIndex.VersionManager.QueryKey | internal/cache/version_manager.go:83-94 | creates what is missing and renders the key of the index then |
| VersionIndex.VersionManager.CreateMissing | internal/cache/version_manager.go:99-125 | adds the tenants that were absent, in turn, and changes no other |
| VersionIndex.VersionManager.Segments | internal/cache/version_manager.go:111-124 | renders each dependency's versions in order |
| VersionIndex.VersionManager.DoBumpTable | internal/cache/version_manager.go:156-163 | the whole table moves to a new version and its scope versions are dropped, in place; SegStep says what that outdates |
| VersionIndex.VersionManager.DoBumpNamespace | internal/cache/version_manager.go:168-182 | the written scope and the whole-table view move to new versions, in place, other scopes and tables untouched |
| VersionIndex.VersionManager.DoBumpTenant | internal/cache/version_manager.go:190-194 | the tenant's index is dropped, in place; VersionsNeverGoBack says it comes back under a generation it never had |
| VersionIndex.VersionManager.DoPrune | internal/cache/version_manager.go:199-207 | exactly the tenants no longer served are dropped |
| SharedCache.HitIsCurrent | internal/cache/redis.go:452-634 | over every run of any number of processes and any loss or corruption of tokens, where a lookup hits, no token its entry is filed under was replaced between the read the entry was filled from and the lookup's own |
| SharedCacheHistory.HitExactlyWhen | internal/cache/redis.go:452-634 | over every run, a lookup hits exactly when it is complete and created no token, the last fill of its entry before it read its value stored that payload with the tokens that fill's lookup had read, the entry was not lost since, and no token it is filed under was written between the two lookups' reads |
| SharedCacheHistory.FillIsServed | internal/cache/redis.go:452-634 | a lookup that read its tokens after the filling lookup read its own, with no write or loss of them between, and its value after the fill, with no other fill or loss of the entry between, hits exactly what was filled |
| SharedCacheHistory.CreatorMisses | internal/cache/redis.go:505-511 | a lookup that had to create a token never hits |
| SharedCacheHistory.ReadIsExact | internal/cache/redis.go:537-561 | reading tokens finds every token the server then holds for the keys and no other, so that a lookup is complete exactly when each of them holds one |
| SharedCache.LandedBumpOrphans | internal/cache/redis.go:664-702 | a fill from before a bump is never served by a lookup that reads its tokens after the bump lands |
| SharedCache.NothingForgotten | internal/cache/pending.go:35-99 | after any run, every key ever added to a pending set is still held, as itself or as its tenant's token, unless one of the two was bumped after that addition, and so after its last; a lookup's creating the token anew lets go of nothing; a key never added was acknowledged by the server and bumped since its invalidation began |
| SharedCache.OwnInvalidationsHold | internal/cache/redis.go:458-471 | a process never serves itself a result from before an invalidation it was asked for, delivered or deferred: a later lookup is bypassed, or hits only what was filled from tokens read after the bump was owed |
| SharedCache.InvRun | internal/cache/redis.go:452-814 | what every step keeps: each token is written once, a current token is its key's last write, every snapshot and stored entry was current when read |
| SharedCache.DroppedLanded | internal/cache/redis.go:786-814 | what a drain takes off the pending set it landed, after everything added by its snapshot |
| SharedCache.BeginLookupOK | internal/cache/redis.go:458-471 | a lookup that is not bypassed has every invalidation of its keys already landed |
| SharedCache.RunOK | internal/cache/redis.go:704-725 | a token write, whenever it runs and whether SET or SET NX, keeps the server consistent |
| SharedCacheHistory.BumpDelivers | internal/cache/redis.go:664-725 | a bump an invalidation sends and the server runs puts a fresh token under its key, can be acknowledged, and leaves one key fewer to deliver |
| SharedCacheHistory.DrainDelivers | internal/cache/redis.go:786-814 | a drain's puts a fresh token under its key and takes the key off what the process owes, unless it was added again since |
| PendingBumps.AddHolds | internal/cache/pending.go:35-50 | an addition is held from then on, and a collapse past the maximum keeps everything as its tenant's token |
| PendingBumps.DoneKeeps | internal/cache/pending.go:75-84 | done takes a key off only as it was last added; one added again since stays |
| PendingBumps.HeldIsBypassed | internal/cache/pending.go:87-99 | a lookup filed under a held key, or under its tenant's token, is owed a bump |
| PendingBumps.AddIsBounded | internal/cache/pending.go:42-48 | the set stays within its maximum, or holds one token per tenant |
| PendingBumps.AddExactly | internal/cache/pending.go:35-50 | up to the maximum exactly the old keys and those added are held, these as of now and the others as they were |
| PendingBumps.AddCollapses | internal/cache/pending.go:42-48 | past it exactly one token is held for each tenant with a key held or added, as of now |
| PendingBumps.DrainLeavesLater | internal/cache/pending.go:52-99 | a drain that lands all it set out to leaves bypassed exactly the lookups filed under what was added meanwhile |
| PendingBumps.CollapseKeys | internal/cache/pending.go:42-48 | the loop over the map collapses to one token per tenant, whatever its order |
| PendingBumps.Bumps.AddKeys | internal/cache/pending.go:35-50 | the keys are held under a new addition, collapsed past the maximum, and the count read without the lock stays right |
| PendingBumps.Bumps.DoneKeys | internal/cache/pending.go:75-84 | takes off exactly the landed keys unchanged since the snapshot, and the count stays right |
| PendingBumps.Bumps.OwesSome | internal/cache/pending.go:87-99 | answers whether any of the keys is among those held, the shortcut on the count included |
| RedisBumps.SendBatch | internal/cache/redis.go:711-725 | reports each key as the server answered it, and success only for all |
| RedisBumps.NextBatch | internal/cache/redis.go:678-678 | batches are full or last, and share out the keys without loss or repeat |
| RedisBumps.SendAll | internal/cache/redis.go:664-702 | of the keys sent what the server confirmed has landed, everything else counts as failed, sending stops short only past a failure, and success means every key was confirmed |
| RedisBumps.DeferAll | internal/cache/redis.go:727-741 | every failed key is held from now on, and nothing held before is forgotten |
| RedisBumps.Bump | internal/cache/redis.go:664-702 | each key landed or is owed; success is reported exactly when nothing was deferred, and then the pending set is untouched |
| RedisBumps.DrainAll | internal/cache/redis.go:786-814 | takes off exactly what the server confirmed, reports whether nothing is owed, and falls short only where a batch was turned away or a key not confirmed |
| RedisKeys.BackendsInvalidateAlike | internal/cache/redis_codec.go:91-107 | for every namespace and dependency list of one tenant, a Redis bump replaces one of the entry's tokens exactly when the local index changes the entry's key |
| RedisKeys.RedisBumpReaches | internal/cache/redis_codec.go:102-107 | and exactly when the tables are the same and the written scope is empty, equal to the dependency's, or the dependency's is empty |
| RedisKeys.LocalBumpReaches | internal/cache/version_manager.go:156-182 | the local index's half of it |
| RedisKeys.KeyBytesInjective | internal/cache/redis_codec.go:52-75 | token keys of different tenants, kinds, tables or scopes differ as byte strings |
| RedisKeys.KeysAreLaidOut | internal/cache/redis_codec.go:49-75 | the layout builds sharing a server must agree on: prefix:{tenant}:T, :B:table and :S:table:scope, names escaped |
| RedisKeys.TokenKeysByName | internal/cache/redis_codec.go:91-98 | the list holds the tenant's token and each dependency's table and scope tokens, and no others |
| RedisKeys.TokenKeysCanonical | internal/cache/redis_codec.go:78-98 | neither order nor repetition of the dependencies changes the list |
| PoolReconcile.CeilingHolds | internal/chconn/chconn.go:441-509 | after every sequence of reconciles in which no shrink's dial fails, the open pools' sizes sum to at most the ceiling |
| PoolReconcile.FailedShrinkBreaksCeiling | internal/chconn/chconn.go:479-499 | counterexample without that: one failed shrink under a planned growth leaves 13 connections under a ceiling of 10 |
| PoolReconcile.CeilingExactlyWhen | internal/chconn/chconn.go:479-499 | whatever resizes fail, the ceiling holds afterwards if and only if the sizes their pools are kept at fit beside the plan of the others |
| PoolReconcile.OneFailedResize | internal/chconn/chconn.go:494-498 | where one fails, that is the test a placement makes |
| PoolReconcile.PlanUnder | internal/chconn/chconn.go:457-473 | from pools within the ceiling, the plan is within it at the end of both passes |
| PoolReconcile.SuccessSumsTheAsks | internal/chconn/chconn.go:441-509 | whatever the pools were at, above the ceiling too, an error-free reconcile leaves them at exactly the sum of the largest asks per named tuple, so within the ceiling exactly when that sum is |
| PoolReconcile.SettledStays | internal/chconn/chconn.go:661-680 | asking again for what is there changes nothing and reports nothing, whatever the ceiling, so that pools left above it may stay there without an error |
| PoolAccept.NoCeilingSucceeds | internal/chconn/chconn.go:441-509 | without a ceiling, with every pool opening and resizing, a reconcile reports no error |
| PoolAccept.FirstPoolsOpen | internal/chconn/chconn.go:441-509 | from no pools, with every pool opening, a reconcile whose largest asks sum to at most the ceiling reports no error, and needs no resize: each pool opens at the size it is to have |
| PoolAccept.StayersFit | internal/chconn/chconn.go:457-473 | whatever the pools were at, where no wanted tenant changes tuple and everything dials, a reconcile whose largest asks sum to at most the ceiling reports no error: whoever the first pass refuses the second places |
| PoolAccept.StayersFitExactly | internal/chconn/chconn.go:457-473 | from pools within the ceiling it succeeds if and only if that sum is within it |
| PoolReconcile.SuccessIsExact | internal/chconn/chconn.go:441-509 | a reconcile that returns no error leaves every wanted tenant on the tuple its Params name, with those Params, nobody else anywhere, and each pool at exactly the componentwise maximum of its members' asks |
| PoolReconcile.NobodyLosesAPool | internal/chconn/chconn.go:457-473 | nobody unwanted keeps a pool; every wanted tenant ends where it asked or exactly where it was, and none that had a pool loses it |
| PoolReconcile.PlanReports | internal/chconn/chconn.go:462-473 | no error is reported if and only if the last pass refused nobody |
| PoolReconcile.PassReports | internal/chconn/chconn.go:661-680 | within a pass, errors are on record exactly when somebody was refused, although a shared pool's refusal is recorded once |
| PoolReconcile.ApplyConsistent | internal/chconn/chconn.go:479-500 | applying a plan leaves tenant map and members mutual inverses and no pool without members |
| PoolReconcile.ApplyUnder | internal/chconn/chconn.go:479-500 | applying a plan keeps the ceiling if no failed resize was to shrink |
| PoolWalk.PlaceUnder | internal/chconn/chconn.go:585-612 | the planned sum over tuples with members is within the ceiling after every placement, whatever its outcome |
| PoolAccept.PlacedExactlyWhen | internal/chconn/chconn.go:556-680 | a placement is accepted exactly when its tuple is open or opens, and there is no ceiling, or its ask (in place: with the other members' asks) fits it beside the plans of the other tuples that still have members once the tenant has left its own, or an open tuple's plan is that large already |
| PoolAccept.OpenedAt | internal/chconn/chconn.go:616-641 | a new pool opens at the largest ask among the wanted naming it where that fits, otherwise at the tenant's own, and is planned at the tenant's own |
| PoolWalk.PlaceKeeps | internal/chconn/chconn.go:585-612 | every placement keeps the tenant map and the members inverse to each other, each member's Params naming its tuple |
| PoolWalk.RefusedMoveRestores | internal/chconn/chconn.go:585-612 | a refused move or admission restores the walk exactly, but for one more error |
| PoolWalk.RefusedResizeKeepsPlan | internal/chconn/chconn.go:661-680 | a resize refused in place keeps the plan and takes the new Params |
| PoolWalk.PlaceSpares | internal/chconn/chconn.go:585-612 | nobody but the placed tenant moves or changes Params, and it keeps a pool if it had one |
| PoolWalk.PlacedIsNamed | internal/chconn/chconn.go:585-656 | a placed tenant is on the tuple its Params name, with those Params |
| PoolWalk.PlaceExact | internal/chconn/chconn.go:568-680 | a tuple whose members have all been placed is planned at exactly their largest ask |
| PoolWalk.RefusalIsReported | internal/chconn/chconn.go:585-680 | a refusal is always on record and a success records nothing |
| PoolWalk.LeaveUnder | internal/chconn/chconn.go:568-579 | leaving never raises the planned sum |
| PoolWalk.SizesOfIsMaximum | internal/chconn/chconn.go:355-361 | a pool's size is the least that holds every member's ask, in each dimension |
| Pools.LargestAsk | internal/chconn/chconn.go:355-361 | the loop over the members computes it |
| Pools.Walker.FitsAt | internal/chconn/chconn.go:556-564 | the loop over the other tuples decides whether a size fits |
| Pools.Walker.LeaveTuple | internal/chconn/chconn.go:568-579 | the tenant goes off its tuple, whose plan shrinks to what remains when that is no larger |
| Pools.Walker.JoinTuple | internal/chconn/chconn.go:616-656 | the tuple takes the tenant or refuses it with nothing changed; PoolAccept.PlacedExactlyWhen says which |
| Pools.Walker.GrowTuple | internal/chconn/chconn.go:661-680 | the plan becomes the members' largest ask if that fits, or else stays, with one error per tuple and pass |
| Pools.Walker.PlaceMember | internal/chconn/chconn.go:585-612 | a whole placement, undoing a refused move field by field |
| Pools.PoolSet.Refit | internal/chconn/chconn.go:441-509 | the whole Reconcile: the specified pools, an error exactly when the plan or a resize was refused, and, sorted, exactly the tenants newly on a pool or on one of another address or database |
| Pools.StaleTenants | internal/chconn/chconn.go:501-507 | lists, sorted, exactly the tenants newly admitted or moved to another address or database |
| LeaseTable.OneLiveTerm | internal/coord/local.go:41-61 | over every run of every handle, at most one live term per name |
| LeaseTable.TokensIncrease | internal/coord/local.go:56-59 | a term's token is above every earlier one of its name |
| LeaseTable.AcquiredExactlyWhenFree | internal/coord/local.go:41-61 | TryAcquire succeeds exactly when the handle is open and no term of the name is live |
| LeaseTable.EndedStaysEnded | internal/coord/local.go:86-96 | a term that ended is never live again |
| LeaseTable.ResigningTwiceIsNothing | internal/coord/local.go:86-121 | resigning an ended term changes nothing, however much later, so never a successor's lease |
| LeaseTable.AcquiredIsLive | internal/coord/local.go:41-61 | a term just acquired is live on its handle and under its name, and no other term ends |
| LeaseTable.RefusedIsNothing | internal/coord/local.go:41-61 | an acquisition that is refused changes nothing, and is refused as closed exactly when the handle is |
| LeaseTable.ResignFrees | internal/coord/local.go:86-121 | after any run, a resigned term is over, its name can be acquired by any open handle, and every other term is as live as before |
| LeaseTable.CloseFrees | internal/coord/local.go:75-96 | after any run, a closed handle holds no lease: every name it held can be acquired by any other open handle, and no other handle's terms end |
| LeaseTable.ClosedHoldsNothing | internal/coord/local.go:41-83 | whatever happens after, a closed handle never has a live term again |
| LeaseTable.Local.AcquireTerm | internal/coord/local.go:41-61 | closed, held, or a new term under the next token, in the handle and the shared table alike |
| LeaseTable.Local.EndTerm | internal/coord/local.go:86-96 | frees the lease of a term the handle still has, and nothing for any other |
| LeaseTable.Local.CloseTerms | internal/coord/local.go:75-83 | frees every lease of the handle and no other |
| ShardClaims.OwnersAreDisjoint | internal/ingest/claims.go:327-364 | two processes that acted on one view of members and units in different slots own nothing in common, however their ticks interleaved and whatever happened since |
| ShardClaims.DisjointExactlyWhen | internal/ingest/claims.go:344-355 | of one view, what two processes may own is disjoint if and only if they acted in different slots, or nothing is assigned to the one slot |
| ShardClaims.MembersActApart | internal/ingest/claims.go:327-364 | processes whose memberships acted under are both still live acted in different slots |
| ShardClaims.LiveMembersAreDisjoint | internal/ingest/claims.go:327-364 | so live members that acted on one view, each under the membership it has, own nothing in common |
| ShardClaims.RejoinedProcessMayOverlap | internal/ingest/claims.go:410-441 | counterexample for the membership held instead of the one acted under: a process that lost its slot, rejoined and could not read the members still owns its successor's units |
| ShardClaims.OwnedOrReleasing | internal/ingest/claims.go:445-527 | no process has a unit both owned and being handed over, at any point of any run |
| ShardClaims.EveryUnitIsATarget | internal/ingest/claims.go:344-355 | of a view with a live slot, every unit is exactly one live slot's target |
| ShardClaims.TickOwnsTargets | internal/ingest/claims.go:327-364 | a tick that gets through, every unit tried and bound, ends owning exactly what its slot is assigned of the view it read and is not still on its way out, the rest of what it had handed over; one that is no member, or not among the slots it read as live, ends owning nothing |
| ShardClaims.EveryUnitIsOwned | internal/ingest/claims.go:344-364 | where every live slot of a view has a process that owns its targets of it, every unit is owned |
| ShardClaims.ReapExactly | internal/ingest/claims.go:410-423 | a tick keeps its membership exactly while its term is live, and otherwise joins anew from the first slot |
| ShardClaims.HandedOverFrees | internal/ingest/claims.go:604-627 | a unit handed over is on its way out no more, and can be taken again if it is still a target |
| ShardClaims.OKRun | internal/ingest/claims.go:327-364 | what every step keeps: a process owns only what its last view assigned its slot |
| ShardClaims.MemberLeaseInjective | internal/ingest/claims.go:98-98 | a slot's lease is ingest.m and its number, and different slots have different leases |
| ClaimLoop.SharesFitBudget | internal/ingest/claims.go:540-542 | each unit has room for two prefetches or the whole budget, and for no less than an even share of it, none for more than the budget, and all together hold at most the budget or two prefetches each |
| ClaimLoop.Loop.JoinMembers | internal/ingest/claims.go:425-441 | takes the lowest slot nobody holds, or none when all are held or the coordinator is closed |
| ClaimLoop.Loop.GiveUpUnits | internal/ingest/claims.go:445-465 | keeps exactly the targets, hands over exactly the rest, and forgets takeovers of others |
| ClaimLoop.BindsExactly | internal/ingest/claims.go:469-527 | a unit is bound exactly when the broker binds it and it is not waited for: a pin is held on it, and it is being taken over, from a slot that is gone or by a process alone, for less than 30 seconds |
| ClaimLoop.PinLapses | internal/ingest/claims.go:494-508 | a takeover that began at some time is held back by a pin until 30 seconds later and no longer |
| ClaimLoop.Loop.TakeUnit | internal/ingest/claims.go:469-527 | a takeover from a dead owner waits out a held pin for 30 seconds and no longer; a unit is taken exactly when it does not wait and binds |
| ClaimLoop.Loop.TakeUnits | internal/ingest/claims.go:469-527 | takes exactly the targets neither held nor on their way out that bind, up to one whose durable is gone |
| ClaimLoop.Loop.Act | internal/ingest/claims.go:344-361 | after a tick the process owns of what it had the targets, and of the other targets exactly those that bind, up to one whose durable is gone; the rest are handed over and the owners remembered |
| ClaimLoop.Decide | internal/ingest/claims.go:344-355 | the assignment, the configured and the extra units apart, and the units of this process's own slot |
| Assign.AssignmentIsFair | internal/ingest/assign.go:19-63 | every unit has a slot, no slot more than ⌈units/slots⌉, and any slot a unit ranks above its own has exactly that many, all of them taken before it: of better best score, or as good and of lesser name |
| Assign.OnlyOneIsFair | internal/ingest/assign.go:12-63 | and any assignment of the units that is fair in that sense is this one |
| Assign.AssignUnits | internal/ingest/assign.go:19-63 | the loops over lists compute the rule over sets, so the result does not depend on the order of the inputs |
| Assign.DealtIsAssigned | internal/ingest/assign.go:45-61 | taking the units in turn is the rule, step for step |
| Assign.RankSlots | internal/ingest/assign.go:36-42 | orders the slots by descending score, then number |
| Assign.RankUnits | internal/ingest/assign.go:30-50 | orders the units by descending best score, then name |
| Assign.PickSlot | internal/ingest/assign.go:54-60 | the first slot in a unit's order with room is the best of those that have any |
| Consumer.HeldIsBounded | internal/mq/external_consumer.go:188-230 | in every interleaving of puller, deliverer and settlements, unsettled rows stay within the largest cap read so far plus max(1, ackWait / 5s) |
| Consumer.QueueIsBounded | internal/mq/external_consumer.go:188-256 | queued rows stay within the share plus the same slack |
| Consumer.UnbudgetedQueue | internal/mq/external_consumer.go:188-212 | a consumer without a budget never queues past its share |
| Consumer.LookFetches | internal/mq/external_consumer.go:188-223 | a fetch takes as many rows as fit the share beside the queue and the cap beside the unsettled, none if that is none; any that many rows may then arrive, and are queued in order |
| Consumer.RenewFetches | internal/mq/external_consumer.go:204-212 | at the cap one more row is fetched exactly while fewer than max(1, ackWait / 5s) are past the cap and past the share |
| Consumer.HandedInOrder | internal/mq/external_consumer.go:234-256 | rows reach the handler in fetch order, once each, and a drained part has handed on all it fetched |
| Consumer.HaltReturnsDrained | internal/mq/external_consumer.go:317-342 | when a halt returns, everything fetched has been handed on, and nothing is fetched or handed on after |
| Consumer.HaltEndsPuller | internal/mq/external_consumer.go:317-342 | a halted puller can end as soon as it next looks for room, whatever it was doing, and nothing else changes |
| Consumer.QueueDrains | internal/mq/external_consumer.go:234-256 | once fetching has ended, what is queued can be handed on in order, and the part is then drained |
| Consumer.ConsumerPart.RoomNow | internal/mq/external_consumer.go:188-196 | what the next fetch may take: the share less the queue, and no more than the cap less the unsettled |
| Consumer.ConsumerPart.OvershootNow | internal/mq/external_consumer.go:204-212 | whether a renewal may take one row past the cap: exactly while fewer than max(1, ackWait / 5s) are past it and past the share |
| Consumer.ConsumerPart.Enqueue | internal/mq/external_consumer.go:214-223 | takes the machine's Arrive step |
| Consumer.ConsumerPart.SettleRow | internal/mq/external_consumer.go:225-230 | takes the machine's Settle step |
| Consumer.ConsumerPart.Next | internal/mq/external_consumer.go:234-256 | takes the machine's Deliver step with the row it returns, or its end once the queue is empty for good |
| Backoff.NobodyWaitsPastTheirCap | internal/ingest/backoff.go:128-228 | after any sequence of calls, no wait handed to a tenant with cap c > 0 reaches max(c, base) + base |
| Backoff.DoublingEndsExactly | internal/ingest/backoff.go:217-220 | the delay before jitter is min(base·2^(n-1), max(c, base)) for every n if and only if c is at most base·2^30 |
| Backoff.EscalationIsDoubled | internal/ingest/backoff.go:199-228 | a failure that opens a window draws its wait from the upper half of that delay and ends the probe |
| Backoff.NoOverflow | internal/ingest/backoff.go:217-220 | the shift never leaves int64 |
| Backoff.OneProbe | internal/ingest/backoff.go:144-190 | while a backoff is open and nobody reports, at most one flush is let through, and none if a probe is out |
| Backoff.AllowExactly | internal/ingest/backoff.go:144-159 | a flush is let through exactly when nothing failed, or the window is over and no probe is out, and then is the probe; turned away, it waits for what is left of the window, cut to the smallest cap that met it, and less than a second more, or for the probe between half a second and a second |
| Backoff.WindowHolds | internal/ingest/backoff.go:144-228 | after a failure opens a window with some wait, no flush is let through until that wait is over, whatever else is asked or fails, unless a success is reported or a tenant whose own cap is under the wait cuts it |
| Backoff.WaitingExactly | internal/ingest/backoff.go:177-190 | rows stay away exactly when a flush would be turned away, and just as long, and never take the probe |
| Backoff.ReopensExactly | internal/ingest/backoff.go:161-166 | after a success everybody is let through, and after a probe is handed back everybody once the window is over |
| Backoff.FailExactly | internal/ingest/backoff.go:199-228 | a failure in a running window waits for what is left of it and less than a second more; any other opens a window of between half and all of a second doubled for each failure before it, cut to the cap, and escalates; it is the first exactly when none came before, and is logged exactly when it escalates and is the first or half a minute after the last logged |
| Backoff.LogsAreRare | internal/ingest/backoff.go:199-228 | an outage that goes on logs no second line within half a minute of one, over every sequence of calls |
| Backoff.AdoptCuts | internal/ingest/backoff.go:128-139 | touching an open window cuts it to the tenant's own cap and never extends it |
| Backoff.Backoffs.Ensure | internal/ingest/backoff.go:78-96 | a new backoff starts closed and leaves the count of open ones right |
| Backoff.Backoffs.AllowFlush | internal/ingest/backoff.go:144-159 | lets a flush through exactly when its backoff has no failure, or its window is over with no probe out, and the shared counter stays the number of backoffs with failures |
| Backoff.Backoffs.RecordFailure | internal/ingest/backoff.go:199-228 | the same for a failure |
| Backoff.Backoffs.RecordSuccess | internal/ingest/backoff.go:232-244 | the same for a success, which closes the backoff |
| Backoff.Backoffs.RowsWait | internal/ingest/backoff.go:61-70 | turns rows away exactly when the pool or the table has failed and its window runs or its probe is out, the shortcut taken while no backoff is open included |
| LeaseWindow.AcceptedExactlyWhen | internal/config/backends.go:159-286 | with the embedded queue validation accepts exactly the leases in (0, 59s], otherwise every positive one |
| LeaseWindow.RetryFallsInWindow | internal/config/backends.go:261-286 | for each of them a client told in-flight at the last instant the rounded-up claim is live, and waiting as told, republishes within two minutes of the first publish |
| LeaseWindow.RuleIsTight | internal/config/backends.go:276-284 | some claim can miss the window if and only if the lease is at least 59s and two nanoseconds |
| LeaseWindow.LiveUntil | internal/dedupe/dynamodb.go:663-670 | a claim compared in epoch seconds is live exactly until its end rounded up to the second |
| LeaseWindow.CeilSecondIsCeiling | internal/config/backends.go:261-266 | rounds up to a whole second, by less than one |

## Left out

- The DynamoDB store's Reserve, Commit and Release as a protocol: only its expiry arithmetic is modelled.
- The embedded store's opening and closing of Pebble, and its open count: a store is there or it is not.
- HTTP routing, authentication, policy checks, schema validation and error mapping: a record arrives prepared, rejected or unreadable.
- DedupeManaged.Managed.Reserve: the refusal of a backend that answers another number of claims than it was asked for, which the embedded store never does.
- Managed.Release: the same guard as Commit over the store's Release.
- LocalCache.Local.Find runs its two reads with nothing in between, as one caller alone does; the events of the module take them apart.
- DedupeProtocol works on stored keys, whose injectivity DedupeKey proves; a key there is one (table, id) of one tenant.
- DedupeKey and SharedCache assume that SHA-256 does not collide where they say so; nothing else does.
- Wrap-around of the 64-bit version, generation, token and addition counters: they are unbounded numbers.
- SharedCache assumes that each generated token is written at most once and never repeats, and excludes a server restored from a snapshot, as the source does; a client library that resends a write is not modelled.
- The byte layout and compression of shared-cache values, their TTL and the breaker: a value may be missing or unreadable at any time, and a batch may be turned away.
- RedisKeys.TokenKeysCanonical: sortedDeps is not modelled apart, because the final sort and compaction give the same list.
- Close of the shared cache, which gives its undelivered bumps up: a process here takes no further steps instead.
- Ristretto's admission and eviction: any stored value may go at any time.
- Grace periods, TLS files and the driver in the pools, and the SharingTables, For and Target lookups over them.
- PoolAccept.StayersFit: says nothing of a reconcile in which a wanted tenant leaves one tuple for another. Two passes may then refuse a tenant that would fit: one that needs room a shared pool gives up only when the second pass moves its last large member away.
- Handles of the lease table are numbers, and a term is its owner, name and token; pointers and channels are not modelled.
- The broker's pins, renewals that take no row, and the releases of a unit: ShardClaims speaks of what processes hold, not of what the broker delivers.
- Liveness: that a unit is eventually taken, a bump eventually delivered or a halt eventually returns.
- Consumer.ConsumerPart.Next is the attempt that finds a row or the end; the waiting between attempts is a step that has not happened yet. The loops of puller and deliverer, which run at once, are the machine's interleaved steps and no method.
- LeaseWindow.RetryAfter is exact where the source rounds a floating-point number of seconds up.
- Metrics, logs, gauges and tracing.
