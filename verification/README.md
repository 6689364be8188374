# Storage layer and share pipeline, verified

This project models two parts of a Kaspa node workspace and proves what they promise.

**Storage (`database/src`).** Stores put a cache in front of one ordered byte map. Writes go to the database at once
or into a batch that is committed later, the cache is updated first, and any insert may evict any entry. Stores and
buckets share the key space and are told apart only by byte prefixes. The main results say that on every run this layer
answers as a plain map (`Access.dfy`), a plain map of sets (`SetAccess.dfy`), a plain cell (`Item.dfy`) or a plain set
(`SetItem.dfy`) would, given a discipline on staged keys. The discipline is on reads through a cache miss and on direct
writes over staged operations. For both it is proved exactly when a call outside it goes wrong. With a cache that has room
for the keys in use the condition on reads is one on the calls alone: what was written is read back before the commit
(`ReadYourWrites.dfy`). `WriteOnce.dfy` does concurrent readers and writers.

**Share pipeline (`bridge/src`).** A submitted share is admitted by a guard (`GuardModel.dfy`, `SubmitGuard.dfy`), tried
against a ring of jobs (`MiningState.dfy`, `JobSearch.dfy`), counted and reported (`ShareFlow.dfy`, `ShareHandler.dfy`)
and perhaps sent on as a block past a second guard (`BlockGuard.dfy`, `QueuePlace.dfy`). Around it are the partition of the nonce space
(`Extranonce.dfy`), the job text encoders (`JobEncoding.dfy`), line framing (`LineFraming.dfy`), the difficulty
controller (`VarDiff.dfy`) with the worker entries it works on (`WorkerDiff.dfy`, `WorkerLag.dfy`, `WorkerStats.dfy`),
and the built-in miner (`NonceWalk.dfy`, `StridePrime.dfy`, `CpuMiner.dfy`).

**Form.** Every mutable object of the parts above is a class here. Its methods are proved to be steps, or undisturbed
sequences of steps, of a transition system on values, and theorems about all runs are proved on that system. In the
concurrent parts the steps are what the source does under one lock; where it reads a clock ahead of a lock, the reading
is kept apart from the store. All steps interleave. The database is a map ordered by bytes and a batch is a list of
operations replayed in order. The serializer is any encoder with a decoder that undoes it. Eviction is any choice.
Instants are naturals, difficulties are reals, and a square root is any non-negative number with the right square. Proof
of work, node answers and clock readings are inputs.

**Where a promise fails.** Some natural properties do not hold of the code. Each comes with its exact condition:

- A read of a staged key through a cache miss caches the overwritten value (`AccessModel.ReadExactlyWhen`,
  `AccessModel.StaleReadSurvivesCommit`), and a look still sees a key whose removal is staged
  (`AccessModel.HasExactlyWhen`, `AccessModel.RemovedKeyIsSeen`). The first goes for a read of a bucket with staged members
  (`SetAccess.SetReadExactlyWhen`, `SetAccess.SetStaleReadSurvivesCommit`) and an item read between a staged removal and
  its commit (`ItemModel.ReadExactlyWhenSafe`, `ItemModel.RemovedValueComesBack`).
- A direct write over a staged operation is lost at the commit (`AccessModel.DirectWriteExactlyWhen`,
  `SetAccess.SetDirectExactlyWhen`, `ItemModel.DirectExactlyWhen`, `SetItem.DirectUpdateExactlyWhen`; a run for each is in
  `AccessModel.DirectWriteCanBeLost`, `SetAccess.SetDirectWriteCanBeLost`, `ItemModel.DirectWriteCanBeLost`,
  `SetItem.DirectUpdateCanBeLost`).
- With keys that are rewritten, a slow reader can leave a stale entry behind (`WriteOnce.NeverStaleIffWriteOnce`,
  `WriteOnce.RewriteCanGoStale`).
- The job search tries every stored job only for IDs from 300 on (`JobSearch.TriesEverySlotIff`), and for ID 0 the
  checked subtraction fails (`JobSearch.Search`; the release profile checks overflow, `Cargo.toml:350`).
- A share that was reported on again keeps its old place in the guard's queue, so pruning by age stops at it
  (`SubmitGuard.PruneKeepsIff`, `SubmitGuard.ExpiredOutlives`).
- A block taken off after a refusal leaves its name in the queue, and when that place is reached a newer mark of the same
  block goes with it, ahead of older marks (`QueuePlace.KeepsIff`, `QueuePlace.OldNameDropsNewMark`).
- Whether a failed call was for a duplicate is looked up in the text of the error, but that is the text it was wrapped in,
  which mentions none: every failed call unmarks its block (`BlockGuard.FailedCallIsRetryable`).
- A worker whose entry was pruned while idle starts from zero, although what it counted is in the totals
  (`ShareFlow.QuietMeansBalanced`, `ShareFlow.QuietWorkerByName`).
- A nonce of more than 12 digits need not fall in its client's range (`Extranonce.DecodesIntoOwnRangeIff`,
  `Extranonce.LongNonceCanStray`).
- A first read that ends right after `SM` is refused although the line may go on (`LineFraming.CutsDoNotMatterIff`,
  `LineFraming.CutAfterSm`).
- The controller's moves are thirty seconds apart only if no window start is stored later than its clock reading
  (`WorkerDiff.MovesTakeTime`, `WorkerLag.LagShortensSpacing`).
- The built-in miner's threads share nonces for thread counts with a factor in common with 1 000 000 007
  (`NonceWalk.NeverMeetIffCoprime`), which no smaller count has (`StridePrime.SmallCountsNeverMeet`), and after wrapping
  for every count that does not divide 2^64 (`NonceWalk.NeverShareIffDividesWord`).

`dafny verify dfyconfig.toml` checks the project.

## Model

| member | source | states |
|---|---|---|
| `KeySpace.RangeIsExtensions` | database/src/access.rs:204-213 | a byte string lies in the half-open range from a prefix to its end bound exactly when the prefix starts it |
| `KeySpace.AllOnesIsTop` | database/src/access.rs:204-213 | a prefix has no end bound only if it is all 0xFF, and then everything at or above it extends it |
| `KeySpace.StorePrefixHasEnd` | database/src/registry.rs:3-5 | since no store prefix is the separator byte, every store and bucket range has an end bound |
| `KeySpace.ShareExtension` | database/src/registry.rs:3-5 | two prefixes have a common extension exactly when one starts the other |
| `KeySpace.FixedWidthBuckets` | database/src/set_access.rs:137-147 | buckets of one width are prefix-comparable only when equal |
| `KeySpace.DbKey.constructor` | database/src/key.rs:12-18 | a key is its prefix followed by its text, and the prefix length is that of the prefix |
| `KeySpace.DbKey.AddBucket` | database/src/key.rs:35-42 | appends the bucket and counts it to the prefix |
| `KeySpace.DbKey.AddKey` | database/src/key.rs:43-50 | appends the key and adds its length to the prefix length |
| `KeySpace.NewWithBucket` | database/src/key.rs:19-29 | path is prefix, bucket, key; the prefix length is that of the whole path |
| `Writer.ReplayConcat` | database/src/writer.rs:71-93 | replaying two batches in turn is replaying their concatenation |
| `Writer.LookupIsReplay` | database/src/writer.rs:71-93 | looking a key up under a batch, last operation first, gives what replaying the whole batch stores there |
| `Writer.LookupAppend` | database/src/writer.rs:71-93 | operations appended to a batch act on top of it |
| `Writer.LookupUnderBatch` | database/src/writer.rs:36-57 | direct operations on keys the batch does not touch show through the batch |
| `Writer.DeletePrefixExact` | database/src/access.rs:204-213 | a range delete on a prefix removes exactly the keys that extend it, with every other key and value kept |
| `Writer.SparesIffIncomparable` | database/src/registry.rs:3-5 | a range delete can never lose another store's key if and only if neither prefix starts the other |
| `Writer.BucketDeleteSparesOthers` | database/src/set_access.rs:142-147 | deleting a fixed-width bucket spares another bucket if and only if they differ |
| `Writer.Db.Commit` | database/src/writer.rs:62-93 | committing leaves the database as the replayed batch and uses the batch up |
| `Writer.DbWriter.Put` | database/src/writer.rs:37-44 | direct: the map gets the pair; batched: the operation is appended and the map is unchanged |
| `Writer.DbWriter.Delete` | database/src/writer.rs:45-48 | direct: the key is gone; batched: the operation is appended |
| `Writer.DbWriter.DeleteRange` | database/src/writer.rs:49-57 | direct: the half-open range is gone; batched: the operation is appended |
| `Cache.TotalRemove` | database/src/cache.rs:61-113 | sizes add up: the total is any one entry's size plus the total of the rest |
| `Cache.DropAllIsDifference` | database/src/cache.rs:191-200 | removing keys one by one, repeats included, leaves exactly the entries of the other keys |
| `Cache.Cache.TrackedEvict` | database/src/cache.rs:61-69 | ends with the tracked size in bounds or the count within the minimum, size exact throughout, and stops at the first entry whose return would be too much |
| `Cache.Cache.Insert` | database/src/cache.rs:70-85 | tracked size stays exact, the bound is restored; with room nothing is evicted, otherwise no more than it takes, and an untracked cache holds the key just inserted |
| `Cache.Cache.InsertMany` | database/src/cache.rs:164-173 | as inserting one after the other: everything stays if there was room each time, the last key stays in an untracked cache, and no fewer entries than the floor |
| `Cache.Cache.UpdateIfEntryExists` | database/src/cache.rs:86-101 | an absent key changes nothing; a present one is replaced by the updated value with its size re-counted |
| `Cache.Cache.Remove` | database/src/cache.rs:102-113 | removes exactly the key and its size, with no underflow |
| `Cache.Cache.RemoveMany` | database/src/cache.rs:191-200 | removes exactly the listed keys |
| `Cache.Cache.RemoveAll` | database/src/cache.rs:201-210 | empties the cache and its size |
| `SharedSets.UnitsUpdate` | database/src/set_access.rs:46-101 | the total size after one shared set is replaced |
| `SharedSets.SetCache.TrackedEvict` | database/src/cache.rs:61-69 | as for plain entries, with sizes read off the shared sets, evicting no more than it takes |
| `SharedSets.SetCache.Insert` | database/src/cache.rs:70-85 | the very object passed in is cached, in place of one cached under its key; with room nothing is evicted, otherwise no more than it takes |
| `SharedSets.SetCache.UpdateIfEntryExists` | database/src/cache.rs:86-101 | the cached object is mutated in place, all its holders see it, the tracked size follows exactly, and nothing is evicted unless the set outgrew the bound |
| `SharedSets.SetCache.Remove` | database/src/cache.rs:102-113 | removes the key; the set itself is untouched |
| `AccessModel.PutsAt` | database/src/access.rs:145-181 | what a multi-write leaves at a key is its last value for that key |
| `AccessModel.OverlayAfter` | database/src/access.rs:134-213 | a call's operations change database overlaid with batch just as the call changes a plain map |
| `AccessModel.StepAgrees` | database/src/access.rs:44-213 | one disciplined call keeps cache within overlay, overlay equal to the plain map, and answers as the plain map |
| `AccessModel.RunAgrees` | database/src/access.rs:44-213 | on every run of reads, writes, deletes and commits with any eviction, cache is within database overlaid with batch, the overlay is the plain map that took the same calls, and every reply is that map's |
| `AccessModel.OtherStoreKeepsOut` | database/src/access.rs:33-43 | calls on another store never disturb this one when neither prefix starts the other |
| `AccessModel.OwnKeysOnly` | database/src/access.rs:134-213 | every operation a store issues touches only keys under its prefix |
| `AccessModel.ReadExactlyWhen` | database/src/access.rs:51-68 | a read with a staged key answers right if and only if the key is cached or the database already holds the staged result, and spoils the cache otherwise exactly when there was something to cache |
| `AccessModel.HasExactlyWhen` | database/src/access.rs:44-50 | a look with a staged key is right if and only if the key is cached or present before the commit exactly if after it |
| `AccessModel.RemovedKeyIsSeen` | database/src/access.rs:44-50 | for every store, key and value there is a three-call run in which a look answers that a key is there whose removal is staged |
| `AccessModel.DirectWriteExactlyWhen` | database/src/access.rs:134-213 | any direct write or delete under an open batch takes effect as on the plain map if and only if it changes nothing for keys with a staged operation |
| `AccessModel.DirectWriteCanBeLost` | database/src/access.rs:134-144 | for every store, key and two values there is a four-call run in which a direct write is undone by an older staged one |
| `AccessModel.StaleReadSurvivesCommit` | database/src/access.rs:51-68 | for every store, key and two values there is a five-call run, one call outside the discipline, after whose commit the overwritten value still answers |
| `ReadYourWrites.KeptRunAgrees` | database/src/access.rs:51-163 | on every run that evicts nothing, a key that was written or read, and not deleted since, is read back as the plain map has it, before the commit and after; the caller's condition speaks of calls only |
| `ReadYourWrites.AmpleRunAgrees` | database/src/access.rs:51-163 | so it is on every run of the store's methods when the policy has room for the keys in use |
| `ReadYourWrites.NothingInserted` | database/src/access.rs:182-213 | what the deleting methods leave in the cache, as equations, is what the run above asks of a call that inserts nothing |
| `Access.CachedDbAccess.Has` | database/src/access.rs:44-50 | a step of the transition system; changes nothing |
| `Access.CachedDbAccess.Read` | database/src/access.rs:51-68 | a step: hit, miss with caching, missing key, undecodable bytes; other entries stay unless the insertion evicts |
| `Access.CachedDbAccess.Write` | database/src/access.rs:134-144 | a step: cache then writer; the value is cached, with room nothing evicted |
| `Access.CachedDbAccess.WriteMany` | database/src/access.rs:145-163 | a step for all pairs in order; all are cached, each key with its last value, where there is room, and the last one always in an untracked cache |
| `Access.CachedDbAccess.WriteManyWithoutCache` | database/src/access.rs:164-181 | a step: puts all pairs, then clears the whole cache |
| `Access.CachedDbAccess.Delete` | database/src/access.rs:182-190 | a step: exactly the key leaves the cache, and the overlay |
| `Access.CachedDbAccess.DeleteMany` | database/src/access.rs:191-203 | a step for all keys: exactly they leave the cache |
| `Access.CachedDbAccess.DeleteAll` | database/src/access.rs:204-213 | a step: the cache is emptied and the store's range deleted, its end bound existing |
| `Access.CachedDbAccess.Commit` | database/src/writer.rs:62-93 | committing the open batch is a step that leaves the cache alone |
| `SetAccess.ScanExact` | database/src/set_access.rs:154-194 | a bucket scan decodes and returns exactly the bucket's members |
| `SetAccess.KeysDiffer` | database/src/set_access.rs:137-141 | in buckets of one width, distinct members have distinct database keys |
| `SetAccess.BucketRange` | database/src/set_access.rs:142-147 | the range of a bucket holds a member's key exactly when the member is in that bucket |
| `SetAccess.MembershipAfter` | database/src/set_access.rs:132-153 | an operation changes a member's presence in the overlay exactly if it touches its key |
| `SetAccess.OwnOpKeepsCoherent` | database/src/set_access.rs:81-101 | an operation confined to one bucket, with its cached set changed to match, keeps every cached set right |
| `SetAccess.SetStepAgrees` | database/src/set_access.rs:61-101 | one call keeps cached sets and overlay equal to the plain map of sets and answers as it does |
| `SetAccess.SetRunAgrees` | database/src/set_access.rs:61-101 | on every run, other stores writing to the same database and batch, cached sets are the buckets of database overlaid with batch, and every read returns exactly the plain map's set |
| `SetAccess.ForeignKeeps` | database/src/set_access.rs:57-60 | another store's operation outside the prefix changes no bucket and no cached set |
| `SetAccess.DirectRunScans` | database/src/set_access.rs:66-80 | on every run of direct writes, with nothing asked of the caller, every read returns what an uncached scan would and what a plain map of sets holds |
| `SetAccess.SetReadExactlyWhen` | database/src/set_access.rs:66-80 | a read of a bucket with staged members answers right, and keeps the cache right, if and only if the bucket is cached or the database already holds what the batch leaves |
| `SetAccess.SetStaleReadSurvivesCommit` | database/src/set_access.rs:66-80 | for every store, bucket and two members there is a run after whose commit a member is missing from every read |
| `SetAccess.SetDirectExactlyWhen` | database/src/set_access.rs:81-101 | a direct write or delete under an open batch takes effect if and only if it changes nothing for the bucket's staged members |
| `SetAccess.SetDirectWriteCanBeLost` | database/src/set_access.rs:81-88 | for every store, bucket and member there is a run in which a direct write is undone by an older staged removal |
| `SetReadYourWrites.AmpleRunAgrees` | database/src/set_access.rs:66-101 | with room for the buckets in use, a bucket once read and not deleted since is read back with its staged members on every run |
| `SetAccess.DbSetAccess.Write` | database/src/set_access.rs:132-136 | puts the member's key with an empty value |
| `SetAccess.DbSetAccess.Delete` | database/src/set_access.rs:149-153 | deletes the member's key |
| `SetAccess.DbSetAccess.DeleteBucket` | database/src/set_access.rs:142-147 | deletes the bucket's range, whose end bound exists |
| `SetAccess.CachedDbSetAccess.Read` | database/src/set_access.rs:66-80 | a step; returns the cached object itself, or a new one holding the scan, which is cached; with room nothing is evicted |
| `SetAccess.CachedDbSetAccess.Write` | database/src/set_access.rs:81-88 | a step; the cached set gains the member in place, tracked size exact |
| `SetAccess.CachedDbSetAccess.Delete` | database/src/set_access.rs:94-101 | a step; the cached set loses the member in place, tracked size exact, and nothing is evicted |
| `SetAccess.CachedDbSetAccess.DeleteBucket` | database/src/set_access.rs:89-93 | a step; the bucket leaves the cache and a set handed out earlier keeps its members |
| `SetAccess.CachedDbSetAccess.Commit` | database/src/writer.rs:62-93 | committing the open batch is a step that leaves the cached sets alone |
| `ItemModel.StepAgrees` | database/src/item.rs:29-83 | one disciplined call keeps item and overlay right and answers as a plain cell |
| `ItemModel.RunAgrees` | database/src/item.rs:29-83 | on every run with one open batch: read-your-writes, and after commit the database holds the cell |
| `ItemModel.ReadExactlyWhenSafe` | database/src/item.rs:29-44 | a read answers right, and leaves the item right, if and only if it does not fall between a staged removal of a stored value and its commit |
| `ItemModel.RemovedValueComesBack` | database/src/item.rs:29-61 | for every item and value there is a run after whose commit the removed value still answers |
| `ItemModel.DirectExactlyWhen` | database/src/item.rs:45-83 | a direct write, removal or update over a staged one takes effect if and only if it changes nothing |
| `ItemModel.DirectWriteCanBeLost` | database/src/item.rs:45-54 | for every item and two values there is a four-call run after which the item answers the one and the database holds the other |
| `Item.CachedDbItem.Read` | database/src/item.rs:29-44 | a step: cached, fetched, missing or undecodable |
| `Item.CachedDbItem.Write` | database/src/item.rs:45-54 | a step: item then writer |
| `Item.CachedDbItem.Remove` | database/src/item.rs:55-61 | a step: item cleared, key deleted |
| `Item.CachedDbItem.Update` | database/src/item.rs:62-83 | a step: reads, applies, writes and returns the new value, or fails with nothing changed |
| `Item.CachedDbItem.Commit` | database/src/writer.rs:62-93 | committing the open batch is a step |
| `SetItem.UpdateAt` | database/src/item.rs:131-153 | deleting `removed` and then putting `added` leaves a member in the bucket exactly if it is in (old minus removed) plus added |
| `SetItem.UpdateAgrees` | database/src/item.rs:131-153 | an update keeps held set and overlay bucket equal and returns (old minus removed) plus added, overlaps included |
| `SetItem.RunAgrees` | database/src/item.rs:111-153 | on every run with one open batch, other stores writing to it as well, the held set, the answers and the bucket of the overlay are one set |
| `SetItem.DirectUpdateExactlyWhen` | database/src/item.rs:131-153 | a direct update under an open batch takes effect if and only if it changes nothing for staged members |
| `SetItem.DirectUpdateCanBeLost` | database/src/item.rs:131-153 | for every item and member there is a three-call run after which the held set is empty and the database holds the member |
| `SetItem.CachedDbSetItem.Read` | database/src/item.rs:111-130 | a step; returns the held object, made by a scan the first time |
| `SetItem.CachedDbSetItem.Update` | database/src/item.rs:131-153 | a step; the held object is mutated in place, removals before additions |
| `SetItem.CachedDbSetItem.Commit` | database/src/writer.rs:62-93 | committing the open batch is a step |
| `WriteOnce.RunSafe` | database/src/access.rs:51-68 | on every interleaving of read and write steps on write-once keys, whatever is stored, cached, fetched or answered for a key is the one value written to it |
| `WriteOnce.ReadAfterPut` | database/src/access.rs:134-144 | once a put has completed, a read that begins later can only be on its way to that value, whatever is evicted |
| `WriteOnce.RewriteCanGoStale` | database/src/access.rs:51-68 | for rewritten keys an interleaving leaves the old value cached over the new one stored |
| `WriteOnce.NeverStaleIffWriteOnce` | database/src/access.rs:51-68 | whatever writes are permitted, no interleaving of them leaves a stale entry if and only if they permit one value for each key |
| `MiningState.NewestIsNewest` | bridge/src/mining_state.rs:54-78 | the closed form is the largest number up to n in a residue class |
| `MiningState.RingHoldsNewest` | bridge/src/mining_state.rs:54-78 | after n additions each slot holds the newest job of its residue class with its ID, and is empty exactly when the class has none |
| `MiningState.SlotsInRange` | bridge/src/mining_state.rs:54-78 | both maps have the same slots, all below 300 |
| `MiningState.GetJobReturns` | bridge/src/mining_state.rs:79-87 | a lookup returns the newest job congruent to the ID, which is the job added under it if and only if fewer than 300 came after |
| `MiningState.MiningState.AddJob` | bridge/src/mining_state.rs:54-78 | returns the next ID and extends the history by the job |
| `MiningState.MiningState.Get` | bridge/src/mining_state.rs:79-87 | answers as the ring built from the history |
| `MiningState.MiningState.GetJobIdAtSlot` | bridge/src/mining_state.rs:88-92 | answers the newest ID of the slot's residue class |
| `JobSearch.Search` | bridge/src/share_handler.rs:646-1052 | terminates after at most 300 jobs whatever lookups answer, each but the last missing both targets, the last deciding the outcome; the subtraction underflows exactly for ID 0 with a miss |
| `JobSearch.TriedSlotsDistinct` | bridge/src/share_handler.rs:994-1052 | no slot is looked at twice, even while jobs are added |
| `JobSearch.RejectedIffAllMissed` | bridge/src/share_handler.rs:994-1052 | without a network hit a share is rejected if and only if every job tried missed the pool target |
| `JobSearch.NodeDecides` | bridge/src/share_handler.rs:776-953 | with a network hit the node's answer decides: success, rejection, duplicate and failure give accepted, low difficulty, stale and bad, and nothing else does |
| `JobSearch.RejectedAfter` | bridge/src/share_handler.rs:1000-1052 | in a full, unchanged ring a rejected share was tried against exactly min(ID, 300) slots |
| `JobSearch.TriesEverySlotIff` | bridge/src/share_handler.rs:1000-1052 | those are all slots if and only if the ID is at least 300; then every stored job was tried, and where jobs are pairwise different only then |
| `GuardModel.PopExpiredSound` | bridge/src/share_handler.rs:186-199 | pruning by age keeps every unexpired entry and all entries reachable from the queue |
| `GuardModel.PopExcessSound` | bridge/src/share_handler.rs:200-208 | pruning by count terminates within the maximum |
| `GuardModel.PruneSound` | bridge/src/kaspaapi.rs:70-92 | an entry lost by pruning was expired or there were too many, even with stale and repeated names queued |
| `GuardModel.StepSound` | bridge/src/kaspaapi.rs:94-107 | every locked section keeps all entries reachable and their count within one of the maximum, and a mark that is lost was removed, had expired, or was one too many |
| `GuardModel.AdmissionsSeparated` | bridge/src/share_handler.rs:461-472 | on every interleaving, between two admissions of a key its mark is held until a step after which it is gone, for one of the three reasons |
| `GuardModel.FrontExpiresIff` | bridge/src/share_handler.rs:186-199 | the mark at the front of the queue goes, and its key is admitted again, if and only if it is older than the time to live |
| `GuardModel.ExpiryPutsApart` | bridge/src/share_handler.rs:461-472 | if the mark had expired, the admissions are more than the time to live apart, but for twice the lag between clock readings and locks |
| `SubmitGuard.WfMeans` | bridge/src/share_handler.rs:174-184 | well-formed means: the queue lists each live key exactly once and nothing else |
| `SubmitGuard.PruneKeepsIff` | bridge/src/share_handler.rs:186-208 | an entry survives pruning if and only if it is among the last max-entries of the queue and some entry at or ahead of it there has not expired |
| `SubmitGuard.ExpiredOutlives` | bridge/src/share_handler.rs:186-231 | for every configuration with room for two there is a run of three steps after which an expired mark survives a prune |
| `SubmitGuard.StepWf` | bridge/src/share_handler.rs:210-231 | admission and outcome keep the queue listing each live key exactly once |
| `SubmitGuard.RunWf` | bridge/src/share_handler.rs:210-231 | so does every run |
| `SubmitGuard.BehindIsNewer` | bridge/src/share_handler.rs:210-231 | while a mark is held, what is queued behind it is exactly what was admitted since, in order |
| `SubmitGuard.CrowdedOut` | bridge/src/share_handler.rs:186-208 | an unexpired mark is lost only with at least the maximum many names queued behind it |
| `SubmitGuard.HeldAgainstNewer` | bridge/src/share_handler.rs:461-472 | between two admissions of a key there is a step that loses its mark, which had expired, or at least the maximum many pairwise different other keys were admitted since |
| `SubmitGuard.HandledOncePerWindow` | bridge/src/share_handler.rs:243-251 | as configured, a share is admitted again only more than 180 seconds later, but for the lag, or after 50 000 admissions of pairwise different other shares |
| `SubmitGuard.HandledAfterWindow` | bridge/src/share_handler.rs:243-251 | as configured, a share at the front of the queue is admitted again if and only if more than 180 seconds have passed since it was admitted or last reported on |
| `SubmitGuard.DuplicateSubmitGuard.Prune` | bridge/src/share_handler.rs:186-208 | both loops compute the pruned guard |
| `SubmitGuard.DuplicateSubmitGuard.Get` | bridge/src/share_handler.rs:210-214 | prunes, then answers the held outcome if any |
| `SubmitGuard.DuplicateSubmitGuard.InsertInflight` | bridge/src/share_handler.rs:215-223 | prunes, then inserts at the back as in flight unless the key is held |
| `SubmitGuard.DuplicateSubmitGuard.SetOutcome` | bridge/src/share_handler.rs:224-231 | prunes, then overwrites time and outcome of a live key, queue unchanged |
| `SubmitGuard.DuplicateSubmitGuard.TryAdmit` | bridge/src/share_handler.rs:463-472 | the locked section of a submission is one admission step |
| `BlockGuard.ResentOnlyAfterLoss` | bridge/src/kaspaapi.rs:94-107 | without a removal in between, a hash is marked again only after a step that dropped its mark, as expired or as one too many |
| `QueuePlace.KeepsIff` | bridge/src/kaspaapi.rs:70-92 | with names of removed marks still queued, a mark survives a prune if and only if an unexpired mark stands at or ahead of it and at most max-entries marks not before it, each by the first place of its name |
| `QueuePlace.OldNameDropsNewMark` | bridge/src/kaspaapi.rs:70-107 | a run with room for two in which a mark made again behind another is dropped at the place its first name left, and the older mark stays |
| `BlockGuard.FailedCallIsRetryable` | bridge/src/kaspaapi.rs:418-436 | the text the call's failure is wrapped in names no duplicate, so every failed call unmarks its block and is no duplicate to the share handler |
| `BlockGuard.DuplicateReportKeepsMark` | bridge/src/kaspaapi.rs:424-432 | a failed call whose text speaks of a duplicate leaves the mark |
| `BlockGuard.AcceptedOnce` | bridge/src/kaspaapi.rs:395-460 | on every interleaving of submissions and answers, a block with nothing but acceptances behind it is sent again only after a step at which its mark was too old or there were too many |
| `BlockGuard.AcceptedOncePerWindow` | bridge/src/kaspaapi.rs:109-110 | as configured: more than 600 seconds after it was sent, or past 50 000 marks |
| `BlockGuard.SentAfterWindow` | bridge/src/kaspaapi.rs:70-103 | a block whose mark is at the front is sent again if and only if more than 600 seconds have passed |
| `BlockGuard.BlockSubmitGuard.Prune` | bridge/src/kaspaapi.rs:70-92 | both loops compute the pruned guard, stale names included |
| `BlockGuard.BlockSubmitGuard.TryMark` | bridge/src/kaspaapi.rs:94-103 | marks if and only if the hash is not held after pruning |
| `BlockGuard.BlockSubmitGuard.Remove` | bridge/src/kaspaapi.rs:104-107 | prunes and drops the entry, leaving its name queued |
| `BlockGuard.BlockSubmitGuard.TakeAnswer` | bridge/src/kaspaapi.rs:418-460 | an acceptance leaves the guard as it was, a refusal and a failed call that names no duplicate take the hash off, each a single step whenever it comes; the caller gets the node's report or the call's text |
| `BlockGuard.HeldBackIsDuplicate` | bridge/src/share_handler.rs:888-906 | the error of a block held back is taken for a duplicate by the share handler |
| `BlockGuard.BlockSubmitGuard.SubmitBlock` | bridge/src/kaspaapi.rs:386-460 | a held hash is not sent and makes its share stale; otherwise it is marked, and is held afterwards exactly if it was accepted or the call failed with word of a duplicate; the caller gets an error for anything but an acceptance |
| `ShareFlow.PaysIff` | bridge/src/share_handler.rs:888-953 | an update makes a count exactly if it is the worker's or the overall update of the verdict's class |
| `ShareFlow.AdvanceCounts` | bridge/src/share_handler.rs:1054-1124 | an update changes the asked counter by exactly what the handler still owed it |
| `ShareFlow.StepBalances` | bridge/src/share_handler.rs:1054-1124 | every step keeps counted plus owed equal to admitted, and class by class to decided |
| `ShareFlow.PruneCounts` | bridge/src/share_handler.rs:1172-1208 | removing a worker's entry takes its counters off the worker and leaves what was ever counted as it was |
| `ShareFlow.RunInv` | bridge/src/share_handler.rs:463-496 | on every interleaving of handlers and prunes of worker entries, for overall and every worker, what pruned entries held included, for all classes and each one: counted plus in flight equals admitted or decided; and the guard holds for each key what it was last told, which is a verdict reached for that key or, while open, has a handler at work on it that will yet report |
| `ShareFlow.QuietMeansBalanced` | bridge/src/share_handler.rs:1054-1124 | with nothing in flight, what was counted for shares, stale and invalid together equals the admissions and for each class the number of its verdicts, overall and for every worker; a worker's present entry shows that number if and only if its pruned entries held none of it |
| `ShareFlow.QuietByName` | bridge/src/share_handler.rs:888-1124 | with nothing in flight, shares are the submissions decided accepted, stale those decided stale, invalid those decided low or bad, and the three together the submissions admitted |
| `ShareFlow.QuietWorkerByName` | bridge/src/share_handler.rs:888-1124 | the same for every worker, with what its pruned entries held |
| `ShareFlow.ReplayChangesNothing` | bridge/src/share_handler.rs:473-496 | a submission whose key is held changes no counter; it is told yes if and only if the guard was last told of an admission of the key, a handler then being at work on it, or of an acceptance, and otherwise stale, low or bad, whichever was last reported and reached for that key |
| `ShareFlow.WorkAfter` | bridge/src/share_handler.rs:463-472 | a handler at work on a key stays so until it reports |
| `ShareHandler.ShareHandler.Admit` | bridge/src/share_handler.rs:463-496 | the guard's answer to a submission is an admission step, or the reply to a held key |
| `ShareHandler.ShareHandler.CountForWorker` | bridge/src/share_handler.rs:1054-1092 | the worker's counter update is the handler's next step |
| `ShareHandler.ShareHandler.CountOverall` | bridge/src/share_handler.rs:1054-1100 | so is the overall one |
| `ShareHandler.ShareHandler.ReportOutcome` | bridge/src/share_handler.rs:1113-1118 | and telling the guard |
| `ShareHandler.ShareHandler.ConcludeStale` | bridge/src/share_handler.rs:888-917 | a duplicate block goes through its verdict's three steps, reported first |
| `ShareHandler.ShareHandler.Conclude` | bridge/src/share_handler.rs:888-1124 | an accepted share raises shares, a duplicate block stale, a low or bad one invalid, by one for the worker and overall and nothing else; miner and guard are told the same; all in the order of the verdict |
| `ShareHandler.ShareHandler.Prune` | bridge/src/share_handler.rs:1172-1208 | dropping a worker's entry is a step |
| `ShareHandler.ShareHandler.Decided` | bridge/src/share_handler.rs:497-1124 | an admitted submission is searched for and concluded as what the search found, or left in flight on job ID 0 |
| `ShareHandler.ShareHandler.HandleSubmit` | bridge/src/share_handler.rs:463-1124 | a whole submission is an admission step and the steps of its verdict: turned away without a count, or counted once, by name, as what the search found; the guard's queue stays in order |
| `Hex.ValueOfPadded` | bridge/src/client_handler.rs:107-121 | zero-padded hex of width w stands for exactly the numbers below 16^w |
| `Hex.ValueConcat` | bridge/src/share_handler.rs:430-452 | the value of joined digit strings |
| `Hex.DigitsAre` | bridge/src/client_handler.rs:107-121 | digits are written in lower case and read in both |
| `Extranonce.ValueAtIs` | bridge/src/client_handler.rs:94-106 | the wrapping counter as a residue |
| `Extranonce.AssignmentsCollideIff` | bridge/src/client_handler.rs:94-106 | two assignments collide if and only if a multiple of 65536 lies between them |
| `Extranonce.ConsecutiveDiffer` | bridge/src/client_handler.rs:94-106 | any 65536 consecutive assignments are distinct |
| `Extranonce.BitmainNames` | bridge/src/client_handler.rs:87-94 | a name with godminer, bitmain or antminer in it, in any case, is Bitmain |
| `Extranonce.OtherNames` | bridge/src/client_handler.rs:87-94 | BzMiner, IceRiver and Goldshell are not |
| `Extranonce.ExtranonceCounter.Assign` | bridge/src/client_handler.rs:84-121 | Bitmain clients get the empty text and leave the counter; others get four digits spelling the next value |
| `Extranonce.ShortNonceDecodes` | bridge/src/share_handler.rs:415-452 | up to 12 hex digits of value v decode to extranonce * 2^48 + v, and other text is refused |
| `Extranonce.StripFirst` | bridge/src/share_handler.rs:419 | the first `0x` of a text is taken out, and stripping goes on behind it |
| `Extranonce.StripNone` | bridge/src/share_handler.rs:419 | a text without one stays as it is |
| `Extranonce.PrefixedNonceDecodes` | bridge/src/share_handler.rs:415-452 | a short nonce decodes the same with `0x` in front |
| `Extranonce.BitmainNonceDecodes` | bridge/src/share_handler.rs:419-452 | without an extranonce a nonce of up to 16 digits stands for itself, and a longer one if it fits 64 bits |
| `Extranonce.DecodesIntoOwnRangeIff` | bridge/src/share_handler.rs:415-452 | a submission lands in the client's range if and only if it has at most 12 characters or its leading digits spell the extranonce |
| `Extranonce.ClientsNeverCollide` | bridge/src/share_handler.rs:415-452 | short nonces of clients with different extranonces never decode alike |
| `Extranonce.ConsecutiveClientsDisjoint` | bridge/src/client_handler.rs:94-121 | clients within 65536 assignments of each other own disjoint nonce ranges |
| `JobEncoding.DecodeEncode` | bridge/src/hasher.rs:277-362 | byte-wise hex encoding round-trips |
| `JobEncoding.BytesAre` | bridge/src/hasher.rs:277-362 | byte i of the little-endian form is the low byte after i shifts, and big-endian has them the other way |
| `JobEncoding.PaddedOfBytes` | bridge/src/hasher.rs:367-390 | a word printed as 16 hex digits is the encoding of its big-endian bytes |
| `JobEncoding.SwappedTimestamp` | bridge/src/hasher.rs:367-390 | a timestamp read back through swapped byte order prints as its little-endian bytes |
| `JobEncoding.LargeJobParams` | bridge/src/hasher.rs:367-390 | the BzMiner text of a 32-byte hash is the IceRiver text; shorter data fails |
| `JobEncoding.ParamsDecode` | bridge/src/hasher.rs:277-362 | the text has 80 characters and decodes to hash and timestamp |
| `JobEncoding.ParamsInjective` | bridge/src/hasher.rs:277-362 | equal texts come from equal jobs |
| `JobEncoding.JobHeader` | bridge/src/hasher.rs:253-267 | the legacy words, written back little-endian, are the header's bytes; four of them give the hash |
| `LineFraming.TrimMeans` | bridge/src/stratum_listener.rs:470-477 | trimming takes white space off both ends and leaves none there |
| `LineFraming.FindIsFirst` | bridge/src/stratum_listener.rs:470-477 | the cut is at the first newline |
| `LineFraming.CleanOne` | bridge/src/stratum_listener.rs:317 | a NUL alone gives nothing, any other character itself |
| `LineFraming.CleanHasNoNul` | bridge/src/stratum_listener.rs:317 | a cleaned text has no NUL and every other character it had |
| `LineFraming.SpacesAre` | bridge/src/stratum_listener.rs:472 | what is trimmed: blank, tab, line feed, vertical tab, form feed, carriage return |
| `LineFraming.MismatchIs` | bridge/src/stratum_listener.rs:481-491 | which lines are foreign; one that begins a JSON object never is |
| `LineFraming.ForeignEnds` | bridge/src/stratum_listener.rs:481-535 | nothing behind a foreign line is dispatched |
| `LineFraming.PiecesConcat` | bridge/src/stratum_listener.rs:470-477 | cutting a text anywhere and carrying the unfinished piece over gives the same pieces |
| `LineFraming.DrainIs` | bridge/src/stratum_listener.rs:470-535 | draining a buffer dispatches its trimmed non-empty lines up to the first foreign one |
| `LineFraming.FeedAllInStep` | bridge/src/stratum_listener.rs:314-330 | after any reads whose first was accepted, dispatched lines and buffer are those of the joined stream |
| `LineFraming.HttpStaysHttp` | bridge/src/stratum_listener.rs:314-330 | a first read that looks like HTTP belongs to a stream with nothing to dispatch |
| `LineFraming.CutsDoNotMatterIff` | bridge/src/stratum_listener.rs:314-535 | however an ASCII stream is cut into reads, the lines dispatched are those of the whole stream with NULs removed, if and only if the first read is not a bare `SM` or there was nothing to dispatch |
| `LineFraming.CutAfterSm` | bridge/src/stratum_listener.rs:314-330 | the cut after `SM` that loses a line |
| `LineFraming.ClientListener.Receive` | bridge/src/stratum_listener.rs:314-535 | one read has exactly the specified effect |
| `LineFraming.ClientListener.DrainBuffer` | bridge/src/stratum_listener.rs:470-535 | the inner loop computes the drained connection |
| `LineFraming.ClientListener.RemoveNuls` | bridge/src/stratum_listener.rs:314-318 | removes exactly the NULs |
| `VarDiff.FloorLog2Bounds` | bridge/src/share_handler.rs:46-54 | the rounded-down logarithm brackets its argument between neighbouring powers |
| `VarDiff.ClampedStep` | bridge/src/share_handler.rs:46-102 | with clamping, from 2^k the controller gives exactly 2^(k+1) when the window calls for more, exactly 2^(k-1) when it calls for less and k is positive, and nothing otherwise |
| `VarDiff.UnclampedStep` | bridge/src/share_handler.rs:56-102 | without clamping, a step from at least 1 stays between max(1, half) and double and goes the way the window calls for |
| `VarDiff.RatioMeans` | bridge/src/share_handler.rs:79-80 | the ratio times the elapsed seconds times the expected shares a minute, at least one, is sixty times the shares |
| `VarDiff.ClampedByNumbers` | bridge/src/share_handler.rs:56-102 | with clamping: from 30 seconds and 3 shares on, 2^k doubles if and only if at least 1.25 times and halves if and only if at most 0.75 times the expected shares came in; with none it halves if and only if 90 seconds have passed |
| `VarDiff.UnclampedByNumbers` | bridge/src/share_handler.rs:56-102 | without clamping: the same conditions, and the value moved to, which is the old one times the square root within half and double, not below 1, and not taken if less than a tenth away |
| `VarDiff.SilenceReachesOne` | bridge/src/share_handler.rs:64-74 | silent windows, each of any length from 90 seconds, take 2^k down to 1 in exactly k of them, and leave it there |
| `WorkerDiff.InitialDiffGood` | bridge/src/stratum_server.rs:82-88 | the configured minimum becomes a power of two above its half when clamping and itself otherwise, and 4 where none is configured |
| `WorkerDiff.DecisionGood` | bridge/src/share_handler.rs:1617-1633 | what a tick decides is at least 1, follows the share-rate verdict within half and double, is exactly one of the two when clamping, and comes at least 30 seconds into the window |
| `WorkerDiff.StepKeeps` | bridge/src/share_handler.rs:1141-1162 | every access by clients, controller and pruning, lock by lock, keeps every difficulty sent good, every stored one good or zero, and window starts no earlier than the last move but for the lag |
| `WorkerDiff.RunKeeps` | bridge/src/client_handler.rs:631-706 | so it is on every interleaving of any number of tasks of any number of clients under one worker name |
| `WorkerDiff.RunMoves` | bridge/src/share_handler.rs:1617-1633 | on every run, what the controller stores it decided on what it read: the double or the half when clamping, in the direction the shares of its window call for, in numbers |
| `WorkerDiff.MovedMeans` | bridge/src/share_handler.rs:1617-1633 | a move up or down was called for by shares and seconds, in numbers |
| `WorkerDiff.MovesTakeTime` | bridge/src/share_handler.rs:1617-1633 | on every run, n steps from move to move take at least n times thirty seconds less the lag between clock readings and stores |
| `WorkerLag.LagShortensSpacing` | bridge/src/share_handler.rs:1141-1149 | for every positive lag there is a run with two moves less than thirty seconds apart |
| `WorkerStats.SetAlone` | bridge/src/share_handler.rs:1141-1149 | undisturbed, the accesses of the call store the difficulty and start a window |
| `WorkerStats.StartAlone` | bridge/src/share_handler.rs:1156-1162 | undisturbed, the accesses of the call start a window only where none runs |
| `WorkerStats.TickAlone` | bridge/src/share_handler.rs:1617-1633 | undisturbed, the controller's accesses come to one whole decision on the entry |
| `WorkerStats.TickByNumbers` | bridge/src/share_handler.rs:1617-1633 | a whole pass in numbers: to the double or the half with a new window and no shares, or nothing |
| `WorkerStats.ShareAlone` | bridge/src/share_handler.rs:1091-1092 | a recorded share is one more in the worker's window |
| `WorkerStats.FirstJobAlone` | bridge/src/client_handler.rs:631-669 | a first job sends the configured difficulty and sets the entry to it |
| `WorkerStats.RefreshAlone` | bridge/src/client_handler.rs:670-706 | undisturbed, the accesses of a later job leave client and entry with the worker's difficulty, or the client's own where the entry was lost |
| `WorkerStats.Worker.GetCreateStats` | bridge/src/share_handler.rs:257-291 | the entry is returned, or made and seeded with the client's own difficulty |
| `WorkerStats.Worker.SetClientVardiff` | bridge/src/share_handler.rs:1141-1149 | returns the old difficulty and starts a new window at the new one |
| `WorkerStats.Worker.GetClientVardiff` | bridge/src/share_handler.rs:1151-1154 | the entry's difficulty |
| `WorkerStats.Worker.StartClientVardiff` | bridge/src/share_handler.rs:1156-1162 | starts a window, from now and without shares, only where none runs |
| `WorkerStats.Worker.RunTick` | bridge/src/share_handler.rs:1617-1633 | one whole pass over the entry: nothing, or a new difficulty with a window from now and no shares |
| `WorkerStats.Worker.Refresh` | bridge/src/client_handler.rs:670-706 | undisturbed, a client ends up with the controller's difficulty, or keeps its own when the entry was lost |
| `WorkerStats.Worker.NewJob` | bridge/src/client_handler.rs:631-706 | undisturbed, the client ends up with the worker's difficulty, the configured one at first; no other client's changes |
| `NonceWalk.Bezout` | bridge/src/rkstratum_cpu_miner.rs:205-260 | the common divisor as a combination |
| `NonceWalk.PositionsDiffer` | bridge/src/rkstratum_cpu_miner.rs:205-260 | for coprime thread counts, equal positions mean the same thread at the same step |
| `NonceWalk.NeverMeetIffCoprime` | bridge/src/rkstratum_cpu_miner.rs:205-260 | as long as no thread starts beyond a wrap: no two threads ever meet before either wraps if and only if the thread count is coprime to 1 000 000 007 |
| `NonceWalk.NeverShareIffDividesWord` | bridge/src/rkstratum_cpu_miner.rs:205-260 | through any number of wraps, no two threads ever share a nonce if and only if the thread count divides 2^64 |
| `StridePrime.SpreadPrime` | bridge/src/rkstratum_cpu_miner.rs:205-214 | 1 000 000 007 is prime, by Pocklington's criterion |
| `StridePrime.SmallCountsNeverMeet` | bridge/src/rkstratum_cpu_miner.rs:205-260 | every thread count below 1 000 000 007 is coprime to it, so no two threads ever meet before either wraps |
| `CpuMiner.StepKeeps` | bridge/src/rkstratum_cpu_miner.rs:53-74 | every step of publisher and threads keeps the invariant below, counters wrapping |
| `CpuMiner.RunKeeps` | bridge/src/rkstratum_cpu_miner.rs:205-260 | on every interleaving each thread submits at most one block per publication, each passing; its nonces for a publication only go forward; until 2^64 publications at most one check is made for a publication after the next one |
| `CpuMiner.MinesWhatWasPublished` | bridge/src/rkstratum_cpu_miner.rs:58-74 | on every run the slot holds the latest template, and a thread mines, and a block was found for, the very template of the publication it is counted under |
| `CpuMiner.TakesLatest` | bridge/src/rkstratum_cpu_miner.rs:65-74 | a thread that takes work takes the latest template |
| `CpuMiner.EveryHitSubmitted` | bridge/src/rkstratum_cpu_miner.rs:233-245 | on every run each nonce checked that passes for its template was submitted |
| `CpuMiner.NoWorkTwice` | bridge/src/rkstratum_cpu_miner.rs:205-260 | for coprime thread counts and before wrapping, no nonce is checked twice for one publication by anyone, nor at all by two threads |
| `CpuMiner.NoNonceShared` | bridge/src/rkstratum_cpu_miner.rs:205-260 | for thread counts dividing 2^64, no nonce is ever checked by two threads, wraps included |
| `CpuMiner.Miner.constructor` | bridge/src/rkstratum_cpu_miner.rs:200-214 | at least one thread, each at its own starting nonce |
| `CpuMiner.Miner.PublishWork` | bridge/src/rkstratum_cpu_miner.rs:58-63 | a publication step |
| `CpuMiner.Miner.WaitForUpdate` | bridge/src/rkstratum_cpu_miner.rs:65-74 | takes the work exactly when the version differs from the last seen, else leaves if stopping |
| `CpuMiner.Miner.TryNonce` | bridge/src/rkstratum_cpu_miner.rs:233-245 | one check is a step: submit and wait on a pass, move on otherwise |
| `CpuMiner.Miner.CheckSlot` | bridge/src/rkstratum_cpu_miner.rs:254-258 | goes on with the same work exactly while the version is unchanged |
| `CpuMiner.Miner.Mine` | bridge/src/rkstratum_cpu_miner.rs:228-258 | undisturbed, a thread submits the first nonce of its walk that passes, and no other |

## Left out

- RocksDB itself, connections, files and I/O errors of the database.
- Iteration over stores (`iterator`, `seek_iterator`), apart from the bucket scan.
- Reads with a fallback prefix, which cache fallback values under the primary key and need another abstract map.
- The writer that drops everything (`MemoryWriter`), and failures of the serializer when writing.
- Overflow of size and counter variables, except in the job search, the nonce walk and the work slot's version.
- Concurrent access to keys that are rewritten, beyond the counterexample in `WriteOnce.dfy`; the code relies on outer locks.
- Rounding, infinities and NaN in difficulties, and the conversions between difficulty, target and hash rate.
- Proof of work, header hashing, addresses and the pool and network targets, which are inputs of the job search.
- Sockets, gRPC, write retries, metrics, dashboards, logging, command line and configuration files.
- Text outside ASCII in reads and in submitted nonces.
- Counts made through a worker's entry after it was pruned: the source bumps the entry it fetched, `ShareFlow.dfy` makes a new one. Which entries are pruned, by idle time, is an input. Blocks found and hash-rate sums are not counted.
- The moment a low-difficulty share is answered: the source replies ahead of telling the guard, the model with it.
- A handler that panics on job ID 0 stays in flight for ever in `ShareFlow.dfy`; nothing is claimed about its counters.
- Lock accesses of the worker statistics without an effect on difficulties: the window counter, and reading the previous difficulty.
- Liveness of the miner's threads: that a waiting thread is woken is not stated.
- BlockGuard.BlockSubmitGuard.SubmitBlock: runs mark, call and answer in one go, because other callers' steps in between are the subject of the run lemmas, for which `TryMark` and `TakeAnswer` are single steps. The text of a failed call is an input, of which `FailedCallIsRetryable` takes the one the source gives.
- JobSearch.Search: takes lookups and pool tests as functions of the iteration, because jobs are added and targets move while it runs.
- The consensus, wallet, network and command-line crates.
