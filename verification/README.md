# Verified model of the match-statistics pipeline

The repository ingests match events, orders them causally, aggregates them into statistics and
serves those from a replicated key-value store. Its distributed primitives are hand-built: an
LSM tree with a write-ahead log, a quorum layer on a consistent-hash ring, a log-structured
broker, gossip membership and a causal reorder buffer. This project models these primitives in
Dafny and proves what they promise over every input, every run and every crash point.

`dafny verify dfyconfig.toml` checks everything. Module by module:

| module | what it models |
|---|---|
| `BigEndian`, `KeyOrder` | byte fields and key order used by the on-disk formats |
| `VectorClock`, `StatKey` | the conflict rule `pickNewer`, the entry key |
| `Wal`, `Bloom`, `SsTable` | the on-disk formats, byte for byte |
| `MemTable`, `LruCache` | the in-memory parts of the store |
| `LsmMachine`, `LsmSafety`, `LsmScan`, `LsmTornTail` | the store as a machine of atomic effects with crashes, and its theorems |
| `LsmTree` | the store as the imperative object, shown to take only machine steps |
| `LsmWitness` | a concrete codec, runs and a tree that meet every assumption made about the store |
| `Addresses`, `HashRing`, `Quorum`, `QuorumThreshold` | the ring, coordinated reads and writes over replicas, and how many answers a read needs |
| `Partitions`, `Subscriber`, `Replication` | a broker partition, the subscribe loop, replica targets |
| `Gossip`, `GossipProtocol` | a membership node, and many of them exchanging packets |
| `Reorder`, `ReorderInOrder`, `FlushClock` | the reorder buffer, its stream guarantee, flush clocks |
| `EndToEnd` | what quorum reads show of a processor's flushes |
| `Aggregation`, `AggregationTotals`, `RateLimit` | statistics from boards to pooled rows, the API's rate limiter |

## How the pieces fit

`VectorClock.NewerIsRankMax` shows that for non-negative counters the three branches of
`pickNewer` are one maximum over the rank (clock sum, sample size). Memtable, compaction, replay,
cache, reads, scans and quorum reads all fold with it, so each is described by "an entry of
maximal rank".

`LsmMachine` has one step per atomic effect: record written, record synced, memtable updated,
marker written, cache entry dropped, table file created, table file completed, log rotated, each
source file deleted, levels swapped, and a crash that keeps any prefix of the log that includes
the synced part. `LsmSafety.StepKeeps` carries one invariant through all of them. The class
`LsmTree.Tree` has the source's fields and loops; every method is proved to perform machine
steps only, over the byte-level `Wal`, `SsTable` and `Bloom`.

`Quorum` then takes a replica to be the set of entries it logged, and answers from it with
`LsmSafety.Best`, the very statement proved about the tree. `FlushClock` applies the
store's read theorem to conclude that the store ends with the last flush, and `EndToEnd` joins
quorums and flushes: an acknowledged
flush is never overtaken by an older one. `Subscriber` uses the partition's proved
contract, and the owners in `Quorum` are those of `HashRing.Owners`.

Methods are atomic: where the source holds a mutex, one method call or one machine step is what
happens under it. Where the source releases the mutex between two accesses, as the subscribe
loop and the quorum coordinators do, each access is a step of its own and anything may happen in
between.

## Where code and documentation part

- A torn log tail is not truncated on reopening (metastore/wal.go:93-142), so records appended
  behind it can be unreadable. `Wal.AppendsSurviveIffWhole` gives the exact condition, and
  `LsmTornTail.AcknowledgedWriteCanBeLost` a run in which an acknowledged, fsynced write cannot be
  recovered. The crash theorem therefore covers crashes of log generations nothing was appended
  to behind a torn tail (`State.intact`); every rotation starts such a generation.
- Partition recovery seeks over a payload without looking whether it is there
  (broker/partition.go:89). `Partitions.TornRecovery` shows when this matters: exactly when the
  file ends inside a payload, in which case the last offset is assigned but unreadable.
- The rate limiter describes itself as self-pruning (api/security.py:60, 77-80), but a deque is
  never empty after a call, so no key is ever dropped; `RateLimit.SlidingWindow.Allow` states it.
- A processor that restarts counts its flushes from one again (processor/main.py:74-75, 119-120).
  Against a flush of an earlier life, a new flush wins for all sample sizes exactly when the events
  progressed by more than the flush count fell back (`FlushClock.RestartedFlushAlwaysWins`);
  otherwise sample sizes decide ties and the old flush wins the rest, as in
  `FlushClock.RestartLosesFlushes`.
- A read that cannot reach its quorum still answers (metastore/server.go:194-197). It is sure to
  be fresh if and only if its answers and a write quorum cannot fit side by side into the owners
  (`QuorumThreshold.FreshnessThreshold`): with three owners two answers are needed, with two owners
  one would do.
- The count of forced releases depends on the heap's layout although nothing else does
  (`Reorder.ForcedDependsOnLayout`). It is zero for every order of the sweep exactly when every
  overdue event was ready to begin with (`Reorder.NothingForcedIff`).
- The store key omits the entity type, so a scan filtered by type can miss the version a read
  returns; `LsmScan.ScanFreshIff` and `LsmScan.ScanFollowsNewest` say when.

## Model

| member | source | states |
|---|---|---|
| `BigEndian.GetPut` | metastore/wal.go:76-90 | a big-endian field reads back the written number exactly when it fitted its width |
| `BigEndian.PutGet` | metastore/wal.go:93-142 | every field is the encoding of the number it denotes |
| `VectorClock.VcSum` | metastore/vclock.go:18-24 | the loop computes the sum of the components, in any iteration order |
| `VectorClock.ComputeNewer` | metastore/vclock.go:38-64 | the branches, computed with the loops, decide as the specification does, nil arguments included |
| `VectorClock.StrictDominanceRaisesSum` | metastore/vclock.go:27-35 | strict dominance between non-negative clocks means a strictly larger sum |
| `VectorClock.NewerIsRankMax` | metastore/vclock.go:38-64 | for non-negative counters pickNewer is the lexicographic maximum on (clock sum, sample size), keeping its left argument on ties |
| `VectorClock.NewerBeatsBoth` | metastore/vclock.go:38-64 | the choice is one of the arguments and ranks at least as high as both |
| `VectorClock.NewerAssociative` | metastore/vclock.go:38-64 | pickNewer is associative |
| `VectorClock.FoldIsFirstMax` | metastore/vclock.go:38-64 | a fold returns the first entry of maximal rank |
| `VectorClock.FoldRankDependsOnSet` | metastore/vclock.go:38-64 | the rank of a fold is independent of order and repetition |
| `VectorClock.NegativeCountersBreakTheOrder` | metastore/vclock.go:38-64 | with a negative counter the choice is cyclic, so the sign condition is needed |
| `VectorClock.MergeClocks` | metastore/vclock.go:67-78 | the merged clock is the component-wise maximum |
| `VectorClock.JoinIsLeastUpperBound` | metastore/vclock.go:67-78 | it is the least non-negative clock dominating both |
| `StatKey.EntryKeyInjective` | metastore/sstable.go:32-34 | keys are equal exactly for equal identities when patch, tier and region have no colon, whatever entity ids contain |
| `StatKey.KeyReadsBack` | metastore/sstable.go:32-34 | read from the right, a key names region, tier, patch and entity, in this order |
| `StatKey.ColonMakesKeysCollide` | metastore/sstable.go:32-34 | and whenever one has a colon, another identity shares the key |
| `Wal.RecordRoundTrip` | metastore/wal.go:76-90 | a record written anywhere in a file is read back from its position |
| `Wal.ParsedIsEncoded` | metastore/wal.go:93-142 | whatever Replay reads as a record is the encoding of that record |
| `Wal.CutKeepsWholeRecords` | metastore/wal.go:93-142 | cutting a log at any byte leaves exactly the records wholly inside |
| `Wal.TornTailLosesAnAppend` | metastore/wal.go:41-90 | behind any torn tail some record is not read back |
| `Wal.AppendsSurviveIffWhole` | metastore/wal.go:41-90 | every record appended to a file is read back if and only if the file ends on a record boundary |
| `Wal.ReplayMarksOwnCommit` | metastore/wal.go:93-142 | a replayed record is committed exactly when its own marker was written, because sequence numbers never repeat in a log |
| `Wal.ReplayOfCut` | metastore/wal.go:93-142 | for any history of appends and commits cut at any byte, replay yields the whole data records in order, marked committed iff their own marker is whole |
| `Wal.AppendExtends` | metastore/wal.go:55-67 | an append extends the history by one data record with a new number |
| `Wal.CommitExtends` | metastore/wal.go:70-74 | a commit extends it by a marker for an earlier record |
| `Wal.HasIffReplayed` | metastore/wal.go:93-142 | a key and value are replayed exactly when the file holds a data record of them |
| `Wal.Log.Append` | metastore/wal.go:55-67 | next number, pending record at the end of the file, everything synced |
| `Wal.Log.Commit` | metastore/wal.go:70-74 | a marker record at the end of the file |
| `Wal.Log.Replay` | metastore/wal.go:93-142 | the loop returns the marked data records and resumes numbering at the largest seen |
| `Wal.Log.Rotate` | metastore/wal.go:145-156 | an empty log, numbering from the start |
| `Bloom.NewFilter` | metastore/bloom.go:19-33 | no bit is set and no key is admitted |
| `Bloom.Add` | metastore/bloom.go:59-75 | exactly the key's probe bits are added, so the bits stay the probes of the added keys; the key, and every key admitted before, is admitted |
| `Bloom.ProbesFollowHashes` | metastore/bloom.go:59-67 | unless something wraps around, the probes start at the first hash and move on by the second |
| `Bloom.AdmitsExactly` | metastore/bloom.go:59-85 | a filter admits a key exactly when each of its probes is a probe of some added key |
| `Bloom.Unmarshal` | metastore/bloom.go:106-118 | the loop reads what the specification reads, short buffers included |
| `Bloom.MarshalRoundTrip` | metastore/bloom.go:94-118 | unmarshalling undoes marshalling, so no false negative arises on disk |
| `KeyOrder.SortedByKey` | metastore/sstable.go:37-38 | sorting orders distinct keys strictly and keeps the entries |
| `KeyOrder.LessIsLexicographic` | metastore/sstable.go:38 | at the first difference the smaller byte comes first, and a prefix before its extensions |
| `SsTable.OpenOfWritten` | metastore/sstable.go:37-174 | opening the written bytes yields the index, key list and filter that were written |
| `SsTable.WrittenTable` | metastore/sstable.go:37-208 | a written table maps exactly the written keys to their entries |
| `SsTable.WriteTable` | metastore/sstable.go:37-109 | for entries with distinct keys in any order, the written file opens to a table holding exactly them |
| `SsTable.OpenTable` | metastore/sstable.go:112-174 | the opening loop accepts and reads what the specification does, malformed files included |
| `SsTable.GetEntry` | metastore/sstable.go:177-208 | lookup through filter, index and record equals lookup in the written entries |
| `SsTable.ScanEntries` | metastore/sstable.go:211-223 | the loop lists the matching entries of the listed keys |
| `SsTable.ScannedExact` | metastore/sstable.go:211-223 | these are exactly the matching entries, in strictly increasing key order |
| `MemTable.Table.Put` | metastore/memtable.go:26-37 | the newer version stays and the running size is exactly the size of the content |
| `LsmMachine.PutKeepsOnTies` | metastore/memtable.go:29-33 | of two versions of equal rank the memtable keeps the one it has |
| `MemTable.Table.SortedEntries` | metastore/memtable.go:62-75 | every entry once, in key order |
| `LruCache.Cache.Get` | metastore/lru.go:35-43 | the cached value, which becomes the most recent |
| `LruCache.Cache.Put` | metastore/lru.go:46-59 | the key becomes the most recent; beyond capacity exactly the least recent key goes |
| `LruCache.Cache.Evict` | metastore/lru.go:71-78 | list and map lose the least recent key together |
| `LruCache.Cache.Remove` | metastore/lru.go:62-69 | list and map lose the key, the order of the others stays |
| `LruCache.WithoutSplits` | metastore/lru.go:35-69 | taking a node out leaves the nodes before and after it in place, so the order of later evictions stays |
| `LsmSafety.BeginAppendKeeps` | metastore/lsm.go:114-127 | a record that is written but not synced keeps the invariant |
| `LsmSafety.ApplyMemKeeps` | metastore/lsm.go:128 | so does updating the memtable after the log |
| `LsmSafety.InvalidateKeeps` | metastore/lsm.go:130 | dropping the cached version makes the cache fresh again |
| `LsmSafety.FinishFlushKeeps` | metastore/lsm.go:146-158 | completing a level-0 table keeps every logged entry reachable |
| `LsmSafety.RotateKeeps` | metastore/lsm.go:160-163 | rotating the log after the table is complete loses nothing |
| `LsmSafety.FinishCompactKeeps` | metastore/lsm.go:178-204 | the merged table outranks every version in its sources |
| `LsmSafety.DeleteSourceKeeps` | metastore/lsm.go:206-211 | deleting sources one by one, a crash between any two, loses nothing |
| `LsmSafety.SwapLevelsKeeps` | metastore/lsm.go:212-213 | swapping the merged table in keeps the invariant |
| `LsmSafety.CacheFillKeeps` | metastore/lsm.go:263-268 | caching a read's answer keeps the cache fresh |
| `LsmSafety.CrashKeeps` | metastore/lsm.go:68-111 | reopening after a crash anywhere re-establishes the invariant from files and log alone |
| `LsmSafety.StepKeeps` | metastore/lsm.go:68-270 | every step of the store, crashes included, keeps the invariant |
| `LsmSafety.RunKeeps` | metastore/lsm.go:68-270 | hence it holds over every run |
| `LsmSafety.ReadStoresCorrect` | metastore/lsm.go:241-261 | memtables and levels, with the first-hit break at levels 1 and above, yield a logged entry of the key that outranks every other |
| `LsmSafety.ReadReturnsBest` | metastore/lsm.go:230-270 | after any run, a read finds something iff the key was logged and returns a logged entry of maximal rank; cache, filters and the first-hit break never change this |
| `LsmSafety.ReadFindsBestEverWritten` | metastore/lsm.go:230-270 | without crashes this is over everything ever written |
| `LsmSafety.CrashRecovery` | metastore/lsm.go:68-111 | after a crash at any step and any unsynced byte, reopening answers every key with a best entry among all acknowledged ones and, at most, the one in flight |
| `LsmScan.ScanExact` | metastore/lsm.go:274-307 | a scan lists exactly the keys with a matching copy, each with a matching copy of maximal rank |
| `LsmScan.ScanAgreesWithRead` | metastore/lsm.go:274-307 | for predicates alike on all versions of a key, a scan lists exactly the keys whose read matches, at the rank of the read |
| `LsmScan.ScanFreshIff` | metastore/lsm.go:274-307 | in general the scan is as fresh as a read iff a stored copy of that rank matches |
| `LsmScan.ScanFollowsNewest` | metastore/lsm.go:274-307 | in terms of what was written: fresh if every newest version of the key matches, not fresh if none does |
| `LsmTornTail.StrayByteHidesRecord` | metastore/wal.go:93-142 | one stray byte hides the record behind it |
| `LsmTornTail.AcknowledgedWriteCanBeLost` | metastore/lsm.go:95-138 | a concrete run in which a torn tail makes a later acknowledged write unrecoverable |
| `LsmTree.Tree.constructor` | metastore/lsm.go:39-65 | opening any directory and log left by an earlier life yields the machine state after that crash |
| `LsmTree.OpenLevels` | metastore/lsm.go:68-92 | files in name order go to their levels, unfinished ones are skipped |
| `LsmTree.ReplayInto` | metastore/lsm.go:95-111 | replayed records are folded into the memtable |
| `LsmTree.Tree.Write` | metastore/lsm.go:114-138 | after a write its entry counts as logged, nothing else is lost, only machine steps were taken, the memtable is within its limit and the key is not cached |
| `LsmTree.Tree.FlushLocked` | metastore/lsm.go:142-170 | flushing and the compaction it triggers keep every logged entry; the memtable and the log are empty and level 0 holds at most four tables, or nothing happened as the memtable was empty |
| `LsmTree.Tree.CompactLocked` | metastore/lsm.go:174-220 | the level empties into one table of the next, nothing logged is lost |
| `LsmTree.MergeTables` | metastore/lsm.go:184-194 | the merge loops over the sources compute the rank maximum per key |
| `LsmTree.Tree.Read` | metastore/lsm.go:230-270 | the read path through cache and stores returns a best logged entry, and caches it |
| `LsmTree.ReadLevel` | metastore/lsm.go:250-261 | a level is read newest first, stopping at the first hit above level 0 |
| `LsmTree.Tree.Scan` | metastore/lsm.go:274-307 | the loops return one entry per key, as the machine's scan |
| `LsmTree.Tree.Flush` | metastore/lsm.go:310-314 | an explicit flush loses nothing and empties the memtable |
| `LsmWitness.EveryWriteIsPossible` | metastore/lsm.go:114-138 | from every idle state a run reaches, every admissible entry can be written |
| `LsmWitness.NumbersCanBeStored` | metastore/lsm.go:114-270 | with a concrete codec any list of entries can be stored, and a read returns the newest |
| `LsmWitness.WriteAndRead` | metastore/lsm.go:39-270 | a tree opened on an empty directory takes two writes and answers with the newer |
| `HashRing.Ring.constructor` | hasher/hashring.go:30-40 | an empty, consistent ring |
| `HashRing.Ring.AddNode` | hasher/hashring.go:47-64 | an absent node takes exactly its free virtual slots, no slot changes owner, positions stay sorted |
| `HashRing.Ring.RemoveNode` | hasher/hashring.go:67-83 | exactly the node's slots go, from positions and slot table alike |
| `HashRing.Ring.Search` | hasher/hashring.go:87-93 | every position before the found one is below the hash, and it is at or after the hash unless all are below, when it is the first; the walk starts there |
| `HashRing.Ring.GetNode` | hasher/hashring.go:96-103 | the node whose position is the nearest of all clockwise from the key, which is the first owner; or the empty address |
| `HashRing.Ring.GetNodes` | hasher/hashring.go:107-129 | the first n distinct owners of the clockwise walk, also when n exceeds the nodes |
| `HashRing.OwnersByDistance` | hasher/hashring.go:107-129 | owners are listed by the distance of their nearest position clockwise from the key |
| `HashRing.WalkIsClockwise` | hasher/hashring.go:119-121 | the walk meets positions at or after the hash in increasing order, then those before it |
| `HashRing.RemovalErases` | hasher/hashring.go:67-129 | after a removal every key's owners are the old owners with the node erased |
| `HashRing.SurvivorsKept` | hasher/hashring.go:67-129 | so a key keeps its surviving replicas, and its primary if that stays |
| `HashRing.AddThenRemove` | hasher/hashring.go:47-83 | removing a node just added restores ring and slots exactly, collisions included |
| `HashRing.OwnersBound` | hasher/hashring.go:107-129 | owners are distinct and are exactly the nodes with a slot |
| `HashRing.FilterSlots` | hasher/hashring.go:74-82 | the in-place filter keeps exactly the other nodes' positions |
| `Quorum.OwnersAreReplicaSet` | metastore/server.go:86-98 | an entity has one to three distinct owners |
| `Quorum.OwnerCount` | metastore/server.go:86-93 | an entity has as many owners as there are nodes with a slot, three at most; with an empty ring the coordinator alone |
| `Quorum.OrderSelfFirst` | metastore/server.go:390-403 | the two loops put this node first |
| `Quorum.SelfFirstPermutes` | metastore/server.go:390-403 | which is a permutation of the owners |
| `Quorum.SelectRemotes` | metastore/server.go:100-114 | one local acknowledgement if this node is an owner, and exactly the other live owners are called |
| `Quorum.FanOutIsExact` | metastore/server.go:100-122 | the machine's fan-out counts one acknowledgement exactly for a successful local write and opens exactly the calls to the other live owners |
| `Quorum.AwaitQuorum` | metastore/server.go:118-128 | the verdict is that of counting every reply, so arrival order and early stopping do not matter |
| `Quorum.GatherResponses` | metastore/server.go:167-191 | the read loop, with the local branch skipping the break test, takes the machine's visits |
| `Quorum.WriteSideKeeps` | metastore/server.go:100-145 | every step of a coordinated write, late deliveries included, keeps: counted acknowledgements come from distinct owners that hold the entry |
| `Quorum.VisitKeeps` | metastore/server.go:171-191 | every visit of a read keeps: the answer outranks each acknowledged write that a responder holds |
| `Quorum.RunKeeps` | metastore/server.go:72-197 | the invariant holds for every interleaving |
| `Quorum.QuorumsMeet` | metastore/server.go:95-98 | two sets of min(2, n) of n owners share one |
| `Quorum.OverlappingReadIsFresh` | metastore/server.go:157-192 | a read whose responses and a write quorum exceed the owners holds a submitted entry of its key ranking at least as high as every write acknowledged before it began |
| `Quorum.QuorumReadIsFresh` | metastore/server.go:157-192 | the responses the code waits for suffice for that |
| `Quorum.ReadsStopExactly` | metastore/server.go:171-191 | in every run a read stops early exactly when it holds a value from at least min(2, n) responses, the sole-owner coordinator aside; one that is over did that or visited every owner |
| `Quorum.FinishedReadHasQuorum` | metastore/server.go:167-191 | a finished read has its quorum if at least min(2, n) owners answer whenever they are asked |
| `Quorum.FinishedReadIsFresh` | metastore/server.go:157-192 | such a read holds an entry ranking at least as high as every write acknowledged before it began |
| `Quorum.BlindReadFindsNothing` | metastore/server.go:179-197 | from every reachable state, a read that takes all owners for dead finds nothing |
| `QuorumThreshold.FreshnessThreshold` | metastore/server.go:86-197 | for every coordinator and every set of answering owners: the read is sure to reflect every acknowledged write iff the set and a write quorum exceed the owners |
| `QuorumThreshold.StaleRun` | metastore/server.go:86-197 | below the threshold, the run: a write is acknowledged by the other owners and a read answered by exactly the set finds nothing |
| `QuorumThreshold.MissedWrite` | metastore/server.go:86-128 | if a write quorum of owners lies outside a set, a write can be acknowledged while the set holds nothing of it |
| `Partitions.Partition.constructor` | broker/partition.go:40-62 | opening any whole-record file resumes its base and next offset |
| `Partitions.Recover` | broker/partition.go:67-99 | the scan of arbitrary bytes indexes every position it visits and numbers from the first stored offset |
| `Partitions.RecoverWhole` | broker/partition.go:67-99 | for whole-record files that index is the exact position of every retained record |
| `Partitions.TornRecovery` | broker/partition.go:67-99 | cut at any byte, every recovered offset reads back its payload iff the cut is not inside a payload; all but the last always do |
| `Partitions.Partition.Append` | broker/partition.go:102-137 | the payload takes the next offset of the history; the base stays while the cap is not exceeded, and otherwise exactly the newest 90% of the cap stay |
| `Partitions.Partition.TrimLocked` | broker/partition.go:176-225 | the head goes, offsets and remaining payloads stay |
| `Partitions.Rebase` | broker/partition.go:218-222 | positions are counted from the first record kept |
| `Partitions.Partition.ReadAt` | broker/partition.go:140-157 | exactly the retained offsets answer, each with its original payload |
| `Partitions.RetentionBounds` | broker/partition.go:124-129 | the same of the retention rule alone: it always keeps the newest record, at most the cap, and never moves back |
| `Partitions.SplitKeyRoundTrip` | broker/partition.go:244-271 | splitKey undoes partitionKey iff region and tier have no underscore; topics may |
| `Partitions.SplitKeyShort` | broker/partition.go:257-268 | keys with one underscore or none default to ALL |
| `Partitions.JoinAfterSplit` | broker/partition.go:244-271 | joining the parts of a key gives it back iff it has two underscores and its last two parts are not empty |
| `Subscriber.StepKeeps` | broker/broker.go:164-201 | every step of the loop and every append keeps the delivery invariant |
| `Subscriber.SubscriptionIsFaithful` | broker/broker.go:157-201 | in every interleaving offsets strictly increase, payloads are the original ones, and only trimmed offsets are skipped |
| `Subscriber.RunRetains` | broker/partition.go:122-129 | at every point at most the cap remains and the newest record does |
| `Subscriber.RunKeepsWindow` | broker/partition.go:122-129 | over every run all that was readable at the start stays readable, or at least 90% of the cap is; without a cap nothing is trimmed |
| `Subscriber.KeepingUpMissesNothing` | broker/broker.go:164-201 | a subscriber that is never behind by more than that receives every offset |
| `Subscriber.RoundDelivers` | broker/broker.go:164-201 | one undisturbed round delivers the oldest record still owed |
| `Subscriber.CatchUp` | broker/broker.go:157-201 | against a quiet partition the loop sends every retained record from the requested offset once, in order |
| `Subscriber.FromIsAll` | broker/broker.go:157-201 | and these are all records from there on, each at its own offset |
| `Replication.ReplicaTargets` | broker/broker.go:90-103 | the loop takes the first owners other than this node |
| `Replication.TargetsAreNearestPeers` | broker/broker.go:90-103 | the owners it asked for always suffice |
| `Replication.FailoverKeepsTargets` | broker/broker.go:230-246 | when a peer leaves, the other targets stay |
| `Gossip.GossipNode.constructor` | gossip/gossip.go:67-96 | the view of a fresh node |
| `Gossip.StartBelieves` | gossip/gossip.go:87-94 | a fresh node believes exactly in itself and its non-empty peers |
| `Gossip.GossipNode.Tick` | gossip/gossip.go:150-177 | the loop ages every other member and reports the newly dead |
| `Gossip.GossipNode.Merge` | gossip/gossip.go:238-273 | a packet is folded in report by report |
| `Gossip.TickBelieves` | gossip/gossip.go:150-170 | right after a tick IsAlive (gossip/gossip.go:286-294) holds of exactly the members it held of before and that were heard of within 10 s |
| `Gossip.MergeBelieves` | gossip/gossip.go:250-271 | a report never ends a belief, and starts one exactly if it is news: unknown member, higher incarnation, or alive and not older or about a suspect |
| `Gossip.TickClassifies` | gossip/gossip.go:150-170 | after a tick each status fits the silence so far, and exactly the newly dead were not dead before |
| `Gossip.MergeNeverAccuses` | gossip/gossip.go:238-273 | a merge never makes a member suspected or dead, never forgets one, never lowers an incarnation |
| `Gossip.MergedKnows` | gossip/gossip.go:250-256 | a merge knows exactly the members known before and those reported about |
| `Gossip.MergedIncarnation` | gossip/gossip.go:250-262 | the stored incarnation is the maximum of the old one and of all reports about the member, new members included |
| `Gossip.MergedHeartbeat` | gossip/gossip.go:259-271 | a heartbeat is renewed exactly by an alive report or a higher incarnation |
| `Gossip.MergedSuspicion` | gossip/gossip.go:259-271 | a suspicion is cleared exactly by such a report |
| `Gossip.OldNewsDoesNotRevive` | gossip/gossip.go:259-271 | a report at or below the highest incarnation merged about a dead member never revives it, unless alive at the stored one |
| `Gossip.StaleReportsDoNotRevive` | gossip/gossip.go:259-271 | a dead member comes back exactly on a higher incarnation or an alive report at its own |
| `Gossip.RefutationRaisesByOne` | gossip/gossip.go:243-249 | a refutation raises the incarnation by exactly one, exactly when accused at the current one |
| `GossipProtocol.StepKeeps` | gossip/gossip.go:150-282 | every step of the protocol keeps its invariant |
| `GossipProtocol.NoForgedIncarnations` | gossip/gossip.go:238-282 | in every run, no view and no packet credits a member with more than its own incarnation |
| `GossipProtocol.StepMonotone` | gossip/gossip.go:238-273 | own incarnations rise one at a time, only to refute an accusation at the current one |
| `GossipProtocol.RunMonotone` | gossip/gossip.go:150-273 | over every run incarnations in every view never drop |
| `GossipProtocol.DeadOnlyAfterSilence` | gossip/gossip.go:150-177 | only a node's own tick accuses, and it declares dead only after 20 s since adding the member and since its last alive report |
| `GossipProtocol.RefutationRevives` | gossip/gossip.go:150-273 | an accused node that sees the accusation, ticks and answers is alive at the accuser again |
| `Reorder.IsReady` | processor/reorder.py:32-36 | the loop decides readiness against the watermarks |
| `Reorder.Deliver` | processor/reorder.py:38-41 | the loop raises the watermarks |
| `Reorder.Sweep` | processor/reorder.py:55-68 | one pass releases eligible items in a legal order and keeps the rest; if it releases none, none was eligible |
| `Reorder.Drain` | processor/reorder.py:49-68 | the outer loop ends, with nothing left ready or timed out |
| `Reorder.Confluence` | processor/reorder.py:43-71 | any two schedules of the same buffer release the same items, hold back the same and end at the same watermarks |
| `Reorder.PopIgnoresLayout` | processor/reorder.py:43-71 | so the heap's layout does not matter |
| `Reorder.ForcedDependsOnLayout` | processor/reorder.py:55-68 | except for the count of forced releases: two heaps of the same overdue events, one pass each, count none and one |
| `Reorder.NothingForcedIff` | processor/reorder.py:43-71 | that count is zero for every complete schedule iff every overdue event is ready before anything is released |
| `Reorder.BatchIsLinearExtension` | processor/reorder.py:70-71 | a returned batch never has an event before one that happened earlier |
| `Reorder.ReorderBuffer.Push` | processor/reorder.py:28-30 | the item joins the buffer under a new number |
| `Reorder.ReorderBuffer.PopReady` | processor/reorder.py:43-71 | one pop as above; what stays held is neither ready nor overdue; every pushed item is still held or was returned, exactly once |
| `ReorderInOrder.DeliversInOrder` | processor/reorder.py:28-71 | in runs with single-component clocks, distinct numbers and no forced release, the whole output per node is 1, 2, ..., watermark |
| `ReorderInOrder.OutputIsMaximal` | processor/reorder.py:43-71 | and it is as long as it can be: after a pop, number q is out iff all of 1, ..., q have been pushed |
| `FlushClock.Processor.MergeClock` | processor/main.py:104-107 | the merged clock is raised component-wise |
| `FlushClock.Processor.Flush` | processor/main.py:116-121 | with buffered matches a new clock is stamped, otherwise nothing changes |
| `FlushClock.FlushesClimb` | processor/main.py:104-121 | over one lifetime each flush clock strictly dominates all earlier ones |
| `FlushClock.MergedIsHighest` | processor/main.py:104-107 | the merged clock holds exactly the highest number seen of every node |
| `FlushClock.FlushReflectsEvents` | processor/main.py:116-121 | a flush is stamped with the highest event numbers seen so far and its own number |
| `FlushClock.LaterFlushWins` | processor/main.py:104-121 | pickNewer keeps the later flush in either order, whatever the sample sizes |
| `FlushClock.StoreEndsWithLastFlush` | processor/main.py:116-129 | in every crash-free run of the store, a read returns the last flush's entry of a key, whatever order the writes arrive in |
| `FlushClock.FoldEndsWithLastFlush` | processor/main.py:116-129 | so does any fold of the writes |
| `FlushClock.FlushSum` | processor/main.py:116-121 | a flush clock weighs the events' progress plus the number of the flush in its lifetime |
| `FlushClock.RestartedFlushWins` | processor/main.py:74-121 | for any two lifetimes and flushes, the restarted one wins in both argument orders iff its clock sum is larger, or equal with a larger sample |
| `FlushClock.RestartedFlushAlwaysWins` | processor/main.py:74-121 | it wins for all sample sizes iff the events progressed by more than the flush count fell back |
| `FlushClock.RestartLosesFlushes` | processor/main.py:74-121 | three flushes, a restart and a flush after the next event: the old flush wins |
| `EndToEnd.ReadsNeverGoBehindAFlush` | metastore/server.go:157-192 | once a write of a flush is acknowledged, every later quorum read of its key shows that flush or a later one |
| `EndToEnd.FinishedReadsNeverGoBehindAFlush` | metastore/server.go:157-192 | the same for finished reads that at least min(2, n) owners answer |
| `Aggregation.AddBoard` | processor/aggregator.py:51-71 | the loops add a placement under exactly the board's keys |
| `Aggregation.BoardIsCounted` | processor/aggregator.py:55-71 | from the player's own fields: a board counts once per unit for a champion, once per slot for a champion-item pair, once for an item however often it is worn, once per augment, once for its composition, all in its own group |
| `Aggregation.ItemsBounded` | processor/aggregator.py:46-71 | no item has more samples than boards |
| `Aggregation.StatAggregator.ProcessMatch` | processor/aggregator.py:49-72 | buffers and totals account for exactly the boards processed |
| `Aggregation.StatAggregator.Flush` | processor/aggregator.py:81-107 | one row per buffered key with its rates, then an empty aggregator |
| `Aggregation.AggregateByEntity` | api/service.py:70-87 | one pooled row per entity with samples, from exactly its rows |
| `Aggregation.PoolingIsExact` | api/service.py:77-82 | the sample-weighted rows give the win rate and mean placement of the pooled raw placements |
| `AggregationTotals.FlushTotals` | processor/aggregator.py:46-107 | counts, wins and placement sums behind any selection of flushed rows are those of the boards |
| `AggregationTotals.PoolingOverBoards` | api/service.py:70-87 | process boards, flush, pool: an entity's row reports the number, win rate and mean placement of all its placements on the boards |
| `AggregationTotals.FlushedCompositions` | processor/aggregator.py:46-107 | the composition rows of a (patch, tier, region) add up to the boards played there, and no item row has more samples |
| `AggregationTotals.FlushedRow` | processor/aggregator.py:81-107 | a flush has a row for exactly the keys that appeared on some board; its sample size is the number of appearances, its play rate that over the boards of the group, at most one |
| `Aggregation.WinRateRange` | processor/aggregator.py:97 | a win rate lies between zero and one, is one iff every placement is top four and zero iff none is |
| `Aggregation.PooledPlayRateRange` | api/service.py:82 | a pooled play rate lies within the bounds of the rows it pools |
| `RateLimit.SlidingWindow.Allow` | api/security.py:66-81 | a hit passes exactly when fewer than the limit passed in the closed window before it; pruning drops no key |
| `RateLimit.AtMostLimit` | api/security.py:66-81 | spaced hits put at most the limit into any closed interval of the window's length |
| `RateLimit.LimitHolds` | api/security.py:66-81 | so over every run of calls at non-decreasing times |
| `RateLimit.WaitingHelps` | api/security.py:73-75 | a rejected caller that waits the returned time is then allowed |
| `RateLimit.RetryIsLeast` | api/security.py:73-75 | waiting any smaller number of whole seconds leaves the caller rejected |

## Left out

- gRPC, UDP, JSON and protobuf encodings: replies and deliveries are steps; the entry codec is any pair of functions, and the entries clients submit are those it carries (`StatKey.Admissible`).
- Mutexes and channels: each critical section is one step or one method call.
- crc32 and FNV-1a: any functions into their ranges, collisions allowed.
- 64-bit overflow of clock sums and incarnations, and floating-point rounding of times and rates.
- I/O errors: a file operation succeeds or the process crashes. The store holds fewer than 2^32 entries, messages are at most 32 MiB as the server enforces, payloads fit the 32-bit length field and partitions stay below 2^63 records.
- Table names: the clock in them is taken to grow across restarts, so later tables sort later; an unfinished table file is one that does not open.
- Bloom sizing formulas: the number of bits and probes is a parameter, in range for tables of fewer than 2^32 entries.
- compactLocked's branches for empty sources and for recursion: its only caller passes a level with more than four tables, and the next level then holds one.
- LsmTree.Tree.Scan: the immutable memtable is nil whenever a scan can take the lock, so it is not visited.
- LsmSafety.CrashRecovery: covers log generations without an append behind a torn tail; metastore/wal.go does not truncate torn bytes, and `LsmTornTail.AcknowledgedWriteCanBeLost` shows that nothing stronger holds.
- LruCache.Cache.Put: the linked list is a sequence of nodes, so pointer updates within it are not modelled.
- Bloom.Add: the bit array is a sequence value rather than an array updated in place.
- SsTable.WriteTable: works on the file's bytes as a value; rename and fsync of table files are not modelled.
- HashRing.FilterSlots: the filter that reuses the ring's slice works on sequence values.
- Quorum.QuorumReadIsFresh: the ring is fixed during a run; removing a dead peer from the ring does not back-fill (metastore/server.go:370-373).
- Patch decay, patch tracking and the cross-node scan of metastore/server.go.
- FlushClock.StoreEndsWithLastFlush: takes one entry per key and flush; the key omits the entity type, so an item and an augment with the same id would share it.
- Broker replication and back-fill order, token buckets, consumer offset persistence.
- Partitions.Partition.Append: appending behind a torn tail is not modelled; `Partitions.TornRecovery` covers the state after one torn write.
- Gossip completeness: alive reports passed on by others refresh a heartbeat (gossip/gossip.go:266-271), so eventual detection is not claimed; restarts of gossip nodes are left out as well.
- Reorder.ReorderBuffer.Push: the heap's layout is a plain list; by `Reorder.PopIgnoresLayout` no layout changes what is released.
- Aggregation.AggregateByEntity: the entity type, patch, tiers and regions a pooled row also lists, and the decoration of augments.
- Which peers a gossip node sends to: any packet may reach any node.
- Composition naming, play-rate denominators across flushes, anomaly scores, the dashboard, ingestion, metrics and deployment would add only easy members or none.
