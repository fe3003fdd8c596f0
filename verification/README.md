# Unistore, verified parts

A Dafny model of the raft storage and apply machinery of unistore (`raftstore`) and of its SST table
format (`rocksdb`), with proofs about it. Objects that the Go code changes in place are classes whose
methods change the same fields; their loops are loops. Each such method is tied to a function on
values (a `Step` or a named result), and what the system promises is proved about runs of those
functions: over every interleaving, every run of operations, every crash point, every input.

| files | what they model |
|---|---|
| `Latches.dfy` | the latch protocol of the region manager |
| `Lease.dfy` | leader lease and remote leases |
| `SnapStream.dfy` | the snapshot byte stream over several files |
| `RaftLog.dfy`, `DiskLog.dfy`, `Cache.dfy`, `PeerStorage.dfy` | the raft log: disk reads, entry cache, term lookup, compaction, log GC |
| `Recovery.dfy` | crash recovery across the two engines |
| `Options.dfy`, `Bits.dfy`, `Bytes.dfy`, `MemStore.dfy`, `Codec.dfy` | optional values, bitwise "and", byte strings in order, the ordered memory store, little-endian numbers |
| `DeleteRanges.dfy`, `SplitCheck.dfy` | pending delete ranges, split checkers |
| `Regions.dfy`, `RegionExec.dfy`, `StoreIndex.dfy` | region splits, membership, epochs, the store's region index |
| `PendingCmds.dfy`, `StaleNotices.dfy` | the pending command queue, callbacks, stale notices |
| `WriteBatch.dfy`, `ApplyCommands.dfy`, `ApplyBatch.dfy`, `ApplyContext.dfy` | the write batch, commands, batched apply and flush |
| `CustomLog.dfy`, `TwoEncodings.dfy` | the custom raft log and the request encoding |
| `SstCodec.dfy`, `SstBlock.dfy`, `SstTable.dfy`, `SstBuilder.dfy`, `SstIterator.dfy`, `SstRoundTrip.dfy` | SST blocks, tables, writer and reader |

Conventions and assumptions:

- Badger is an atomic map, the lock store and `regionRanges` a sorted map; `Next` on an unpositioned
  iterator lands on the first entry. A panic or a failed assertion of the source is a `panicked` result, or is
  proved away.
- The raft library is the environment: it delivers contiguous entries whose terms never decrease. The placement
  driver hands out region ids once.
- Log indexes, terms, timestamps, sizes and epochs are unbounded numbers. 32-bit and 64-bit truncation is
  written out where the code relies on it: time rounding, epochs in raft logs, length fields, varints, checksums.
- Encodings of other packages (protobuf, `mvcc`, `codec`, CRC) are function-valued parameters or datatypes; an
  encoded region state and a user meta are never empty.
- Ghost parameters of methods name the abstract contents the bytes or objects stand for.

Places where the code does not do what one would expect, each with the exact condition:

- Rounding a time to milliseconds and back never makes it later exactly for times from 1970 on
  (`Lease.RoundTripNeverLater`, `Lease.EpochConditionsNeeded`).
- A lease goes by the monotonic clock and its remote by the wall clock. If the wall clock is set back after a renewal,
  the remote outlives the lease exactly when that is by more than rounding took off (`Lease.ClockSetBack`,
  `Lease.ClockStepWitness`). The attached remote is safe exactly when the wall clock is far enough ahead of the
  monotonic one (`Lease.SafeExactly`), and all remotes are if it was never further ahead at a renewal
  (`Lease.LeaseSafety`).
- A crash between the two writes of a snapshot leaves the commit index behind the applied index exactly when the
  old log already reached the snapshot's index (`Recovery.CommitAfterCrash`).
- The empty entry of a new leader crashes the applier exactly when one of the commands it finds stale has no
  callback (`PendingCmds.Applier.HandleEmptyEntry`), as proposed log compactions have none
  (`PendingCmds.CompactLogCrash`); with a callback on every normal proposal it never happens
  (`PendingCmds.CallbacksNeverCrash`).
- A command still queued when its applier is registered anew is told that it is stale and can yet be applied, exactly if
  its place in the log is still ahead (`StaleNotices.RegisteredAway`); likewise one sent to an applier that is stopped at
  the time (`StaleNotices.ProposedTooEarly`). All other stale notices are right for good
  (`StaleNotices.NoticesTruthful`).
- The store's region index stays in agreement with the regions through every state of a run exactly when no conf
  change removes the last peer of a region (`StoreIndex.RunConsistent`, `StoreIndex.LastPeerWitness`). Such a
  change leaves the region's end key in the index for good, naming no region (`StoreIndex.LastPeerLeavesEndKey`);
  the configuration option to remove a leader lets it through.
- The search for regions that overlap a snapshot returns exactly when it finds none, because it does not move past a
  region it finds; and it never finds a region without an end key, nor anything for a snapshot without one
  (`StoreIndex.StoreMeta.FindOverlapRegions`, `StoreIndex.SearchedSnapshotAllowed`).
- A lock read while applying prefers the lock store to the batch, so it is the current lock exactly when the batch
  has not touched the key, or the store has none, or both agree (`TwoEncodings.FoundLockIsCurrent`).
- A pessimistic lock whose value is kept outside the lock column family loses it in the request encoding, so both
  encodings write the same exactly when the lock marshals the same without it (`TwoEncodings.SameWrites`,
  `TwoEncodings.LargePessimisticLock`).
- Regrouped requests give one operation per call exactly when no rollback that keeps its lock comes right before a
  pessimistic rollback (`TwoEncodings.RegroupedLength`).
- A pending delete range keeps the ranges disjoint exactly when it is not empty (`DeleteRanges.StepDisjoint`).
- Raft logs carry 32 bits of an epoch, so an epoch that never was can pass the check above 2^32
  (`Regions.EpochWraps`); an outdated one never does, and neither does the region's own epoch once a checked part
  of it has reached 2^32 (`Regions.EpochFaultMeaning`).
- A custom raft log reads back exactly when every key is below 2^16 bytes and every value below 2^32
  (`CustomLog.ReadsBack`, `CustomLog.LongKeyMisread`).
- The number of keys at which a region is split is the configured maximum exactly when that is above the split number
  and, for more than one split at a time, at most twice it plus one (`SplitCheck.MaxDecidesExactly`,
  `SplitCheck.SplitBelowMax`).
- Writing an SST table with aligned blocks panics exactly when the block size is not positive
  (`SstRoundTrip.RoundTrip`). Padding reaches a multiple of the alignment if that is a power of two
  (`SstTable.PadAligns`), and otherwise need not (`SstTable.PadMisses`).
- The SST writer refuses keys out of order except for a second empty key: it is taken, or trips an assertion exactly
  when its type is larger than the first one's (`SstRoundTrip.SstFileWriter.Add`).

## Model

| member | source | states |
|---|---|---|
| `Latches.StepInv` | raftstore/region.go:67-110 | the test-and-set, wait and release steps keep: the table names exactly the sessions inside a critical section, and every waiter waits for a session that held its hash |
| `Latches.Safety` | raftstore/region.go:67-110 | in every interleaving of sorted sessions no hash has two holders, and a release deletes only its own entries and signals its own wait group |
| `Latches.NoDeadlock` | raftstore/region.go:76-93 | while some session is unfinished, some session can move |
| `Latches.StepDecreases` | raftstore/region.go:76-93 | every step lowers the measure, retries after a wake-up included |
| `Latches.Termination` | raftstore/region.go:67-110 | every interleaving ends within the measure of its start, and one that cannot go on has finished all sessions and emptied all slots |
| `Latches.SlotTable.TryAcquire` | raftstore/region.go:76-93 | one round of the retry loop on the slot maps: takes a free hash, otherwise reports its holder and changes nothing |
| `Latches.SlotTable.ReleaseOne` | raftstore/region.go:95-110 | one round of the release loop: removes the hash from its slot and remembers the wait group found there |
| `Latches.Perform` | raftstore/region.go:67-110 | a session's next step carried out on the 256 slot maps is the step of the protocol |
| `Lease.RoundTripNeverLater` | raftstore/util.go:277-289 | rounding to milliseconds and back never yields a later time, exactly for times not before 1970 |
| `Lease.ConversionShape` | raftstore/util.go:277-289 | what the two conversions lose: seconds wrap at 2^54, the rest is cut to milliseconds |
| `Lease.RunInv` | raftstore/util.go:129-240 | over every run at most one bound is set, detached remotes are zero, and the attached one is zero or the rounded wall time of the bound it was last set from |
| `Lease.LeaseSafety` | raftstore/util.go:172-253 | over every run, whenever any remote ever handed out says Valid the lease says Valid, for bounds and times from 1970 on and if at no renewal the wall clock was further ahead of the monotonic one than it is now |
| `Lease.SafeExactly` | raftstore/util.go:172-253 | with the wall clock ahead by a given amount, the attached remote implies the lease at all times exactly when that takes the wall time at the end of the lease up to the rounded time in the cell |
| `Lease.ClockSetBack` | raftstore/util.go:172-253 | after any renewal and a wall clock set back by any amount, the exact condition for a remote that still says Valid when its lease has run out |
| `Lease.ClockStepWitness` | raftstore/util.go:172-253 | a wall clock set back by five seconds while a lease of one second runs out does this |
| `Lease.ExpiredStaysExpired` | raftstore/util.go:164-262 | a remote expired through its lease never says valid again, whatever follows |
| `Lease.EpochConditionsNeeded` | raftstore/util.go:277-289 | with a steady clock, a bound before 1970 gives a remote that outlives its lease, and an expired remote says Valid about times before 1970 |
| `Lease.LeaderLease.Renew` | raftstore/util.go:129-162 | renewing changes bounds, drift mark and the shared expiry as the run machine does |
| `Lease.RenewMeaning` | raftstore/util.go:134-162 | after a renewal the bound is the later of the old one and the send time plus the lease; a suspect bound gives way exactly when that outlasts it; the attached remote follows exactly once the bound is more than a third of the lease past the last update |
| `Lease.RenewedIsValid` | raftstore/util.go:134-188 | a renewal leaves the lease valid at its send time, also one that was suspect until an earlier time |
| `Lease.EndedLease` | raftstore/util.go:164-195 | a suspended lease is suspect, and an expired one expired, at all times |
| `Lease.LeaderLease.Suspect` | raftstore/util.go:164-170 | suspecting expires the remote and trades the valid bound for a suspect one |
| `Lease.LeaderLease.Expire` | raftstore/util.go:190-195 | expiring drops both bounds and the remote |
| `Lease.LeaderLease.ExpireRemoteLease` | raftstore/util.go:197-204 | the shared expiry becomes zero and the lease lets go of it |
| `Lease.LeaderLease.MaybeNewRemoteLease` | raftstore/util.go:206-232 | a clone sharing the expiry, none if one of this term is out, a panic exactly for another term |
| `Lease.LeaderLease.Inspect` | raftstore/util.go:172-188 | suspect, valid or expired at a time, by the monotonic clock where both times have it |
| `Lease.RemoteLease.Inspect` | raftstore/util.go:242-253 | valid exactly before the shared expiry, by the wall clock |
| `SnapStream.Snap.TotalSize` | raftstore/snap.go:709-716 | the announced total of the stream |
| `SnapStream.Snap.Read` | raftstore/snap.go:816-840 | the next bytes of the files put together, whatever the boundaries, and end of file exactly at their end |
| `SnapStream.Snap.Write` | raftstore/snap.go:842-881 | a chunk spread over the files; bytes are left over only when every file is full |
| `SnapStream.Snap.Save` | raftstore/snap.go:718-729 | accepts exactly when every non-empty file has its size and its checksum |
| `SnapStream.Send` | raftstore/snapRunner.go:117-130 | the chunks sent, none longer than the chunk length and none empty, put together are the files |
| `SnapStream.Receive` | raftstore/snapRunner.go:186-207 | however the stream is cut, every chunk is consumed whole, every file equals its source with its written size equal to its size, and the checksums decide acceptance |
| `SnapStream.Replicate` | raftstore/snap.go:709-881 | sender to receiver: the copy is accepted and equal for every list of file sizes and every chunk length |
| `RaftLog.LimitedUnique` | raftstore/peer_storage.go:483-523 | the specification of a read (longest prefix within the size, at least one entry) has one answer |
| `DiskLog.FetchByGets` | raftstore/peer_storage.go:738-766 | point lookups return the limited prefix, or fail exactly when an entry before the stop is missing |
| `DiskLog.FetchByScan` | raftstore/peer_storage.go:767-810 | the scan returns the same |
| `Cache.EntryCache.Append` | raftstore/peer_storage.go:140-163 | new entries replace the tail they overlap, the newest that fit stay; fails exactly when they would leave a hole |
| `Cache.EntryCache.CompactTo` | raftstore/peer_storage.go:165-175 | the cached entries from the index on |
| `Cache.EntryCache.FetchEntriesTo` | raftstore/peer_storage.go:115-138 | continues a read with cached entries up to the size limit |
| `PeerStorage.StepInv` | raftstore/peer_storage.go:645-694 | each append, apply, compaction, single batch of log GC (or its failure) and cache compaction keeps: all entries behind the truncated index on disk, cache a contiguous suffix of at most 1023 entries, terms ordered |
| `PeerStorage.RunInv` | raftstore/applier.go:1388-1420 | over every run, anything falling between two batches of log GC, the truncated index never decreases nor passes the applied index, and every later entry stays on disk |
| `PeerStorage.RunHoldsLog` | raftstore/peer_storage.go:645-670 | over every run every entry behind the truncated index is the one appended there last, told by the appends alone |
| `PeerStorage.CompactionMeaning` | raftstore/applier.go:1388-1420 | a compaction goes through exactly past the first entry, up to the applied index and with a term; then the truncated position is the one asked for, its entries leave the cache, and a deletion from the last queued index on is queued |
| `PeerStorage.CacheGcMeaning` | raftstore/peer_storage.go:678-694 | exactly the entries up to the applied index leave the cache, exactly when all replicas have them or none needs what is cached |
| `PeerStorage.RunForgetsNone` | raftstore/fsm_peer.go:786-803 | over every run whose deletions are written each compacted entry is gone or waits in the queue; with the queue empty the disk holds exactly the entries behind the last compaction |
| `PeerStorage.StepDeletes` | raftstore/worker.go:971-988 | outside of appends only entries up to the truncated index leave the disk |
| `PeerStorage.BatchesJoin` | raftstore/worker.go:971-988 | however a range is cut into batches, together they delete what one would |
| `PeerStorage.PeerStore.Entries` | raftstore/peer_storage.go:483-523 | fails exactly for ranges outside the log, otherwise the longest prefix within the size and at least one entry, from disk, cache or both |
| `PeerStorage.PeerStore.Term` | raftstore/peer_storage.go:526-554 | the term in the log for every index from the truncated to the last one, on the path that reads no entry too; the right error outside |
| `PeerStorage.PeerStore.Append` | raftstore/peer_storage.go:645-670 | log, last index, last term and cache after a persisted append, truncating ones included |
| `PeerStorage.PeerStore.CompactTo` | raftstore/peer_storage.go:673-676 | compacts the cache only |
| `PeerStorage.PeerStore.MaybeGCCache` | raftstore/peer_storage.go:678-694 | drops the cache up to the applied index, when that is the replicated index too or when the cache starts past what the replicas still need; otherwise keeps it |
| `PeerStorage.PeerStore.CompactLog` | raftstore/fsm_peer.go:786-803 | the truncated position, the cache and the queued log GC after a CompactLog command |
| `PeerStorage.PeerStore.WriteGcBatch` | raftstore/worker.go:971-982 | one batch of the oldest log GC, ended by the first key that fills it or by the end of the range; the rest stays queued |
| `PeerStorage.PeerStore.GcRaftLog` | raftstore/worker.go:943-990 | a whole task as a run of such batches: deletes exactly its range, whatever the batch threshold |
| `Recovery.RecoverySucceeds` | raftstore/peer_storage.go:218-293 | recovering and opening passes the index check and loads a complete log |
| `Recovery.RunRecovers` | raftstore/peer_storage.go:867-954 | over every run, crashing before, between or after the two writes of any Ready: reopening succeeds with truncated <= applied <= last and every entry between present |
| `Recovery.RunRemembers` | raftstore/peer_storage.go:911-954 | over every run, with crashes at every point, term, vote, commit index, last index, apply state and every log entry behind the truncated one are those of the last writes that were done, told by the events alone; between the two writes of a snapshot it brings its term and vote exactly when it is past the log |
| `Recovery.CommitAfterCrash` | raftstore/peer_storage.go:218-253 | after a crash between the writes of a snapshot the commit index is not behind the applied index exactly when the snapshot is ahead of the old log |
| `Recovery.CommitBehindWitness` | raftstore/peer_storage.go:911-954 | such a state can occur |
| `Recovery.ReadyWriter.ApplySnapshot` | raftstore/peer_storage.go:867-903 | the two batches and the new state of an incoming snapshot |
| `Recovery.ReadyWriter.Append` | raftstore/peer_storage.go:645-670 | entries set and the old tail deleted in the raft batch |
| `Recovery.ReadyWriter.SaveReadyState` | raftstore/peer_storage.go:911-954 | the two batches of a whole Ready; `Recovery.RunRemembers` says what they leave behind, field by field |
| `DeleteRanges.PendingDeleteRanges.FindOverlapRanges` | raftstore/worker.go:571-594 | exactly the stored ranges that share a key with the query, in key order; none for an empty query |
| `DeleteRanges.PendingDeleteRanges.Insert` | raftstore/worker.go:493-499 | panics exactly when a stored range meets the new one, otherwise adds it |
| `DeleteRanges.PendingDeleteRanges.RemoveAt` | raftstore/worker.go:502-509 | takes out the range with that start key, if any |
| `DeleteRanges.PendingDeleteRanges.DrainOverlapRanges` | raftstore/worker.go:596-602 | takes out exactly the ranges met; every deletion finds its key |
| `DeleteRanges.PendingDeleteRanges.InsertPendingDeleteRange` | raftstore/worker.go:720-739 | drains, then inserts; the overlap panic cannot fire |
| `DeleteRanges.StepDisjoint` | raftstore/worker.go:493-509 | a step keeps the ranges non-empty and disjoint exactly when a registered range is non-empty |
| `DeleteRanges.RunDisjoint` | raftstore/worker.go:493-602 | over every run with start < end the ranges stay non-empty and pairwise disjoint |
| `Regions.SplitFaultMeaning` | raftstore/applier.go:1289-1326 | a batch split goes through exactly when there is a key, the keys climb strictly inside the region and each request has one id per peer |
| `Regions.SplitPartitions` | raftstore/applier.go:1327-1360 | left- or right-derived, each key of the old range lies in exactly one part and no other key in any |
| `Regions.SplitCopies` | raftstore/applier.go:1335-1352 | each part has the stores and roles of the old region, one peer per store, a non-empty range and a version larger by the number of requests |
| `Regions.ChangeFaultMeaning` | raftstore/applier.go:1199-1247 | a membership change goes through exactly on these conditions on the present members |
| `Regions.ChangeMeaning` | raftstore/applier.go:1199-1250 | how the set of members changes (promotion of a learner included), with one peer per store kept |
| `Regions.ChangeTakesEffect` | raftstore/applier.go:1181-1272 | a membership change that goes through raises the conf version by one, changes the members, and leaves version, id and range alone |
| `Regions.SplitTakesEffect` | raftstore/applier.go:1290-1360 | the part of each request has its region id, its peer ids on the old stores and its split key; the kept part has the old id and peers; all have the version raised by the number of requests |
| `Regions.EpochFaultMeaning` | raftstore/util.go:421-465 | an epoch outdated in a checked part is always refused; below 2^32 exactly equality of the checked parts passes; the region's own epoch passes exactly while its checked parts are below 2^32 |
| `Regions.EpochByCommand` | raftstore/util.go:421-465 | which part of the epoch each command asks for: a write the version, a membership change the conf version, a split or leader transfer both, the others none |
| `Regions.EpochWraps` | raftstore/raftlog/custom.go:121-133 | above 2^32 an epoch that never was can pass |
| `Regions.RunSafe` | raftstore/applier.go:1181-1371 | over every run of commands on all regions: ranges stay disjoint and well formed, the covered keys stay the same, no epoch part ever shrinks |
| `Regions.StaleRefused` | raftstore/applier.go:813-827 | a command sent under an epoch a region once had is refused with no effect once a part it checks has moved on |
| `Regions.OneEffectPerEpoch` | raftstore/applier.go:813-827 | over every run, of two membership changes sent to a region under one epoch at most one takes effect, and likewise of any two commands the first of which changes what the second asks for; without a bound on the epochs |
| `RegionExec.CheckSplit` | raftstore/applier.go:1293-1326 | the loop reports the first fault in order, or gathers the bounds of the parts |
| `RegionExec.ExecBatchSplit` | raftstore/applier.go:1289-1371 | new region objects that look like the parts and share one fresh epoch object; nothing that existed is written |
| `RegionExec.FindPeer` | raftstore/util.go:379-396 | the first peer on a store |
| `RegionExec.ExecChangePeer` | raftstore/applier.go:1181-1272 | the changed copy, its error cases, and whether the applier's own peer was removed; `Regions.ChangeTakesEffect` says what the copy is |
| `RegionExec.Applier.ApplyRaftCmd` | raftstore/applier.go:744-791 | the effect of one command on the applier's region; a refused one changes nothing, and no region or epoch object held elsewhere is written |
| `StoreIndex.RunConsistent` | raftstore/fsm_peer.go:805-954 | in every state of a run of splits, conf changes, destroys, snapshot installs and created peers the index maps exactly the end keys of initialized regions to their ids, these share no key, and every registered peer has its region there: exactly for the runs in which no conf change removes the last peer of a region |
| `StoreIndex.SplitRecorded` | raftstore/fsm_peer.go:805-906 | after a split every part is on record under its id and its end key, and every other region is as before |
| `StoreIndex.ConfChangeRecorded` | raftstore/fsm_peer.go:726-735 | after a conf change the region on record has its conf version raised by one and its members changed; nothing else moves |
| `StoreIndex.SnapshotRecorded` | raftstore/fsm_peer.go:935-954 | after a snapshot the region on record is the one received, epoch and peers included |
| `StoreIndex.PeerRecorded` | raftstore/fsm_peer.go:706-722 | a destroyed peer is off the record with its end key and nothing else is; a created one starts out blank |
| `StoreIndex.StepConsistent` | raftstore/fsm_peer.go:726-784 | a change keeps that agreement exactly when it is no conf change that removes a last peer |
| `StoreIndex.LastPeerLeavesEndKey` | raftstore/fsm_peer.go:706-722 | after such a change and the destroy that follows, the end key is in the index and its region is gone |
| `StoreIndex.LastPeerWitness` | raftstore/peer.go:1342-1352 | such a change exists |
| `StoreIndex.EndKeysDiffer` | raftstore/fsm_store.go:40-43 | regions that share no key end at different keys, so the index cannot clash |
| `StoreIndex.StoreMeta.OnReadySplitRegion` | raftstore/fsm_peer.go:805-906 | the metadata after a split; neither the panics nor the assertion can fire |
| `StoreIndex.StoreMeta.OnReadyChangePeer` | raftstore/fsm_store.go:72-75 | only the region is replaced, in the store and in its peer |
| `StoreIndex.StoreMeta.DestroyPeer` | raftstore/fsm_peer.go:706-722 | peer, region and index entry go; the exact conditions of both corruption panics, and neither can fire while the metadata is consistent |
| `StoreIndex.StoreMeta.OnReadyApplySnapshot` | raftstore/fsm_peer.go:935-954 | the region as of the snapshot takes its place; its end key is always free |
| `StoreIndex.StoreMeta.FindOverlapRegions` | raftstore/fsm_peer.go:644-662 | loops forever exactly when another bounded region meets a bounded snapshot, otherwise finds nothing |
| `StoreIndex.SearchedSnapshotAllowed` | raftstore/fsm_peer.go:622-634 | a snapshot let through overlaps no other region exactly when it shares no key with the regions the search cannot see |
| `StoreIndex.StoreMeta.CreatePeer` | raftstore/fsm_store.go:596-652 | a peer without a range is recorded and stays out of the index |
| `StoreIndex.StoreMeta.IsRangeCovered` | raftstore/fsm_store.go:852-874 | true exactly when start < end, every key of [start, end) lies in a region, and end is a region's end key |
| `SplitCheck.CheckKeys` | raftstore/worker.go:442-465 | for every configuration: every part but the last holds exactly the split number of keys, and how many are proposed; where the maximum decides, the count is the largest that leaves the last part enough keys |
| `SplitCheck.MaxDecidesExactly` | raftstore/worker.go:442-465 | something is proposed exactly from the maximum on, for every number of keys, in exactly these configurations: a limit of at least one, a maximum above the split number and, for a limit above one, at most twice the split number plus one |
| `SplitCheck.SplitBelowMax` | raftstore/worker.go:442-465 | with a split number of one and a maximum of four, three keys are split |
| `SplitCheck.KeySplitCountMeaning` | raftstore/worker.go:455-465 | the number proposed is the only one that is largest within the limit and still leaves the last part enough keys |
| `SplitCheck.CheckSizes` | raftstore/worker.go:390-423 | every part but the last is at most the split size plus its first pair and passes the split size with the next pair; for a limit of at least one and a maximum above the split size and at most twice it, the last part is not small, and a region without a proposal is at most two pairs above the maximum |
| `SplitCheck.KeysSplitChecker.OnKv` | raftstore/worker.go:442-453 | one more key, and when to stop the scan |
| `SplitCheck.SizeSplitChecker.OnKv` | raftstore/worker.go:390-410 | one more pair, with its size carried over or not, and when to stop |
| `PendingCmds.RunHeld` | raftstore/applier.go:688-802 | over every run of proposals, applied entries, flushes, registrations and destroys, the times a callback is pending, awaiting or completed add up to the times it was submitted as long as the applier has not crashed, and never exceed them |
| `PendingCmds.ExactlyOnePlace` | raftstore/applier.go:175-189 | a callback submitted once is in at most one of the three places, once, and in exactly one unless the applier has crashed |
| `PendingCmds.CallbacksNeverCrash` | raftstore/applier.go:646-660 | no run in which every normal proposal has a callback crashes |
| `PendingCmds.CompactLogCrash` | raftstore/fsm_peer.go:1187-1190 | a proposed log compaction followed by the empty entry of the next term does |
| `PendingCmds.PendingCmdQueue.PopNormal` | raftstore/applier.go:48-58 | the front command unless it is of a later term |
| `PendingCmds.Applier.FindCallback` | raftstore/applier.go:688-715 | the callback of an entry; exactly the commands before it up to its term are told they are stale; `StaleNotices.NoticesTruthful` says that they hear the truth |
| `PendingCmds.Applier.FindConfChangeCallback` | raftstore/applier.go:688-701 | the same for the one pending conf change |
| `PendingCmds.Applier.ProcessRaftCmd` | raftstore/applier.go:717-742 | the callback of an applied command waits for the next flush |
| `PendingCmds.Applier.HandleEmptyEntry` | raftstore/applier.go:646-660 | commands of earlier terms become stale; it crashes exactly when one of them has a nil callback |
| `PendingCmds.Applier.HandleProposal` | raftstore/applier.go:1482-1505 | queueing, replacing a pending conf change, refusing when stopped |
| `PendingCmds.Applier.ClearAll` | raftstore/applier.go:793-802 | every queued command is told, once, in order |
| `PendingCmds.Applier.HandleRegistration` | raftstore/applier.go:1449-1455 | registering anew tells all queued commands they are stale |
| `PendingCmds.Applier.HandleDestroy` | raftstore/applier.go:1509-1537 | destroying tells all queued commands that the region is removed |
| `PendingCmds.Applier.InvokeAll` | raftstore/applier.go:346-350 | a flush completes all awaiting callbacks in order |
| `StaleNotices.StaleNeverApplied` | raftstore/applier.go:646-715 | under the promises of raft, over registrations anew too, no command declared stale by an applied entry is ever applied, before or after; nor is a conf change that an entry or a later proposal declared stale |
| `StaleNotices.NoticesTruthful` | raftstore/applier.go:646-715 | over every run, of every notice that reaches or awaits a callback: told executed, the command was applied; told stale, it is never applied unless a registration dropped it or it was sent to a stopped applier; told removed, the peer was removed. Covers data entries, empty entries, conf changes, proposals and removal |
| `StaleNotices.RegisteredAway` | raftstore/applier.go:1449-1455 | a command dropped by a registration is told it is stale and can still be applied, exactly if its place in the log is ahead |
| `StaleNotices.ProposedTooEarly` | raftstore/applier.go:1482-1491 | the same of a command sent to a stopped applier that is registered again |
| `StaleNotices.AppliedFindsCallback` | raftstore/applier.go:702-714 | an applied command whose proposal arrived is answered through exactly that proposal's callback |
| `StaleNotices.PromiseNeeded` | raftstore/peer_worker.go:167-171 | a run that keeps every promise but one, that entries of a led term were proposed here, tells a command that it is stale and then applies it |
| `WriteBatch.WriteBatch.Add` | raftstore/engine.go:179-241 | which list each write goes to and what it adds to the size (nothing for locks and rollbacks) |
| `WriteBatch.RollBackUndoes` | raftstore/engine.go:254-265 | rolling back to the safe point undoes exactly the writes since |
| `WriteBatch.WriteBatch.WriteToKV` | raftstore/engine.go:270-310 | the entries in order, empty ones as deletions, then the lock entries in order |
| `WriteBatch.LastEntryDecides` | raftstore/engine.go:270-310 | the last entry of a key decides: an empty one leaves the key absent, any other leaves its cell |
| `WriteBatch.LastLockDecides` | raftstore/engine.go:270-310 | the same of locks |
| `ApplyCommands.WriteMeaning` | raftstore/engine.go:179-242 | what each of the seven calls on a batch does to the store once it is written |
| `WriteBatch.WriteBatch.Reset` | raftstore/engine.go:353-367 | back to the empty batch |
| `ApplyCommands.CommitMeaning` | raftstore/applier.go:1103-1117 | a commit drops the lock, puts its value under the commit timestamp or records a lock-only transaction on its primary key, and changes nothing else |
| `ApplyCommands.OtherOpMeaning` | raftstore/applier.go:914-945 | a prewrite, rollback or pessimistic rollback changes exactly its lock and its rollback record |
| `ApplyCommands.SplitPersists` | raftstore/applier.go:1336-1360 | a split leaves every part in the store under its own id, each new one with the initial apply state |
| `ApplyCommands.StateBytesHold` | raftstore/state.go:27-39 | the stored apply state has its three numbers in their own eight bytes each |
| `ApplyCommands.OpsInOrder` | raftstore/applier.go:914-945 | the operations of a log take effect one after the other |
| `ApplyCommands.ChangePersists` | raftstore/applier.go:1251-1272 | a membership change leaves the changed region in the store, marked exactly if it removes the applier's own peer |
| `ApplyCommands.InitialStateHolds` | raftstore/bootstrap.go:134-141 | the apply state of a new region says five, five, five |
| `ApplyCommands.CompactMeaning` | raftstore/applier.go:1388-1420 | the truncated position becomes the one asked for, exactly if that is ahead, applied and has a term; when the command fails |
| `ApplyCommands.ChangePeerMeaning` | raftstore/applier.go:1181-1272 | the region an applier has after a membership change, and when it is marked for removal |
| `ApplyCommands.SplitMeaning` | raftstore/applier.go:1290-1360 | the part an applier goes on with after a split: its range, epoch and peers |
| `ApplyCommands.OthersKeepApplier` | raftstore/applier.go:813-945 | every other command leaves the applier as it is; transaction operations go through exactly under the region's version |
| `ApplyBatch.FailedAddsOnlyIndex` | raftstore/applier.go:752-768 | a failed command leaves the batch and the store as they were and of itself only its index |
| `ApplyBatch.FlushedAsIfOneByOne` | raftstore/applier.go:303-367 | at every flush, in mid-batch or at the end, with appliers (of uninitialized peers too) registered, unregistered and registered again and other workers writing keys of their own to the store, the store equals the entries applied one by one except for apply states of regions being removed, and every callback let go belongs to such a region, to one no longer registered, or to an entry whose index the store has reached |
| `ApplyBatch.FlushedIndexes` | raftstore/applier.go:620-623 | after every flush the stored apply state of every region at work has, byte for byte, the index of the last entry done for it and its truncated position |
| `ApplyBatch.FlushedPositions` | raftstore/applier.go:620-623 | for the commands of this repository all three numbers follow from the events alone |
| `ApplyBatch.RunCallbacks` | raftstore/applier.go:336-352 | over every run the callback of every entry but empty ones waits or has been let go, once and in order; after a flush none waits |
| `ApplyBatch.RegionChanged` | raftstore/applier.go:1181-1272 | the region of an applier after a step that applies a membership change |
| `ApplyBatch.RegionSplit` | raftstore/applier.go:1290-1360 | the region of an applier after a step that applies a split |
| `ApplyBatch.ExecCommandSane` | raftstore/applier.go:744-791 | custom logs, splits, membership changes and compactions meet what that theorem asks of a command |
| `ApplyContext.ApplyContext.WriteToDB` | raftstore/applier.go:337-351 | writes unless no byte is counted, then releases the callbacks |
| `ApplyContext.ApplyContext.Commit` | raftstore/applier.go:317-335 | a flush in mid-batch, with the apply state if entries were applied since the last one |
| `ApplyContext.ApplyContext.FinishFor` | raftstore/applier.go:354-367 | the apply state goes into the batch unless the peer is being removed |
| `ApplyContext.ApplyContext.ApplyEntry` | raftstore/applier.go:744-768 | one entry behind a safe point, rolled back on failure, its index kept either way |
| `ApplyContext.ApplyContext.HandleRaftCommittedEntries` | raftstore/applier.go:559-613 | a legal run of the context that applies the entries in order, all of them unless the peer is removed on the way, and leaves the other appliers alone; no panic when the entries continue the log |
| `ApplyContext.OnlyEntriesMatter` | raftstore/applier.go:303-367 | the one-by-one run of a trace is that of its entries |
| `ApplyContext.ApplyContext.HandleApply` | raftstore/applier.go:1458-1479 | the same, with an applier being removed skipped, or flushed once it has become so |
| `ApplyContext.ApplyContext.HandleBatch` | raftstore/peer_worker.go:236-260 | the work of many regions through one batch and a flush: the store is as if the entries done had been applied one by one, its apply states hold the index of the last entry done for each region, all their callbacks have been let go in order, and these are all entries but those after the removal of their peer; no panic when all entries continue their logs |
| `CustomLog.HeaderRoundTrip` | raftstore/raftlog/custom.go:98-112 | every header field that fits its width reads back from its place |
| `CustomLog.CustomBuilder.AppendLock` | raftstore/raftlog/custom.go:217-223 | the bytes of a lock entry |
| `CustomLog.CustomBuilder.AppendCommit` | raftstore/raftlog/custom.go:226-233 | the bytes of a commit entry |
| `CustomLog.CustomBuilder.AppendRollback` | raftstore/raftlog/custom.go:236-246 | the bytes of a rollback entry |
| `CustomLog.CustomBuilder.AppendPessimisticRollback` | raftstore/raftlog/custom.go:249-253 | the bytes of a pessimistic rollback entry |
| `CustomLog.IterateLock` | raftstore/raftlog/custom.go:141-154 | reads the entries of any data, and panics exactly when they run past its end |
| `CustomLog.IterateCommit` | raftstore/raftlog/custom.go:157-172 | the same for commits |
| `CustomLog.IterateRollback` | raftstore/raftlog/custom.go:175-188 | the same for rollbacks |
| `CustomLog.IteratePessimisticRollback` | raftstore/raftlog/custom.go:191-200 | the same for pessimistic rollbacks |
| `CustomLog.ReadsBack` | raftstore/raftlog/custom.go:141-253 | the entries of a built log are read back exactly when every key is below 2^16 bytes, every value below 2^32 bytes and every timestamp below 2^64 |
| `CustomLog.LongKeyMisread` | raftstore/raftlog/custom.go:249-253 | a longer key is not |
| `TwoEncodings.CustomWriteBatch.Add` | raftstore/db_writer.go:291-323 | one entry per call; trips the assertion exactly on a call of another kind |
| `TwoEncodings.ExecCustomLog` | raftstore/applier.go:914-945 | puts exactly the writes of the entries of any log into the batch; panics exactly when they run past its end |
| `TwoEncodings.BuiltLogHolds` | raftstore/db_writer.go:291-323 | the entries of a built log are its operations exactly when all of them fit their fields |
| `TwoEncodings.CallMeaning` | raftstore/db_writer.go:291-323 | what each transaction call leaves in the store through the custom log: lock, value at the commit timestamp, rollback record at the start timestamp |
| `TwoEncodings.RaftWriteBatch.Add` | raftstore/db_writer.go:51-159 | the requests of one more call |
| `TwoEncodings.CreateWriteCmdOps` | raftstore/applier.go:968-1067 | regroups the requests of any list of calls without running out of bounds or tripping an assertion |
| `TwoEncodings.RegroupedLength` | raftstore/applier.go:1022-1035 | as many operations as calls exactly when no two neighbouring calls read as one |
| `TwoEncodings.OneOpPerCall` | raftstore/applier.go:968-1067 | then they are the operations of the calls, in order |
| `TwoEncodings.SingleKindUnambiguous` | raftstore/db_writer.go:291-298 | a batch of one kind is never ambiguous |
| `TwoEncodings.GetLock` | raftstore/applier.go:1119-1130 | the lock store first, then the last entry in the batch |
| `TwoEncodings.FoundLockIsCurrent` | raftstore/applier.go:1119-1130 | that lock is the current one exactly under the condition stated above |
| `TwoEncodings.StaleLockFound` | raftstore/applier.go:1119-1130 | a lock replaced earlier in the batch is found in its old form |
| `TwoEncodings.ExecWriteOps` | raftstore/applier.go:879-893 | executes the operations in order, each seeing the batch of those before it; its assertion fires exactly when some commit finds no lock |
| `TwoEncodings.TwoEncodingsOneMeaning` | raftstore/applier.go:871-1151 | for unambiguous calls each alike when its turn comes (a commit finds, in the store or in the batch so far, a lock that commits the same; a pessimistic lock marshals the same without a large value), the requests trip no assertion and both encodings append the same lock and data entries |
| `TwoEncodings.AlikeExactly` | raftstore/applier.go:871-1151 | for a whole list of calls: each is alike when its turn comes exactly when every commit finds a lock and the two encodings have appended the same after every call |
| `TwoEncodings.SameWrites` | raftstore/db_writer.go:137-148 | one call writes the same in both encodings exactly when it is alike in that sense |
| `TwoEncodings.LargePessimisticLock` | raftstore/db_writer.go:137-148 | a pessimistic lock with a large value writes differently in the two encodings |
| `TwoEncodings.PrewriteThenCommit` | raftstore/applier.go:1119-1130 | a commit of a lock that is only in the unflushed batch is alike |
| `SstCodec.EncodeVarint32` | rocksdb/utils.go:53-82 | the five written-out cases are the general encoding |
| `SstCodec.DecodeVarint32` | rocksdb/utils.go:84-108 | value, truncated to 32 bits, and length of the number in front of any buffer; length 0 when there is none |
| `SstCodec.VarintRoundTrip` | rocksdb/utils.go:53-117 | a number reads back, whatever follows it |
| `SstCodec.MaskRoundTrip` | rocksdb/utils.go:127-134 | unmasking a masked checksum gives it back |
| `SstCodec.HandleRoundTrip` | rocksdb/types.go:88-111 | a block handle reads back with its length |
| `SstCodec.KeyRoundTrip` | rocksdb/types.go:121-143 | an internal key reads back |
| `SstBlock.DifferenceOffset` | rocksdb/utils.go:38-51 | the length of the longest common prefix |
| `SstBlock.BlockBuilder.Add` | rocksdb/block_builder.go:59-83 | the buffer holds one pair more, each entry readable from the key before it |
| `SstBlock.BlockBuilder.Finish` | rocksdb/block_builder.go:89-97 | the finished block: entries, restarts, their number; one restart for every restart interval, of a builder that was only driven through its methods |
| `SstBlock.BuildBlock` | rocksdb/block_builder.go:59-97 | for any pairs put into a new builder, every restart is the offset of an entry with a whole key, and there is one for every restart interval |
| `SstBlock.BlockIterator.Reset` | rocksdb/block_iter.go:86-96 | at the front of the entries, the restarts cut off |
| `SstBlock.BlockIterator.Next` | rocksdb/block_iter.go:40-72 | the next pair of the block in the buffers, or invalid at its end |
| `SstBuilder.TableBuilder.WriteRawBlock` | rocksdb/block_based_table_builder.go:270-304 | contents, trailer and the computed padding are stored where the handle says; a panic exactly for a data block to be aligned to a block size that is not positive |
| `SstTable.PadRange` | rocksdb/block_based_table_builder.go:63-66 | the padding asked for is less than a positive alignment, and negative for any other |
| `SstTable.PadAligns` | rocksdb/block_based_table_builder.go:294-301 | it reaches the next multiple of an alignment that is a power of two |
| `SstTable.PadMisses` | rocksdb/block_based_table_builder.go:294-301 | for another alignment it need not |
| `SstTable.FooterEnds` | rocksdb/block_based_table_builder.go:146-163 | the last twelve bytes of a file: version 2 and the magic number |
| `SstBuilder.TableBuilder.Flush` | rocksdb/block_based_table_builder.go:170-183 | the waiting pairs become a stored block, none is lost or reordered; a panic only for a block that cannot be aligned |
| `SstBuilder.TableBuilder.ShouldFlush` | rocksdb/block_based_table_builder.go:306-322 | never an empty block, and always one that has reached the block size |
| `SstBuilder.TableBuilder.Add` | rocksdb/block_based_table_builder.go:82-108 | one pair more, for every block size, restart interval and alignment; panics exactly on a key out of order or of an unknown type, and after the first pair if blocks cannot be aligned |
| `SstBuilder.TableBuilder.Finish` | rocksdb/block_based_table_builder.go:117-168 | the file is a table of exactly the pairs added; within the size budget it fails exactly if blocks cannot be aligned |
| `SstIterator.DecompressBlock` | rocksdb/sst_file_iterator.go:131-151 | of any block: a mismatch is reported exactly when the stored checksum is not that of the bytes before it; otherwise an uncompressed block comes back without its trailer |
| `SstIterator.SstFileIterator.LoadFooter` | rocksdb/sst_file_iterator.go:167-194 | of any file: the exact conditions of a read error and of a magic number mismatch, otherwise its last 53 bytes |
| `SstIterator.SstFileIterator.LoadIndexBlock` | rocksdb/sst_file_iterator.go:153-212 | footer and index of a table load without error |
| `SstIterator.SstFileIterator.LoadNextDataBlk` | rocksdb/sst_file_iterator.go:100-121 | the next block of the table, or the end after the last |
| `SstIterator.SstFileIterator.SeekToFirst` | rocksdb/sst_file_iterator.go:56-65 | on the first pair, from any earlier position |
| `SstIterator.SstFileIterator.Next` | rocksdb/sst_file_iterator.go:67-76 | the next pair, across blocks; after the last invalid without an error |
| `SstIterator.ReadAll` | rocksdb/sst_file_iterator.go:56-76 | every pair of the table in order, then ready to seek again |
| `SstRoundTrip.SstFileWriter.Add` | rocksdb/sst_file_writer.go:96-118 | refuses exactly keys that do not come after a non-empty last one; otherwise adds the record in its stored form (`SstRoundTrip.StoredHolds`); panics exactly on a second empty key of a larger type, and after the first pair if blocks cannot be aligned |
| `SstRoundTrip.RoundTrip` | rocksdb/sst_file_writer.go:64-118 | for every non-empty list of puts, merges and deletions under strictly increasing keys, every block size, alignment and restart intervals, reading the written file yields, twice and without error, as many pairs, each with its value and with its user key followed by the type byte 0, 1 or 2 and a zero sequence number; within the size budget writing fails exactly, with a panic, for aligned blocks of a size that is not positive |
| `SstRoundTrip.StoredHolds` | rocksdb/sst_file_writer.go:96-118 | the bytes handed to the builder for a record: user key, type byte, zero sequence number, value |
| `SstRoundTrip.StoredKeyReads` | rocksdb/types.go:121-143 | the keys read decode to the user keys written |

## Left out

- gRPC, the PD client, transport, routers, bootstrap, configuration, metrics, logging, `server` and `cmd`: plumbing.
- Destroying the regions in the way of a snapshot (`maybeDestroySource`): the search before it never returns one.
- The raft library, badger, lockstore, lz4, CRC, protobuf, `mvcc` and `codec`: abstracted as said above.
- Region merge: all bodies are stubs, so merge commands and the waiting state of the apply loop have no model.
- Building and applying snapshot contents (`snap_builder.go`, `snap_applier.go`) and restoring the lock store.
- The entry cache across an incoming snapshot: snapshots appear only in `Recovery.dfy`, which has no cache.
- Recovery of a replica without a raft state record.
- LZ4 tables; only uncompressed blocks are written and read.
- DeleteRange, IngestSST and read-only requests in `createWriteCmdOps`, and failed conf changes in `onReadyChangePeer`.
- `tryTableSplit`, `halfSplitCheck`, tickers, error conversion, key prefix builders and statistics.
- Concurrency is modelled as interleaved atomic steps: of latch sessions, of appends, compaction results and single GC batches on a raft log, of writes to the store by other workers while a batch is applied, of changes to the store's metadata under its lock. Within one worker a step is atomic: a whole Ready, one applied entry, one flush.
- Overflow of 64-bit log indexes, terms and epochs, and entries of size zero in the raft log.
- PeerStorage.PeerStore.Entries: entries are assumed to have positive size, because every stored entry carries at least its index.
- Lease.LeaseSafety: the times of a run either all have a monotonic reading or all have none, because they all come from the clock; the end of the monotonic clock's 64 bits is not modelled.
- ApplyBatch.FlushedAsIfOneByOne: state keys carry no versions and user keys are decoded, because the versions of state keys only grow; ids of new regions are assumed fresh, and other workers are assumed not to write keys that are in the batch.
- StaleNotices.StaleNeverApplied: speaks of the commands that an applied entry or a later conf change declared stale; those dropped by a registration or sent to a stopped applier are in `StaleNotices.NoticesTruthful` and `StaleNotices.RegisteredAway`, because they may still be applied.
- SstBuilder.TableBuilder.Finish: the contents of the filter, properties and meta index blocks are arbitrary bytes, because reading from the first pair never looks at them.
- SstRoundTrip.RoundTrip: at most 0x3ffffffd pairs with keys and values below 2^32 bytes, because restart counts and lengths are 32-bit numbers; a file past 2^63 bytes is a failed write. An empty table is not covered: its index names a block that was never written.
- PeerStorage.RunForgetsNone: a GC task whose write fails is given up by the source, so runs with such a failure are not covered.
- SstIterator.DecompressBlock: decompression and the xxHash checksum, which the source does not support, are not modelled.
- SstBuilder.TableBuilder.ShouldFlush: leaves open which smaller blocks are flushed early, because the round trip holds wherever blocks end.
