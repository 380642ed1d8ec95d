# LevelFS: a verified model

LevelFS keeps files on a raw volume. A two-level table (a Level Index Table whose entries point to
blocks of allocation entries) says for every cluster which cluster follows it; files are chains of
clusters. A sector cache, a journal, a defragmenter and a worker pool sit around it. This project
models those layers, and four independent pieces (process definition files, the line buffer of the
console stream, path strings, file locks), and proves what they promise over every input and every
run.

Code that changes state in place is modelled by classes and loops whose contracts tie the new state
to a function of the old one; the lemmas are about those functions.

| file | what it models |
|---|---|
| `DiskLayout.dfy` | the layout the formatter computes, reserved clusters, LIT addressing |
| `ClusterMap.dfy` | the allocation map as a value: entries, allocation, freeing, chains, the write loop |
| `ChainStore.dfy` | counters that equal cardinalities, separation of chains, chain walks, whole runs |
| `FileStore.dfy`, `FileRuns.dfy` | write then read, pre-allocation, runs of file operations |
| `Volume.dfy` | the mounted volume: the two-level table in an array of clusters, refining the map |
| `SectorCache.dfy` | the disk device behind its LRU cache |
| `Crc64.dfy`, `CrcDivision.dfy`, `Journal.dfy` | the checksum, the polynomial division it is the remainder of (ECMA-182, Annex B), the record ring, replay |
| `Defrag.dfy`, `DefragTable.dfy` | relocation of a chain on a flat table; the addresses the defragmenter really uses |
| `ThreadPool.dfy`, `IndexRanges.dfy`, `ParallelImport.dfy` | the pool and the parallel import as steps; chunks of an index range |
| `Locks.dfy`, `StreamBuf.dfy`, `Paths.dfy`, `PrcFile.dfy` | the independent pieces |

How the pieces meet: `Represents` (Volume.dfy) says that the LIT, the LABs and the data clusters on
disk hold exactly one allocation map; each method of `Volume` keeps it and ends in the map that the
corresponding function of ClusterMap.dfy gives. `Tally` says that the free counter and the
allocatedCounts of the first 170 groups are right and the other allocatedCounts bounded, `Inv` adds
that the chains owned by files are well formed and disjoint, `Holds` adds that each file reads back
what was last written to it.

## Where the code and its promise differ

Each of these is kept as the code has it, with the exact condition proved.

- The LIT is sized by bytes but addressed at 170 entries a cluster (24 bytes each). All groups have a
  slot in the region if and only if `LitFits`; every volume up to 340 groups fits, one of 341 groups
  does not and its last lookup lands in the LAB pool (`LitAddressing`, `LitFitsBelow341`). Everything
  above the layout assumes `LitFits`.
- `updateLITAllocatedCount` splits the LIT index at 512 entries a cluster instead of 170. It reaches
  the cluster's own slot, and an allocation keeps its group's count exact, if and only if the group is
  one of the first 170 (`CountSlotExact`, `AllocateCountExact`). From slot 170 on a slot counts another
  group, `CountedGroup`. Over whole runs, on volumes of every size: the first 170 counts are exact;
  where the other group lies beyond the volume the count stays 0 and is right if and only if no cluster
  of the group is in use; a slot that tracks the other group is right if and only if both groups have
  equally many used clusters (`RunInv`, `CountExactIff`). From a formatted volume of at most 512 groups
  (512 MiB): right if and only if the group is one of the first 170 or unused (`FormattedRunCounts`).
  Past the 170th entry of a LIT cluster the code leaves its buffer; the model lets that access change
  nothing.
- `freeCluster` counts a cluster as freed whether or not it was in use: the counters stay exact if and
  only if it was (`FreeClusterExact`).
- A reserved cluster always reads as the end of a chain, whatever was stored for it (`NextOf`). So when
  the root directory is full its growth is lost: the new cluster is taken and linked behind the
  reserved one, but no walk from there ever reaches it (`GrowthLost`).
- A write is complete if and only if its clusters fit into the file's old ones and the free counter
  (`WriteFits`), a new file if and only if they fit into the free counter (`NewFileComplete`), an import
  if and only if all but the first do (`PreallocateFits`); a write that does not fit still sets the
  full size. The chain walk stops after 1,000,001 clusters, so a larger file is not read back in full
  either (`WriteThenRead`, if and only if). The defragmenter's own walk stops after 100,000 (`WalkIsChain`, if
  and only if).
- The cache header says write-through; the code writes back on eviction and flush only. A disabled
  cache acknowledges single-sector writes and drops them (`WriteVisible`), and invalidating a sector
  that is still dirty loses it (`InvalidateExact`), each with the exact condition. A crash loses nothing
  if and only if every cached sector equals the device (`CrashExact`), and as long as the sectors used
  fit into the cache nothing written reaches the device (`CrashLosesWrites`). The journal writes through
  the same cache: what is proved of recovery is about the records that reached the device.
- Replay changes a record's status without recomputing its checksum, so a recovered record never
  passes validation again (`StaleChecksum`, `ReplaySettles`). Its delete step is described as idempotent;
  done twice it frees a second entry exactly when several entries in use share the name (`RedoTwice`).
- The defragmenter's `getLABEntry` and `setLABEntry` take the cluster number divided by 256 as an
  absolute sector of the volume. They land on the cluster's own entry if and only if it is one of the
  first 32 of its group and the group's number is the first sector of the group's LAB
  (`OwnEntryExact`); on volumes of up to 16 groups that never happens (`SmallVolumesMiss`), and what is
  read and written is always the superblock's cluster, the LIT or the LAB pool (`AlwaysMetadata`). A
  link written for one of the other 224 clusters of a group changes nothing (`LinkWritten`). Defrag.dfy
  is therefore about the algorithm on the table it assumes, one entry a cluster.
- On that table the search does not skip reserved clusters. What it finds for n clusters is clear of
  them if and only if no run of n unlinked clusters begins between the data start and the root
  directory's end, and some run of n lies between there and the backup superblock in the last cluster
  (`RoomExact`, on every table). From a formatted volume the reserved clusters read as unlinked, in
  every run, if and only if no directory was grown behind one of them (`ReachedReservedFree`); while
  they do, every file of at most 22 clusters is moved onto the level registry
  (`SmallFilesHitRegistry`). On a volume of 256 clusters, a file at 25 and 27 overwrites clusters 3 and 4
  (`RegistryOverwritten`); once the root directory, in cluster 24, has grown, a file of 22 clusters goes
  to 26 instead (`GrownRootClear`). `DefragFile` gives the new state in all cases, and a chain the file
  system can follow under exactly that condition.
- The defragmenter leaves the flags of the clusters it frees set, so the allocator never sees them
  again: a move onto a clear run loses as many clusters as the file has (`MoveLeaks`).
- A pool without workers runs nothing: after the join every task has run if and only if there was a
  worker or no task (`JoinedAllDone`).
- A byte range that is empty or reaches 2^64 does not overlap even itself (`SelfOverlap`), and the
  file locks and the range locks do not know of each other (`TablesIndependent`). The lock wait keeps
  the manager's mutex, so a conflict can only end in a timeout.

## Model

| member | source | states |
|---|---|---|
| DiskLayout.Layout.SkipPastReserved | src/mount.cpp:640-654 | One jump of the scan never goes back, stays put exactly on usable clusters, and passes over reserved clusters only. |
| DiskLayout.FormatReserved | src/fs.cpp:617-649 | The reserved set of a formatted volume is exactly the metadata prefix up to the root directory's two clusters and the last cluster. |
| DiskLayout.FormatFreeCount | src/fs.cpp:646-648 | The free counter the formatter stores is the number of usable clusters. |
| DiskLayout.LitAddressing | src/mount.cpp:406-411 | Every group's LIT lookup lies inside the LIT region if and only if the region has at least as many 170-entry slots as there are groups. |
| DiskLayout.LitFitsBelow341 | src/fs.cpp:620-626 | Every volume of up to 340 groups is addressable; with 341 groups the last lookup hits the first LAB cluster. |
| ClusterMap.NextFit | src/mount.cpp:656-690 | For every hint: returns 0 exactly when no usable cluster is free, otherwise a free, usable, in-range one, and the first such from the hint on, wrapping. |
| Volumes.Volume.AllocClusterForLevel | src/mount.cpp:656-690 | The wrapping scan terminates and returns the next fit; the chosen cluster becomes a one-cluster chain of the level, hint and counters move with it, and a full disk changes nothing. |
| Volumes.Volume.TakeCluster | src/mount.cpp:677-684 | The end of a successful scan on the two-level table equals the map's entry update, count update, hint and free counter. |
| Volumes.Volume.ProbeFree | src/mount.cpp:675-677 | The scan's test agrees with the map: usable, unlinked and without flags. |
| Volumes.Volume.Format | src/fs.cpp:610-694 | A raw image becomes a volume whose table reads as the all-free map; exactly the LIT and the first sixteen LABs are written, with empty entries; all counters and the hint as computed from the layout. |
| Volumes.FormattedRepresents | src/fs.cpp:666-694 | A zeroed LIT represents the map in which every usable cluster is free, whatever the uninitialised LABs contain. |
| Volumes.Volume.GetLABEntry | src/mount.cpp:389-444 | The two-level lookup returns the map's entry: untouched groups read as free, reserved clusters as chain ends, out-of-range ones as free; the pool-range test never fails. |
| Volumes.Volume.GetLATEntry | src/mount.cpp:446-451 | The link the map holds, or an end mark for clusters outside the usable ones. |
| ChainStore.LookupExact | src/mount.cpp:389-451 | A lookup shows the stored entry of a usable cluster, an end mark for a reserved one, a free entry elsewhere; the link alone is an end mark for every cluster that is not usable. |
| Volumes.Volume.SetLABEntry | src/mount.cpp:453-518 | Afterwards the table represents the map with exactly this entry replaced, a reserved cluster's included, and this group materialised; all other entries, counts and data stay. |
| Volumes.Volume.MaterialiseLAB | src/mount.cpp:469-499 | The unchecked LAB allocation gives the group its own LAB inside the pool and records the group's base cluster; no entry of any cluster changes. |
| Volumes.Volume.StoreInLAB | src/mount.cpp:502-517 | Rewriting one entry of a LAB changes that cluster's entry and nothing else in the map. |
| Volumes.PoolNeverOverflows | src/mount.cpp:469-471 | nextFreeLAB never exceeds the pool, and is strictly below it while some group has no LAB. |
| Volumes.LinkLab | src/mount.cpp:488-497 | Pointing a LIT entry at a fresh LAB materialises that group and no two groups share a LAB. |
| Volumes.SetInLab | src/mount.cpp:502-517 | An entry written in its group's LAB is the only entry of the map that changes. |
| Volumes.SetCount | src/mount.cpp:550-561 | A rewritten LIT count changes no entry, no LAB and no data. |
| Volumes.SetData | src/mount.cpp:3162-3164 | File data written to a usable cluster cannot hit the LIT or a LAB. |
| Volumes.Volume.SetLATEntry | src/mount.cpp:520-525 | The map with one link replaced; an end mark also sets the used flag. |
| Volumes.Volume.UpdateLITAllocatedCount | src/mount.cpp:536-563 | The count changes in the slot the 512-split names if that slot is materialised and the count does not go below zero, and nowhere else. |
| ChainStore.CountSlotExact | src/mount.cpp:537-541 | The count update reaches the cluster's own group if and only if that group is one of the first 170. |
| ChainStore.AllocateCountExact | src/mount.cpp:677-680 | With all counts exact before, an allocation leaves its group's count exact if and only if the group is one of the first 170. |
| Volumes.Volume.FreeClusterAt | src/mount.cpp:603-617 | Nothing for a reserved cluster; otherwise the entry is cleared, the group's count and the free counter adjusted. |
| Volumes.Volume.FreeOne | src/mount.cpp:606-615 | The step both freeing operations share, on the two-level table. |
| Volumes.Volume.FreeChainAt | src/mount.cpp:619-634 | The loop on the two-level table clears and counts the clusters of the walk from the start, in order; FreeChainExact says which these are. |
| ChainStore.FreeChainExact | src/mount.cpp:619-634 | Freeing an owned chain sets exactly its clusters' entries (the first 1,000,001) to (0, 0, 0, 0), makes exactly these free, and adds their number to the free counter. |
| ChainStore.FreeListTally | src/mount.cpp:623-632 | Freeing distinct used clusters keeps the free counter and the first 170 allocatedCounts exact on volumes of every size, clears exactly their entries and touches no other. |
| ChainStore.FreeClusterExact | src/mount.cpp:603-617 | The counters stay right if and only if the freed cluster was in use. |
| ChainStore.FreedCluster | src/mount.cpp:603-617 | A usable cluster's entry becomes (0, 0, 0, 0) and the free counter grows by one; for a reserved one nothing changes. |
| ChainStore.AllocateTally | src/mount.cpp:677-684 | Allocation keeps totalFreeClusters equal to the number of free usable clusters, each of the first 170 allocatedCounts equal to the used clusters of its group, and the others at most those of the group they count. |
| ChainStore.AllocatedEntry | src/mount.cpp:677-684 | While the free counter is positive an allocation takes a free cluster, whose entry becomes (end mark, level, used, one reference); the hint is the cluster behind it and the free counter drops by one. |
| ChainStore.FullDiskExact | src/mount.cpp:656-690 | The scan finds no cluster if and only if totalFreeClusters is 0. |
| ChainStore.SetLinkTally | src/mount.cpp:520-525 | Relinking a used cluster to anything but the free mark keeps all of this. |
| ChainStore.RelinkedEntry | src/mount.cpp:520-525 | Relinking a usable cluster changes its link, and sets the used flag under an end mark; level, references, other flags and all other entries stay. |
| Volumes.Volume.GetChain | src/mount.cpp:692-710 | The loop returns the map's chain walk, on any table. |
| ChainStore.ChainOfIsWalk | src/mount.cpp:692-710 | On any table, cyclic or corrupt: a duplicate-free walk along the links of at most totalClusters clusters that stops only at an end mark, a link out of range, a repeat, a reserved start or the cap. |
| ChainStore.ChainOfIsChain | src/mount.cpp:692-710 | A well-formed chain of at most 1,000,001 clusters is returned whole, a longer one gives exactly its first 1,000,001. |
| ChainStore.CreateInv | src/mount.cpp:3141-3145 | A new one-cluster chain is disjoint from all owned chains; the counters stay right, and a slot that tracks its group goes on doing so. |
| ChainStore.ExtendInv | src/mount.cpp:3168-3174 | Extending an owned chain keeps all owned chains well formed and disjoint, and the counters as above. |
| ChainStore.TruncateInv | src/mount.cpp:3178 | Ending an owned chain early keeps all of this; the tail stays allocated. |
| ChainStore.DeleteInv | src/mount.cpp:619-634 | Freeing an owned chain leaves all others well formed and disjoint, and the counters as above. |
| ChainStore.GrowInv | src/mount.cpp:1403-1417 | Directory growth behind a reserved cluster keeps all owned chains and the counters as above. |
| ChainStore.GrowthLost | src/mount.cpp:1403-1417 | That growth takes a free cluster and stores the link, but the walk from the reserved cluster stays that cluster alone. |
| ChainStore.RunReserved | src/mount.cpp:453-525 | Over every run, what the table holds for reserved clusters stays unlinked if and only if it was and no directory was grown behind one. |
| ChainStore.RunInv | src/mount.cpp:536-690 | Over every run of create, extend, truncate, delete and directory growth, on volumes of every size: chains acyclic, disjoint, off reserved clusters, ended by the end mark; the free counter and the first 170 allocatedCounts equal the sets they count; a slot from 170 on that tracks the group it counts goes on doing so. |
| ChainStore.StepEffect | src/mount.cpp:603-690 | What each operation does: a creation or extension adds one formerly free cluster at its end or, on a full disk, nothing; a truncation keeps the prefix; a deletion removes the chain and frees its clusters; growth keeps the owners. |
| ChainStore.CountExactIff | src/mount.cpp:536-563 | When any group's allocatedCount is right: always in the first 170; from there on if and only if the group is unused (its slot's counted group beyond the volume), or has as many used clusters as the counted group (slot tracking it, as it does from any moment at which it has a LAB and that group is unused). |
| ChainStore.FormattedRunCounts | src/mount.cpp:536-563 | From a formatted volume of at most 512 groups, after any run: a group's allocatedCount is right if and only if the group is one of the first 170 or has no used cluster. |
| ChainStore.CountSlotIs | src/mount.cpp:536-541 | A cluster is counted in a slot if and only if its group is the one the slot counts. |
| ChainStore.FormatInv | src/fs.cpp:610-694 | The formatter establishes that invariant with no chain owned. |
| Volumes.Volume.WriteFileData | src/mount.cpp:3152-3178 | On any table with links in range, as long as only usable clusters are visited, the loop equals the specification loop, the full-disk exit included. |
| FileStore.WrittenUsable | src/mount.cpp:3152-3178 | On a well-formed chain the loop visits usable clusters only. |
| FileStore.WriteFits | src/mount.cpp:3152-3178 | The loop completes if and only if the clusters needed are at most those of the old chain plus the free counter beforehand. |
| Volumes.Volume.WriteCluster | src/mount.cpp:3157-3164 | One cluster's bytes change; the table and all other clusters stay. |
| FileStore.WriteWorks | src/mount.cpp:3152-3178 | The loop leaves a well-formed chain holding the zero-padded chunks, built only from the old chain and free clusters; all other entries and bytes stay; it fails only with no cluster left free. |
| FileStore.ChunkAt | src/mount.cpp:3157-3160 | The cluster images are the file's bytes in order, then zeros. |
| FileStore.WriteLevels | src/mount.cpp:3152-3178 | Clusters a write allocates carry its level; all other entries keep theirs. |
| FileStore.ReadPrefix | src/mount.cpp:3992-4005 | Reading along clusters that hold a file's first chunks gives that prefix of the file. |
| FileStore.WriteThenRead | src/mount.cpp:3152-3178 | New, growing or shrinking: the read returns a prefix of the data written, and all of it if and only if its clusters are at most those of the old chain plus the free counter, and at most 1,000,001. |
| FileStore.WriteThenReadSmall | src/mount.cpp:3152-3178 | On a volume of at most 1,000,001 clusters a write reads back in full if and only if its clusters are at most those of the old chain plus the free counter. |
| FileStore.WriteKeepsOthers | src/mount.cpp:3152-3178 | The invariant survives a write with the written chain in the owner's place, and every other owner keeps its clusters and bytes. |
| Volumes.Volume.ReadClusters | src/mount.cpp:3993-4003 | Along any clusters, metadata included, the loop collects size bytes in chain order, or as many as the chain has. |
| Volumes.Volume.ReadFileData | src/mount.cpp:3992-4005 | On any table the bytes along the start cluster's walk; on a chain of usable clusters the map's file contents. |
| FileRuns.WriteHolds | src/mount.cpp:3132-3178 | A write keeps every other file readable as before and makes this one read back its bytes, if and only if they fit as above. |
| FileRuns.NewFile | src/mount.cpp:3141-3147 | A new file gets a start cluster no other file has; a full disk changes nothing. |
| FileRuns.NewFileComplete | src/mount.cpp:3132-3178 | A new file gets a cluster if and only if the free counter is positive, and then reads back its bytes if and only if they need at most that many clusters (and 1,000,001). |
| FileRuns.FileStepEffect | src/mount.cpp:3132-3178 | What each file operation does to the set of files, sizes, contents and free clusters: a new file adds one, an overwrite replaces one, a removal takes one away and frees its clusters, growth changes none; contents are complete if and only if they fit. |
| FileRuns.GrowHolds | src/mount.cpp:1403-1417 | Growing a directory behind a reserved cluster leaves every file reading back the same bytes. |
| FileRuns.RemoveHolds | src/mount.cpp:619-634 | Removing a file leaves every other file reading back the same bytes. |
| FileRuns.FormattedHolds | src/fs.cpp:610-694 | Runs of file operations can start on any formatted volume. |
| FileRuns.RunKeepsEntry | src/mount.cpp:3132-3178 | No run of operations on other files, directory growth included, changes a file's size or contents. |
| FileRuns.FileSurvives | src/mount.cpp:3132-3178 | After an overwrite that fits into the file's clusters and the free counter, any run of creations, overwrites, removals of other files and directory growth leaves the file reading back exactly the bytes written. |
| Volumes.Volume.PreallocateClusters | src/mount.cpp:3518-3546 | The import's loop equals the specification: fresh clusters linked in order behind the first, ended there, or abandoned on a full disk. |
| FileStore.PreallocateWorks | src/mount.cpp:3535-3546 | The pre-allocated clusters were free and form one chain behind the first; no other entry and no data changes; only a full disk stops it. |
| FileStore.PreallocateFits | src/mount.cpp:3535-3546 | Pre-allocation completes if and only if the clusters asked for are at most the free counter beforehand. |
| FileStore.PreallocateLevels | src/mount.cpp:3535-3546 | Pre-allocated clusters carry the level; all other entries keep theirs. |
| SectorCache.ExecKeeps | src/fs_common.hpp:370-448 | One operation on the cached disk keeps clean sectors equal to the device and does to the visible sectors what it would do to a plain array. |
| SectorCache.Transparent | src/cache.hpp:63-225 | Over any run of reads, writes, capacity changes and flushes every read delivers what an uncached array delivers, and after a flush the device equals that array. |
| SectorCache.WriteVisible | src/cache.hpp:110-127 | A single-sector write can be read back if and only if the cache is enabled or the sector already held those bytes. |
| SectorCache.ReadExact | src/fs_common.hpp:370-423 | With the cache off a read delivers the device's sector and changes nothing; with it on it delivers the cached sector, or else the device's, and leaves it cached and in front. |
| SectorCache.ResizeExact | src/cache.hpp:171-177 | A new capacity keeps exactly the most recent sectors up to it, in order. |
| SectorCache.FlushExact | src/cache.hpp:207-225 | A flush keeps every cached sector in its place, writes exactly the dirty ones, and leaves none dirty. |
| SectorCache.InvalidateExact | src/cache.hpp:129-140 | Invalidation keeps the visible sectors if and only if the dropped sector equalled the device. |
| SectorCache.CrashExact | src/cache.hpp:110-127 | Losing the cache loses nothing if and only if every cached sector equals the device. |
| SectorCache.CrashLosesWrites | src/cache.hpp:110-127 | While the sectors read, written and already cached fit into the capacity, no write reaches the device. |
| SectorCache.AccessIsLruStep | src/cache.hpp:81-127 | Reads and writes move the list as an LRU of max(capacity, 1) sectors does. |
| SectorCache.LruIsRecency | src/cache.hpp:63-127 | With n slots the list is the n most recently used distinct keys of the trace, in order. |
| SectorCache.DeviceIsRecency | src/cache.hpp:63-127 | The device's own list, after any history of reads and writes, is the most recently used distinct sectors of the whole history, in order. |
| SectorCache.LruInclusion | src/cache.hpp:63-127 | A larger cache holds everything a smaller one holds, the smaller list being a prefix. |
| SectorCache.MoreCapacityMoreHits | src/cache.hpp:93-107 | A larger capacity never has fewer hits, on any trace. |
| SectorCache.DiskDevice.EvictOldestUnsafe | src/cache.hpp:63-79 | The least recently used sector leaves the cache, written back if dirty; what a client sees stays. |
| SectorCache.DiskDevice.TouchUnsafe | src/cache.hpp:81-87 | The key moves to the front, the order of the others stays. |
| SectorCache.DiskDevice.Get | src/cache.hpp:93-108 | Found exactly when enabled and cached, then with the cached bytes and the sector in front; otherwise nothing changes. |
| SectorCache.DiskDevice.PutSector | src/cache.hpp:110-127 | The new cache state, with an eviction exactly when a new key meets a full cache. |
| SectorCache.DiskDevice.ReadSector | src/fs_common.hpp:370-423 | Delivers the visible sector and leaves the visible sectors as they were. |
| SectorCache.DiskDevice.WriteSector | src/fs_common.hpp:425-444 | The visible sectors with this one replaced, or unchanged when the cache is disabled. |
| SectorCache.DiskDevice.SetCacheSize | src/cache.hpp:171-177 | At most the new capacity stays cached and the visible sectors do not change. |
| SectorCache.DiskDevice.FlushCache | src/cache.hpp:207-225 | Afterwards the device equals the visible sectors and nothing is dirty. |
| Crc64.CalculateCRC64 | src/journal.hpp:23-35 | The nested loops compute the checksum that ChecksumIsRemainder identifies. |
| CrcDivision.ChecksumIsRemainder | src/journal.hpp:13-35 | For every message the checksum, read from its lowest bit, is the complement of the remainder of the message times x^64, each byte read from its lowest bit and the first 64 coefficients complemented, under long division by x^64 plus 0x42F0E1EBA9EA3693. |
| CrcDivision.CheckValue | src/journal.hpp:13-35 | The checksum of the digits 1 to 9 is 0x995DC9BBDF1939FA. |
| CrcDivision.MirrorsStep | src/journal.hpp:29-32 | The reflected bit step, mirrored, is one shift of the division. |
| Crc64.StepsLinear | src/journal.hpp:29-32 | The bit step is linear over exclusive or, for any number of steps. |
| Crc64.EightBack | src/journal.hpp:29-32 | A register whose top byte is clear has exactly one predecessor under eight steps: itself shifted left. |
| Crc64.AbsorbInjective | src/journal.hpp:27-33 | The step map is injective: equal registers after a common message come only from equal registers. |
| Crc64.AbsorbBack | src/journal.hpp:27-33 | Registers that meet after two windows of at most eight bytes started exactly the windows' difference apart. |
| Crc64.BurstDetected | src/journal.hpp:23-35 | Equal-length messages of any length that differ only within eight consecutive bytes have different checksums. |
| Journal.JournalDevice.constructor | src/journal.hpp:38 | A session continues the superblock's last transaction number and starts at slot 0. |
| Journal.JournalDevice.LogOperation | src/journal.hpp:41-72 | The next transaction goes sealed and pending to the head slot of the ring laid out seven to a sector; the head advances circularly. |
| Journal.JournalDevice.Locate | src/journal.hpp:79-86 | The two-level search finds the first record with the transaction number, or none. |
| Journal.JournalDevice.CommitOperation | src/journal.hpp:75-98 | That record becomes committed and resealed and lastTxId moves, or nothing changes. |
| Journal.MountedRing | src/journal.hpp:38 | A session can start on any ring, with whatever records earlier sessions left. |
| Journal.FormattedSession | src/fs.cpp:696-703 | On a formatted journal, at any time in the first session, every record is empty or passes its checksum. |
| Journal.LogKeepsRing | src/journal.hpp:41-72 | After a log each slot holds the newest transaction of the session that went there, or what was there at mount, and every record of the session passes its checksum. |
| Journal.CommitKeepsRing | src/journal.hpp:75-98 | A commit changes its own record only, and only while the ring still holds it, even if older records repeat its number. |
| Journal.SessionKeepsRing | src/journal.hpp:41-98 | Over every session on any mounted ring, slot i holds the newest transaction of the session whose index is i modulo the ring size, or its old record, and every record of the session passes its checksum. |
| Journal.LoggedReadsBack | src/journal.hpp:45-54 | Replay acts on a logged record and reads back its operation, target and time, and its name if and only if that has at most 23 bytes and no NUL. |
| Journal.JournalDevice.ReplayJournal | src/journal.hpp:101-167 | The sector-by-sector loop leaves the ring and the directories the replay specification gives. |
| Journal.JournalDevice.ReplaySector | src/journal.hpp:112-160 | The records of one sector are acted on in order in the buffer. |
| Journal.StaleChecksum | src/journal.hpp:150-156 | Changing a pending record's status under its old checksum always breaks the record. |
| Journal.FieldDetected | src/journal.hpp:115-124 | Changing the transaction, operation, target, level or time of an intact record under its old checksum always breaks it. |
| Journal.NameDetected | src/journal.hpp:115-124 | So does changing up to eight consecutive bytes of the name. |
| Journal.EncodeLayout | src/fs_common.hpp:216-225 | The 64 checksummed bytes hold each field little-endian at its own offset. |
| Journal.ReplaySettles | src/journal.hpp:101-167 | After replay no valid record is pending; others are untouched; each pending one only changes its status and never passes validation again. |
| Journal.ReplayAt | src/journal.hpp:101-262 | What replay does with each record, in the directories as the records before have left them: a valid pending one becomes committed if it is a write, a delete of a proper name, a creation whose entry of the right kind is there, or an update of a readable directory, and aborted otherwise; only a delete changes a directory, freeing the first entry in use under the name in its target; all other records stay. |
| Journal.ReplayIdempotent | src/journal.hpp:101-167 | Replaying twice equals replaying once, in the journal and in the directories. |
| Journal.ReplayValid | src/journal.hpp:115-124 | A record is valid after replay if and only if it was valid and not pending before. |
| Journal.CrashRecovery | src/journal.hpp:101-167 | Of the transactions a session's ring on the device still holds, replay settles exactly the pending ones and leaves the others as logged or committed. |
| Journal.RedoDelete | src/journal.hpp:202-224 | A delete frees the first entry in use under the name in the target directory if there is one, and touches nothing else. |
| Journal.RedoTwice | src/journal.hpp:170-262 | Redoing any operation again has the same outcome, and changes nothing more if and only if it is not a delete of a name shared by several entries in use. |
| Defrag.Defragmenter.GetChain | src/defrag.hpp:140-154 | On the flat table the loop returns the walk that WalkIsChain compares with the file's chain; it ends on any table with links in range, cyclic or not. |
| Defrag.WalkIsChain | src/defrag.hpp:140-154 | That walk is a prefix of the chain, and all of it if and only if the chain has at most 100,000 clusters. |
| Defrag.WalkFollows | src/defrag.hpp:140-154 | On any table with links in range the walk follows the links from the start and ends only at a link to 0, an end mark, a cluster linked to itself, or the limit. |
| Defrag.Defragmenter.CountFragments | src/defrag.hpp:179-184 | One fragment more for every cluster that does not follow the one before it. |
| Defrag.OneFragment | src/defrag.hpp:179-184 | One fragment if and only if every cluster follows the one before it. |
| Defrag.FragmentsCount | src/defrag.hpp:179-184 | The count is one plus the number of places where a cluster does not follow the one before it. |
| Defrag.Defragmenter.FindContiguousSpace | src/defrag.hpp:188-204 | The leftmost run of at least one and at least `needed` unlinked clusters from the data start on, reserved or not, or 0 if and only if there is none. |
| Defrag.RoomExact | src/defrag.hpp:188-204 | On a formatted layout and any table, the run found is clear of reserved clusters if and only if no run of n begins between the data start and the end of the root directory, and some run of n lies between there and the backup superblock. |
| Defrag.ReachedReservedFree | src/mount.cpp:453-525 | After any run of chain operations from a formatted volume the table holds every reserved cluster as unlinked if and only if no directory was grown behind one. |
| Defrag.FilesReservedFree | src/mount.cpp:3132-3178 | After any run of file operations without directory growth it does. |
| Defrag.MovedReservedFree | src/defrag.hpp:260-270 | A move onto a clear run keeps it so. |
| Defrag.GrownRootClear | src/mount.cpp:1403-1417 | Concretely: on 256 clusters, once the root directory has grown, the search for 22 clusters finds cluster 26, clear of the metadata. |
| Defrag.SmallFilesHitRegistry | src/defrag.hpp:188-204 | On any table the run found starts at the level registry if and only if n clusters from there on are unlinked, which for 1 to 22 they are while the reserved clusters are unlinked. |
| Defrag.RegistryOverwritten | src/defrag.hpp:216-337 | Concretely: on 256 clusters, after two creations and one extension, the file at 25 and 27 is moved onto clusters 3 and 4, the level registry, and is no chain the file system can follow. |
| Defrag.Defragmenter.MoveClusterChain | src/defrag.hpp:216-274 | For any clusters and any target in the volume: the bytes are copied in order, the entry points to the target, the target is linked, then the old clusters are unlinked, and nothing else changes; an empty chain changes nothing. |
| Defrag.Defragmenter.DefragFile | src/defrag.hpp:276-337 | On any table with links in range, cyclic chains included: skips exactly what is not a file, without clusters, protected, or in one fragment; a dry run changes nothing; reports no space only when no run exists; otherwise the clusters the walk sees are copied and linked on the leftmost run, one linked chain if and only if the run held none of them, and one the file system can follow if and only if it is also clear of reserved clusters, which RoomAbove decides beforehand. |
| Defrag.MovedIsChain | src/defrag.hpp:260-270 | After a move the run newStart, newStart + 1, ... counts as one fragment; it is one linked chain if and only if it held none of the old clusters, and a well-formed one if and only if none of it is reserved either. |
| Defrag.OthersKept | src/defrag.hpp:260-270 | Every other chain keeps its links, and the run overwrote none of its clusters. |
| Defrag.BytesKept | src/defrag.hpp:221-247 | The moved file reads the same bytes, for every size. |
| Defrag.FreeLinksConserved | src/defrag.hpp:260-270 | The number of unlinked clusters does not change. |
| Defrag.AllocatorFreeSet | src/defrag.hpp:131-138 | Because only the link is written, the allocator's free set loses the run and regains only those old usable clusters whose flags were clear. |
| Defrag.MoveLeaks | src/defrag.hpp:131-138 | Moving a chain made by the allocator gives nothing back to it, and costs it as many clusters as the chain has if and only if the run is clear of reserved clusters. |
| DefragTable.OwnEntryExact | src/defrag.hpp:123-138 | The defragmenter's lookup lands on the cluster's own entry, as the LIT has it, if and only if the cluster is one of the first 32 of its group and the group's number is the first sector of its LAB. |
| DefragTable.SmallVolumesMiss | src/defrag.hpp:123-138 | On a volume of at most 8 * labPoolStart groups it never does, and touches only the superblock's cluster and the LIT. |
| DefragTable.SixteenGroups | src/fs.cpp:620-626 | Every volume of up to 16 groups is such a volume. |
| DefragTable.AlwaysMetadata | src/defrag.hpp:123-138 | On any volume it touches only the superblock's cluster, the LIT or the LAB pool. |
| DefragTable.LinkWritten | src/defrag.hpp:131-138 | A written link reaches the cluster's own entry exactly when the lookup does, and is lost altogether for the last 224 clusters of a group. |
| Defrag.SecondPassSkips | src/defrag.hpp:276-296 | A second pass finds one fragment and skips the file. |
| ThreadPool.StepInv | src/utils/handler.hpp:60-109 | Every atomic step, notifications, sleeping and spurious wake-ups included, keeps each task in exactly one place, the active count right, workers in until stopped with an empty queue, and loses no wake-up. |
| ThreadPool.RunInv | src/utils/handler.hpp:60-109 | Under every interleaving each enqueued task is queued, in hand or done, exactly once; while a worker sleeps each queued task has a notification to come or an awake worker about to look, and a stop has its notify_all to come. |
| ThreadPool.JoinedAllDone | src/utils/handler.hpp:82-91 | Once all workers have returned every enqueued task has run exactly once, if and only if there was a worker or nothing was enqueued. |
| ThreadPool.ProductiveDecreases | src/utils/handler.hpp:63-78 | Every notification and every worker step other than falling asleep or waking spuriously brings the pool closer to rest; those two leave it as far. |
| ThreadPool.NoDeadlock | src/utils/handler.hpp:63-109 | While a task is queued or in hand, or a worker has not returned after the stop, some productive step can be taken even if every worker sleeps. |
| ThreadPool.QuietAllRun | src/utils/handler.hpp:60-91 | A pool with workers and no productive step left has run every enqueued task exactly once and, if stopped, all its workers have returned. |
| ThreadPool.PoolCompletes | src/utils/handler.hpp:60-109 | Once clients are done, any schedule makes a bounded number of productive steps, and when none is left every enqueued task has run exactly once and, after a stop, the join can return. |
| IndexRanges.ChunkRange | src/utils/handler.hpp:305-322 | The chunks visit each index of the range exactly once, in order, none empty, at most one a worker; a reversed range gives none. |
| ParallelImport.RunImportInv | src/mount.cpp:3566-3585 | At every moment of every interleaving each sector holds its new bytes if its task has got there, else its old ones. |
| ParallelImport.ScheduleIndependent | src/mount.cpp:3566-3585 | However many workers and however they interleave, once every future is ready the device is the same. |
| ParallelImport.ImportCompletes | src/mount.cpp:3578-3585 | Every schedule that enqueues all tasks and runs until no productive step is left makes every future ready. |
| ParallelImport.ImportedClusters | src/mount.cpp:3552-3570 | The chain's clusters hold the import's buffers, all others their old bytes. |
| ParallelImport.ImportReadBack | src/mount.cpp:3552-3585 | Reading the chain after any schedule gives the file, and no cluster outside the chain changed. |
| ParallelImport.ImportWorks | src/mount.cpp:3518-3585 | The whole import of a file whose further clusters are at most the free counter, pre-allocation and parallel writes under any schedule: the entry reads back the file, the counters are right as above, and only its first cluster and formerly free ones changed. |
| Locks.OverlapIsSharing | src/concurrent.hpp:49-53 | Non-empty ranges that do not wrap overlap if and only if they share a byte. |
| Locks.SelfOverlap | src/concurrent.hpp:49-53 | A range excludes a second owner from itself if and only if it is non-empty and does not reach 2^64. |
| Locks.AcquireExact | src/concurrent.hpp:141-179 | A request is granted exactly when the locks stay compatible with it. |
| Locks.AcquireFrame | src/concurrent.hpp:141-219 | A grant appends the lock and keeps the file's other locks and all other files'; a refusal changes nothing, and is invalid exactly for a request of no lock. |
| Locks.ReleaseExact | src/concurrent.hpp:221-261 | A release succeeds exactly when the owner holds a lock on the file (on exactly that range), removes the first of them, and drops the file's list when that was the last. |
| Locks.ReleaseFrame | src/concurrent.hpp:221-261 | A release touches no other file, and an unsuccessful one touches nothing. |
| Locks.WithoutExact | src/concurrent.hpp:263-283 | Release-all removes the owner's locks and no others. |
| Locks.ReleaseAllExact | src/concurrent.hpp:263-283 | On every file it leaves every other owner's locks, as many times as they were there, and none of the owner's. |
| Locks.RunKeepsExclusion | src/concurrent.hpp:141-283 | Over every run an exclusive lock never coexists with another owner's lock on the same file or on an overlapping range. |
| Locks.TablesIndependent | src/concurrent.hpp:141-219 | For any owners and tables: unless a file lock stands in the way of one and a range lock in the way of the other, both are granted, exclusively and at once. |
| Locks.CanWriteExact | src/concurrent.hpp:295-306 | Under mutual exclusion the early-return scan says yes if and only if nobody else holds a lock. |
| Locks.CanReadExact | src/concurrent.hpp:308-319 | Under mutual exclusion the scan says yes if and only if nobody else holds an exclusive lock. |
| Locks.FileLockManager.HasConflict | src/concurrent.hpp:87-111 | Both conflict loops decide whether some held lock stands in the way. |
| Locks.FileLockManager.AcquireFileLock | src/concurrent.hpp:141-179 | Status and new table of a file request; the range locks stay and mutual exclusion is kept. |
| Locks.FileLockManager.AcquireRangeLock | src/concurrent.hpp:181-219 | The same for a byte range; the file locks stay. |
| Locks.FileLockManager.ReleaseFileLock | src/concurrent.hpp:221-239 | Result and new table of a release; mutual exclusion is kept. |
| Locks.FileLockManager.ReleaseRangeLock | src/concurrent.hpp:241-261 | The same for a byte range, matched exactly. |
| Locks.FileLockManager.ReleaseAllLocks | src/concurrent.hpp:263-283 | Both tables without the owner's locks. |
| Locks.FileLockManager.CanWrite | src/concurrent.hpp:295-306 | Yes if and only if every lock on the file is the requester's. |
| Locks.FileLockManager.CanRead | src/concurrent.hpp:308-319 | Yes if and only if no other owner holds the file exclusively. |
| StreamBuf.ChunkIndependent | src/lstream.cpp:17-44 | However a text is cut into writes, the stream ends up the same. |
| StreamBuf.SplitIsExact | src/lstream.cpp:31-43 | Complete lines and pending part are the split of a text at its newlines. |
| StreamBuf.FeedMeaning | src/lstream.cpp:17-83 | After any text, whatever the switches: the buffer is the part after the last newline, the history (if on) the last maxHistory lines of the old and the new ones, the console (if on) has got the complete lines. |
| StreamBuf.FlushExact | src/lstream.cpp:50-104 | A flush empties the buffer, emits it if the console is on, and touches nothing else. |
| StreamBuf.BoundExact | src/lstream.cpp:131-137 | A new bound keeps the last lines up to it, in order. |
| StreamBuf.NothingLost | src/lstream.cpp:17-137 | With flushes and history changes mixed in, output followed by buffer is everything written, and the history keeps its bound. |
| StreamBuf.FlushedRun | src/lstream.cpp:17-137 | A run that ends in a flush has emitted everything that was written, and its buffer is empty. |
| StreamBuf.LStreamBuf.Write | src/lstream.cpp:27-44 | The block write equals writing its characters one by one. |
| StreamBuf.LStreamBuf.WriteChar | src/lstream.cpp:17-25 | A newline ends the line, any other character extends the buffer. |
| StreamBuf.LStreamBuf.FlushBuffer | src/lstream.cpp:50-55 | The partial line is emitted and the buffer emptied; the history stays. |
| StreamBuf.LStreamBuf.SetHistoryBound | src/lstream.cpp:131-137 | The history becomes its last max lines. |
| Paths.SplitJoin | src/fs_context.hpp:134-159 | Splitting undoes joining on valid components. |
| Paths.SplitAppend | src/fs_context.hpp:134-146 | A slash between two strings separates their components. |
| Paths.NormalizeIdempotent | src/fs_context.hpp:161-176 | Normalising twice is normalising once. |
| Paths.ParentExact | src/fs_context.hpp:161-176 | A ".." removes the component before it and does nothing at the root. |
| Paths.ThereAndBack | src/fs_context.hpp:161-176 | A further component is appended, and going back by ".." restores the components. |
| Paths.NormalForm | src/fs_context.hpp:148-176 | A normal path is "/" alone or names its components in order, each behind a "/". |
| Paths.ContainsIsStrictPrefix | src/fs_context.hpp:252-262 | On strings, containment holds if and only if the parent's normalised components are a strict prefix of the child's. |
| Paths.ContainsIsStrictOrder | src/fs_context.hpp:252-262 | Containment is irreflexive, transitive and asymmetric. |
| Paths.SplitPath | src/fs_context.hpp:134-146 | The loop yields the non-empty components other than ".". |
| Paths.JoinPath | src/fs_context.hpp:148-159 | The loop yields the joined string of the specification, "/" for no component. |
| Paths.NormalizePath | src/fs_context.hpp:161-176 | The loop yields the joined components with ".." resolved. |
| Paths.PathContains | src/fs_context.hpp:252-262 | The string test answers yes if and only if the parent's components are a strict prefix of the child's. |
| PrcFile.RoundTrip | src/scheduler.hpp:60-110 | Printing then parsing gives the definition back if and only if no field has a newline, the name no ']', path and arguments no quote, and no argument is empty. |
| PrcFile.ParsePrintable | src/scheduler.hpp:60-92 | Whatever the text, what parsing produces can be printed and parsed again. |
| PrcFile.ParseStable | src/scheduler.hpp:60-110 | Parsing any text, printing and parsing again changes nothing more. |
| PrcFile.PaddedLine | src/scheduler.hpp:66-68 | Blanks around a line, tabs and a carriage return included, do not matter. |
| PrcFile.FlagExact | src/scheduler.hpp:83-88 | The reboot flag is set by exactly the words true, 1 and yes, with or without a semicolon. |
| PrcFile.UnquotedPath | src/scheduler.hpp:125-131 | A path without quotes is taken as it stands, a final semicolon included; one whose quote is not closed runs to the end of the line. |
| PrcFile.StartupRoundTrip | src/scheduler.hpp:428-464 | Splitting printed blocks at "." lines recovers in order the definitions with a path. |
| PrcFile.TrailingBlock | src/scheduler.hpp:457-463 | Lines after the last dot are a block of their own, and start its process if it has a path. |
| PrcFile.ParseContent | src/scheduler.hpp:60-92 | The line loop computes the parse of the specification. |
| PrcFile.ParseArgsList | src/scheduler.hpp:133-168 | The quote-tracking loop computes the argument scan of the specification. |
| PrcFile.TrimSpaces | src/scheduler.hpp:113-118 | The two index loops compute the trim of the specification. |
| PrcFile.SerializeDefinition | src/scheduler.hpp:94-110 | The printing loop yields the printed block of the specification. |
| PrcFile.LoadStartupProcesses | src/scheduler.hpp:438-463 | The block loop starts the definitions of the specification, in order. |

## Left out

- Persistence of the superblock, its backup, magic and version: the counters are fields only.
- Integer width: the superblock's counters, transaction numbers and sector numbers are unbounded here; wrap-around at 2^64 (2^32 for allocatedCount) is modelled for byte ranges and the checksum only.
- I/O failures, multi-sector transfers (they bypass the cache) and devices other than an open image; the cache's callback is always connected.
- Volumes.Volume.Format: writes no superblock, registry, journal or root directory contents, and the image must be large enough for its own metadata.
- Volumes.Volume.UpdateLITAllocatedCount: an access past the 4096-byte buffer (slot 170 and up) changes nothing here, which the language does not promise.
- Volumes.Volume.WriteFileData: directory lookup, the entry's fields, the journal calls and the refusal of empty content around the loop are not part of it; links must be in range and only usable clusters visited, since elsewhere the loop would write data over metadata.
- Volumes.Volume works on an array of clusters; that the cache in between is invisible is proved separately for sectors.
- Truncation and re-import keep the old tail allocated, as the code does; reachability of free space is therefore not claimed, only the count of free entries.
- Name lookup: `write` and `readFileContent` look names up differently, so read-back is stated over the start cluster and size of the entry.
- Volumes.Volume.ReadFileData: how the records of metadata clusters are packed into bytes is a parameter.
- Volumes.Volume.SetLABEntry: its cluster is inside the volume, as every caller's is; outside it the code would address past the table.
- Volumes.Volume.SetLATEntry: the same.
- Volumes.Volume.FreeClusterAt: the same.
- FileRuns.NewFile: a file that meets a full disk at its first cluster leaves no entry.
- SectorCache: the disable, clear and mark-clean operations inside a run, range invalidation, statistics, and the cluster-level cache; each drops data or adds none of it.
- SectorCache.DiskDevice.PutSector: callers hand in a written sector or a clean copy of the device, as the device's two methods do.
- Journal.JournalDevice.LogOperation: the eight bytes of a sector behind its seven records, and wrap-around of transaction numbers.
- Journal: `clearOldEntries`, which zeroes old committed records.
- Journal.RedoDelete: directories are maps from readable clusters to slots outside the journal; what an unreadable directory buffer contains is not modelled.
- Defrag.Defragmenter.GetChain: links are in range; what an entry outside the table would read as is not modelled.
- Defrag.Defragmenter.DefragFile: works on the flat table with links in range; the verification reads and failed transfers are not modelled.
- DefragTable: what the buffer beyond the sector that was read contains.
- ChainStore.CountExactIff: on volumes of more than 512 groups, a slot from 170 on that was given its LAB only after clusters of the group it counts had been allocated; its count then depends on the order of operations and is only bounded.
- Defrag: hard links to a moved file keep the old start cluster in the code; no directory tree is modelled.
- ThreadPool: futures, exceptions of tasks and the refusal to enqueue after the stop (that step is simply not enabled); fairness between sleeping and waking.
- IndexRanges.ChunkRange: needs at least one worker, because the code divides by their number.
- ParallelImport: reading the host file, progress and the journal calls around the import.
- Locks: owners are parameters where the code uses the process id; time spent waiting, names and acquisition times of locks, and the system mutex.
- StreamBuf: callbacks, the mirror file and the input side.
- PrcFile: an empty `onReboot:` value, whose last character the code reads without a check, counts as having no semicolon; starting the processes is the list returned.
- Windows handles, partitions, drive letters, process creation, the shell, printing and editors.
- Permissions, timestamps, levels and their registry, hard-link counts, directory search: single-branch facts or no consistent intended invariant.
