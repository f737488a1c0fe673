# A verified model of nanostore

nanostore is an embedded storage engine written in Rust. This project models the parts of it that carry
its guarantees and proves, for all inputs, all runs and all reachable states, what they promise:

- **The pager** (`Pager.dfy`, `PagerRun.dfy` over `Allocator.dfy`, `PageMapper.dfy`, `FreeList.dfy`,
  `Superblock.dfy`, `Page.dfy`). Virtual page ids over a file of page slots, an allocator that recycles
  physical pages, and an optional sharded cache in write-back or write-through mode. Every run of
  allocate, free, read, write, flush and clear answers exactly as a plain map from live ids to contents,
  and in every state the physical pages split exactly into pages of live ids and the free queue. The page,
  superblock and mapping formats are decided on every byte string.
- **The cache** (`Cache.dfy` over `Lru.dfy`). A doubly linked list threaded through a hash map by page
  ids, proved equal to a sequence in recency order; over whole runs the entry pushed out is the least
  recently used one and leaves only a full shard, no dirty page is lost, and the counters are what they claim
  to be.
- **Overflow chains** (`Overflow.dfy`, `OverflowStream.dfy`). Values of any length in linked pages, with a
  whole-value reader, an incremental stream and a freeing walk.
- **Versions and snapshots** (`VersionChain.dfy`, `Mvcc.dfy`, `MvccHistory.dfy`, `SnapshotRegistry.dfy`,
  `ConflictDetector.dfy`). Write locks, the commit in its separate steps, version chains, snapshots between
  their two reads and vacuums in flight, as one machine over its interleaved steps; and what snapshots read, in
  terms of the writes and commits of the run alone.
- **Deadlock detection** (`DeadlockDetector.dfy`). The depth-first search over the wait-for graph.
- **Group commit** (`GroupCommit.dfy`). Submitters, the worker and the closing thread, interleaved, as a
  machine and as the objects they share.
- **The lock hierarchy** (`LockOrder.dfy`). Threads with lock stacks.

Objects whose methods update fields are classes with the same fields; each method is proved against a
function of the old state, and the properties of whole runs are proved about those functions. Concurrent
protocols are state machines over their atomic steps. Hashes, compressors and ciphers are fields of a
`Library` value of which only the interface is known: digests have their width, and decoding undoes
encoding. The random nonce, elapsed time, the result of a flush and the iteration order of hash maps are
parameters or are left open.

Where the code does not do what its documentation says, the code is modelled, and the exact condition
under which both agree is proved:

- A named snapshot is documented to give consistent reads. Two things can take away what it finds. A
  commit record takes its transaction off the active list before its versions are stamped; and a vacuum
  looks at the registry, reads the published LSN and sweeps the tables one after the other with nothing
  locked in between. A snapshot is stable if and only if no commit at or below its LSN is unfinished and no
  vacuum in flight endangers anything it finds, by having found the registry empty or by a watermark above a
  later commit on the same key (`Mvcc.SnapshotIsStableIff`). Both races are reachable (`Mvcc.RaceIsReachable`,
  `Mvcc.VacuumRaceIsReachable`), the second even with one commit at a time; then a snapshot taken while no
  vacuum is in flight is stable (`Mvcc.SerialSnapshotIsStableIff`). With no commit at or below its LSN
  unfinished a snapshot never finds a wrong version: what it finds is the last committed write, and it finds
  nothing if and only if there is none or a sweep has left only newer ones (`MvccHistory.SnapshotReadsLastWrite`).
  The LSN it reads is the last one published, which can be lower than an earlier one
  (`MvccHistory.PublishedLsnCanFall`).
- Vacuum is documented to drop all but the newest version below the watermark. It does if and only if
  those versions are contiguous in the chain (`VersionChains.VacuumIsAsDocumentedIff`), which every chain
  of the machine satisfies. The references it returns for freeing are not those of the dropped versions:
  the base's comes in and the oldest one's is left out (`VersionChains.FreedRefsAreRightIff`).
- An overflow page stores the id of its successor in 32 bits. The pages of a value form its chain if and
  only if the value fits one page or every id is below 2^32 (`Overflow.AllocateOverflowChain`,
  `Overflow.WrittenIsChainIff`).
- `free_value_ref` is documented to return the number of pages freed; for a chain it returns the count in
  the reference, which is that number if and only if the count is right (`Overflow.FreeValueRef`).
- `snapshot_free_pages` says it restores the order of the queue. It reverses it, which makes no
  difference if and only if there is at most one page (`FreeLists.SnapshotKeepsOrderIff`).
- The superblock holds the page mapping inline only up to 15 entries; with more the identity comes back
  (`Superblocks.SuperblockRoundTripIff`).
- The lock hierarchy is documented to prevent deadlocks. It confines every circular wait to one lock type
  (`LockOrder.CircularWaitIsOnOneLevel`), and a deadlock on a type is reachable if and only if threads may
  ask for a second lock of that type (`LockOrder.DeadlockIsReachableIff`).
- The `dirty_pages` counter misses a clean resident page that is put again as dirty, as the pager's own
  write-back does (`Lru.PutAgainIsMissed`). It is right all through a run if and only if the run has no such
  put (`Lru.CounterIsExactIff`).
- Page types 14 and 15 can be written and not read back (`Pages.PageRoundTripIff`).

## Model

| member | source | states |
|---|---|---|
| `PagerRuns.Run` | src/pager/pagefile.rs:269-741 | for every sequence of allocate, free, read, write, flush and clear on live ids, with any cache capacity or none and in either write mode, the answers and the final contents are those of a plain map from ids to contents |
| `PagerRuns.Perform` | src/pager/pagefile.rs:269-741 | each single operation changes the map of contents, the id counter and the answer as the map does |
| `PagerRuns.ReadsSeeTheLastWrite` | src/pager/pagefile.rs:512-663 | in every run a live id holds what was last written under it, or the empty page of its allocation |
| `PagerRuns.IdsAreIssuedOnce` | src/pager/page_mapper.rs:95-101 | no two allocations of a run answer with the same id |
| `PagerRuns.FreedIdsStayDead` | src/pager/pagefile.rs:384-502 | an id that was issued and is not live stays dead for the rest of the run |
| `PagerRuns.PagesAreAccountedFor` | src/pager/pagefile.rs:269-502 | in every state total pages = next page id = 2 + live + free, every page from 2 up is either free or backs a live id and never both, translation is injective on live ids, and both free counters agree with the queue |
| `PagerRuns.LiveIdOf` | src/pager/page_mapper.rs:163-182 | in every pager state the reverse lookup of a page in use is exactly its one live id |
| `PagerRuns.RebuildMapping` | src/pager/page_mapper.rs:260-288 | in every pager state, rebuilding from the headers of the live pages in any order finds every live page and next issues an id above them all |
| `Pagers.Pager.constructor` | src/pager/pagefile.rs:64-139 | a new file is empty, consistent and holds its superblock, with 2 pages there and 3 in the file header |
| `Pagers.Pager.AllocatePage` | src/pager/pagefile.rs:269-373 | the new id was never issued, is backed by the page that has been free for longest or by a new one, holds an empty page of its type whose slot carries the id, and no other live page changes; header and superblock counters are written |
| `Pagers.Pager.TakePhysical` | src/pager/pagefile.rs:276-294 | a page comes from the front of the free queue, or from the end of the file if that is empty; partition and counters are kept |
| `Pagers.Pager.FreePage` | src/pager/pagefile.rs:384-502 | a live id disappears, its page joins the end of the free queue and nothing else changes, although its cache entry stays; reserved ids are refused; an id that is not live is refused exactly when the page of that number backs nobody, as already free if it is queued, and otherwise destroys its owner's contents |
| `Pagers.Pager.ReadPage` | src/pager/pagefile.rs:512-604 | a live id reads as its contents; a page beyond the file is refused; any other id reads what the cache still has under it, or else the contents of the live id that owns the page of that number, or a free page. For every id: a cached page is handed out as it is, and a page from the file is the stored one with exactly its virtual id set to the id asked for, and is cached; nothing visible changes |
| `Pagers.Pager.WritePage` | src/pager/pagefile.rs:613-663 | in both write modes and without a cache exactly this id's contents change, nothing is left dirty, and a cache holds the page |
| `Pagers.Pager.WriteBack` | src/pager/pagefile.rs:622-638 | cache first, then disk, then the flag: the same contract, although the put may push out another page |
| `Pagers.Pager.WriteThrough` | src/pager/pagefile.rs:639-649 | disk first, then the cache: the same contract, whatever the cache held before |
| `Pagers.Pager.WritePageToDisk` | src/pager/pagefile.rs:671-690 | only the slot of the id changes and then reads back as the page; an encoding error leaves the file alone |
| `Pagers.Pager.CachePut` | src/pager/pagefile.rs:579-586 | a put keeps file, cache and contents coherent because the dirty page it pushes out is written to its own slot |
| `Pagers.Pager.FlushCache` | src/pager/pagefile.rs:694-716 | from any coherent state, even one with dirty pages, all live contents are on disk, nothing is dirty, the cache keeps all its pages and nothing visible changed |
| `Pagers.Pager.ClearCache` | src/pager/pagefile.rs:732-741 | from any coherent state the cache ends up empty and no contents are lost |
| `Pagers.StoreKeepsCoherence` | src/pager/pagefile.rs:671-690 | writing one slot keeps every other live page readable where it is, in the cache or on disk |
| `Pagers.IssueKeepsCoherence` | src/pager/pagefile.rs:269-373 | a new id can reuse a freed page whose old id is still cached, because ids are never reused |
| `Pagers.FreeKeepsCoherence` | src/pager/pagefile.rs:384-502 | freeing without touching the cache leaves only a clean stale entry for a dead id |
| `Pagers.EmptySlot` | src/pager/pagefile.rs:412-423 | a slot nobody wrote to never reads as a page in use |
| `Pagers.SlotIsChecked` | src/pager/pagefile.rs:561-565 | with checksums on, a slot is read as a page only if its digest is right, and a well-formed one is refused for its digest if and only if that is wrong |
| `Allocator.ReuseKeepsPartition` | src/pager/pagefile.rs:273-297 | recycling the front of the free queue keeps the exact split of the file |
| `Allocator.GrowKeepsPartition` | src/pager/pagefile.rs:273-297 | growing the file keeps the exact split of the file |
| `Allocator.FreeKeepsPartition` | src/pager/pagefile.rs:384-502 | freeing keeps the exact split of the file |
| `Allocator.ReverseLookupIsExact` | src/pager/page_mapper.rs:163-182 | under the partition a page in use belongs to one id, identity mappings included |
| `Allocator.RebuiltAgrees` | src/pager/page_mapper.rs:260-288 | under the partition a rebuilt mapping agrees on every live id |
| `Overflow.AllocateOverflowChain` | src/pager/pagefile.rs:968-1009 | a value takes exactly ceil(length / chunk) new consecutive ids, nothing else changes, no page is empty, their data joined is the value, and they form a chain if and only if there is one page or all ids are below 2^32 |
| `Overflow.WriteOverflowPage` | src/pager/pagefile.rs:886-923 | the page becomes header, checksum and data with the low 32 bits of the successor; nothing else changes |
| `Overflow.ReadOverflowChain` | src/pager/pagefile.rs:1015-1078 | on every walk that ends, the result is the data of the visited pages in order, or the error of the page that fails its checks; it is Ok if and only if every page visited is intact by its bytes; nothing visible changes |
| `Overflow.FreeOverflowChain` | src/pager/pagefile.rs:1084-1127 | exactly the visited pages go, each to the end of the free queue in order; a page that fails its check stops the walk and stays |
| `Overflow.FreeValueRef` | src/pager/pagefile.rs:1141-1166 | nothing, one page or the pages of a walk are freed; a walk that fails keeps its last page; the returned count is the number of ids lost if and only if the reference's count is right |
| `Overflow.ChunkRoundTrip` | src/pager/pagefile.rs:886-923 | a written overflow page passes the reader's checks and yields its data and the cut pointer; its reserved bytes are zero |
| `Overflow.ReadChunkIff` | src/pager/pagefile.rs:1029-1059 | for every page: it is accepted if and only if it is an overflow page with the magic bytes, a length that fits and the checksum of its data at offset 12; data and pointer come from fixed offsets, and each refusal has its name |
| `Overflow.WrittenIsChainIff` | src/pager/pagefile.rs:990-1004 | the written pages read as the value; they are linked into one chain if and only if every stored id fits 32 bits |
| `Overflow.WrappedPointerCutsTheValue` | src/pager/pagefile.rs:900-904 | if a stored id is a multiple of 2^32 the chain ends there and reads as a strict prefix of the value |
| `Overflow.WalkIsDistinct` | src/pager/pagefile.rs:1026-1072 | a walk that ends visits no page twice |
| `Overflow.ChainSurvivesRun` | src/pager/pagefile.rs:1015-1078 | a chain reads the same after every run that neither writes nor frees its own pages |
| `Overflow.ChainIsFreeable` | src/pager/pagefile.rs:1084-1127 | a chain that can be read can be freed from first page to last |
| `Overflow.FreeUndoesAllocate` | src/pager/pagefile.rs:968-1127 | freeing what an allocation added restores the old contents exactly |
| `Overflow.LostPages` | src/pager/pagefile.rs:1084-1166 | a walk over n pages accounts for exactly n live ids |
| `Overflow.RoundTrip` | src/pager/pagefile.rs:968-1127 | a value is stored, any operations that are legal without it follow, it is read back unchanged and freed: the operations answer, and the contents end up, as if it had never been there |
| `Overflow.RunBeside` | src/pager/pagefile.rs:968-1127 | a run that is legal without a chain is legal beside it, answers the same and leaves it alone |
| `OverflowStream.OverflowChainStream.constructor` | src/pager/overflow_stream.rs:44-53 | on a readable chain without empty pages a new stream stands for the data of the whole chain |
| `OverflowStream.OverflowChainStream.LoadNextPage` | src/pager/overflow_stream.rs:56-111 | the same checks as the whole reader: Ok if and only if the page is intact by its bytes, and then the buffer is the data behind the header; on an error nothing of the stream changes |
| `OverflowStream.OverflowChainStream.Read` | src/pager/overflow_stream.rs:115-152 | exactly min(buffer length, what is left) bytes: the next ones of the value, in order, and no other byte of the buffer is touched |
| `OverflowStream.ReadMany` | src/pager/overflow_stream.rs:115-152 | reads with any buffer sizes return the successive cuts of the value |
| `OverflowStream.OutputsJoin` | src/pager/overflow_stream.rs:115-152 | for every sequence of buffers the outputs concatenate to the front of the value |
| `OverflowStream.NothingOnlyAtTheEnd` | src/pager/overflow_stream.rs:115-152 | a read into a buffer that is not empty returns nothing if and only if the value is used up |
| `OverflowStream.Drain` | src/pager/overflow_stream.rs:115-152 | reading until nothing comes gives the whole value, cut at the total length |
| `PageCaches.CacheShard.MoveToFront` | src/pager/cache.rs:445-493 | the links after the update are the recency sequence with the id moved to its front |
| `PageCaches.CacheShard.Unlink` | src/pager/cache.rs:508-538 | the links after the removal are the sequence without the id |
| `PageCaches.CacheShard.RemoveEntry` | src/pager/cache.rs:508-538 | the entry goes and is handed back if it was dirty; a missing id changes nothing; counters follow |
| `PageCaches.CacheShard.EvictLru` | src/pager/cache.rs:498-503 | the last id of the sequence goes and is counted |
| `PageCaches.CacheShard.Get` | src/pager/cache.rs:196-218 | a hit returns the page and makes it the most recent |
| `PageCaches.CacheShard.Put` | src/pager/cache.rs:224-285 | the shard is the reference shard after an insertion, in contents, order, result and counters |
| `PageCaches.CacheShard.MarkDirty` | src/pager/cache.rs:297-310 | only the flag and its counter change |
| `PageCaches.CacheShard.MarkClean` | src/pager/cache.rs:315-331 | only the flag and its counters change |
| `PageCaches.CacheShard.DirtyPages` | src/pager/cache.rs:343-356 | all dirty pages, each once, whatever the order of the hash map |
| `PageCaches.CacheShard.Clear` | src/pager/cache.rs:370-393 | the shard is empty and every dirty page is handed back once |
| `PageCaches.Perform` | src/pager/cache.rs:196-393 | each operation on the linked list in the hash map is the operation on the reference shard, counters included |
| `PageCaches.RunShard` | src/pager/cache.rs:196-393 | every sequence of operations on a new shard ends in the reference run, with `dirty_pages` and `current_size` those of the run and hits, misses, evictions and flushes the numbers of those events |
| `PageCaches.DetachedIsLinked` | src/pager/cache.rs:508-538 | joining the neighbours of an entry leaves one doubly linked list over the other ids in their old order |
| `PageCaches.AttachedIsLinked` | src/pager/cache.rs:445-493 | linking a new entry before the head gives one doubly linked list with it in front |
| `PageCaches.PageCache.constructor` | src/pager/cache.rs:162-182 | 32 distinct empty shards with the rounded-up share of the capacity |
| `PageCaches.PageCache.Get` | src/pager/cache.rs:196-218 | returns what the cache holds for the id and changes no contents |
| `PageCaches.PageCache.Put` | src/pager/cache.rs:224-285 | only the new page and at most one other id of its shard are touched; one is pushed out if and only if the id is new and the shard is full; a dirty one is handed back; a resident dirty page stays dirty |
| `PageCaches.PageCache.MarkDirty` | src/pager/cache.rs:297-310 | changes the flag of a resident id and nothing else |
| `PageCaches.PageCache.MarkClean` | src/pager/cache.rs:315-331 | changes the flag of a resident id and nothing else |
| `PageCaches.PageCache.Remove` | src/pager/cache.rs:361-365 | exactly this id leaves, handed back if dirty |
| `PageCaches.PageCache.GetDirtyPages` | src/pager/cache.rs:343-356 | all dirty pages over all shards, each once |
| `PageCaches.PageCache.Clear` | src/pager/cache.rs:370-393 | nothing stays resident and every dirty page is handed back once |
| `PageCaches.PageCache.Size` | src/pager/cache.rs:425-430 | the number of entries, at most 32 times the share of a shard |
| `Lru.OrderIsRecency` | src/pager/cache.rs:196-285 | in every run the order lists the resident ids by their last use |
| `Lru.VictimIsLeastRecentlyUsed` | src/pager/cache.rs:498-503 | in every run the id pushed out is the one whose last use lies furthest back |
| `Lru.SizeBound` | src/pager/cache.rs:224-285 | in every run a shard holds at most its capacity, and one page if that is 0 |
| `Lru.EvictsExactlyWhenFull` | src/pager/cache.rs:224-285 | in every run a put pushes an entry out if and only if its id is new and the shard is at its limit |
| `Lru.ResidentIsLastPut` | src/pager/cache.rs:196-393 | in every run a resident page is the one put last under its id, and the id was not removed since |
| `Lru.DirtyIsNeverLost` | src/pager/cache.rs:224-393 | a dirty page stays dirty until it is handed back or marked clean |
| `Lru.CounterIsLowerBound` | src/pager/cache.rs:224-331 | in every run the dirty counter is at most the number of dirty pages |
| `Lru.CounterStep` | src/pager/cache.rs:224-331 | from a state where the counter is right, an operation leaves it right if and only if it is not the put of a clean resident page as dirty |
| `Lru.CounterIsExactIff` | src/pager/cache.rs:224-331 | the counter is right after every operation of a run if and only if the run never puts a clean resident page again as dirty |
| `Lru.PutAgainIsMissed` | src/pager/pagefile.rs:625-633 | a page that was read in and is written back is dirty and not counted |
| `PageMappers.PageMapper.AllocateVirtual` | src/pager/page_mapper.rs:95-101 | issues the counter and moves it up |
| `PageMappers.PageMapper.Remap` | src/pager/page_mapper.rs:108-117 | the id translates to the page, stored or not, and no other id moves |
| `PageMappers.PageMapper.Unmap` | src/pager/page_mapper.rs:123-127 | the id falls back to the identity and no other id moves |
| `PageMappers.PageMapper.FindVirtualPagesForPhysical` | src/pager/page_mapper.rs:163-182 | exactly the ids mapped to the page, or its own number if nothing says otherwise, each once |
| `PageMappers.PageMapper.ToBytes` | src/pager/page_mapper.rs:190-208 | for any iteration order the output decodes to the mapping |
| `PageMappers.PageMapper.FromBytes` | src/pager/page_mapper.rs:211-247 | the loop computes the recursive decoder, errors included |
| `PageMappers.MappingRoundTrip` | src/pager/page_mapper.rs:190-247 | decoding restores the mapping for any iteration order and any bytes behind it |
| `PageMappers.DecodeMappingIff` | src/pager/page_mapper.rs:211-247 | every byte string is a mapping if and only if the count at offset 8 fits it; of several records for one id the last decides |
| `PageMappers.PageMapper.RebuildFromHeaders` | src/pager/page_mapper.rs:260-288 | with no virtual id claimed twice every pair is found again, nothing else is mapped, and the next id is just above the largest; of several pages that claim an id the last that is not the page of that number decides |
| `FreeLists.FreeList.PushPage` | src/pager/freelist.rs:226-231 | joins the end of the queue; the counter agrees |
| `FreeLists.FreeList.PopPage` | src/pager/freelist.rs:234-247 | takes the front of the queue; list metadata is reset with the last page |
| `FreeLists.FreeList.SnapshotFreePages` | src/pager/freelist.rs:277-291 | returns the queue and leaves it reversed |
| `FreeLists.SnapshotKeepsOrderIff` | src/pager/freelist.rs:277-291 | the order is kept if and only if there is at most one page |
| `FreeLists.TwoSnapshotsCancel` | src/pager/freelist.rs:277-291 | two snapshots restore the order |
| `Superblocks.Superblock.AllocateNewPage` | src/pager/superblock.rs:280-286 | hands out the next page number and grows both counters |
| `Superblocks.Superblock.MarkPageFreed` | src/pager/superblock.rs:289-291 | counts one more free page |
| `Superblocks.Superblock.MarkPageAllocated` | src/pager/superblock.rs:294-298 | counts one less, stopping at 0 |
| `Superblocks.SuperblockRoundTripIff` | src/pager/superblock.rs:142-264 | counters are always restored; the mapping if and only if it is stored inline or fresh, for any iteration order |
| `Superblocks.SixteenMappingsAreLost` | src/pager/superblock.rs:142-264 | with 16 or more mappings the identity mapping comes back |
| `Superblocks.DecodeIff` | src/pager/superblock.rs:177-264 | every byte string: accepted if and only if the magic bytes and version 1 or 2 are there and an inline mapping decodes; every counter at its offset; version 1 has no mapping |
| `Pages.HeaderRoundTripIff` | src/pager/page.rs:199-270 | a header is restored if and only if its page type is one the decoder knows |
| `Pages.StoredRoundTrip` | src/pager/page.rs:316-543 | unpacking undoes compression and encryption |
| `Pages.EncodedLength` | src/pager/page.rs:395-399 | the output is max(page size, stored length + 64) bytes long |
| `Pages.PageRoundTripIff` | src/pager/page.rs:316-543 | every page of decodable type passes verification and comes back with its sizes filled in; other types are refused |
| `Pages.DecodeIsExact` | src/pager/page.rs:415-543 | for every byte string: what is not well-formed is refused by name; with verification on, ChecksumMismatch is returned if and only if the last 32 bytes are not the hash of header, length and stored data, and a right digest makes verification invisible; without it the page is the stored data unpacked if it has the length the header names |
| `Pages.EncodeIsExact` | src/pager/page.rs:316-412 | what is written, byte by byte: header, packed data, zeros and the hash; each error by name |
| `Pages.ParsedHeaderIs` | src/pager/page.rs:199-270 | 32 bytes are a header if and only if their three codes are known, and every field is at its offset |
| `Pages.TypeCodes` | src/pager/page.rs:57-143 | page types and their codes; a code is read back unless it is 14 or 15 |
| `Pages.OverflowHeaderRoundTrip` | src/pager/page.rs:609-658 | an overflow header is restored whatever data follows it |
| `Deadlock.DeadlockDetector.AddWait` | src/txn/conflict.rs:155-157 | adds exactly one edge |
| `Deadlock.DeadlockDetector.RemoveWait` | src/txn/conflict.rs:163-165 | removes exactly the edges out of the waiter |
| `Deadlock.DeadlockDetector.DetectCycle` | src/txn/conflict.rs:171-190 | for every graph and every key order: Some is a simple cycle, and None is returned if and only if there is no closed walk at all |
| `Deadlock.DeadlockDetector.DfsDetectCycle` | src/txn/conflict.rs:193-225 | terminates, and finishes its node with a topological order of everything finished, or returns a simple cycle |
| `Deadlock.Position` | src/txn/conflict.rs:212-217 | the lookup on the path never fails and gives the first occurrence |
| `Deadlock.TopologicalIsAcyclic` | src/txn/conflict.rs:171-190 | finished nodes in topological order leave no closed walk |
| `Deadlock.BackEdgeCloses` | src/txn/conflict.rs:212-217 | the path from a back edge's target on is a simple cycle |
| `Deadlock.CycleIsClosedWalk` | src/txn/conflict.rs:171-190 | a reported cycle really contradicts acyclicity |
| `Deadlock.NewWaitIsOnEveryCycle` | src/txn/conflict.rs:155-190 | if a wait created the deadlock it is an edge of every cycle there is to find |
| `Deadlock.RemovingWaiterBreaksDeadlock` | src/txn/conflict.rs:163-165 | removing that waiter leaves no cycle |
| `Conflicts.ConflictDetector.CheckWriteConflict` | src/txn/conflict.rs:60-81 | passes if and only if nobody else holds the key, and names the holder |
| `Conflicts.ConflictDetector.AcquireWriteLock` | src/txn/conflict.rs:86-88 | closes the key to everyone else and moves no other lock |
| `Conflicts.ConflictDetector.ReleaseLocks` | src/txn/conflict.rs:93-95 | opens exactly the transaction's keys to everyone |
| `Conflicts.ConflictDetector.CheckReadWriteConflicts` | src/txn/conflict.rs:101-122 | passes if and only if no key read is locked by another, for any order of the read set |
| `VersionChains.NewSnapshot` | src/snap.rs:128-155 | the watermark and the two-path visibility test together mean: committed at or below the LSN and not by an active transaction |
| `VersionChains.FindVisibleVersion` | src/txn/version.rs:232-246 | over the links of the chain: the value of the first link that is visible, and nothing if and only if no link is |
| `VersionChains.FirstVisibleSplit` | src/txn/version.rs:232-246 | newer visible versions hide older ones |
| `VersionChains.RetainedVersions` | src/txn/version.rs:276-320 | what the recursion keeps, its budget and the refs it collects, on every chain |
| `VersionChains.VacuumIsExact` | src/txn/version.rs:273-354 | on every chain, in any LSN order: the length drops by exactly the returned number, the head is unchanged and the survivors keep their order |
| `VersionChains.VacuumIsAsDocumentedIff` | src/txn/version.rs:261-354 | the documented versions go if and only if the obsolete ones are contiguous |
| `VersionChains.GapDropsALiveVersion` | src/txn/version.rs:298-319 | otherwise a version at or above the watermark is lost |
| `VersionChains.VacuumKeepsMeaning` | src/txn/version.rs:273-354 | on an ordered chain exactly the live versions and the newest obsolete one stay, and every snapshot at or above the watermark that does not list that one's creator finds what it found before |
| `VersionChains.VacuumKeepsViewIff` | src/txn/version.rs:273-354 | at any watermark, what a snapshot finds on an ordered chain survives if and only if nothing was committed between its LSN and the watermark or it finds nothing anyway |
| `VersionChains.FreedRefsAreRightIff` | src/txn/version.rs:298-319 | the returned refs are those of the dropped versions if and only if base and oldest version hold the same ref |
| `VersionChains.InlineChainsFreeNothing` | src/txn/version.rs:273-354 | a chain that holds all its values itself hands back nothing to free |
| `VersionChains.FreedRefOfSurvivor` | src/txn/version.rs:298-319 | two obsolete external versions: the survivor's own pages are handed back |
| `Mvcc.StepKeepsInv` | src/txn/transaction.rs:2984-3049 | every step keeps the chains ordered, pending commits above what they cover, and snapshots above what they may see |
| `Mvcc.FlushKeepsInv` | src/table/hash/memory.rs:439-513 | prepending an uncommitted version keeps the invariant because the key is write-locked |
| `Mvcc.StampKeepsInv` | src/table/hash/memory.rs:439-513 | stamping the head keeps LSNs falling towards older versions |
| `Mvcc.LogCommitKeepsInv` | src/wal/writer.rs:339-386 | the commit record draws an LSN above everything and takes the transaction off the active list |
| `Mvcc.VacuumKeepsInv` | src/engine.rs:893-895 | sweeping keys at a watermark read at any earlier time keeps the invariant |
| `Mvcc.RunKeepsInv` | src/txn/transaction.rs:1492-1524 | every run keeps the invariant |
| `Mvcc.VacuumKeepsView` | src/engine.rs:877-895 | a vacuum in flight that does not endanger a held snapshot leaves what it finds on every key |
| `Mvcc.StepKeepsView` | src/txn/version.rs:232-354 | a settled and undisturbed held snapshot finds the same version for every key after any step |
| `Mvcc.StepKeepsUndisturbed` | src/engine.rs:848-895 | no step makes a vacuum in flight dangerous to a settled held snapshot: a later look finds the snapshot, and later commits lie above every watermark already read |
| `Mvcc.RunKeepsView` | src/txn/version.rs:232-354 | and throughout every run that keeps holding it |
| `Mvcc.SnapshotIsStableIff` | src/engine.rs:787-816 | in every reachable state a snapshot inserted now is stable for ever if and only if no commit at or below its LSN is unfinished and no vacuum in flight endangers what it finds |
| `Mvcc.LateCommitShows` | src/txn/transaction.rs:2152-2996 | an unfinished commit at or below a snapshot's LSN changes what it finds once it is stamped |
| `Mvcc.RaceIsReachable` | src/txn/transaction.rs:2152-2996 | two overlapping commits reach an unsettled state |
| `Mvcc.SweepShows` | src/engine.rs:877-895 | whatever locks and commits are doing, an endangered version of a settled snapshot is swept away in some run |
| `Mvcc.VacuumRaceIsReachable` | src/engine.rs:877-895 | with one commit at a time a vacuum that found no snapshot can be in flight when one is taken, which then is not stable |
| `Mvcc.SerialSnapshotIsStableIff` | src/engine.rs:787-816 | with one commit at a time a snapshot is stable if and only if no vacuum in flight endangers it, so always when none is in flight |
| `Mvcc.ReadAtPinnedLsn` | src/engine.rs:458-474 | reading at a pinned LSN without the active list finds what the named snapshot finds |
| `MvccHistory.SnapshotReadsLastWrite` | src/txn/version.rs:232-246 | in every run, with any vacuums: what a held snapshot with no unfinished commit at or below its LSN finds is the last value put by the last transaction to commit the key at or below that LSN; it finds nothing if and only if there is no such transaction or a sweep has left only newer versions of the key |
| `MvccHistory.VersionsAreCommittedWrites` | src/txn/transaction.rs:2152-2996 | in every run every version is the last value its creator put under the key, the creator has written its commit record, and the version carries no other LSN than that record's |
| `MvccHistory.PublishedIsLast` | src/txn/transaction.rs:2984-2988 | in every run the published LSN is the commit LSN of the last transaction to publish |
| `MvccHistory.PublishedLsnCanFall` | src/txn/transaction.rs:2984-2988 | so it is not the greatest: of two overlapping commits the older one, publishing last, sets it back |
| `MvccHistory.StepKeepsExplained` | src/txn/transaction.rs:2984-3049 | every step keeps buffered values, chains, locks and commit LSNs explained by the writes and commits of the run, and every committed write in its chain, about to get there, or swept from under newer ones |
| `SnapshotRegistry.Registry.CreateSnapshot` | src/engine.rs:787-816 | a fresh id, the trimmed name, the published LSN, the active set and its least element, as the machine inserts them; refused if and only if the name is empty or taken, and then nothing changes |
| `SnapshotRegistry.TrimIsExact` | src/engine.rs:787-792 | a name is trimmed to what stands between the white space at its two ends |
| `SnapshotRegistry.Registry.ReleaseSnapshot` | src/engine.rs:828-837 | exactly this snapshot goes, or the id is unknown |
| `SnapshotRegistry.Registry.MinVisibleLsn` | src/engine.rs:848-853 | the least LSN any held snapshot pins, in any order: what a vacuum of the machine finds when it looks |
| `SnapshotRegistry.Registry.VacuumWatermark` | src/engine.rs:879-886 | the watermark after the second read, at whatever time it happens, is the one the machine goes on with |
| `SnapshotRegistry.Registry.ValidateSnapshotLsn` | src/engine.rs:349-373 | accepted if and only if committed and 0 or pinned |
| `GroupCommit.CommitQueue.ShouldFlushNow` | src/wal/commit.rs:207-231 | flushes if and only if something is queued and the batch is full or the wait is over; the minimum batch size never decides |
| `GroupCommit.GroupCommitMetrics.RecordBatch` | src/wal/commit.rs:139-160 | counters and wait time grow by the batch, and the maximum is reached however often the weak exchange fails |
| `GroupCommit.Coordinator.Perform` | src/wal/commit.rs:289-407 | what a thread does to the shared queue, flag, metrics and channels between two points of interleaving is one step of the machine |
| `GroupCommit.RunCoordinator` | src/wal/commit.rs:289-407 | every interleaving on the shared objects is a run of the machine |
| `GroupCommit.StepKeepsInv` | src/wal/commit.rs:289-407 | every atomic step of every thread keeps order, times, answers and metrics right |
| `GroupCommit.RequestIsInOnePlace` | src/wal/commit.rs:289-407 | in every interleaving a request is in exactly one of pending, in flight and answered, and is answered at most once, in submission order |
| `GroupCommit.AnswersAreTrue` | src/wal/commit.rs:289-354 | a request is told Success if and only if the flush of its batch returned Ok, that the flush failed if and only if it did, and that the coordinator shut down if and only if it was in no batch; that flush began after the request was queued and ended before the answer; a batch shares one verdict and all of it is told |
| `GroupCommit.RequestsAreSubmissions` | src/wal/commit.rs:289-379 | in every run the requests, answered ones first, are exactly what was submitted, and the recorded flushes exactly what the flushes returned |
| `GroupCommit.MetricsAreExact` | src/wal/commit.rs:139-160 | one fsync per batch, the commit counter is the sum of the batch sizes, the maximum is the size of the largest batch, and every request is charged the wait of its batch |
| `GroupCommit.AnsweredByShutdownIff` | src/wal/commit.rs:388-407 | once shutdown has returned a request is answered, now or ever, if and only if it was queued before the final drain |
| `GroupCommit.ShutdownMakesProgress` | src/wal/commit.rs:388-407 | until shutdown returns some thread can move and every such move brings it closer, whatever is submitted in between |
| `LockOrder.LockStack.AssertLockOrder` | src/pager/lock_order.rs:22-126 | with entry i of the documented order pin table, superblock, header, page table, cache, file on top, a request for entry j passes if and only if i <= j; on a sorted stack this means that every held lock is at or below the level |
| `LockOrder.LevelIsPlace` | src/pager/lock_order.rs:39-60 | levels are places in the documented order, which names every type once |
| `LockOrder.LockStack.MarkLockAcquired` | src/pager/lock_order.rs:133-145 | pushes; the stack stays sorted if and only if the test passed |
| `LockOrder.LockStack.MarkLockReleased` | src/pager/lock_order.rs:152-167 | takes out the entry of the type after which the type does not occur, sorted or not, or nothing if it is not held; sortedness is kept |
| `LockOrder.RemoveAny` | src/pager/lock_order.rs:152-167 | on a sorted stack it does not matter which lock of a type is released |
| `LockOrder.TopCheckIsEnough` | src/pager/lock_order.rs:102-167 | in every run, with releases in any order, the stack is exactly what the thread holds and testing the top is testing all of it |
| `LockOrder.CircularWaitIsOnOneLevel` | src/pager/lock_order.rs:102-167 | in every run the threads of a circular wait all wait for locks of one type |
| `LockOrder.SameLevelDeadlockIsReachable` | src/pager/lock_order.rs:102-126 | two threads that nest two locks of one type can deadlock on it |
| `LockOrder.DeadlockIsReachableIff` | src/pager/lock_order.rs:102-167 | for every set of types that threads may nest, a deadlock on a type is reachable if and only if the type is in the set |
| `LockOrder.NoNestingNoDeadlock` | src/pager/lock_order.rs:102-167 | threads that never ask for a second lock of a type they hold never wait in a circle |

## Left out

- Pagers.Pager.ReadPage: the reserved ids 0 and 1.
- Pagers.Pager.WritePage: only live ids, types other than Free and FreeList that can be decoded, data that fits the page, no compression and no encryption (page encoding itself is modelled with both).
- Pagers.Pager.WriteBack: the same inputs as Pagers.Pager.WritePage.
- Pagers.Pager.WriteThrough: the same inputs as Pagers.Pager.WritePage.
- Pagers.Pager.AllocatePage: the types Free and FreeList, which `free_page` takes for free pages, the types that cannot be read back, and running out of 64-bit ids are excluded.
- Overflow.WriteOverflowPage: data longer than a chunk and ids that are not live are excluded; the only caller cuts the value first and has just allocated the ids.
- Overflow.ReadOverflowChain: a cyclic chain, on which the source does not end, is excluded, and so is a walk through ids that are not live.
- Overflow.FreeOverflowChain: the same walks as Overflow.ReadOverflowChain are excluded.
- Overflow.FreeValueRef: the same walks as Overflow.ReadOverflowChain are excluded.
- OverflowStream.OverflowChainStream.constructor: says nothing about chains that cannot be read or have an empty page; any first id is accepted.
- OverflowStream.OverflowChainStream.Read: covers chains without empty pages, as allocation makes them.
- VersionChains.VacuumIsExact: the chain that vacuum overwrites in place is a value; the function returns the new chain.
- Mvcc.StepKeepsInv: deletes, which flush a tombstone, a log write that fails in the middle of a put, and a commit that fails while it is applied have no step.
- Page 0, the file header as bytes; its two counters are kept. A new file says 3 total pages there and 2 in the superblock until the first allocation.
- Page 1 through the cache, `sync` and persisting the mapper and the free list: the pager's own allocations write page 1 around the cache, which is modelled.
- `Pager::open` and recovery: the persisted state does not determine the free list.
- `move_page` and `compact_and_truncate`: they pass physical numbers through virtual translation.
- Pins, page locks and the file lock inside the pager: its runs are sequential.
- `link_overflow_pages`, the batch form `free_value_refs`, `set_free_pages`, `increment_free`, `decrement_free` and the free list's `from_state`.
- The stored bytes behind external version values after vacuum.
- Unnamed read transactions, which vacuum's watermark does not consult.
- Write-ahead log bytes, B-tree, LSM and the other tables, catalog, registry, query execution, VFS, metrics other than the commit and cache counters, tracing and timestamps: dispatch or short codecs.
