# QEMU machinery in Dafny

A model of six parts of a QEMU 2.2.91 tree in which a fast or concurrent structure must agree with a
simple specification, and proofs that it does:

- **Physical page map and RAM block list** (`PageTable`, `PhysMap`, `Dispatch`, `RamList`): the six-level
  radix tree with big leaves, skip compression and sub-pages answers every address as the flat list of
  sections does; offsets of RAM blocks come from the smallest fitting gap.
- **Live RAM migration** (`Xbzrle`, `PageCache`, `RamStream`, `Migration`): a running guest, a dirty log, a
  bitmap with a cursor, a delta cache and a destination; at completion the destination equals the source.
- **Block layer** (`TrackedRequests`, `SharedDisk`, `AlignedIo`, `MultiWrite`, `Commit`, with `Rounding` and
  `Storage`): serialising requests at coroutine yields, what they are for when writes within blocks are in
  flight together, unaligned writes, merging of writes, commit through a backing image.
- **Event loop** (`Wakeup`, `Callbacks`, `CallbackLaws`, `Reclaim`): the dispatching/notifier protocol, who is
  called by a poll and in which order, and deferred reclamation under nested polls.
- **kdump writer** (`KdumpBitmap`, `KdumpPages`, `KdumpFlat`, `Kdump`): the flattened stream reads back as a
  file whose bitmaps, descriptors and data lead back to guest memory.
- **Software TLB** (`SoftTlb`): after the flush of a page no entry is left whose guest page holds the address.

Objects that the C code updates are classes; loops are methods with loops; protocols that several threads
run are state machines over their steps. Most invariants are predicates on values, so that methods only
move between them. `hide` statements keep definitions that a proof does not need out of its way.

Things that the code asks of its surroundings are methods with a body that picks any allowed outcome: driver
reads and writes, memory allocation, guest writes that race with a read of a page, the outcome of flushes
and of notifiers. A ghost field `failed` records such failures, so that a contract can say that a request
succeeds if and only if nothing failed and its arguments were in order.

## What turned out otherwise

- The bulk stage of migration takes the page after the cursor without looking
  (`src/arch_init.c:457-458`). If the cursor is on the last page of the last block, that page is dirty
  again and no other page is, a search clears its bit and sends nothing. `FindAndSaveBlock` says exactly
  when (`Loses`), and `Complete` that memory is then delivered if and only if it was before. In `LosePage`
  the bitmap ends empty and the destination keeps an old page; `TwoPagesSent` is how a migration gets there.
- `migration_dirty_pages` is exact if and only if, at setup, the log holds no bits beyond the end of RAM in
  the words that the word-wise sync reads (`CounterOff`). A block that is freed leaves such bits behind, since
  `src/exec.c:1606-1623` does not clear its log; `StaleBitCounted` is a setup that counts two dirty pages
  where there is one.
- `qemu_bh_schedule_idle` from a thread other than the poller can leave the poller blocked with a bottom
  half that is scheduled and not idle (`IdleElsewhereLosesWakeup`). Such a step breaks the invariant if and
  only if the poller has passed the point where it looks at that bottom half, the notifier is clear and no
  thread is about to set it (`MarkIdleExact`); with the poller blocked, that is when the wakeup is lost
  (`MarkIdleLoses`).
- The delta encoder gives up on some codes that fit: if the last byte of a page is unchanged it asks for two
  bytes that it does not write (`src/migration/xbzrle.c:38-41`). `Overflows` is the exact condition.
- The comment of `bdrv_is_allocated_above` includes the base; the code does not. A sector that nothing above
  the base allocates still need not read as the base does, if an image in between is shorter
  (`ShortImageHides`, with the exact condition in `AbsentReads`).

## Model

| member | source | states |
|---|---|---|
| PageTable.DigitSlot | src/exec.c:309-310 | the slot that a walk takes at a level is the one whose range holds the index |
| PageTable.WalkFrame | src/exec.c:305-311 | a walk is not changed by stores to nodes outside the range it walks in |
| PhysMap.NodesNeeded | src/exec.c:191-224 | a range below one entry takes at most two nodes a level and one more |
| PhysMap.SlotBudget | src/exec.c:208-223 | the node budget of a range covers what its slots take one after the other |
| PhysMap.PhysPageMap.NodeReserve | src/exec.c:167-174 | after a reservation that many nodes fit without moving the array, which stays as it is or at least doubles |
| PhysMap.PhysPageMap.NodeAlloc | src/exec.c:176-189 | one empty node is appended; both assertions are preconditions that every caller meets |
| PhysMap.PhysPageMap.SetLevel | src/exec.c:191-224 | exactly the part of the range below the entry is mapped, the rest is handed back, nothing else changes, and the node budget holds |
| PhysMap.UnsplitFrame | src/exec.c:191-224 | whether a range splits a leaf below an entry is not changed by stores outside of that entry |
| PhysMap.FreeUnsplit | src/exec.c:191-224 | a range of unassigned pages splits no leaf |
| PhysMap.PhysPageMap.Set | src/exec.c:226-234 | exactly the pages of the range look up to the new section, whatever they were mapped to, and at most 2·6−1 nodes are allocated, so that a reservation of 3·6 suffices; a leaf above the lowest level must be covered as a whole or not at all |
| PhysMap.CollapseCoarser | src/exec.c:268-286 | skipping a node with one used slot changes answers only for indices that were unassigned, to a section that some index below had |
| PhysMap.SlotCoarser | src/exec.c:239-266 | compressing below a slot compresses the node in the same sense |
| PhysMap.CoarserTrans | src/exec.c:239-287 | compression steps compose |
| PhysMap.TightSlots | src/exec.c:251-261 | compressing below one slot leaves the other slots fully compressed |
| PhysMap.PhysPageMap.Collapse | src/exec.c:275-286 | the entry skips its node, with the same meaning and nothing left to compress |
| PhysMap.PhysPageMap.Compact | src/exec.c:239-287 | everything below an entry is compressed until nothing is left to compress, and nothing elsewhere changes |
| PhysMap.PhysPageMap.CompactAll | src/exec.c:289-296 | the compressed tree is coarser than the plain one for every index, and no entry that can be reached leads to a node with one used slot |
| PhysMap.PhysPageMap.Find | src/exec.c:298-312 | the loop that walks by skips computes the lookup |
| Dispatch.FoundIsLook | src/exec.c:313-319 | before compression the range check never rejects |
| Dispatch.CompressionPreservesFound | src/exec.c:239-320 | for every address, including those whose skipped bits are not compared, the section found is the same before and after compression |
| Dispatch.MultipageCoherent | src/exec.c:1022-1032 | mapping whole free pages to a new piece keeps every answer right |
| Dispatch.NewTableCoherent | src/exec.c:1006-1012 | a fresh sub-page table for a free page keeps every answer right |
| Dispatch.SubpageCoherent | src/exec.c:1013-1018 | one more piece in a sub-page table keeps every answer right |
| Dispatch.AddressSpaceDispatch.constructor | src/exec.c:2097-2115 | a new map has the four dummy sections and no pieces |
| Dispatch.AddressSpaceDispatch.SectionAdd | src/exec.c:951-968 | the section is appended unless the count reaches a page size, where the code asserts |
| Dispatch.AddressSpaceDispatch.SubpageRegister | src/exec.c:2023-2041 | exactly the entries of the range name the section |
| Dispatch.AddressSpaceDispatch.RegisterSubpage | src/exec.c:991-1019 | a piece inside one page is registered, with at most two sections |
| Dispatch.AddressSpaceDispatch.RegisterMultipage | src/exec.c:1022-1032 | a piece of whole pages is registered, with one section |
| Dispatch.AddressSpaceDispatch.RegisterNext | src/exec.c:1047-1064 | each round of the split registers the next piece at a page boundary and makes progress |
| Dispatch.AddressSpaceDispatch.MemAdd | src/exec.c:1034-1065 | head, whole pages and tail are an exact partition of the section, with at most five sections |
| Dispatch.AddressSpaceDispatch.PhysPageFind | src/exec.c:298-320 | the lookup with its final range check |
| Dispatch.AddressSpaceDispatch.Commit | src/exec.c:2123-2135 | compaction keeps every answer |
| Dispatch.AddressSpaceDispatch.LookupRegion | src/exec.c:329-342 | on the compacted map every address gets the answer of the map as built, sub-pages resolved on request |
| Dispatch.PiecesRefineFlat | src/exec.c:1034-1065 | if the pieces partition the sections, answers are parts of the covering section with the same region offset, or unassigned |
| Dispatch.PagesDirectNext | src/exec.c:1053-1063 | heads and tails never hold a whole page of their section; whole pages go into the map themselves |
| Dispatch.DirectFlat | src/exec.c:1022-1032 | a page that one section covers is answered with a part of that section, without a sub-page table |
| Dispatch.BuildDispatch | src/exec.c:2097-2135 | begin, add and commit of any list of non-empty disjoint sections gives a map that refines the flat list, and in which pages covered by one section take no sub-page table |
| RamList.HitContains | src/exec.c:823-824 | the wrapped unsigned comparison decides membership |
| RamList.NextStartIs | src/exec.c:1219-1223 | the inner loop finds the least block start from an address on |
| RamList.GapIsFree | src/exec.c:1224-1227 | a piece fits behind a block if and only if it is no longer than the gap |
| RamList.FindNext | src/exec.c:1219-1223 | the loop computes that start |
| RamList.FindOffset | src/exec.c:1203-1237 | the smallest fitting gap that follows a block, the first of its size; failure if and only if none fits |
| RamList.Blocks.Position | src/exec.c:1418-1423 | the place before the first shorter block |
| RamList.Blocks.Add | src/exec.c:1385-1436 | the new block takes free space of the best gap, the list stays disjoint and descending, and the cached block is forgotten |
| RamList.Blocks.Release | src/exec.c:1606-1623 | the one block that starts at the address goes, and nothing else changes |
| RamList.Blocks.Get | src/exec.c:817-853 | whatever was used last, the answer is the one block that holds the address, or none |
| RamList.History | src/exec.c:1385-1623 | any history of additions, removals and lookups keeps the list disjoint and descending |
| Xbzrle.UlebBytes | src/util/cutils.c:504-515 | the bytes of a length: seven bits, low ones first, the top bit set if a second byte follows |
| Xbzrle.UlebReadBack | src/util/cutils.c:504-531 | lengths read back as they were written |
| Xbzrle.NibbleBits | src/migration/xbzrle.c:96-101 | the bits of a byte are its binary digits |
| Xbzrle.EqualByteExact | src/migration/xbzrle.c:96-101 | the word test fires exactly when some byte is equal in both words |
| Xbzrle.ScanSame | src/migration/xbzrle.c:43-64 | the word-wise scan ends where the run of unchanged bytes ends |
| Xbzrle.ScanChanged | src/migration/xbzrle.c:85-113 | the word-wise scan ends where the run of changed bytes ends |
| Xbzrle.Encode | src/migration/xbzrle.c:26-126 | the output is the run code of the pair of pages; overflow if and only if that code does not fit, or fits with less than two bytes to spare while the last byte of the page is unchanged |
| Xbzrle.Decode | src/migration/xbzrle.c:128-175 | the loop applies the runs one by one, with the same errors |
| Xbzrle.CodeEmpty | src/migration/xbzrle.c:66-74 | the code is empty if and only if the page has not changed |
| Xbzrle.RoundTrip | src/migration/xbzrle.c:26-175 | decoding against the old page what was encoded gives the new page |
| PageCache.Cache.IsCached | src/page_cache.c:145-158 | a hit if and only if the page is cached; a hit sets the age of the entry to the present and changes nothing else |
| PageCache.Cache.Get | src/page_cache.c:128-143 | the cached data of a page |
| PageCache.Cache.Insert | src/page_cache.c:160-190 | the slot comes to hold the page, the data and the present age, and no other slot changes; refused, with nothing changed, if and only if the slot holds another young page, or is empty and memory is short; never leaves older data for the page |
| PageCache.Lifetime | src/page_cache.c:36-37 | an inserted page keeps its slot against any other page for two cycles and no longer |
| PageCache.Refreshed | src/page_cache.c:145-158 | so does a page from its last hit on |
| PageCache.Cache.Overwrite | src/arch_init.c:421-431 | writing through the cached pointer changes that page only |
| RamStream.TotalCountsUsed | src/arch_init.c:782-792 | the total of the used lengths is the number of used pages |
| RamStream.FindOwnBlock | src/arch_init.c:1073-1103 | a block is found by its name |
| RamStream.Difference | src/arch_init.c:405-431 | unchanged if and only if equal; otherwise the run code of the two pages, which decodes to the current page, or too long only if that code nearly fills a page |
| RamStream.FormFrom | src/arch_init.c:617-693 | zero pages go as such, pages whose cached copy is current not at all, other cached pages as a delta against the copy unless it is too long, the rest in full |
| Migration.Migrator.ReadPage | src/arch_init.c:407-408 | a page that is not in the log afterwards was read as it is; otherwise anything may have been read |
| Migration.Migrator.Send | src/arch_init.c:331-345 | the record reaches its page at the destination, with or without the name of its block |
| Migration.Migrator.CacheMiss | src/arch_init.c:390-404 | a page that was not cached is cached as it was read, unless its slot is taken by a young page or memory is short; never in the last stage |
| Migration.Migrator.SaveCached | src/arch_init.c:405-444 | the identical, overflow and encoded paths keep cache and destination alike |
| Migration.Migrator.SaveXbzrlePage | src/arch_init.c:382-444 | the same with the miss and refused-insert paths |
| Migration.Migrator.SendZero | src/arch_init.c:353-363 | no stale copy of a page sent as zeroes stays cached |
| Migration.Migrator.SavePage | src/arch_init.c:617-693 | after a page step the page is in the log or equal at both ends, its cached copy is what the destination holds and is young, at most one record was sent, in the form that the cached copy calls for, and the destination is what the records make of it |
| Migration.Migrator.SyncWord | src/arch_init.c:494-504 | a word of the log moves into the bitmap, new bits counted once |
| Migration.Migrator.SyncRange | src/arch_init.c:483-516 | the range, rounded up to words if it starts on one, moves into the bitmap |
| Migration.Migrator.Sync | src/arch_init.c:532-604 | the log of all blocks moves into the bitmap and the count stays right |
| Migration.SyncedUsed | src/arch_init.c:483-516 | no dirty page of a block is lost, though words may spill into what follows a block |
| Migration.Migrator.FindAndResetDirty | src/arch_init.c:447-468 | the next dirty page, or in the bulk stage the page after the cursor; its bit is cleared and counted |
| Migration.Migrator.SearchStep | src/arch_init.c:720-745 | one round of the search keeps the part that lies behind it clean |
| Migration.Migrator.RoundEnds | src/arch_init.c:723-726 | at the end of a round everything is clean, and a bit is dropped if and only if the search began where it loses the cursor's page |
| Migration.Taken | src/arch_init.c:720-748 | taking the next dirty page leaves everything between the start of the round and it clean, and nothing else |
| Migration.Migrator.FindAndSaveBlock | src/arch_init.c:708-751 | one page sent and the cursor on it: that page was dirty, everything from the old cursor up to it in round order is clean, no other bit was cleared, exactly it has changed at the destination, by one record; or nothing left dirty, nothing sent and the cursor at the end of its block; coverage is kept unless the search loses the cursor's page |
| Migration.SendKeeps | src/arch_init.c:617-693 | sending a page while the guest writes keeps coverage and the cache's agreement with the destination |
| Migration.Migrator.Setup | src/arch_init.c:843-921 | everything is dirty, the count is right up to stale bits, and coverage holds |
| Migration.Migrator.SyncLog | src/arch_init.c:532-604 | a sync during migration keeps coverage and empties the log of used pages |
| Migration.Migrator.Write | src/include/exec/ram_addr.h:117-129 | a guest write keeps coverage through the log |
| Migration.Migrator.ResizeCache | src/arch_init.c:199-231 | a new, empty cache keeps everything |
| Migration.Migrator.Step | src/arch_init.c:708-751 | a page step keeps coverage up to a loss, which is recorded exactly |
| Migration.Migrator.Iterate | src/arch_init.c:923-985 | so do any number of them; each page sent clears a bit, stopping early means that nothing is dirty, and a loss needs the bulk stage and a last block of several pages |
| Migration.Migrator.Run | src/arch_init.c:923-985 | any interleaving of writes, syncs, steps and cache changes, moment by moment: without a loss every used page is logged, dirty or equal at both ends, every cached page is what the destination holds, and the counter exceeds the dirty pages by the stale bits |
| Migration.Migrator.CacheMirrors | src/arch_init.c:353-444 | outside the last stage every cached page holds what the destination holds |
| Migration.Migrator.CounterOff | src/arch_init.c:446-516 | the counter exceeds the number of dirty used pages by the stale bits of setup; exact if and only if there are none |
| Migration.Migrator.Complete | src/arch_init.c:988-1016 | with the guest stopped, the destination equals the source unless the last sync leaves the cursor's page alone dirty at the end of the bulk stage; then nothing is sent, and it equals the source if and only if it did before |
| Migration.Migrator.Migrate | src/arch_init.c:843-1016 | a whole migration delivers memory if no search lost a page, and none can if the last block has one page; the records sent, replayed on the destination as it was, give the destination as it is |
| Migration.TwoPagesSent | src/arch_init.c:843-985 | a migration of two pages comes to the end of its bulk stage with nothing dirty |
| Migration.LosePage | src/arch_init.c:457-458 | a write to the last page is then lost: no used page is dirty any more, the destination is as it was and differs from the source |
| Migration.StaleBitCounted | src/arch_init.c:493-504 | a set bit behind the only page makes the counter two, with one page dirty |
| TrackedRequests.Device.Begin | src/block.c:2388-2407 | a new request at the head of the list, not serialising |
| TrackedRequests.Device.MarkSerialising | src/block.c:2409-2422 | the request covers whole blocks and is counted once |
| TrackedRequests.MarkIs | src/block.c:2409-2422 | marking rounds to the alignment; marking again changes nothing |
| TrackedRequests.ConflictSymmetric | src/block.c:2458-2470 | overlap does not depend on who asks |
| TrackedRequests.Device.Scan | src/block.c:2479-2511 | finds somebody past its wait and in the way if there is one, also with the shortcut on the counter |
| TrackedRequests.EdgeKeepsAcyclic | src/block.c:2501-2508 | an edge towards a request that waits for nobody closes no cycle |
| TrackedRequests.ChainEnds | src/block.c:2501-2508 | waits lead to a request that does not wait |
| TrackedRequests.Blocked | src/block.c:2501-2508 | going to wait keeps exclusion and the waits acyclic |
| TrackedRequests.Passed | src/block.c:2472-2514 | passing the wait with nobody in the way keeps exclusion |
| TrackedRequests.Again | src/block.c:3415-3456 | a request past its wait that looks again finds nobody in the way |
| TrackedRequests.PaddedIs | src/block.c:3338-3339 | the padded range is the blocks that the write touches, and the request covers it |
| TrackedRequests.MarkedTouches | src/block.c:3051-3058 | serialising are the reads that copy and the unaligned writes, and they cover their clusters or blocks; other requests cover what they were called for |
| TrackedRequests.SettledApart | src/block.c:2472-2514 | past their wait, no request touches a cluster of a read that copies, or a block of an unaligned write |
| TrackedRequests.Device.Start | src/block.c:3410-3416 | a new request is serialising if and only if it copies on read or is unaligned, covers its clusters or blocks, and waits for somebody in the way, or is past its wait with nobody in the way |
| TrackedRequests.Device.Resume | src/block.c:2503-2511 | so does one that is woken |
| TrackedRequests.Device.Proceed | src/block.c:3381-3503 | head, tail and write follow each other, on failure the request ends, and the assertions on waiting hold |
| TrackedRequests.Device.Write | src/block.c:3336-3339 | the write covers its padded range and goes into I/O |
| TrackedRequests.Device.End | src/block.c:2375-2383 | the request leaves the list and the count |
| TrackedRequests.Device.Run | src/block.c:3381-3503 | step by step, at every moment of every interleaving at yields: no request past its wait touches the clusters of a read that copies or the blocks of an unaligned write of another, the counter counts the serialising ones, waits are acyclic, and no assertion has failed |
| TrackedRequests.Device.NoOverlap | src/block.c:2472-2514 | this is what the invariant says between any two steps |
| TrackedRequests.Device.NoDeadlock | src/block.c:2472-2514 | each wait leads to a request in I/O or to one that has ended |
| SharedDisk.MovesInside | src/block.c:3417-3482 | whatever the driver moves for a request lies in the range that the request keeps others out of |
| SharedDisk.PaddedParts | src/block.c:3439-3482 | a byte of the padded write is the caller's, or comes from the head block or the tail block |
| SharedDisk.MovesAre | src/block.c:3432-3491 | what the driver moves for a request: its head block, its tail block, its padded range, or what it reads |
| SharedDisk.AllMovedIs | src/block.c:3432-3491 | I/O is done when every byte of it has moved |
| SharedDisk.ElsewhereSound | src/block.c:2458-2470 | a request does not notice a change outside of that range |
| SharedDisk.OthersSound | src/block.c:2472-2514 | so a byte that one request writes leaves all others, and what they have read, in order |
| SharedDisk.ByteIs | src/block.c:3439-3480 | a padding byte that is about to be written is what the disk holds at that moment |
| SharedDisk.NextSound | src/block.c:3431-3491 | head and tail have been read in full when they are written |
| SharedDisk.LogMore | src/block.c:3489-3491 | a caller's byte that goes to the disk is one more step of the history that explains the disk |
| SharedDisk.Complete | src/block.c:3489-3494 | a write that is done has written all of its bytes; one that was serialising finds them all on the disk |
| SharedDisk.AllKept | src/block.c:3410-3414 | a completed write has lost no byte that no other write owns, and a byte that no write owns has not changed |
| SharedDisk.SharedImage.Start | src/block.c:3381-3422 | a new call changes nothing on the disk |
| SharedDisk.SharedImage.Transfer | src/block.c:3432-3491 | a byte moved by the driver goes into the buffer of its request or to the disk, and changes the disk only if it is the caller's own, and then to the caller's value |
| SharedDisk.SharedImage.Proceed | src/block.c:3432-3494 | head, tail and write follow each other; a serialising write that succeeds leaves its whole range on the disk at that moment |
| SharedDisk.SharedImage.Run | src/block.c:3381-3503 | step by step, at every moment of every interleaving of calls, wakeups and single bytes moved: no completed write has lost a byte to the padding of another, nothing else has changed, and what a read that copies has read so far is what the disk holds |
| SharedDisk.SharedImage.Finish | src/block.c:3381-3503 | a request past its wait is never stuck: with a driver that works it comes to its end, and a write succeeds |
| AlignedIo.Image.AlignedRead | src/block.c:3076-3115 | the bytes of the image, zeroes beyond its end, however little the driver is asked for |
| AlignedIo.Image.Read | src/block.c:3137-3207 | any byte range reads as the zero-extended image; success if and only if nothing failed |
| AlignedIo.Image.Chunk | src/block.c:3252-3274 | a chunk makes progress, stays within the limit, and ends on an aligned sector unless the limit cuts it |
| AlignedIo.Image.WriteBounce | src/block.c:3282-3307 | the kept bounce buffer is always large enough and zero |
| AlignedIo.Image.WriteZeroes | src/block.c:3240-3316 | exactly the range becomes zero, whatever the driver supports |
| AlignedIo.Image.AlignedWrite | src/block.c:3321-3376 | exactly the range is written, also on the zero-detection path |
| AlignedIo.Image.Write | src/block.c:3381-3503 | a successful write changes exactly its bytes of the zero-extended image; a failed one changes nothing outside its blocks; success if and only if nothing failed |
| Storage.WrotePadded | src/block.c:3431-3483 | bytes read and written back are not a change |
| MultiWrite.Concat | src/util/iov.c:298-322 | the loop takes the pieces of the range, and its assertion holds |
| MultiWrite.TakenIs | src/util/iov.c:298-322 | the pieces are the bytes of the range |
| MultiWrite.TakenCount | src/block.c:4622-4641 | cutting a list in two takes at most one more entry |
| MultiWrite.StoreOver | src/block.c:4626-4641 | two touching or overlapping writes are one |
| MultiWrite.MergePair | src/block.c:4620-4644 | the merged request stands for both, within the entries allocated |
| MultiWrite.MergeSorted | src/block.c:4598-4653 | in place, the remaining requests have the effect of all of them in order |
| MultiWrite.AnyOrder | src/block.c:4579-4596 | requests that are disjoint may be written in any order |
| MultiWrite.Merge | src/block.c:4591-4658 | the same after sorting, and for disjoint requests the effect of the order of submission; starts ascend, limits hold if they held before, and if no limit interferes no two remaining requests touch |
| Commit.Overlay.CopyRun | src/block.c:2304-2320 | a run that the overlay allocates is copied |
| Commit.Overlay.CopyAll | src/block.c:2304-2320 | everything the overlay allocates is in the backing image |
| Commit.UnderKeepsView | src/block.c:2284-2320 | growing the backing image and copying into it do not show through the overlay |
| Commit.DropKeepsView | src/block.c:2322-2328 | once all is copied, any part of the overlay can be dropped unseen |
| Commit.Overlay.Commit | src/block.c:2243-2348 | whatever happens the overlay reads as before; on success the backing image does too; success if and only if nothing failed |
| Commit.IsAllocatedAbove | src/block.c:4210-4247 | yes: the first image above the base that allocates the first sector allocates all n; no: none allocates any; an error only from a driver that was asked, with no image before it allocating the sector |
| Commit.AbsentReads | src/block.c:4210-4247 | a sector that nothing above the base allocates reads as the base if and only if no image above ends before it, or the base has zeroes |
| Commit.ShortImageHides | src/block.c:4210-4247 | a chain in which it does not |
| Wakeup.ScanKeeps | src/async.c:157-175 | looking at one more bottom half for the timeout keeps the invariant |
| Wakeup.ReadIdleKeeps | src/async.c:165-173 | so does reading whether it is idle |
| Wakeup.PollKeeps | src/aio-posix.c:189-254 | so do entering and leaving nested polls, callbacks and clearing the notifier |
| Wakeup.AdvanceKeeps | src/async.c:121-138 | so does each access of a thread inside qemu_bh_schedule and aio_notify |
| Wakeup.MarkIdleExact | src/async.c:109-119 | scheduling idle keeps the invariant if and only if the poller will still look, the notifier is set or a thread is about to |
| Wakeup.MarkIdleLoses | src/async.c:109-119 | with the poller blocked, otherwise the wakeup is lost |
| Wakeup.StepKeeps | src/async.c:109-155 | every step keeps the invariant, scheduling idle in exactly those cases |
| Wakeup.NoLostWakeup | src/aio-posix.c:209-233 | blocked with a ready bottom half: the notifier is set or a thread is about to |
| Wakeup.WakeupsArrive | src/iothread.c:41-49 | this holds in every state of every run; outside aio_poll the flag is clear |
| Wakeup.Arrives | src/async.c:274-281 | a pending thread, left to itself, sets the notifier |
| Wakeup.CancelStops | src/async.c:140-155 | a bottom half that was cancelled or deleted is not scheduled, and nothing else changes |
| Wakeup.ScheduleDoes | src/async.c:121-138 | scheduling leaves the bottom half scheduled and not idle, and sets the notifier unless the poller dispatches |
| Wakeup.ScanEnds | src/async.c:157-175 | a scan that nobody disturbs goes on to block if and only if no bottom half is scheduled without being idle |
| Wakeup.PollBlocks | src/aio-posix.c:189-233 | so does a blocking poll, which looks at every bottom half |
| Wakeup.PollEnds | src/aio-posix.c:233-254 | back from poll() the poller dispatches, and in the end its flag and its stack are as they were |
| Wakeup.IdleElsewhereLosesWakeup | src/async.c:109-119 | a run in which idle scheduling from another thread loses a wakeup |
| CallbackLaws.PollUses | src/aio-posix.c:127-187 | a poll carries out as many plans as it calls callbacks, the n-th call the n-th plan |
| CallbackLaws.BhsInOrder | src/async.c:71-86 | bottom halves are called in the order of the list, each at most once in a walk |
| CallbackLaws.CalledWhenReached | src/async.c:75-84 | a bottom half is called if and only if it is scheduled and not deleted when the walk comes to it |
| CallbackLaws.AllReadyCalled | src/async.c:71-86 | if callbacks do nothing, exactly those ready at first are called, and they are no longer scheduled |
| CallbackLaws.AllHandlersCalled | src/aio-posix.c:145-181 | if callbacks do nothing, every handler is called for exactly the events reported that it has asked for, reads first; no report is left over |
| Reclaim.Context.AddBh | src/async.c:44-60 | a new bottom half at the head of the list |
| Reclaim.Context.ScheduleBh | src/async.c:109-138 | sets scheduled and idle, unless it is scheduled already |
| Reclaim.Context.CancelBh | src/async.c:143-155 | cancelling and deleting only set flags |
| Reclaim.Context.FindHandler | src/aio-posix.c:32-43 | the first live handler of an fd, if there is one |
| Reclaim.FdSetOthers | src/aio-posix.c:45-93 | handlers of other descriptors are as they were |
| Reclaim.FdSetSets | src/aio-posix.c:45-93 | the descriptor has the callbacks it was given, or no live handler |
| Reclaim.Context.SetFd | src/aio-posix.c:45-93 | both of these, one live handler for each fd, and while a walk goes on a handler is only marked |
| Reclaim.Context.Callback | src/aio-posix.c:189-254 | a callback does what its plan says, one action after the other; a list that is being walked only grows at its head, and handlers stay one per fd |
| Reclaim.Context.Fill | src/aio-posix.c:213-226 | the array for poll() has one entry for each handler that is not deleted |
| Reclaim.Context.Collect | src/aio-posix.c:236-244 | each of these handlers gets what was reported for its descriptor, the others keep what they had |
| Reclaim.Context.VisitBh | src/async.c:75-84 | a bottom half that is scheduled and not deleted is called, after both flags are cleared; the next pointer is to a linked node |
| Reclaim.Context.BhPoll | src/async.c:63-107 | the walk over pointers calls what a walk over the list at its start would call; when the outermost walk ends no deleted bottom half is left; without interference none is left to run |
| Reclaim.Context.Reap | src/async.c:91-104 | exactly the deleted bottom halves are freed |
| Reclaim.Context.Serve | src/aio-posix.c:155-170 | the read callback and then the write callback, each if its events were seen and the handler is not deleted by then |
| Reclaim.Context.Visit | src/aio-posix.c:146-181 | one node of the walk: the next pointer is to a linked node, and only an outermost walk frees |
| Reclaim.Context.WalkHandlers | src/aio-posix.c:145-181 | the walk over pointers serves the handlers that were in the list when it began, in order; an outermost walk leaves none that was marked deleted then |
| Reclaim.Context.AioPoll | src/aio-posix.c:189-254 | poll, bottom halves and handlers, under any nesting of polls in callbacks |
| Reclaim.WithoutPassed | src/aio-posix.c:172-180 | freeing a node just passed leaves the rest of the walk as it was |
| KdumpBitmap.SetBit | src/dump.c:981-988 | one bit is set or cleared, the others stay |
| KdumpBitmap.WrittenBits | src/dump.c:958-978 | the bit of a frame in the file says whether the frame was marked |
| KdumpFlat.StartBytes | src/dump.c:643-665 | the bytes of the start header: the name, type 1 and version 1, zeroes |
| KdumpFlat.RecordBytes | src/dump.c:683-703 | the bytes of a record: offset and size, high byte first, and the data |
| KdumpFlat.EndBytes | src/dump.c:667-681 | the end record is minus one, twice |
| KdumpFlat.BeIs | src/dump.c:688-689 | big-endian numbers read back as they were written |
| KdumpFlat.FlatNext | src/dump.c:683-703 | one more record is one more write to the file that a reader puts together |
| KdumpFlat.FlatEnd | src/dump.c:667-681 | a stream with its end record reads back as that file |
| Kdump.Dump.constructor | src/dump.c:1511-1513 | the layout of a dump follows from the blocks and the size of its headers |
| Kdump.Dump.WriteBuffer | src/dump.c:683-703 | the data goes to its place in the file, and writes behind the headers leave them alone |
| Kdump.Dump.WriteHeaders | src/dump.c:921-932 | the pieces of the headers are in the file |
| Kdump.Dump.GetNextPage | src/dump.c:999-1043 | frames are delivered one by one, in order, and all of them |
| Kdump.FlushBoth | src/dump.c:961-979 | flushing the buffer completes one more chunk of both bitmaps |
| Kdump.Dump.SetDumpBitmap | src/dump.c:942-991 | chunks up to the frame's are flushed and the frame is marked in the buffer |
| Kdump.Dump.WriteDumpBitmap | src/dump.c:1045-1093 | both bitmaps are complete |
| Kdump.BitmapLength | src/dump.c:1511-1513 | the length set aside for a bitmap is what is written |
| KdumpPages.PackBytes | src/include/sysemu/dump.h:151-156 | the fields of a descriptor at their places, low byte first |
| KdumpPages.PackIs | src/include/sysemu/dump.h:151-156 | descriptors read back as they were packed |
| KdumpPages.CachedFlush | src/dump.c:1105-1128 | flushing a cache puts its stream into the file |
| Kdump.Dump.WriteCache | src/dump.c:1105-1135 | the stream grows by the data, in the cache or in the file |
| Kdump.Dump.Shrink | src/dump.c:1247-1302 | what is dumped for a page reads back as the page and is no longer than its compressed form |
| Kdump.Dump.WritePage | src/dump.c:1226-1315 | one more descriptor leads to data that read as the page; a zero page adds no data |
| Kdump.Dump.WriteDumpPages | src/dump.c:1172-1337 | every descriptor leads, behind all descriptors, to its page |
| Kdump.NumbersAre | src/dump.c:999-1043 | the frames delivered are those that some block contains |
| Kdump.Dump.CreateVmcore | src/dump.c:1339-1397 | the stream reads back as a file in which the headers are as given, both bitmaps mark exactly the frames present and the n-th descriptor leads to the n-th page; it fails if and only if a write fails |
| SoftTlb.Widen | src/cputlb.c:238-240 | the loop ends, with a coarser mask under which both addresses agree |
| SoftTlb.AddLargePage | src/cputlb.c:224-243 | the region comes to hold the whole new page and keeps what it held |
| SoftTlb.FlushEntryIs | src/cputlb.c:72-82 | exactly the entries for the page go |
| SoftTlb.Tlb.Flush | src/cputlb.c:51-70 | every entry and the region go |
| SoftTlb.FlushedSlot | src/cputlb.c:84-119 | outside the region a slot that survives is not for a guest page that holds the address |
| SoftTlb.Tlb.FlushPage | src/cputlb.c:84-122 | no main or victim entry remains whose guest page, large or not, holds the address, and none comes back for another address; outside the region other entries stay |
| SoftTlb.Tlb.Refill | src/cputlb.c:296-310 | the old entry becomes a victim, the new one sits in its slot |
| SoftTlb.FastPath | src/cputlb.c:282-332 | a comparison address equals the page if and only if the access is permitted and neither a device, a watchpoint (for reads and writes), read-only memory nor dirty tracking has to see it |
| SoftTlb.FlagsExact | src/cputlb.c:282-332 | which of the flags for devices and for clean memory each comparison address carries, both ways |
| SoftTlb.Tlb.SetPage | src/cputlb.c:252-332 | the three comparison addresses carry exactly these flags, the old entry becomes a victim, no other entry changes, and a large page is remembered in the region |
| SoftTlb.Tlb.VictimHit | src/softmmu_template.h:119-142 | a hit if and only if some victim compares equal; the last such one is swapped with the main entry, and nothing else changes |
| SoftTlb.Tlb.History | src/cputlb.c:51-332 | after any history of fills, victim hits and flushes, an address that was flushed has no entry unless a page that holds it was filled in since, and a fill has taken effect |

## Left out

- `address_space_translate`, `address_space_rw`, `address_space_map`: they depend on device and IOMMU callbacks.
- The radix tree is for a 64-bit address space with 4096-byte pages; publication of a new map under RCU is not modelled.
- RAM blocks: resizing within the reserved length, migration of dirty bitmaps when RAM grows, and RCU readers.
- Migration: bandwidth limits, throttling, statistics, RDMA hooks and changes of the block list during migration; allocation failures in setup.
- Migration.Migrator.SendFull: a page handed to the stream asynchronously is copied within the page step, so that a guest write between the hand-over and the actual transmission is seen as one before it; such a write is in the log in either case.
- Migration.Migrator.Migrate: delivery is stated for runs without a lost page, because the code can lose one; `Complete` and `FindAndSaveBlock` give the exact condition.
- RamStream: the destination is fed record by record; version checks, the block list record and the end marker are not modelled.
- Block layer: copy-on-read data, throttling, dirty bitmaps, discard, and reentrant requests of one coroutine.
- AlignedIo.Image.Write: a write with the zero flag is given as the zeroes it stands for, because the padding of an unaligned one reads the caller's buffer, and the model has no write without one.
- SharedDisk.SharedImage.Run: a write that fails has moved some of its bytes and no others; what a read that is not serialising returns is not stated, since it may see a mixture.
- SharedDisk: a copy-on-read is a read here; that it writes back what it has read is not modelled.
- AlignedIo.Image.Read: the end of the image is what the driver reports; the cached `total_sectors` and reads with `zero_beyond_eof` off are not modelled.
- MultiWrite: completion callbacks, and the order in which a `qsort` leaves requests with equal starts, which `MergeSorted` leaves open.
- Commit.Overlay.Commit: a backing image that grows is assumed to grow by zeroes and a failed truncation to change nothing; status runs are at least one sector long.
- Event loop: several pollers of one context, and the glib main loop.
- Reclaim.Context.AioPoll: timers are not modelled; what poll() reports and what callbacks do are given.
- Wakeup: memory accesses interleave in one order, as the barriers of the code are there to ensure.
- Reclaim.Context.WalkHandlers: a handler that is deleted behind the walk stays linked until the next outermost walk, as in the code, so that the statement is about handlers marked when the walk began.
- Kdump.Dump.CreateVmcore: the contents of the headers and ELF notes are given as pieces of bytes that lie before the bitmaps, since they only list constants and configuration; descriptors are those of a little-endian dump; file offsets are assumed to fit 64 bits and a compressor to have an inverse.
- Software TLB: addends, I/O addresses, dirty tracking of code pages and the jump cache.
