# QEMU: machine state that must not get lost

A Dafny model of the parts of QEMU 2.0.50 that keep large pieces of state consistent
while they are changed in place, and proofs of what they promise. `dafny verify
dfyconfig.toml` checks everything.

## What is modelled

**Physical address dispatch** (`PhysPageMap.dfy`, `Dispatch.dfy`; `exec.c`). The radix
tree from page numbers to sections, filled by range with leaves at every level,
path-compressed, and searched; the sub-page tables below it; `mem_begin`, `mem_add`,
`mem_commit`. A ghost function from page to section is the meaning of the tree. Two
facts carry the proof. No node is empty while the tree is filled, so two entries never
claim the same page. A compressed tree only promises the right way to *assigned* pages,
and the final range check makes up for the rest. `Dispatch.Rebuild` is the end-to-end
result.

**Block request serialisation** (`BlockRequests.dfy`, `BlockRuns.dfy`, `BlockReads.dfy`;
`block.c`). The
tracked requests of a block device as a state machine whose steps are the pieces of code
between two yields. Driver I/O is not atomic: each byte is read and lands on its own.
Unaligned writes are read-modify-write cycles. All results, what writes leave on the disk
and what reads return, are about every state of every run. The class `BlockDriverState` holds the list code and refines the steps of the
machine.

**Live RAM migration** (`RamMigration.dfy`, `Xbzrle.dfy`; `arch_init.c`, `xbzrle.c`,
`page_cache.c`, `util/cutils.c`). Guest memory, dirty log, migration bitmap, XBZRLE cache
and the destination's memory. The guest writes while pages are read, so a read of a page
that is dirty in the log may return anything. Delta compression is modelled down to the
bytes and the words that the code compares (`WordTest.dfy`, `ByteBits.dfy`). The promise
that both memories are equal in the end fails in one state at the end of the bulk stage,
which `Migration.Loses` tests: the search there starts after `last_offset` but its stop
test assumes that it started at it. `RamSaveBlock` keeps the invariant exactly outside
that state, and `PageIsLost` is a run that gets there.

**KVM memory slots** (`KvmSlots.dfy`; `kvm-all.c`). The slot array as an interval map,
with the kernel's copy beside it, up to and including the end of the 64-bit address space.

**Event loop lists** (`EventLoop.dfy`, `AioCalls.dfy`, `AioPoll.dfy`; `async.c`,
`aio-posix.c`). Bottom halves and descriptor handlers, walked while callbacks change the
lists and poll again. What is called is recorded with the depth of the call, so that no
ready handler and no pending bottom half is missed and each result tells of its own calls.
A callback is any finite script of operations, and each nested poll comes with the
scripts of its own callbacks. Nodes live in a map, so a use of a freed node is a failing
proof. The sequences list the head last, so that places do not move when nodes are added.

**Software TLB** (`CpuTlb.dfy`; `cputlb.c`). Tags, masks and the flush region as 64-bit
vectors.

**RAM block list** (`RamList.dfy`; `exec.c`), **write merging** (`Multiwrite.dfy`,
`IoVector.dfy`; `block.c`, `util/iov.c`) and **zero writes** (`WriteZeroes.dfy`;
`block.c`). What a merged request writes is read off the pieces of its vector.

**Guest dumps** (`ElfDump.dfy`, `ElfHeaders.dfy`, `TargetBytes.dfy`, `FlatFile.dfy`,
`DumpBitmap.dfy`, `DumpPages.dfy`, `Kdump.dfy`; `dump.c`). The ELF file, which is laid out
and whose program headers are written before the memory, with or without a filter; and the kdump file with its two bitmaps, descriptors
and data, as a reader of the finished file finds them.

`Target.dfy` has the constants of the ARM system target (1 KiB pages), `Common.dfy`,
`Arith.dfy` and `Pieces.dfy` small types and facts about division and joined data. Failing
assertions and aborts of the code are results (`ok`, `None`), not preconditions, unless a
caller has to rule them out.

## Where the code does less than it seems to promise

- Address translation: the length of an access is cut to the size of the region, but the
  offset of the section in its region is not counted, so that the access may go beyond the
  end of the region (`Dispatch.ShortenedIff`, `Dispatch.ShortenedTooLong`).
- Migration: a page that is sent last in the bulk pass and is dirty again at the next
  sync, as the only dirty page, is forgotten (`RamMigration.PageIsLost`; exactly when, is
  in `RamMigration.Migration.RamSaveBlock`).
- KVM: `kvm_set_phys_mem` adjusts the start by what the *size* lacks to whole pages. It
  misses whole pages unless start and size are equally far past a page boundary
  (`KvmSlots.WholePagesTaken`, `KvmSlots.PageMissed`).
- KVM: an overlap at the very end of the 64-bit address space is not seen
  (`KvmSlots.WrappedTestExact`), so that a section there can be added but not deleted
  (`KvmSlots.KVMState.SetPhysMem`, `KvmSlots.StaysForEver`).
- Merging: a request that ends inside the one it is merged into cuts off its tail. For
  one merge the condition is in `Multiwrite.MergedIsBoth`, for a whole batch
  `Multiwrite.Lost` describes the sectors in terms of the sorted requests
  (`Multiwrite.MultiwriteMerge`). An empty request can wipe out another one
  (`Multiwrite.EmptyRequestWipesOut`).
- Zero writes: the bulk is aligned for all requests only if the limit is a multiple of the
  alignment (`WriteZeroes.BulkAlignedIff`, `WriteZeroes.BulkWholeIff`).
- kdump: the offsets are computed in 32 bits, so that the regions overlap when the bitmaps
  end beyond 4 GiB (`Kdump.LayoutIff`, `Kdump.LayoutWraps`).
- ELF dumps: the number of mappings is kept in 32 bits. With a multiple of 2^32 of them one
  program header too many is written (`ElfHeaders.FrontFillsIff`), and from 2^32 - 1 on
  not every mapping gets one (`ElfHeaders.AllLoadsIff`).
- ELF dumps: `write_elf_section` hands the address of its pointer to the writer and not
  that of the section header, whose bytes are therefore an argument here.

## Model

| member | source | states |
|---|---|---|
| `PhysPageMap.PrefixCoarser` | qemu-tz/exec.c:285-291 | two pages that agree in their index bits down to one level agree at every coarser level: what lets a walk compare one level at a time |
| `PhysPageMap.RootCovers` | qemu-tz/exec.c:206-214 | six levels of nine bits cover every page of a 64-bit address space |
| `PhysPageMap.WithNodeKeeps` | qemu-tz/exec.c:156-191 | allocating a node under an empty entry keeps the meaning of every entry and of the whole tree |
| `PhysPageMap.WithLeafBuilt` | qemu-tz/exec.c:195-199 | turning an entry whose pages are all fresh into a leaf assigns exactly the pages it covers, whatever leaves and nodes lie around it |
| `PhysPageMap.WithLeafInhabited` | qemu-tz/exec.c:195-199 | after that no node is empty: every node lies on the way to an assigned page |
| `PhysPageMap.NoOverlap` | qemu-tz/exec.c:194-203 | an entry that is about to become a leaf shares no page with another leaf or empty entry at any level |
| `PhysPageMap.BypassKeeps` | qemu-tz/exec.c:219-267 | skipping a node that has a single child loses index bits but no assigned page: all entries still lead assigned pages the right way |
| `PhysPageMap.SoleChild` | qemu-tz/exec.c:230-247 | an assigned page below a node with a single child goes through that child |
| `PhysPageMap.BypassShort` | qemu-tz/exec.c:249-266 | skipping a node with a single child, whose child has been compressed, leaves no such node on the paths down |
| `PhysPageMap.ShortSibling` | qemu-tz/exec.c:230-240 | compressing one child of a node leaves the paths below its other children as they were |
| `PhysPageMap.CompactingBypasses` | qemu-tz/exec.c:242-266 | the skip that takes the place of two never exceeds the six levels: the test whether it fits into its three bits never stops a compression |
| `PhysPageMap.WalkReaches` | qemu-tz/exec.c:278-292 | a walk, in which skipped index bits are never compared, ends in a leaf, and for an assigned page in the right one |
| `PhysPageMap.LookupIsView` | qemu-tz/exec.c:278-300 | with the final range check the lookup gives the section of the page for every address, and `unassigned` for every other address, although unassigned pages may be led astray |
| `PhysPageMap.CompressionPreservesLookup` | qemu-tz/exec.c:219-300 | a compressed and an uncompressed tree with the same meaning answer every address alike |
| `PhysPageMap.PageMap.constructor` | qemu-tz/exec.c:1793-1811 | an empty map: no page is assigned |
| `PhysPageMap.PageMap.NodeReserve` | qemu-tz/exec.c:147-154 | room for the requested number of nodes; what was reserved before stays, and if it is not enough it is at least doubled |
| `PhysPageMap.PageMap.NodeAlloc` | qemu-tz/exec.c:156-169 | a node with 512 empty entries is appended and nothing else changes; both assertions of the code are its preconditions |
| `PhysPageMap.PageMap.MakeLeaf` | qemu-tz/exec.c:195-199 | assigns the pages of one entry and keeps all others, without a new node |
| `PhysPageMap.PageMap.OpenNode` | qemu-tz/exec.c:179-191 | the node below an entry, allocated if need be: at most one new node and no change of meaning |
| `PhysPageMap.PageMap.SetLevel` | qemu-tz/exec.c:171-204 | from the entry on, exactly the pages up to where it stops are assigned, the rest of the range is handed back on an entry boundary, and a bounded number of nodes is allocated; it never goes below level 0 |
| `PhysPageMap.PageMap.PageSet` | qemu-tz/exec.c:206-214 | on fresh pages, exactly the pages of the range show the leaf and all others are as before; at most 11 of the 18 reserved nodes are used, so that the allocation assertions never fire |
| `PhysPageMap.PageMap.Compact` | qemu-tz/exec.c:219-267 | compresses the paths below an entry without changing what any entry says of assigned pages, and touches nothing outside the part of the tree below it; afterwards no node on any path down from the entry has a single child |
| `PhysPageMap.PageMap.CompactAll` | qemu-tz/exec.c:269-276 | every address is looked up to the same section before and after path compression, and no path passes through a node with a single child any more |
| `PhysPageMap.PageMap.Find` | qemu-tz/exec.c:278-300 | the loop computes the section of the page of an address, in a compressed tree and in an uncompressed one |
| `Dispatch.SearchMisses` | qemu-tz/exec.c:1793-1811 | an address that no section of the list contains is unassigned for the search of the list |
| `Dispatch.SearchHits` | qemu-tz/exec.c:940-971 | in a list of disjoint sections the search finds the one section that contains an address, whatever the order of the list |
| `Dispatch.UnclaimedByte` | qemu-tz/exec.c:910 | a page with an unassigned byte is unassigned or has a sub-page table: the assertion in `register_subpage` holds |
| `Dispatch.WithPagesCoherent` | qemu-tz/exec.c:928-938 | mapping whole pages keeps every address that was mapped and maps the new ones |
| `Dispatch.WithTableSound` | qemu-tz/exec.c:912-917 | putting an empty sub-page table on a fresh page changes no answer |
| `Dispatch.WithPieceCoherent` | qemu-tz/exec.c:921-924 | entering a piece of a page in its table changes the answers for the bytes of the piece and no others |
| `Dispatch.AddressSpaceDispatch.constructor` | qemu-tz/exec.c:1793-1811 | the four built-in sections, each over the whole address space, and every address unassigned |
| `Dispatch.AddressSpaceDispatch.SectionAdd` | qemu-tz/exec.c:857-874 | appends a section unless the assertion on their number fires |
| `Dispatch.AddressSpaceDispatch.RegisterMultipage` | qemu-tz/exec.c:928-938 | maps every address of a page-aligned section to its region, leaves all others |
| `Dispatch.AddressSpaceDispatch.SubpageRegister` | qemu-tz/exec.c:1724-1742 | exactly the table entries from start to end are set, or -1 and nothing if either is out of the page |
| `Dispatch.AddressSpaceDispatch.FindTable` | qemu-tz/exec.c:897-918 | the sub-page table of a page, created on the first piece, without a change of any answer |
| `Dispatch.AddressSpaceDispatch.RegisterSubpage` | qemu-tz/exec.c:897-925 | maps the bytes of a piece of one page, leaves all other addresses, also those of the same page |
| `Dispatch.AddressSpaceDispatch.AddNext` | qemu-tz/exec.c:956-970 | the next piece of a section: a piece of one page or whole pages; the branch for an unaligned remainder is unreachable |
| `Dispatch.AddressSpaceDispatch.MemAdd` | qemu-tz/exec.c:940-971 | splits any section into head, whole pages and tail, maps all its addresses and no others, with at most five table sections |
| `Dispatch.AddressSpaceDispatch.Commit` | qemu-tz/exec.c:1813-1827 | every address is answered as before, through a compressed tree |
| `Dispatch.AddressSpaceDispatch.AnswerIsSpec` | qemu-tz/exec.c:308-321 | the walk of the tree and, for a sub-page, the entry of its table end in a section that shows the region and offset that the sections added say |
| `Dispatch.AddressSpaceDispatch.LeafIsWholePage` | qemu-tz/exec.c:308-321 | the section of a page before sub-pages are resolved: it shows all bytes of the page as the sections added say, or it is the sub-page of exactly this page and its table leads every byte of the page to the section that the sections added say |
| `Dispatch.AddressSpaceDispatch.LookupRegion` | qemu-tz/exec.c:308-321 | with sub-pages resolved, the section that walk and table lead to, which shows what the sections added say, for every address; without, the section of the whole page: either one that shows all its bytes rightly, or the sub-page of this page itself |
| `Dispatch.AddressSpaceDispatch.Translate` | qemu-tz/exec.c:324-340 | region and offset within the region of every address, or unassigned, with sub-pages resolved or not (an unresolved sub-page is answered with the offset in the page); the assertion on the length fires exactly where the section reaches beyond its region; the shortened access ends within the region exactly if the section shows the region from its start on, or the region is long enough anyway |
| `Dispatch.ShortenedIff` | qemu-tz/exec.c:337-338 | for every section, region size and length: the shortening stops an access at the end of the region exactly if the offset of the section in its region is zero or the access needs no shortening |
| `Dispatch.ShortenedTooLong` | qemu-tz/exec.c:337-338 | a section and a length for which the shortened access goes beyond the end of the region |
| `Dispatch.Rebuild` | qemu-tz/exec.c:897-971 | end to end: after begin, any number of disjoint sections of any size and alignment, and commit, the tables lead every address to a section that shows what a search of the list of sections gives, that is, the one section that contains it; within the limit on sections it always succeeds |
| `BlockRequests.FreshInRange` | qemu-tz/block.c:3244-3247 | once marked, the overlap range of a request is exactly its padded range: the assertions on the padded range hold |
| `BlockRequests.MarkingAgain` | qemu-tz/block.c:2334-2347 | marking a request again before the tail read changes nothing |
| `BlockRequests.ProgramInRange` | qemu-tz/block.c:3244-3247 | every driver operation of a request stays inside its overlap range |
| `BlockRequests.ProgramAligned` | qemu-tz/block.c:2989-2990 | every driver operation begins and ends on the alignment of the driver, and those of copy-on-read on cluster boundaries |
| `BlockRequests.FirstBlockerMeaning` | qemu-tz/block.c:2408-2436 | the scan stops at a conflicting request that does not wait itself, and passes only if there is none |
| `BlockRequests.ConflictMeaning` | qemu-tz/block.c:2383-2420 | two requests conflict exactly if one of them serialises and their padded ranges have a byte in common |
| `BlockRequests.WaitsForReason` | qemu-tz/block.c:2397-2439 | a request waits exactly if some conflicting request is past its wait, and then for such a one: no needless waiting |
| `BlockRequests.CountRemove` | qemu-tz/block.c:2300-2308 | `serialising_in_flight` stays the number of serialising requests in the list when one ends |
| `BlockRequests.WaitedSerialised` | qemu-tz/block.c:2397-2439 | a request that finds no blocker is in no conflict with any request past its wait; one that finds a blocker waits for a request that does not wait |
| `BlockRequests.NeverWaitsAgain` | qemu-tz/block.c:3244-3247 | a serialising request past its wait finds no blocker when it looks again |
| `BlockRequests.BeginSerialised` | qemu-tz/block.c:2313-2347 | beginning, marking and the first scan, as one uninterrupted step, keep serialisation |
| `BlockRequests.ResumeSerialised` | qemu-tz/block.c:2426-2436 | a request that was woken and scans again keeps serialisation |
| `BlockRequests.FinishSerialised` | qemu-tz/block.c:2300-2308 | ending a request and waking its waiters keeps serialisation and leaves no waiter on a request that is gone |
| `BlockRuns.PaddingWasRead` | qemu-tz/block.c:3316-3370 | when an unaligned write reaches the driver, each byte around the data has been read, the head from one buffer and the tail from the other |
| `BlockRuns.PaddedVectorFits` | qemu-tz/block.c:3338-3381 | head buffer, data and tail buffer, joined as the code joins them, fill the padded range exactly, byte by byte |
| `BlockRuns.LandExact` | qemu-tz/block.c:3281-3398 | a byte of the padding that lands on the disk is the byte the disk already holds |
| `BlockRuns.StepKeepsInv` | qemu-tz/block.c:2300-2439 | every step of every request keeps the whole invariant: tracking, serialisation and data |
| `BlockRuns.RunInv` | qemu-tz/block.c:2300-2439 | the invariant holds in every state of every run, for any number of requests in any interleaving |
| `BlockRuns.SerialisationSafety` | qemu-tz/block.c:2300-2439 | in every reachable state no two requests past their wait overlap when either is serialising, and the counter is the number of serialising requests |
| `BlockRuns.WaitsOnlyOnce` | qemu-tz/block.c:3353-3355 | in every run a serialising request never has to wait a second time: `assert(!waited || !use_local_qiov)` holds |
| `BlockRuns.DeadlockFree` | qemu-tz/block.c:2397-2439 | in every reachable state the waiting graph has no cycle, and each waiter is runnable or waits for a live request that does not wait, woken but not resumed waiters included |
| `BlockRuns.NoLostUpdate` | qemu-tz/block.c:3281-3398 | in every run a byte of a completed write that no other request was given holds what that write was given, although others write the same aligned block at the same time |
| `BlockRuns.UntouchedByte` | qemu-tz/block.c:3281-3398 | in every run a byte that no request was given keeps its value, although padded writes go over it |
| `BlockRuns.LandsOnlyRequested` | qemu-tz/block.c:3281-3398 | every landing byte changes the disk as the bare, unaligned request would |
| `BlockReads.DeliveredFits` | qemu-tz/block.c:3068-3099 | head buffer, the guest's bytes and tail buffer of a padded read fill exactly what the driver delivers |
| `BlockReads.GuestDataAt` | qemu-tz/block.c:2950-2955 | byte for byte, the guest gets what was read at the positions it asked for, through the padded vector and through the bounce buffer of copy-on-read |
| `BlockReads.ReadComplete` | qemu-tz/block.c:3068-3110 | when a read can end with success, every byte that was asked for has been read |
| `BlockReads.CopyComplete` | qemu-tz/block.c:2931-2948 | when copy-on-read can end with success, every byte of its clusters has been written back |
| `BlockReads.BufferedByte` | qemu-tz/block.c:2980-3034 | in every run, a byte in a buffer is one that the disk has held since the request began |
| `BlockReads.ReadReturns` | qemu-tz/block.c:3040-3114 | in every run, a read that ends with success returns all its bytes, each as the disk held it at some moment since the read began |
| `BlockReads.ReadsUntouched` | qemu-tz/block.c:3040-3114 | in every run, a byte that no request was given is read as it was in the beginning, whatever padded writes go over it |
| `BlockReads.ReadsCompletedWrite` | qemu-tz/block.c:3040-3114 | in every run, a read that begins after a write has ended returns the bytes of that write, if no other request was given them |
| `BlockReads.CopyOnReadExact` | qemu-tz/block.c:2904-2960 | in every run, copy-on-read returns what the disk holds when it ends |
| `BlockRuns.BlockDriverState.MarkRequestSerialising` | qemu-tz/block.c:2334-2347 | the marked request and the counter, as the state machine has them |
| `BlockRuns.BlockDriverState.WaitSerialisingRequests` | qemu-tz/block.c:2397-2439 | the scan of the list refines the waiting step of the state machine |
| `BlockRuns.BlockDriverState.TrackedRequestEnd` | qemu-tz/block.c:2300-2308 | refines the ending step of the state machine |
| `BlockRuns.BlockDriverState.Enter` | qemu-tz/block.c:3281-3325 | beginning, marking and scanning refine the first step of the state machine; the request runs on exactly if it found no blocker |
| `BlockRuns.BlockDriverState.ResumeRequest` | qemu-tz/block.c:2426-2436 | a request that was woken and scans the list again refines the resuming step; it runs on exactly if it found no blocker |
| `BlockRuns.BlockDriverState.NextOperation` | qemu-tz/block.c:3327-3362 | marking and scanning again before the tail read and the write refine the step to the next operation; the assertions that the request did not wait hold |
| `Xbzrle.UlebRoundTrip` | qemu-tz/util/cutils.c:490-517 | decoding a two-byte run length gives the number that was encoded |
| `Xbzrle.DecodeEncoded` | qemu-tz/xbzrle.c:128-175 | from any point on, the decoder restores the rest of the page from the encoding of what is still different |
| `Xbzrle.DecodeBuffer` | qemu-tz/xbzrle.c:128-175 | the in-place loop computes the decoding of the delta on the receiver's page, or -1 exactly where the delta is malformed |
| `Xbzrle.RoundTrip` | qemu-tz/xbzrle.c:26-175 | for all pages: the encoding of a page against an older page, applied to the older page, gives the page; it is empty exactly if they are equal |
| `Xbzrle.DocumentedRuns` | qemu-tz/docs/xbzrle.txt:61-74 | the runs of the example in the description of the format are encoded to the bytes given there |
| `Xbzrle.ZeroRun` | qemu-tz/xbzrle.c:43-64 | bytes up to a word boundary, words, and bytes again: the first byte that differs |
| `Xbzrle.NonzeroRun` | qemu-tz/xbzrle.c:85-113 | the first byte that is equal, found by the bit trick on words that are read from the pages |
| `Xbzrle.WriteRun` | qemu-tz/xbzrle.c:76-122 | one run is written exactly if it fits |
| `WordTest.ZeroByteTestExact` | qemu-tz/xbzrle.c:96-101 | the bit trick on two words finds a byte in which they agree exactly when there is one |
| `WordTest.WordBytes` | qemu-tz/xbzrle.c:56-59 | a word read from memory: two of them are equal exactly if all eight bytes are, and agree in a byte exactly if the memory does |
| `WordTest.TestWords` | qemu-tz/xbzrle.c:96-101 | the expression of the code decides whether two words agree in some byte |
| `Xbzrle.EncodeBuffer` | qemu-tz/xbzrle.c:26-126 | computes the encoding in longest runs; -1 exactly when the encoding, and two bytes more if the page ends in an unchanged byte, exceed the limit; otherwise the result decodes to the new page, and is 0 exactly when nothing changed |
| `RamMigration.CountIsSize` | qemu-tz/arch_init.c:463-467 | counting the set bits of a word gives the number of newly dirty pages |
| `RamMigration.PagesAddUp` | qemu-tz/arch_init.c:795-809 | the initial count of dirty pages is the number of pages in RAM blocks, gaps between blocks not included |
| `RamMigration.ResetKeeps` | qemu-tz/arch_init.c:414-435 | clearing the bit of a dirty page and counting it down keeps everything but what is said of that page |
| `RamMigration.MovedKeeps` | qemu-tz/arch_init.c:450-483 | moving any part of the log into the bitmap keeps the invariant, and the count stays the number of dirty pages in RAM |
| `RamMigration.WriteKeeps` | qemu-tz/exec.c:1534-1554 | a guest write, which sets the bit of the page in the dirty log, keeps the invariant |
| `RamMigration.CoreIff` | qemu-tz/arch_init.c:424-435 | a page whose bit is cleared without sending it leaves the invariant intact exactly if the page is on the destination, queued or dirty in the log |
| `RamMigration.BulkFound` | qemu-tz/arch_init.c:424-435 | in the bulk stage the page taken without looking at its bit is dirty |
| `RamMigration.BulkNextFound` | qemu-tz/arch_init.c:424-435 | in the bulk stage the search stops at the page after the one sent last, or at the first of the next block |
| `RamMigration.FoundIsNotLossy` | qemu-tz/arch_init.c:584-587 | a page found before the round closes is not the one that can be forgotten |
| `RamMigration.SearchOver` | qemu-tz/arch_init.c:584-587 | when the round closes outside the bulk stage, no page is dirty |
| `RamMigration.FoundInTurn` | qemu-tz/arch_init.c:569-666 | a page found outside the bulk stage was dirty, no dirty page is left between where the search began and there, and no bit has changed but those of pages skipped on the way |
| `RamMigration.Migration.CacheInsert` | qemu-tz/page_cache.c:153-180 | replaces what is in the slot of the address, or fails only for want of memory for an empty slot |
| `RamMigration.Migration.SaveXbzrlePage` | qemu-tz/arch_init.c:352-411 | unmodified, sent as a delta, or to be sent in full, with cache and destination in step while the guest may be writing; of a cached page that the guest leaves alone, unmodified exactly if it is equal, and a delta exactly if that fits |
| `RamMigration.Migration.SavePage` | qemu-tz/arch_init.c:596-659 | after it the page is in step with the destination or dirty in the log, and the cache still holds what the destination has; nothing is touched if the page is found unmodified |
| `RamMigration.Migration.FindAndResetDirty` | qemu-tz/arch_init.c:414-435 | finds the next dirty page of a block, or the next page in the bulk stage, and clears its bit |
| `RamMigration.Migration.RamSaveBlock` | qemu-tz/arch_init.c:569-666 | keeps the invariant exactly unless the call begins in the state `Lossy` with a page that is neither on the destination nor queued nor in the log; in `Lossy` nothing is sent; in the bulk stage pages are sent one after the other, afterwards the first dirty page from the last position on in the order of the blocks, but for pages skipped as unmodified, of which there are none without XBZRLE; no other page is touched, and where the next search begins is stated for every outcome; that nothing was sent is returned only when no page is dirty; terminates |
| `RamMigration.Migration.LossyMeaning` | qemu-tz/arch_init.c:424-425 | the executable test `Lossy` says that the search begins at the last page of RAM in the bulk stage and that page is the only dirty one |
| `RamMigration.Migration.SyncWord` | qemu-tz/arch_init.c:450-471 | moves exactly the bits of one word of the log and counts the pages that were clean |
| `RamMigration.Migration.SyncPage` | qemu-tz/arch_init.c:471-482 | moves exactly the bit of one page of the log and counts it if it was clean |
| `RamMigration.Migration.Sync` | qemu-tz/arch_init.c:488-516 | on RAM pages the bitmap becomes the union with the log and the log is cleared, word by word and page by page alike |
| `RamMigration.Migration.constructor` | qemu-tz/arch_init.c:751-831 | all of RAM dirty, counted without the gaps, and the log clear |
| `RamMigration.Migration.RamSaveComplete` | qemu-tz/arch_init.c:902-930 | after the last stage every page is in step or queued exactly if no call has lost a page, which never happens after the bulk stage |
| `RamMigration.RunLive` | qemu-tz/arch_init.c:569-666 | any interleaving of guest writes, syncs, sends, network writes and cache resizes keeps the invariant, and the memory is what the guest wrote; it stops only before a send that loses a page, in the bulk stage |
| `RamMigration.Migrate` | qemu-tz/arch_init.c:902-930 | after any run and completion all of RAM is equal on both sides, and is what the guest wrote, exactly if the completion lost no page; a migration past the bulk stage never loses one |
| `RamMigration.PageIsLost` | qemu-tz/arch_init.c:424-425 | a whole run from the set-up on: both pages of a block are sent, the guest writes to the last one, a sync finds it, and the next send clears its bit without sending it, so that the memories differ with nothing left to send |
| `KvmSlots.WholePagesTaken` | qemu-tz/kvm-all.c:627-638 | the size adjustment takes every whole page of a RAM section exactly when start and size are equally far past a page boundary, or there is no whole page |
| `KvmSlots.PageMissed` | qemu-tz/kvm-all.c:627-638 | a page and a half of RAM from a page boundary on: its whole page is not taken |
| `KvmSlots.WantedMeaning` | qemu-tz/kvm-all.c:613-651 | the adjustment, address by address: the update of a section concerns exactly the addresses in its whole pages, if start and size are equally far past a page boundary, and only for RAM, or for ROM and ROM devices where the kernel knows read-only memory; it maps them if it adds RAM or a device in ROM mode and unmaps them otherwise; the host address is that of the region plus the offset in it |
| `KvmSlots.WrappedTestExact` | qemu-tz/kvm-all.c:163-185 | the overlap test in 64-bit arithmetic is right exactly unless an overlapping slot or section ends at 2^64 |
| `KvmSlots.WrappedTest` | qemu-tz/kvm-all.c:163-185 | the overlap test in 64-bit arithmetic sees exactly the overlaps in which neither range ends at 2^64 |
| `KvmSlots.LastPageUnseen` | qemu-tz/kvm-all.c:163-185 | a slot with the last page of the address space is not found by its own range |
| `KvmSlots.UnseenIff` | qemu-tz/kvm-all.c:163-185 | a change hits a slot that is not found exactly if a mapped address that the section decides is in a slot that ends at 2^64, or the section decides the last address |
| `KvmSlots.InsideIff` | qemu-tz/kvm-all.c:613-771 | no slot meets a range exactly if no address of it is mapped |
| `KvmSlots.MapsOnce` | qemu-tz/kvm-all.c:613-771 | disjoint slots give each guest address one host address |
| `KvmSlots.CutMaps` | qemu-tz/kvm-all.c:711-749 | replacing a slot by its prefix and suffix changes no address outside of the section |
| `KvmSlots.CutMeets` | qemu-tz/kvm-all.c:711-749 | each round leaves one overlapping slot less, and none if both a prefix and a suffix remain |
| `KvmSlots.KVMState.AllocSlot` | qemu-tz/kvm-all.c:128-140 | a free slot, or an abort exactly when all are in use |
| `KvmSlots.KVMState.LookupOverlapping` | qemu-tz/kvm-all.c:163-185 | among the slots that the 64-bit test sees, the one with the lowest start, or none exactly when it sees none |
| `KvmSlots.KVMState.SetUserMemoryRegion` | qemu-tz/kvm-all.c:204-224 | the kernel takes a range exactly if its slot is free and it meets no other one; if it does, its copy is that of the program |
| `KvmSlots.KVMState.PutBack` | qemu-tz/kvm-all.c:711-749 | a prefix or suffix is put into a free slot and taken by the kernel, or the program aborts exactly when all slots are in use |
| `KvmSlots.KVMState.Cut` | qemu-tz/kvm-all.c:667-750 | slots stay disjoint and the map is unchanged outside of the section; it cannot run out of slots when one was free |
| `KvmSlots.KVMState.SetPhysMem` | qemu-tz/kvm-all.c:613-771 | every address that the section decides is mapped to its place in the memory of the region, or unmapped, and all others stay, exactly unless a slot is not found because it or the section ends at 2^64; then an addition aborts, and the deletion of a section that ends there changes nothing; nothing changes if the range is already mapped that way by one slot; slots stay disjoint; at most two more slots, or one for a deletion, and that many free slots suffice |
| `KvmSlots.Replay` | qemu-tz/kvm-all.c:613-771 | after any run of additions and deletions in which no update hits an unseen slot every address is mapped as the latest section that decides it says; none does if no section ends at 2^64, and then two slots per section suffice |
| `KvmSlots.StaysForEver` | qemu-tz/kvm-all.c:613-771 | RAM in the last page of the address space is added, deleted again, and still mapped |
| `EventLoop.UnlinkKeeps` | qemu-tz/async.c:90-99 | unlinking a node through the link that leads to it keeps the rest of the list linked |
| `EventLoop.FlagsHistory` | qemu-tz/async.c:72-146 | scheduling, cancelling, deleting and running keep the balance of schedulings, runs and cancellations |
| `EventLoop.FreeHistory` | qemu-tz/async.c:93-96 | freeing a deleted bottom half keeps the balance |
| `AioCalls.HeedsTransitive` | qemu-tz/aio-posix.c:122-173 | over any sequence of activities, a handler that was ready and a bottom half that was pending stay so until they are called, changed or taken back; progress of the whole is progress of a part, of bottom halves and of others apart |
| `AioCalls.HeedsVisit` | qemu-tz/aio-posix.c:140-158 | a visit takes what a handler was ready for and calls it for all of that, unless it is changed or removed before its write callback |
| `AioCalls.HeedsVisitBh` | qemu-tz/async.c:72-82 | a visit to a pending bottom half takes its flag and calls it, so that nothing pending is forgotten |
| `AioCalls.HeedsWait` | qemu-tz/aio-posix.c:196-231 | overwriting what handlers are ready for does no harm after a dispatch |
| `AioCalls.HeardSince` | qemu-tz/aio-posix.c:122-173 | a handler that is called by a nested walk counts as called for the outer one |
| `AioCalls.BhHeardSince` | qemu-tz/async.c:60-104 | a bottom half that is called by a nested walk counts as called for the outer one |
| `AioCalls.GainOne` | qemu-tz/async.c:72-82 | what callbacks do inside a callback does not count as progress of the walk around it |
| `AioPoll.AfterTransitive` | qemu-tz/async.c:60-104 | what any activity keeps is kept by any sequence of activities: nodes of a list that is being walked are neither freed nor moved |
| `AioPoll.Ahead` | qemu-tz/async.c:68-71 | the node that a suspended walk has saved as next is live and where it was |
| `AioPoll.RunsAtMostOncePerScheduling` | qemu-tz/async.c:60-146 | over any stretch of any run a bottom half runs at most once per scheduling, and never once it was deleted |
| `AioPoll.AioContext.BhNew` | qemu-tz/async.c:43-57 | exactly one new bottom half, at the head of the list, with no flag set |
| `AioPoll.AioContext.BhSchedule` | qemu-tz/async.c:118-129 | scheduled and not idle if it was not scheduled; no other flag changes |
| `AioPoll.AioContext.BhScheduleIdle` | qemu-tz/async.c:106-116 | scheduled and idle if it was not scheduled; no other flag changes |
| `AioPoll.AioContext.BhCancel` | qemu-tz/async.c:134-137 | not scheduled any more; no other flag changes |
| `AioPoll.AioContext.BhDelete` | qemu-tz/async.c:142-146 | not scheduled and marked, not freed; no other flag changes |
| `AioPoll.AioContext.Sweep` | qemu-tz/async.c:87-101 | frees exactly the deleted bottom halves and leaves all flags of the others |
| `AioPoll.AioContext.VisitBh` | qemu-tz/async.c:72-82 | the callback is called exactly if the bottom half is pending, and it is progress exactly if it is not idle |
| `AioPoll.AioContext.BhPoll` | qemu-tz/async.c:60-104 | with callbacks that do anything, nested polls included: every bottom half that was pending is called, or taken back first; progress exactly if this walk called one that is not idle; no node held by an outer walk is freed, and when the outermost walk is over no deleted one is left |
| `AioPoll.AioContext.FindAioHandler` | qemu-tz/aio-posix.c:32-43 | the handler of the descriptor that is not deleted, or none exactly if there is none |
| `AioPoll.AioContext.SetFdHandler` | qemu-tz/aio-posix.c:45-93 | the descriptor has one live handler with these callbacks and events, or none, and all handlers of other descriptors are as they were; a handler is freed at once only when no walk is going on; no other handler that was ready is forgotten |
| `AioPoll.AioContext.VisitHandler` | qemu-tz/aio-posix.c:140-158 | the read callback is called exactly if the handler was ready to read, the write callback if it was ready to write and is not changed in between, and only if something to write was reported; progress exactly if a callback was called that is not the notifier's; the handler is still allocated after them, whatever they do |
| `AioPoll.AioContext.Dispatch` | qemu-tz/aio-posix.c:122-173 | every handler that is ready when the walk begins is called for it, or changed or removed first, whatever callbacks and nested walks do; progress exactly if this walk or a timer called a callback other than the notifier's; no handler held by an outer walk is freed; handlers deleted before the outermost call are gone after it |
| `AioPoll.AioContext.FillPollfds` | qemu-tz/aio-posix.c:200-213 | each live handler that waits for something gets its own place in the array, and there is nothing else in it |
| `AioPoll.AioContext.CopyRevents` | qemu-tz/aio-posix.c:223-231 | each such handler gets what was reported for its own descriptor |
| `AioPoll.AioContext.WaitAndDispatch` | qemu-tz/aio-posix.c:196-242 | each live handler gets what was reported for it, and is called for it or changed |
| `AioPoll.AioContext.RunPoll` | qemu-tz/aio-posix.c:175-242 | a whole poll, with all nested ones, keeps both lists, all histories and everything held by outer walks; every bottom half that was pending and every handler that was ready is called, or changed or taken back; it stops then exactly if that was progress and it was not to block or a bottom half made progress; otherwise each handler gets what is reported for its descriptor and is called for it, or changed; the result is true exactly if a callback was called that counts as progress |
| `AioPoll.ReportedIsCalled` | qemu-tz/aio-posix.c:175-242 | a handler that is there when `aio_poll` is called and comes to wait: if something is reported for its descriptor that its read or write callback is for, that callback is called, or the handler is changed or removed |
| `AioPoll.WatchesWhatItTakes` | qemu-tz/aio-posix.c:88-89 | a handler waits for exactly the conditions that one of its callbacks is called for |
| `AioPoll.AioContext.RunScript` | qemu-tz/aio-posix.c:122-242 | any callback keeps all that, nested polls included |
| `AioPoll.RunProgram` | qemu-tz/async.c:60-104 | any program on a new context: at most one live handler per descriptor, all walks over, and after one more poll no deleted bottom half |
| `CpuTlb.ShiftIsCoarser` | qemu-tz/cputlb.c:214-216 | shifting the mask gives a smaller, coarser mask: the widening loop ends |
| `CpuTlb.CoveredAddresses` | qemu-tz/cputlb.c:90 | an address of a covered page is in the flush region |
| `CpuTlb.CoveredWider` | qemu-tz/cputlb.c:213-218 | a coarser mask keeps every page in the region |
| `CpuTlb.CoveredNew` | qemu-tz/cputlb.c:213-218 | when the loop ends the new page is in the region |
| `CpuTlb.IndexBitsMeaning` | qemu-tz/cputlb.c:104 | two addresses have the same place in the TLB exactly if they agree in the eight bits above the page offset |
| `CpuTlb.Widen` | qemu-tz/cputlb.c:213-216 | ends with the finest mask that puts the old region and the new page together |
| `CpuTlb.WiderRegion` | qemu-tz/cputlb.c:210-218 | every larger page entered before stays in the region, and the new one is in it |
| `CpuTlb.HitIsEntered` | qemu-tz/cputlb.c:267-296 | only pages that were entered since the last full flush are translated |
| `CpuTlb.FlushRowGone` | qemu-tz/cputlb.c:68-78 | after the flush no tag of the mode matches an address of the page |
| `CpuTlb.FlushRowKeeps` | qemu-tz/cputlb.c:68-78 | all other pages of the mode are as they were |
| `CpuTlb.FlushRowEntries` | qemu-tz/cputlb.c:68-78 | the entries that translate other pages are not touched |
| `CpuTlb.NewEntryMatches` | qemu-tz/cputlb.c:253-296 | the new entry matches exactly the addresses of its page, for exactly the accesses that the protection allows, whatever flag bits the tag carries |
| `CpuTlb.NewReadTag` | qemu-tz/cputlb.c:253-281 | reads go to memory directly exactly for RAM and ROM without a watchpoint |
| `CpuTlb.NewWriteTag` | qemu-tz/cputlb.c:253-296 | writes go to memory directly exactly for RAM that is not read-only, without a watchpoint, and are recorded exactly if that RAM is clean |
| `CpuTlb.NewCodeTag` | qemu-tz/cputlb.c:253-286 | instructions are fetched from memory directly exactly for RAM and ROM |
| `CpuTlb.RelatedIsSame` | qemu-tz/cputlb.c:89-98 | outside of the flush region two addresses share an entered page only if they share a TLB entry |
| `CpuTlb.CPUTLB.Flush` | qemu-tz/cputlb.c:49-66 | no mode translates any address |
| `CpuTlb.CPUTLB.AddLargePage` | qemu-tz/cputlb.c:200-219 | every larger page since the last full flush lies in the region, the new one included, and no smaller region would do |
| `CpuTlb.CPUTLB.FlushPage` | qemu-tz/cputlb.c:80-110 | no mode translates the address any more, nor any address of any page, large or small, that was entered and contains it; everything is flushed exactly if the address is in the region of larger pages, otherwise other pages are as they were |
| `CpuTlb.CPUTLB.SetPage` | qemu-tz/cputlb.c:224-297 | the entry is put at the index of its page in one mode; all pages entered stay tracked, and the region changes only for a larger page |
| `RamList.WrappedTestExact` | qemu-tz/exec.c:748-752 | the test with one unsigned subtraction is containment |
| `RamList.SearchFinds` | qemu-tz/exec.c:751-755 | in disjoint blocks a search of the list finds the block that contains the address |
| `RamList.NextStartMeaning` | qemu-tz/exec.c:1154-1162 | the inner loop gives the start of the next block, or the end of the address space |
| `RamList.GapIsFree` | qemu-tz/exec.c:1153-1167 | a fitting gap after a block holds no part of any block |
| `RamList.RAMList.GetRamBlock` | qemu-tz/exec.c:742-763 | with its cache, the same block as a search of the whole list |
| `RamList.RAMList.FindRamOffset` | qemu-tz/exec.c:1143-1176 | the first of the smallest fitting gaps that follow some block; an abort exactly if none fits |
| `RamList.RAMList.FindPlace` | qemu-tz/exec.c:1301-1306 | the first block that is smaller |
| `RamList.RAMList.Alloc` | qemu-tz/exec.c:1256-1313 | the size is rounded up to whole pages; the list gains exactly the new block, in the chosen gap and before the first block that is smaller; blocks stay disjoint and in order of size; an abort exactly if no gap fits or the rounded size is zero |
| `RamList.RAMList.Free` | qemu-tz/exec.c:1362-1391 | the block at the address is gone and all others stay, in order |
| `Multiwrite.SortMeaning` | qemu-tz/block.c:4351-4376 | a permutation in order of the start sectors |
| `Multiwrite.MergedIsBoth` | qemu-tz/block.c:4394-4414 | merging two requests writes, sector by sector, what the two write one after the other exactly when the second does not end inside the first |
| `Multiwrite.MergedBytes` | qemu-tz/block.c:4395-4412 | the bytes of the merged vector are those of the first request before the start of the second and then all of the second; the new length in sectors is right, and no more pieces are needed than were allocated |
| `Multiwrite.MergedValue` | qemu-tz/block.c:4394-4414 | each sector of the merged request is that of the second request from its start on, and that of the first before |
| `Multiwrite.MergeTwo` | qemu-tz/block.c:4394-4414 | the merged request as the code builds it, piece by piece from the two vectors |
| `IoVector.Concat` | qemu-tz/util/iov.c:298-336 | adds the pieces of some bytes of a vector, from any offset |
| `IoVector.SliceMeaning` | qemu-tz/util/iov.c:298-320 | those pieces hold exactly the bytes asked for, as far as there are any, in no more pieces |
| `Multiwrite.EmptyRequestWipesOut` | qemu-tz/block.c:4394-4414 | two requests that do not overlap, one of them empty, whose merge loses the data of the other |
| `Multiwrite.MergeNext` | qemu-tz/block.c:4381-4421 | one round: merged into the last request, or kept apart when the vector would be too long; every sector holds what the requests so far leave in it, or, where it is lost, what it held before the requests that were merged |
| `Multiwrite.GrownAgrees` | qemu-tz/block.c:4394-4414 | merging the next request: the sectors that come out wrong are those that were, unless rewritten, and those between its end and the end of the request before it |
| `Multiwrite.LeftIsWritten` | qemu-tz/block.c:4370-4424 | a sector in which no request of the sorted batch ends inside the one before it holds what the batch leaves in it |
| `Multiwrite.LeftWhereLost` | qemu-tz/block.c:4370-4424 | a lost sector holds what it held before the requests that were merged, although the batch wrote it |
| `Multiwrite.MultiwriteMerge` | qemu-tz/block.c:4370-4424 | for every batch, overlapping or not, and for any number of pieces: the requests left leave in each sector what the sorted requests leave in it, except where a request ends inside the one it is merged with and no later one writes the sector; there they leave what the sector held before those requests; below the limit on pieces exactly these sectors come out wrong, and no two requests left touch; for non-empty, pairwise disjoint writes the sector-to-data map is that of the batch; no vector is put together with too many pieces |
| `Multiwrite.FirstErrorMeaning` | qemu-tz/block.c:4338-4340 | the error reported is the first failure, and 0 exactly if no write failed |
| `Multiwrite.MultiwriteCB.Complete` | qemu-tz/block.c:4332-4347 | no callback before the last merged write is complete; then each one |
| `Multiwrite.RunBatch` | qemu-tz/block.c:4319-4347 | whatever the writes return, each original callback is called exactly once, with the first error |
| `Multiwrite.AioMultiwrite` | qemu-tz/block.c:4440-4482 | each callback of the batch is called once, however many writes it was merged to and whatever they return; without a medium every request gets the error, nothing is written and no callback is called |
| `WriteZeroes.ChunksTile` | qemu-tz/block.c:3168-3191 | the pieces follow each other from the first sector to the last, each positive and within the limit |
| `WriteZeroes.TilesHit` | qemu-tz/block.c:3168-3191 | such pieces write each requested sector and no other |
| `WriteZeroes.BulkIsAligned` | qemu-tz/block.c:3171-3186 | every piece after the first begins aligned when the limit is a multiple of the alignment |
| `WriteZeroes.BulkAlignedIff` | qemu-tz/block.c:3171-3191 | for all requests, every piece after the first begins aligned exactly when the limit is a multiple of the alignment |
| `WriteZeroes.BulkWholeIff` | qemu-tz/block.c:3171-3191 | for all requests, every piece longer than the alignment begins and ends aligned exactly when the limit is a multiple of the alignment or smaller than it |
| `WriteZeroes.PieceIsLong` | qemu-tz/block.c:3168-3191 | pieces are as long as they may be: one that is within the limit and does not end the request ends on the next aligned sector, or on the last one if it begins aligned |
| `WriteZeroes.NextSize` | qemu-tz/block.c:3168-3191 | the size of the next piece |
| `WriteZeroes.ZeroWriter.WriteChunk` | qemu-tz/block.c:3193-3217 | what the driver says about the piece, zeroes or, if it cannot, as many bytes; the bounce buffer is never too small, also when it was kept from an earlier piece |
| `WriteZeroes.ZeroWriter.DoWriteZeroes` | qemu-tz/block.c:3157-3225 | the driver is given the pieces in order up to the first that fails, with its answer as the result; on success exactly the requested sectors are zero, otherwise exactly those of the pieces before |
| `ElfDump.MemoryIsUnique` | qemu-tz/dump.c:463-501 | blocks in order give each guest address one content |
| `ElfDump.PartsAreMemory` | qemu-tz/dump.c:463-484 | what the filter lets through of the blocks is guest memory |
| `ElfDump.ClippedMeaning` | qemu-tz/dump.c:463-484 | the part of a block that is dumped holds exactly its addresses that pass the filter |
| `ElfDump.ImageAt` | qemu-tz/dump.c:486-501 | an address of a part is found in the file after the parts before it |
| `TargetBytes.ValueOfWord` | qemu-tz/dump.c:39-72 | a number in target byte order is read back modulo the size of its field |
| `TargetBytes.ByteOrder` | qemu-tz/dump.c:39-72 | the least significant byte comes last in big-endian order and first in little-endian order |
| `ElfHeaders.LoadCountIff` | qemu-tz/dump.c:504-541 | as many program headers are written as the file is laid out for exactly unless the 32-bit number of mappings has come back to zero |
| `ElfHeaders.AllLoadsIff` | qemu-tz/dump.c:504-541 | every mapping gets its program header exactly when there are fewer than 2^32 - 1 |
| `ElfHeaders.PhdrReadIff` | qemu-tz/dump.c:214-266 | a program header is read back as it was meant exactly if every number fits into its field |
| `ElfHeaders.FrontFillsIff` | qemu-tz/dump.c:1656-1692 | the headers and notes fill the room before the memory exactly unless the 32-bit number of mappings has come back to zero; then they are one program header too long |
| `ElfDump.LayOut` | qemu-tz/dump.c:1656-1692 | the number of program headers, whether there is a section header, and the offset of the memory |
| `ElfDump.DumpState.GetOffsetRange` | qemu-tz/dump.c:443-502 | the offset and file size of any piece of guest memory are true of the file that is written later, as far as one block and the filter go; no offset exactly if the first byte is not written |
| `ElfDump.DumpState.WriteElfLoads` | qemu-tz/dump.c:504-541 | a program header for each mapping, in order, with offset and size of its memory, until the headers that the file is laid out for are used up |
| `ElfDump.DumpState.DumpBegin` | qemu-tz/dump.c:543-630 | ELF header, program headers, section header if there is one, and notes, in this order |
| `ElfDump.DumpState.WriteMemory` | qemu-tz/dump.c:417-440 | page by page and the rest: exactly the bytes |
| `ElfDump.DumpState.Seek` | qemu-tz/dump.c:638-663 | the next block in range; the blocks passed over add nothing to the file |
| `ElfDump.DumpState.DumpIterate` | qemu-tz/dump.c:666-693 | exactly the parts that pass the filter are written, in order |
| `ElfDump.DumpState.CreateVmcore` | qemu-tz/dump.c:695-710 | the file is the headers and notes and then exactly the memory that passes the filter |
| `ElfDump.DumpState.MemoryBeginsIff` | qemu-tz/dump.c:1656-1692 | the memory begins where the program headers say exactly unless the 32-bit number of mappings has come back to zero |
| `ElfDump.DumpState.LoadIsTrue` | qemu-tz/dump.c:443-541 | the file bytes that a program header names are the guest memory it names, and p_filesz <= p_memsz |
| `ElfDump.DumpState.NoOffsetIsTrue` | qemu-tz/dump.c:453-462 | a program header has no offset exactly if its memory does not begin with a dumped address |
| `ElfDump.DumpState.ReaderFindsLoad` | qemu-tz/dump.c:214-266 | a reader of the finished file finds the header of each mapping at its place, as it was meant exactly if its numbers fit |
| `ElfDump.DumpState.ReaderReads` | qemu-tz/dump.c:214-266 | for every mapping, whether its numbers fit or not, a reader finds type, virtual and physical address, size, offset and file size of the mapping in its header, cut to the width of the fields; without an offset all bits of the field are set and the file size is zero |
| `ElfDump.DumpState.ReaderIsTold` | qemu-tz/dump.c:504-541 | what such a header says, virtual and physical address, size and offset, is true of the mapping and of the bytes of the finished file |
| `ElfDump.DumpState.ReaderFindsNotes` | qemu-tz/dump.c:268-290 | the first program header leads a reader to the notes, with their size and no address |
| `ElfDump.DumpGuestMemory` | qemu-tz/dump.c:1542-1703 | from the layout to the finished file: with fewer than 2^32 - 1 mappings every mapping has its header and the memory begins where they say; it fails only if the filter lets nothing through |
| `FlatFile.PutsUndisturbed` | qemu-tz/dump.c:754-773 | records elsewhere do not change bytes of the file |
| `FlatFile.DataCache.Write` | qemu-tz/dump.c:1188-1218 | buffered output: what was written so far is in the file or in the buffer, in order |
| `FlatFile.DataCache.Sync` | qemu-tz/dump.c:1188-1218 | the file holds everything that was written to the cache, where direct writes would have put it |
| `DumpBitmap.WithBitMeaning` | qemu-tz/dump.c:1061-1067 | the or, or the and with the complement, of the mask of a bit sets or clears it and keeps the other bits |
| `DumpBitmap.OneBit` | qemu-tz/dump.c:1061-1067 | the bitmap with one bit changed |
| `DumpBitmap.MoreZeroes` | qemu-tz/dump.c:1056-1057 | a fresh buffer has no bit set |
| `DumpBitmap.BitmapBuffer.Set` | qemu-tz/dump.c:1021-1070 | the bit is set or cleared, and all complete buffers before it are in both bitmaps |
| `DumpPages.PageIterator.Next` | qemu-tz/dump.c:1078-1122 | the next page of guest memory with its contents, in order of page numbers, or the end exactly when all were given |
| `DumpPages.PagesAreMemory` | qemu-tz/dump.c:1078-1122 | every page given is guest memory |
| `DumpPages.GuestPageListed` | qemu-tz/dump.c:1078-1122 | every guest page is given |
| `DumpPages.AllPagesIncrease` | qemu-tz/dump.c:1078-1122 | page numbers strictly increase: descriptors are in the order of the bits |
| `Kdump.DecodeEncode` | qemu-tz/dump.c:1411-1416 | a page descriptor in target byte order is read back |
| `Kdump.LenCovers` | qemu-tz/dump.c:1621-1623 | the length of a bitmap is exactly that of the buffers that are written |
| `Kdump.LayoutIff` | qemu-tz/dump.c:882-888 | headers, bitmaps and pages follow each other without overlap exactly when the end of the bitmaps fits into 32 bits |
| `Kdump.BitmapPlace` | qemu-tz/dump.c:882-888 | the bitmaps begin with the first block after the headers |
| `Kdump.BitmapLength` | qemu-tz/dump.c:1621-1623 | a bitmap has as many blocks as the page numbers need |
| `Kdump.LayoutWraps` | qemu-tz/dump.c:882-888 | with 2^34 page numbers the pages are placed on top of the first bitmap |
| `Kdump.PagesReadable` | qemu-tz/dump.c:1273-1433 | descriptors and data, each through its cache, give back every page |
| `Kdump.PageWriter.Put` | qemu-tz/dump.c:1331-1422 | the page is stored, compressed if that is shorter, or shares the zero page, and its descriptor points to it with the right flags |
| `Kdump.PageWriter.Finish` | qemu-tz/dump.c:1424-1433 | both caches are in the file, neither over the other |
| `Kdump.WriteDumpBitmap` | qemu-tz/dump.c:1124-1176 | the bits of both bitmaps are those of the guest's pages, and the number of pages is their number |
| `Kdump.WriteDumpPages` | qemu-tz/dump.c:1273-1433 | every page can be read back through its descriptor |
| `Kdump.CreateKdumpVmcore` | qemu-tz/dump.c:1448-1504 | a reader of the finished file finds the contents of every page, and, if the bitmaps end below 4 GiB in the file, the headers and in both bitmaps the bit of a page exactly if it is a guest page |

## Left out

- PhysPageMap.PageMap.PageSet: for fresh pages only, as the callers guarantee; below an entry that is a leaf already the code would take the number of a section for that of a node (`exec.c:179-191`).
- Dispatch.Rebuild: sections of size zero are excluded, since the flat view never contains them (`memory.c:558-584`); the number of sections is limited by the code's own assertion, which makes the result `ok` false.
- BlockReads.ReadReturns: reads beyond the end of a growing image, which give zeroes, are not modelled.
- BlockRuns.NoLostUpdate: plain data writes; writes with the zero flag that need padding, and failing driver calls half way through a write, are not modelled beyond a request that ends without success.
- RamMigration.Migrate: the list of RAM blocks does not change during the migration, and the log is clear beyond the end of RAM at the start; version changes of the list and RDMA hooks are not modelled.
- RamMigration.Migration.GuestRead: stands for the concurrently running guest; memory ordering is not modelled.
- KvmSlots.KVMState.SetPhysMem: on a KVM without the join bug; slot flags and dirty logging are not modelled, and a section of all 2^64 bytes, whose size the code cannot convert, is not treated separately.
- AioPoll.AioContext.RunPoll: waiting itself is not modelled, only what it reports; threads, notifications and timer lists are not modelled, an expired timer is one more script.
- CpuTlb.CPUTLB.SetPage: page-aligned addresses and sizes that are powers of two, as the targets pass them; the translation addend, the I/O table and the jump cache are not modelled. The table is a sequence of rows that is reassigned, not an array.
- CpuTlb.CPUTLB.AddLargePage: for sizes that are powers of two, as the targets pass them.
- RamList.RAMList.Alloc: host memory, the dirty bitmap and the version counter are not modelled.
- Multiwrite.MultiwriteMerge: the library sort is an insertion sort here, but only that it sorts is promised.
- ElfDump.DumpState.CreateVmcore: the bytes of the ELF header, of the section header and of the notes are arguments, the mappings are given, and failing writes are not modelled.
- Kdump.CreateKdumpVmcore: what is left of headers and bitmaps that end beyond 4 GiB is not stated, only that the regions overlap (`LayoutIff`); files of 2^64 bytes or more are excluded; the fields of the headers and the notes are arguments, and the compressors an abstract inverse pair.
- Xen, IOMMU translation, watchpoints, throttling, coroutine back ends, block migration, and the device and command plumbing around these parts.
