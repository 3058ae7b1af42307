# HAMMER2: a verified model of the core

HAMMER2 is a copy-on-write filesystem. This project models the parts of it that are pure
algorithm and state, and proves what the rest of the filesystem relies on:

* **Block tables and the radix tree** (`BlockTable`, `ChainScan`, `LiveCount`, `LiveRun`,
  `RadixTree`, `DirectoryKey`, `FileKey`, `Indirect`). A node holds a sorted array of key ranges
  with holes, edited in place. Search, insertion and deletion refine the obvious set operations,
  and the merged view of array and in-memory chains is enumerated exactly once. Over any run of
  loading, creating, modifying, deleting, dropping and flushing chains, and of moving them
  between any number of parents by splits and collapses, the live count is the number of keys in
  that view, so that a slot is there whenever the flush enters a chain, and no reference gets
  lost between parents. Splitting or collapsing nodes anywhere in the tree changes no lookup.
* **Block allocation and the two-stage collector** (`FreemapSegment`, `Freemap`, `Collector`,
  `Bulkfree`, `BulkfreeWindow`, `BulkfreeScan`, `BulkfreePass`, `BulkfreeVolume`). What the
  allocator hands out is disjoint and in bounds; it says "no space" exactly if there is none,
  and takes a segment of another class of data only in relaxed mode, which it enters only if it
  must; free-space counts are conserved; the collector, running beside allocation and
  deduplication, never frees a referenced block; its topology walk terminates and marks exactly
  what is reachable in its window, and the merge moves exactly the other blocks one stage nearer
  to free; a pass of several windows merges every segment once.
* **LZ4** (`Lz4Format`, `Lz4Decoder`, `Lz4Encoder`, `Lz4Overshoot`). The decoder with its
  overlapping wide copies equals a byte-at-a-time reference decoder; the encoder writes the
  block of a greedy plan that depends on the input alone, and succeeds exactly if that block
  fits the limit although it checks estimates along the way; the block decodes to the input.
  Which inputs lead the encoder past its output limit is settled exactly.
* **Red-black trees** (`RbTree`, `RbInsert`, `RbErase`, `RbRemove`, `RbScan`). Insertion and
  removal with parent links keep links, order, colors and black height; walks follow the order.
* **Flush** (`Flush`, `FlushTree`, `FlushTable`). Dirty flags reach every ancestor they must,
  whether chains are loaded, created, modified, deduplicated, moved or deleted, and after a
  flush every chain's reference, with the right check code, is in its parent's table, and
  entries of chains that are not in memory have stayed. A table is a map here; `FlushTable`
  shows that the array of `BlockTable` stands for that map before and after a chain is entered,
  and has room for it.
* **Two state machines**: inode dependency groups (`InodeDepend`) and the upgradeable recursive
  lock (`Ccms`), which grants and refuses exactly what the holds of the threads call for.

`Prelude` holds what several modules share.

Code that works in place is modelled by classes and methods with loops (arrays for block tables,
bitmaps, LZ4 buffers and the visited cache; fields of type `seq` and `map` for lists and
indexes). Each such method is proved against a specification that is stated without reference to
how the method works. Concurrent protocols are state machines whose steps are the sections the
code makes atomic. `dafny verify dfyconfig.toml` checks the whole project.

Conventions: keys are 64-bit words and a range may end at 2^64, which a word shows as 0 (`KEYS`,
`Limit`, `Word`); `keybits` is at most 63 where the code shifts by it. A bitmap word is modelled
as its 32 two-bit fields, and a test under a shifted mask as a test of a run of fields. In
proofs, `hide` statements keep definitions out of the solver's sight where they are not needed.

## Where code and promises part

* **LZ4 output limit.** `hammer2_lz4.h:81` promises that the compressor never writes outside the
  output buffer. Literals are copied in blocks of eight (`hammer2_lz4.c:219`) behind a check that
  estimates their continuation bytes as length / 256 (`hammer2_lz4_encoder.h:156`). The estimate is
  too low for long runs: `BlindCopyInsideIff` says exactly for which lengths an accepted copy stays
  within the limit; the first that does not is 5625, by one byte. A run of that length ends at a
  probe of the match search, and the search's steps are 13 bytes there (`Probe`), so that the input
  has 5652 bytes at least. `OvershootsIff`: some input of n bytes has its first literals copied past
  some limit exactly if n is 5652 or more. `Overshoot` is such a call: four-byte words that are all
  different, but for six bytes from 5625 on that repeat what is 13 bytes before, and a limit of
  5655; byte 5655 is stored. `CompressLimitedOutput` is the other half: inputs of fewer than 5652
  bytes are compressed without a byte being stored at or past the limit, whatever that is, longer
  ones without a byte more than `Slack` past it, which is one byte and one more for every 65280
  input bytes. The filesystem's own caller offers half of a buffer as the limit.
* **Splitting a file's node.** The comment at `hammer2_chain.c:3846-3848` says that the new
  indirect block must hold at least two keys in order to guarantee sufficient space. Its range is
  a fixed radix above the smallest element, and sparse keys leave that element alone in it:
  `SplitFile` frees a slot exactly if the range has another element in it,
  `SparseSplitFreesNothing` gives a full inode, whose indirect block has 128 slots and so a range of
  23 bits, whose split frees none. The slot for the block itself
  is there all the same (`LiveCount.Core.Split`), and the creation meets a full parent again
  (`CreateSplitting`).
* **Moving a chain with its entry.** `hammer2_chain_rename_obref` clears the update flag of a moved
  chain whose reference equals the entry it had (`hammer2_chain.c:3074-3078`). That keeps the
  conditions of the flush exactly if a modified chain differs from its entry (`ReenterReady`).
* **Collapsing an indirect block.** A new directory block's range is widened to its number of
  slots, so a block can be wider than the block that holds it. Collapsing the holder then inserts
  the wide block across a sibling of the holder. `CollapseKeeps` gives the exact condition under
  which the node stays sorted and disjoint, `WideBlockCollides` a tree in which it does not although
  the tests for a collapse pass; `InsideIsClear` covers the usual case.
* **Recovery mark.** Sharing a block through deduplication marks it allocated again, but at its
  block number modulo 16 although an element holds 32 (`hammer2_freemap.c:881`). `Bmap.Recover`
  models that position; the collector's safety does not depend on where the mark lands.
* **Reserved zones.** The comment at `hammer2_freemap.c:702-706` speaks of the first 4MB of every
  2GB; `H2FMZONEBASE` (`hammer2_disk.h:358`) reserves the first 4MB of every 1GB, and that is what
  is modelled.

## Model

| member | source | states |
|---|---|---|
| `BlockTable.NearestLeast` | hammer2_chain.c:4205-4278 | the index a search returns is the least entry reaching the key, or the table size exactly if no entry does |
| `BlockTable.NearestUnique` | hammer2_chain.c:4205-4278 | a search has one answer, so the cached index it starts from cannot change it |
| `BlockTable.MeetsIs` | hammer2_chain.c:1674-1688 | the test that compares the ends of two ranges of keys decides whether they have a key in common |
| `BlockTable.FoundPosition` | hammer2_chain.c:4543-4550 | the position found for a new element is right exactly if it meets no entry, which is what the overlap test decides |
| `BlockTable.ShiftDownEntries` | hammer2_chain.c:4556-4567 | shifting entries down into an empty slot adds exactly the new element to the set of entries |
| `BlockTable.ShiftUpSound` | hammer2_chain.c:4568-4581 | shifting up keeps the table sorted and disjoint and adds exactly the new element |
| `BlockTable.ZeroSound` | hammer2_chain.c:4449-4458 | zeroing a slot keeps the table sorted and disjoint and removes exactly that entry |
| `BlockTable.Shares` | hammer2_chain.c:4500-4534 | what an entry adds to its parent, type by type: its size, which is the power of two of the low six bits of its offset or nothing; for inodes and indirect blocks the data count embedded in it; for an inode one inode more than it counts, for an indirect block as many |
| `BlockTable.ShiftDownSums` | hammer2_chain.c:4500-4534 | data and inode totals after a shift down are the old totals plus the new element's share |
| `BlockTable.ShiftUpSums` | hammer2_chain.c:4500-4534 | the same for a shift up |
| `BlockTable.Table.Find` | hammer2_chain.c:4205-4278 | whatever the cached index is, the result is the entry nearest to the key, and the next-key bound is lowered to that entry's end |
| `BlockTable.Table.Backward` | hammer2_chain.c:4223-4246 | walking back from the cached index skips no entry that reaches the key |
| `BlockTable.Table.Insert` | hammer2_chain.c:4473-4604 | refines set insertion: overlap is reported exactly if some range meets the element, no room exactly if every slot is in use; order, last-entry mark and totals are kept |
| `BlockTable.Table.InsertAt` | hammer2_chain.c:4552-4583 | the alternating search for an empty slot succeeds exactly if there is one, and then inserts |
| `BlockTable.Table.Append` | hammer2_chain.c:4536-4541 | an element behind all entries is added behind the last, and the last-entry mark moves with it |
| `BlockTable.Table.MoveDown` | hammer2_chain.c:4556-4567 | the memmove toward lower slots inserts exactly the element and leaves a valid table |
| `BlockTable.Table.MoveUp` | hammer2_chain.c:4568-4581 | the memmove toward higher slots inserts exactly the element and leaves a valid table |
| `BlockTable.Table.Delete` | hammer2_chain.c:4368-4463 | refines set removal by key (and range unless an update is pending); totals drop by the removed entry's share; otherwise nothing changes |
| `ChainScan.Consider` | hammer2_chain.c:1656-1740 | one visited chain updates candidate and next key so that they are exact for all chains visited so far |
| `ChainScan.Parent.ChainFind` | hammer2_chain.c:1656-1740 | in whatever order chains are visited, the result is the one with the least key that meets the range; the next key is lowered to its end if that is less, and unchanged if there is none |
| `ChainScan.Choose` | hammer2_chain.c:4296-4359 | picking the nearer of table and chain candidate, the chain on equal keys, yields the least element of the merged view |
| `ChainScan.Parent.CombinedFind` | hammer2_chain.c:4296-4359 | finds the least element of the merged view that meets the range, and says whether it is in memory; the next key is the end of the element found, or one past the range if that is less |
| `ChainScan.Parent.Resumed` | hammer2_chain.c:2237-2317 | searching again from each next key lists exactly the elements that meet the keys, each once, in ascending order |
| `ChainScan.Parent.Scan` | hammer2_chain.c:2459-2657 | returns the merged view's next element after the given one, and stops when the 64-bit key wraps |
| `ChainScan.Parent.Enumerate` | hammer2_chain.c:2459-2657 | repeated scans list the whole merged view once, in strictly ascending order |
| `LiveCount.UsedIsEntries` | hammer2_chain.c:1076-1102 | slots in use of a sorted table are its distinct entries |
| `LiveCount.Core.constructor` | hammer2_chain.c:1076-1102 | counting a table from its end gives the number of its entries |
| `LiveCount.LiveIsView` | hammer2_chain.c:2860-2863 | the live count is the number of keys that the parent has in its table or in memory |
| `LiveCount.Core.Load` | hammer2_chain.c:243-281 | putting the chain of an entry into memory changes no count |
| `LiveCount.Core.InsertLive` | hammer2_chain.c:243-281 | a new chain takes one slot, which must be free |
| `LiveCount.Core.Modify` | hammer2_chain.c:1217-1606 | a modified chain's entry is due for replacement, and no slot changes hands |
| `LiveCount.Core.Create` | hammer2_chain.c:2856-2907 | a chain is created unless all slots are spoken for, which is exactly when an indirect block is made |
| `LiveCount.Core.Delete` | hammer2_chain.c:3090-3190 | deleting a chain, with its entry or from memory only, gives back exactly one slot |
| `LiveCount.Core.LastDrop` | hammer2_chain.c:560-569 | dropping a chain gives a slot back exactly if the table does not have it |
| `LiveCount.Core.Unmap` | hammer2_flush.c:926-938 | taking out the entry of a chain that stays in memory keeps the live count |
| `LiveCount.Core.Map` | hammer2_flush.c:938-945 | entering a chain that has no entry always finds a slot and keeps the live count |
| `LiveCount.Core.Flush` | hammer2_flush.c:926-945 | flushing any chain leaves exactly its reference under its key and never finds the table full: the panic at hammer2_chain.c:4583 is unreachable |
| `LiveCount.Run` | hammer2_chain.c:4583 | over any sequence of loads, creations, modifications, deletions, drops and flushes the count stays exact and every entry at flush finds a slot; the states passed are those that the steps lead to |
| `LiveCount.Perform` | hammer2_chain.c:2856-2907 | what each of these steps does to entries, chains and count, and exactly when it does nothing |
| `LiveCount.Core.Receive` | hammer2_chain.c:3060-3080 | a moved chain takes one slot and gets its old entry, due for replacement exactly if the references differ |
| `LiveCount.Core.MoveTo` | hammer2_chain.c:3516-3525 | moving one element takes one from one parent's count and adds one to the other's; the two together have the references and the entries they had |
| `LiveCount.Core.MoveAll` | hammer2_chain.c:3406-3538 | moving a list of elements moves exactly these, with their references and entries, counts included |
| `LiveCount.Core.Remove` | hammer2_chain.c:3516-3525 | taking out one element takes its reference, and its entry if it has one, and nothing else |
| `LiveCount.Core.Split` | hammer2_chain.c:3406-3553 | the slot for the new indirect block is there when it is inserted, both counts are exact afterwards, and no reference but the block's is new or gone |
| `LiveCount.Core.CreateSplitting` | hammer2_chain.c:2865-2907 | creating under a full parent succeeds after the split, unless the one parent gave up a single element or the new block is full itself; the chain is then below the side its key falls into |
| `LiveCount.Core.Collapse` | hammer2_chain.c:3623-3731 | a block goes exactly if the two tests pass; then all its elements find slots in the parent, and of all references exactly the block's is gone |
| `LiveRun.Elements` | hammer2_chain.c:3406-3538 | the elements of a parent, from its slots and from memory, are as many as its live count says |
| `LiveRun.JoiningIsSelect` | hammer2_chain.c:3444-3449 | the elements that join a new block by its range are those that the split of the radix tree moves |
| `LiveRun.SplitParent` | hammer2_chain.c:3406-3553 | happens exactly if the block is empty, has slots for what joins it and is clear of what stays; then exactly the elements in its range move, with their references and entries, and the block takes a slot of its parent |
| `LiveRun.CreateBelow` | hammer2_chain.c:2865-2907 | happens exactly if the parent is full and may be split; then the chain is an element of the block if its key falls into the range and of the parent if not, unless a whole block of elements moved in the one case or a single one in the other, which is exactly when the parent is reported full again |
| `LiveRun.CollapseParent` | hammer2_chain.c:3623-3731 | happens exactly if the two tests pass and the elements are clear of the block's siblings; then the parent has the block's elements and references instead of the block |
| `LiveRun.MoveElement` | hammer2_chain.c:3516-3525 | happens exactly if the element is there, a slot is free and its range is clear; then the element is in the other parent, and no longer in the first |
| `LiveRun.PerformTwo` | hammer2_chain.c:2856-3737 | each of these steps does to two parents what its condition and effect say, or nothing |
| `LiveRun.NothingLost` | hammer2_chain.c:3247-3737 | over any sequence of moves, splits, creations and collapses every reference stays with one of the parents, unless it is that of a block given up |
| `LiveRun.RunFamily` | hammer2_chain.c:4583 | over any sequence of steps of any number of parents, splits, creations under full parents, collapses and moves included, all counts stay exact and every entry at flush finds a slot; the states passed are those that the steps lead to |
| `RadixTree.Nested` | hammer2_chain.c:3444-3449 | aligned ranges nest or are disjoint, and nesting is what the prefix test decides |
| `RadixTree.LookupFindsLeaf` | hammer2_chain.c:2076-2356 | a top-down lookup finds a reference exactly if it is reachable and covers the key |
| `RadixTree.SameLeavesSameLookup` | hammer2_chain.c:2076-2356 | trees reaching the same references answer every lookup alike |
| `RadixTree.NoStraddle` | hammer2_chain.c:3444-3449 | with one element inside the new block's range, every other lies wholly inside or wholly outside it |
| `RadixTree.SplitKeeps` | hammer2_chain.c:3366-3576 | splitting keeps a node sorted, disjoint and nested, reaches the same references, and says how many slots it frees |
| `RadixTree.CollapseKeeps` | hammer2_chain.c:3584-3737 | collapsing reaches the same references, and keeps the node well formed exactly if the block's elements are clear of its siblings |
| `RadixTree.InsideIsClear` | hammer2_chain.c:3584-3737 | elements inside the block's own range are clear of its siblings |
| `DirectoryKey.PrefixExceeds` | hammer2_chain.c:4012-4027 | two disjoint ranges that share a prefix are both smaller than the prefix's range |
| `DirectoryKey.Widen` | hammer2_chain.c:4029-4044 | when the range grows, moving both tallies to one side keeps them exact |
| `DirectoryKey.TallySelects` | hammer2_chain.c:4068-4094 | the tally of the chosen half is the number of elements the new block takes |
| `DirectoryKey.Expand` | hammer2_chain.c:4012-4027 | the expansion loop stops at the first radix at which key and element share a range |
| `DirectoryKey.CountElement` | hammer2_chain.c:4012-4053 | after each element the high and low tallies are exact for the current range |
| `DirectoryKey.FillBlock` | hammer2_chain.c:4068-4087 | widening keeps the tallies exact and stops at the first radix with as many keys as the block has slots, or at once |
| `DirectoryKey.IndkeyDir` | hammer2_chain.c:3959-4097 | the chosen range is aligned, no element straddles it, and at least half of the elements are in it; its radix is the least that all elements share with the key or that has as many keys as the block has slots, and of the two halves the upper one is taken exactly if it has more elements |
| `DirectoryKey.DirectoryGainsSlot` | hammer2_chain.c:3419-3576 | a full directory node of four or more elements has a free slot after the split |
| `FileKey.IndkeyFile` | hammer2_chain.c:3854-3937 | the element chosen has the least radix and of these the least key; the range is the fixed radix above it, aligned and around it whenever 63 bits suffice; the freemap's choice at hammer2_chain.c:3753-3841 is the same with a radix step of 8 |
| `FileKey.SplitFrees` | hammer2_chain.c:3846-3848 | a split frees a slot exactly if the range has an element in it besides the one it was made for |
| `Indirect.ReplaceKeeps` | hammer2_chain.c:3247-3737 | exchanging a node anywhere below an inode for one reaching the same references keeps the whole tree |
| `Indirect.SplitPreservesLookup` | hammer2_chain.c:3247-3576 | splitting any node of a tree changes no lookup from the inode, for any key |
| `Indirect.CollapsePreservesLookup` | hammer2_chain.c:3584-3737 | collapsing any block with clear elements changes no lookup from the inode, for any key |
| `Indirect.Node.CreateIndirect` | hammer2_chain.c:3406-3553 | the element-by-element move, resuming by key after each, equals the split in one step |
| `Indirect.Node.SplitDirectory` | hammer2_chain.c:3247-3576 | choosing the range and splitting a full directory node keeps every lookup, frees a slot and does not overfill the new block, which has the range of least radix, the half with more elements, and exactly the elements in it |
| `Indirect.Node.SplitFile` | hammer2_chain.c:3247-3576 | choosing the range for a file or freemap node and splitting keeps every lookup, always moves an element, and frees a slot exactly if another element is in the range |
| `Indirect.SparseSplitFreesNothing` | hammer2_chain.c:3846-3848 | a full inode of a sparse file whose split frees no slot |
| `Indirect.Node.Maintenance` | hammer2_chain.c:3584-3737 | a block goes exactly if it is empty, or its elements fit and it is at most three quarters full; then its elements are in the parent |
| `Indirect.Node.TakeAll` | hammer2_chain.c:3683-3731 | the loop that moves elements up equals inserting all of them and empties the block |
| `Indirect.WideBlockCollides` | hammer2_chain.c:3584-3737 | a well-formed node that passes both tests for a collapse and is not well formed after it |
| `FreemapSegment.CountFreeFill` | hammer2_freemap.c:624-666 | marking a free run lowers the number of free blocks by its length |
| `FreemapSegment.SizeIs` | hammer2_freemap.c:472-528 | sizes are the powers of two of the radices, and a run has the blocks that cover them |
| `FreemapSegment.IssueLinear` | hammer2_freemap.c:504-528 | what the linear iterator hands out meets nothing issued before, and its tail stays unissued |
| `FreemapSegment.IssueRun` | hammer2_freemap.c:529-593 | what a free run hands out meets nothing issued before, in bounds and inside one 64KB buffer |
| `FreemapSegment.RoomShrinks` | hammer2_freemap.c:463-669 | an allocation never makes room for a radix that had none |
| `FreemapSegment.Bmap.Init` | hammer2_freemap.c:722-735 | a segment is laid out wholly free or wholly reserved, with matching free count |
| `FreemapSegment.Bmap.FindRun` | hammer2_freemap.c:572-587 | the element scan finds the first aligned free run, and none exactly if there is none |
| `FreemapSegment.Bmap.PickRun` | hammer2_freemap.c:542-593 | the run is the suggested one if that is free and for data, and the first aligned free one if not; none exactly if there is none |
| `FreemapSegment.Bmap.Alloc` | hammer2_freemap.c:463-669 | no space exactly if neither iterator nor any aligned run suffices; otherwise a new extent at the iterator, the suggested or the first free run, with states, iterator, class and free count as that leaves them |
| `FreemapSegment.Bmap.Recover` | hammer2_freemap.c:876-963 | recovery marks a run allocated, resets the iterator if that changed anything, and charges exactly the blocks that were free |
| `FreemapSegment.SuggestedRun` | hammer2_freemap.c:545-570 | the block a 64KB-aligned data key suggests is aligned for its size and inside the segment |
| `FreemapSegment.AllocateAll` | hammer2_freemap.c:463-669 | all extents of any sequence of allocations from a fresh segment, each of two to the radix bytes, are pairwise disjoint, in bounds and inside one 64KB buffer; a request is refused, and changes nothing, exactly if there is no room for it |
| `Freemap.ServableRange` | hammer2_freemap.c:674-736 | a segment not marked reserved lies between the static area and the end of the volume |
| `Freemap.SkipIsSafe` | hammer2_freemap.c:328-346 | the availability test skips no segment that has room |
| `Freemap.ServeKeeps` | hammer2_freemap.c:396-403 | a cleared hint bit stays truthful whatever is allocated afterwards |
| `Freemap.TryBmap` | hammer2_freemap.c:346-355 | one segment is used, which is of the request's class, of none yet, or any when relaxed; or it is unchanged, and then of no use |
| `Freemap.Fiterate.Next` | hammer2_freemap.c:750-769 | the iterator advances or wraps, gives up only after a last sweep from offset 0 in relaxed mode |
| `Freemap.Volume.constructor` | hammer2_freemap.c:674-736 | a volume without leaves is sound, each segment as its creation will find it |
| `Freemap.Volume.ScanLeaf` | hammer2_freemap.c:318-394 | the two-way scan of a leaf serves from the nearest segment of use to the request, the upper one first, or, if there is none, changes nothing |
| `Freemap.Volume.CreateLeaf` | hammer2_freemap.c:281-294 | creating a missing leaf changes nothing the volume holds |
| `Freemap.Volume.ClearHint` | hammer2_freemap.c:396-403 | the hint bit may be cleared after a full relaxed scan |
| `Freemap.Volume.TryAlloc` | hammer2_freemap.c:246-445 | one attempt serves inside the allocatable area, or changes nothing; segments of another class are only used in relaxed mode; in the last sweep failure means the leaf has no room |
| `Freemap.Volume.Retry` | hammer2_freemap.c:235-237 | the retry loop terminates, with an extent or with every segment of the volume without room; it becomes relaxed only if no segment of the request's class or of none has room for it |
| `Freemap.Volume.Alloc` | hammer2_freemap.c:163-244 | no space exactly if no segment has room for the radix; classes are mixed only if no segment of the request's own class or of none has room, or the volume was in relaxed mode already; the volume's free count changes by exactly the change in total available space |
| `Freemap.Volume.Recover` | hammer2_freemap.c:784-963 | recovery of any extent of the volume changes at most one segment, charges the volume exactly its change, resets the hint and the search mode if it changed anything and leaves them alone if not, a missing leaf being created with a full hint; every hint stays truthful |
| `Freemap.ServedTotal` | hammer2_freemap.c:655-666 | serving from one segment changes the volume's total by that segment's change |
| `Freemap.ServedRange` | hammer2_freemap.c:408-418 | what is served satisfies the validity assertions on the media offset |
| `Collector.CommitKeeps` | hammer2_chain.c:1346-1384 | putting a shared block into the topology keeps safety, wherever the recovery mark lands |
| `Collector.SyncKeeps` | hammer2_bulkfree.c:988-1096 | merging one block keeps every referenced block marked |
| `Collector.StepKeeps` | hammer2_bulkfree.c:988-1096 | every step of allocation, dereference, deduplication, flush and collection keeps the invariant |
| `Collector.TwoStageSafety` | hammer2_ioctl.c:758-803 | over every interleaving, with flushes of a topology that changes while they run, no referenced block is ever free and a set dedup bit means 11 |
| `Collector.FreshAllocation` | hammer2_freemap.c:529-593 | a block taken as free is referenced by nobody, about to be shared by nobody, and not in the snapshot being collected |
| `Collector.DedupAssertHolds` | hammer2_io.c:805-829 | the assertion that a block going 10 to 00 has no dedup bit never fires |
| `Collector.GarbageStep` | hammer2_bulkfree.c:1009-1050 | an unreferenced block stays so, and moves one stage down exactly when a pass merges it |
| `Collector.Reclaimed` | hammer2_bulkfree.c:1009-1050 | an unreferenced block is free after exactly as many merges as it has stages, at most two |
| `Collector.References` | hammer2_bulkfree.c:988-1096 | which steps change what is referenced, and how |
| `Collector.FlushBrackets` | hammer2_ioctl.c:758-803 | while a flush runs, what it may write of the topology is kept between the blocks referenced throughout, together with those brought in by writes that were under way when it began, and the blocks referenced at some time |
| `Collector.FlushAdmits` | hammer2_ioctl.c:758-803 | once those writes are over the flush may end with what is referenced then, and it never ends with less than was referenced throughout or more than was at some time |
| `Bulkfree.RecordTail` | hammer2_bulkfree.c:778-791 | the recorded iterator never points in front of a recorded extent in its block |
| `Bulkfree.Record` | hammer2_bulkfree.c:677-829 | the in-memory map marks 11 exactly the blocks that recorded extents reach into, and its iterator is where one of them ends |
| `Bulkfree.MarkExtent` | hammer2_bulkfree.c:803-827 | the marking loop sets exactly the blocks the extent touches, although it starts inside the first |
| `Bulkfree.Collection.AdjustBlock` | hammer2_bulkfree.c:1007-1095 | one block: new state, avail and free adjustment move together, the clamps have no effect, dedup bits go with 11 to 10 |
| `Bulkfree.Collection.AdjustBlocks` | hammer2_bulkfree.c:999-1096 | all blocks merged, words that agree being skipped soundly |
| `Bulkfree.Collection.SyncAdjust` | hammer2_bulkfree.c:988-1154 | the whole merge: states, avail equal to 16384 per free block, iterator outside all found extents, dedup bits cleared exactly of the blocks that are staged |
| `Bulkfree.GatheredInMemory` | hammer2_bulkfree.c:988-1154 | the in-memory map of any segment, reserved or not, is what the merge requires |
| `BulkfreeWindow.Window.constructor` | hammer2_bulkfree.c:646-675 | the maps start free, or full for exactly the segments the allocator's own initialization reserves |
| `BulkfreeWindow.Window.ReservedKey` | hammer2_bulkfree.c:660-667 | the running bounds of the initialization reserve the same segments as the freemap's |
| `BulkfreeWindow.ReferenceNames` | hammer2_bulkfree.c:716-772 | a reference with radix r at byte n is collected exactly if n is in the window and the allocatable area, and then names the two to the r bytes from n on, in their 4MB segment |
| `BulkfreeWindow.Window.Recordable` | hammer2_bulkfree.c:716-772 | a reference inside the window names a segment of it and an extent that may be recorded there |
| `BulkfreeWindow.Window.Callback` | hammer2_bulkfree.c:677-829 | one reference changes the map of its segment, if it lies in the window, and no other |
| `BulkfreeScan.Cache.Test` | hammer2_bulkfree.c:1162-1188 | a hit exactly if one of the eight slots of the set has the offset, which was then entered before; a miss replaces the slot of least priority, and no other slot changes |
| `BulkfreeScan.HitIsSeen` | hammer2_bulkfree.c:166-178 | a block skipped because of the cache has been reported |
| `BulkfreeScan.ClosedIsAll` | hammer2_bulkfree.c:94-375 | a reported set closed under references is everything reachable |
| `BulkfreeScan.Walk.Visit` | hammer2_bulkfree.c:160-193 | a reference is skipped only if it was reported before; otherwise it is reported and recorded |
| `BulkfreeScan.Walk.Defer` | hammer2_bulkfree.c:286-300 | deferring puts the block at the head of the list, or right after the one deferred last while backing out, in front of what earlier levels deferred |
| `BulkfreeScan.Walk.Scan` | hammer2_bulkfree.c:94-375 | the walk of one block, never more than 16 levels below the first, reports all its references, leaves on the list whatever is still to be walked, which is smaller and nothing for a PFS root, and enters the block in the cache |
| `BulkfreeScan.Walk.ScanKid` | hammer2_bulkfree.c:160-327 | one reference is known, reported and walked, or reported and deferred |
| `BulkfreeScan.Walk.Descend` | hammer2_bulkfree.c:223-319 | a reported block is deferred exactly if it is more than 16 levels down, the walk is backing out, or the depth and list limits are both reached; all its references are reported at once if not |
| `BulkfreeScan.Walk.Exhaust` | hammer2_bulkfree.c:333-356 | a PFS root runs down exactly what its own walk deferred, and terminates |
| `BulkfreeScan.Walk.Pass` | hammer2_bulkfree.c:551-574 | the scan terminates, has reported exactly the references a plain recursive walk finds, and the maps mark exactly the blocks of those inside the window |
| `BulkfreePass.MergedSound` | hammer2_bulkfree.c:962-968 | after a merge the full hint is truthful and a reserved segment is as it was laid out |
| `BulkfreePass.LiveMap.SyncSegment` | hammer2_bulkfree.c:932-968 | with or without the shortcut for equal maps, each block ends as the merge of its state with the snapshot's use of it, and dedup bits are cleared exactly of staged blocks; if the segment changes, its iterator is outside all found extents and the leaf's hint and the search mode are reset; the hint is truthful for all its segments whatever the test of the hint answers |
| `BulkfreePass.LiveMap.SyncAll` | hammer2_bulkfree.c:843-983 | all segments due are merged, all others untouched, every hint stays truthful, and the free adjustment is the change of total available space |
| `BulkfreePass.RunWindow` | hammer2_bulkfree.c:509-609 | walk and merge of one window: 11 exactly for the blocks reachable references use, every other block one stage nearer to free, free count conserved |
| `BulkfreeVolume.FoundIsNamed` | hammer2_bulkfree.c:716-772 | what a window collects for a segment is all that references of the volume name there |
| `BulkfreeVolume.LegalThere` | hammer2_bulkfree.c:716-772 | references the allocator made may be collected by any window |
| `BulkfreeVolume.VolumeMap.OneWindow` | hammer2_bulkfree.c:509-609 | a window, with maps and visited cache reset, changes its own segments only and charges the volume with their change |
| `BulkfreeVolume.VolumeMap.Pass` | hammer2_bulkfree.c:486-609 | the loop over the windows ends and has merged each segment from the starting gigabyte to the end of the volume exactly once with all references in it; the volume's free count changes by the segments' change, hints stay truthful, and the search mode is reset if anything changed |
| `Lz4Format.CopyMatchUnique` | hammer2_lz4.c:478-506 | any output repeating with the distance as its period is the byte-by-byte copy |
| `Lz4Format.CopyMatchPeriodic` | hammer2_lz4.c:478-506 | the byte-by-byte copy repeats with the distance as its period |
| `Lz4Format.LiteralLengthRoundTrip` | hammer2_lz4.c:418-428 | literal length bytes read back as the length written |
| `Lz4Format.MatchLengthRoundTrip` | hammer2_lz4.c:466-476 | match length bytes read back as the length written, when they end before the last six bytes |
| `Lz4Format.Layout` | hammer2_lz4_encoder.h:152-222 | the bytes of a sequence, by the numbers of the format: token with two four-bit lengths, continuation bytes of 255 and a remainder, literals, offset with its low byte first |
| `Lz4Format.Rules` | hammer2_lz4.c:399-518 | sequences are well formed exactly if each is a match of four bytes or more, up to 65535 behind, that starts 12 bytes and ends 5 bytes before the end or earlier |
| `Lz4Format.DecodeOneSequence` | hammer2_lz4.c:413-507 | an encoded sequence decodes to its literals and its copy, in any block with room behind it |
| `Lz4Format.DecodeLast` | hammer2_lz4.c:430-457 | closing literals end the block with exactly those bytes |
| `Lz4Format.DecodeSequences` | hammer2_lz4.c:413-507 | any number of sequences decode to what they stand for |
| `Lz4Format.BlockRoundTrip` | hammer2_lz4.c:375-518 | every well-formed block decodes to what it stands for, whatever extra room is offered |
| `Lz4Decoder.StepExtends` | hammer2_lz4.c:478-506 | a wide step from a whole number of periods behind extends the repetition although source and target overlap |
| `Lz4Decoder.TableStrides` | hammer2_lz4.c:399-402 | the correction tables turn each distance below eight into such a stride |
| `Lz4Decoder.CopyMatchWithin` | hammer2_lz4.c:478-506 | the fast copy with overshoot and slow tail gives the byte-by-byte copy, for every distance and length, and fails exactly if fewer than five bytes would be left |
| `Lz4Decoder.ScanLiteralRun` | hammer2_lz4.c:418-428 | the loop over literal length bytes computes the reference run |
| `Lz4Decoder.ScanMatchRun` | hammer2_lz4.c:466-476 | the loop over match length bytes computes the reference length and never reads the last six bytes |
| `Lz4Decoder.WildCopyLiterals` | hammer2_lz4.c:458 | literals copied eight at a time are exact and stay inside the buffer |
| `Lz4Decoder.DecodeSequence` | hammer2_lz4.c:413-507 | one trip round the loop equals one step of the reference decoder, acceptance included |
| `Lz4Decoder.DecompressSafe` | hammer2_lz4.c:522-526 | the decoder equals the reference decoder on every input, returns the produced length or minus one minus the bytes read, and writes nothing past its limit |
| `Lz4Encoder.NbCommonBytes` | hammer2_lz4.c:230-267 | the number of equal leading bytes of two words, exactly |
| `Lz4Encoder.CountMatch` | hammer2_lz4_encoder.h:176-200 | the match is extended as far as bytes agree, and no further than five bytes before the end |
| `Lz4Encoder.HashBits` | hammer2_lz4_encoder.h:67-78 | the hash is the upper 12 of the 32 bits of the product with 2654435761 |
| `Lz4Encoder.WordOfBytes` | hammer2_lz4.c:146-150 | four bytes read as one little-endian word |
| `Lz4Encoder.FindMatch` | hammer2_lz4_encoder.h:121-144 | a match found lies 1 to 65535 behind, agrees on four bytes and starts in time; result and table are those of the search as a function |
| `Lz4Encoder.ProbeStep` | hammer2_lz4_encoder.h:121-137 | the position of every probe in closed form: the step is the number of attempts divided by 64 |
| `Lz4Encoder.SearchProbes` | hammer2_lz4_encoder.h:121-144 | a match is found at one of these positions, and the position of the next probe is no closer to the end than 12 bytes |
| `Lz4Encoder.ProbedRun` | hammer2_lz4_encoder.h:146-156 | literals of 5625 bytes or more in front of a match are only met in inputs of 5652 bytes or more |
| `Lz4Encoder.CatchUp` | hammer2_lz4_encoder.h:146-150 | extending backwards keeps the distance and stops at the pending literals, at the start of the input or at a byte that differs |
| `Lz4Encoder.EmitLiterals` | hammer2_lz4_encoder.h:152-170 | token and literals are written exactly as the format says, unless the output check refuses |
| `Lz4Encoder.EmitMatch` | hammer2_lz4_encoder.h:172-222 | offset and match length complete the pending token exactly as the format says, or the output check refuses; the match is maximal |
| `Lz4Encoder.EmitSequence` | hammer2_lz4_encoder.h:146-222 | output and input position again stand for the same prefix of the input, exactly if the two output checks pass |
| `Lz4Encoder.EmitAdjacent` | hammer2_lz4_encoder.h:233-240 | a match found right behind the last one becomes a sequence without literals |
| `Lz4Encoder.EmitRun` | hammer2_lz4_encoder.h:172-244 | a run of adjacent matches is the plan's next sequences, until a search is needed; giving up means that the block is too long |
| `Lz4Encoder.EmitLast` | hammer2_lz4_encoder.h:247-265 | closing literals are written if they fit, and within the limit |
| `Lz4Encoder.EmitSequences` | hammer2_lz4_encoder.h:110-245 | the main loop emits exactly the sequences of the greedy plan of the input, each match the first that the search finds behind the last; giving up means that the block is too long for the limit |
| `Lz4Encoder.Refused` | hammer2_lz4_encoder.h:156-206 | a sequence that one of the two output checks refuses makes the whole block longer than the limit, whatever follows |
| `Lz4Encoder.PlanEmits` | hammer2_lz4_encoder.h:110-245 | the plan's sequences are well formed, stand for the input up to the closing literals, and take no more than 256 bytes for 255 |
| `Lz4Encoder.BlockStandsFor` | hammer2_lz4.h:50-89 | the block of any input, which does not depend on a limit, decodes to it wherever there is room, and is never longer than n + n/255 + 16 |
| `Lz4Encoder.CompressLimitedOutput` | hammer2_lz4_encoder.h:87-269 | succeeds exactly if the block of the input fits the limit, and then has stored that block; nothing at or past the limit is stored for inputs below 5652 bytes, and nothing at or past limit and slack for longer ones; if the first literals pass the limit they are found there |
| `Lz4Encoder.BlindCopyInsideIff` | hammer2_lz4.h:81 | the exact run lengths for which an accepted literal copy stays within the limit; 5625 is the first that does not |
| `Lz4Encoder.BlocksWithinSlack` | hammer2_lz4.h:81 | an accepted copy of any run that an input of n bytes can have overshoots its limit by at most the slack of n, which is none below 5652 |
| `Lz4Encoder.SequenceFits` | hammer2_lz4_encoder.h:156-206 | neither output check fails when the bound is offered |
| `Lz4Encoder.RoundTrip` | hammer2_lz4.h:50-89 | whatever a successful compression stored decompresses to the input, compression succeeds exactly if the block fits, and neither call stores anything past its limit, for compression the slack included |
| `Lz4Overshoot.SearchArrives` | hammer2_lz4_encoder.h:121-144 | on the example input no probe before position 5627 finds a match, whatever the hash does, and that one does |
| `Lz4Overshoot.OvershootsIff` | hammer2_lz4.h:81 | some input of n bytes makes the compressor copy its first literals past some limit exactly if n is at least 5652 |
| `Lz4Overshoot.Overshoot` | hammer2_lz4.h:81 | for every such n, a call that changes the byte right past its limit |
| `RbTree.RotateHolds` | hammer2_rbtree_windows.h:85-127 | what a rotation writes leaves memory holding the rotated tree, in the same surroundings |
| `RbTree.RbRoot.RotateLinks` | hammer2_rbtree_windows.h:85-127 | exactly which links a rotation rewrites, for either side |
| `RbTree.RbRoot.Rotate` | hammer2_rbtree_windows.h:85-127 | rotating a node down replaces it by its child and moves nothing else |
| `RbTree.InOrderRotate` | hammer2_rbtree_windows.h:85-127 | rotation keeps the order of the elements |
| `RbTree.Refocus` | hammer2_rbtree_windows.h:129-175 | the tree seen from a node and seen from its parent are the same memory |
| `RbTree.PlugGood` | hammer2_rbtree_windows.h:129-175 | a good subtree in good surroundings makes a good tree |
| `RbTree.LogarithmicHeight` | hammer2_rbtree_windows.h:129-320 | a good tree of n elements is at most 2 log2(n + 1) high |
| `RbTree.ShortWays` | hammer2_rbtree_windows.h:129-320 | so no way down from the root is longer |
| `RbInsert.PushUpGood` | hammer2_rbtree_windows.h:137-144 | recoloring below a red uncle moves the only red pair two levels up |
| `RbInsert.OuterGood` | hammer2_rbtree_windows.h:151-153 | the rotation of the grandparent removes the red pair |
| `RbInsert.InnerGood` | hammer2_rbtree_windows.h:145-150 | rotating an inner node turns the red pair into an outer one, elements unchanged |
| `RbInsert.InsertStep` | hammer2_rbtree_windows.h:134-173 | each turn of the repair keeps the elements and moves up or ends the repair |
| `RbInsert.InsertColor` | hammer2_rbtree_windows.h:129-175 | the repair ends with a tree without red-red edge, of equal black height, with black root and the same elements |
| `RbInsert.LinkNode` | hammer2_rbtree_windows.h:76-83 | the new node is a red leaf at the place searched |
| `RbInsert.Search` | hammer2_rb.h:63-100 | the descent ends at an overlapping element or at the one place where the new one belongs |
| `RbInsert.Insert` | hammer2_rb.h:63-83 | a collision is returned exactly if an element overlaps; else the element set grows by exactly the new one, sorted, in a good tree |
| `RbInsert.Find` | hammer2_rb.h:84-100 | an overlapping element is found exactly if there is one |
| `RbErase.RedSiblingShort` | hammer2_rbtree_windows.h:186-191 | rotating a red sibling gives a black one and keeps the deficit where it is |
| `RbErase.BlackNephewsShort` | hammer2_rbtree_windows.h:192-198 | reddening a sibling with black children moves the deficit to the parent |
| `RbErase.NearNephewShort` | hammer2_rbtree_windows.h:200-206 | rotating a red near nephew makes the far nephew red and keeps the deficit |
| `RbErase.FarNephewWhole` | hammer2_rbtree_windows.h:207-214 | the last rotation makes up for the missing black node |
| `RbErase.EraseStep` | hammer2_rbtree_windows.h:177-252 | each turn keeps the elements, and ends the repair, or moves up, or meets a red node |
| `RbErase.EraseColor` | hammer2_rbtree_windows.h:177-252 | the repair ends with a good tree with black root and the same elements |
| `RbRemove.UnlinkNode` | hammer2_rbtree_windows.h:304-316 | a node with at most one child is bypassed |
| `RbRemove.Splice` | hammer2_rbtree_windows.h:271-297 | exactly which links change when the successor takes a node's place, both when it is the right child and when it is deeper |
| `RbRemove.SpliceHolds` | hammer2_rbtree_windows.h:271-297 | afterwards memory holds the same tree with the successor in the removed node's place |
| `RbRemove.FindSuccessor` | hammer2_rbtree_windows.h:265-269 | the leftmost node below the right child is the in-order successor |
| `RbRemove.Erase` | hammer2_rbtree_windows.h:254-320 | removing a node leaves exactly the other elements, in order, in a good tree |
| `RbRemove.Remove` | hammer2_rb.h:101-104 | removing an element of the tree drops exactly it; order, colors and heights are kept |
| `RbScan.Leftmost` | hammer2_rbtree_windows.h:322-332 | the leftmost node is the first element |
| `RbScan.Next` | hammer2_rbtree_windows.h:346-364 | the next node is the first element after it, or none |
| `RbScan.FindFirst` | hammer2_rb.h:138-151 | the descent finds the first element not before the range |
| `RbScan.Scan` | hammer2_rb.h:121-166 | exactly the elements in range are visited, in order |
| `Ccms.HolderIs` | hammer2_ccms.c:83-121 | who holds the lock exclusively is its owner to the depth of the count, and an owner shares with nobody |
| `Ccms.HeldMeans` | hammer2_ccms.c:101-206 | the test on the counts, in terms of the threads: a shared request must wait exactly if some thread holds exclusively or upgrades, an exclusive one exactly if some thread holds at all or upgrades, an upgrade exactly if some thread holds |
| `Ccms.AcquireGives` | hammer2_ccms.c:83-172 | a request by the owner recurses; any other is granted at once exactly if it need not wait, and else sleeps, or is refused if only tried, which changes nothing |
| `Ccms.UpgradeGives` | hammer2_ccms.c:180-215 | an upgrade is granted at once exactly if the asker's one shared hold is the only one; else that hold is given up and the thread sleeps |
| `Ccms.RetryGives` | hammer2_ccms.c:101-120 | a thread that wakes up gets what it waits for exactly if it need not wait any more |
| `Ccms.ReleaseGives` | hammer2_ccms.c:217-313 | a release gives back one hold, and wakes all sleepers exactly if it was the last or a last exclusive one; so does a downgrade |
| `Ccms.EvaluateKeeps` | hammer2_ccms.c:101-120 | granting or putting to sleep keeps count, owner and sleepers right |
| `Ccms.UpgradeKeeps` | hammer2_ccms.c:185-215 | giving up a shared hold for a pending upgrade keeps the invariant |
| `Ccms.UpgradedKeeps` | hammer2_ccms.c:217-313 | downgrading and releasing an upgraded lock keep the invariant and wake the sleepers |
| `Ccms.StepKeeps` | hammer2_ccms.c:83-313 | every operation of any thread keeps the count an exact encoding of all holders |
| `Ccms.Exclusion` | hammer2_ccms.c:83-313 | over every run, an exclusive owner coexists with no other holder, and the count is its depth |
| `Ccms.UpgradeFirst` | hammer2_ccms.c:180-184 | over any run during which an upgrade is pending or held, a thread that neither asks for one nor owns the lock gains no hold |
| `Ccms.NoLostWakeup` | hammer2_ccms.c:241-280 | if the lock is free and somebody sleeps, an awake upgrader exists whose next try gets it |
| `InodeDepend.GroupsAreComponents` | hammer2_inode.c:84-169 | two inodes share a group exactly if a chain of requests connects them |
| `InodeDepend.MergeComponents` | hammer2_inode.c:125-141 | merging two groups yields the components of the requests with one more |
| `InodeDepend.JoinComponents` | hammer2_inode.c:142-161 | adding an inode to a group does so too |
| `InodeDepend.MergeSound` | hammer2_inode.c:125-141 | after a merge each queue lists its group once, counts are sizes, and the retired structure belongs to no group |
| `InodeDepend.Pfs.SetDepend` | hammer2_inode.c:84-169 | where an inode ends up, what is passed along, and when a second pass is due, in all cases including inodes being synced |
| `InodeDepend.Pfs.MergeInto` | hammer2_inode.c:125-141 | the merge moves all inodes and tallies and frees the other structure |
| `InodeDepend.Pfs.AddInode` | hammer2_inode.c:142-161 | an inode in no group joins the one passed along, or starts one with its own structure, which is not in use |
| `InodeDepend.Pfs.MoveAll` | hammer2_inode.c:126-134 | moving inodes one at a time relabels exactly that group |
| `InodeDepend.Pfs.Request` | hammer2_inode.c:267-337 | locking several inodes keeps groups equal to components and puts them all in one |
| `InodeDepend.Pfs.DelayedSideq` | hammer2_inode.c:177-189 | marking one inode dirty adds it, and connects nothing |
| `Flush.QuietIsFlushed` | hammer2_flush.c:413-418 | a chain without flags has nothing dirty anywhere below it, so skipping it is right |
| `Flush.Flusher.SetFlush` | hammer2_chain.c:107-126 | raising flags upward, stopping at the first already set, tells every parent that must know, and raises no flag off that path |
| `Flush.Flusher.Modify` | hammer2_chain.c:1217-1606 | a modification sets the flags, keeps the table, gives a chain that was not modified the next free block and tells the parent; a deduplication shares the block it is given, leaves the chain unmodified, and has the parent updated just the same |
| `Flush.Flusher.FlushCore` | hammer2_flush.c:403-956 | flushing one chain leaves all below clean and entered, and touches only flags of ancestors and the parent's table; every table keeps all its entries but those of children in memory, and every chain keeps its block or gets a new one |
| `Flush.Flusher.FlushKids` | hammer2_flush.c:479-534 | one rescan suffices: when it ends, the flag is down and all children are clean; tables and blocks are kept as in the flush of one chain |
| `Flush.Flusher.ScanKids` | hammer2_flush.c:970-1075 | each child that has a flag is flushed, each other entry of the table staying |
| `Flush.Flusher.Enter` | hammer2_flush.c:588-946 | a chain is written to its own block with its check code, and its reference put into the modified parent, whose other entries stay |
| `Flush.Flusher.EnterUpdate` | hammer2_flush.c:882-946 | an update modifies the parent and changes exactly the chain's entry in it |
| `Flush.Flusher.EnterTable` | hammer2_flush.c:926-945 | the old entry is taken out if it is due, and the new one put in if there is none |
| `Flush.KeptTrans` | hammer2_flush.c:403-956 | what consecutive parts of a flush keep of all tables and blocks, the whole keeps |
| `Flush.ReadyPointwise` | hammer2_chain.c:1600-1606 | the invariant of the tree is a condition on each chain and its parent |
| `Flush.FlushedPointwise` | hammer2_flush.c:287-357 | being flushed is a condition on each chain and its parent |
| `Flush.ModifiedStaysReady` | hammer2_chain.c:1217-1606 | a modification or deduplication anywhere keeps the condition that every dirty chain's ancestors know |
| `FlushTree.Modify` | hammer2_chain.c:1217-1606 | any chain of a tree fit for flushing may be modified or deduplicated, and the tree stays fit; a block newly given is named by no reference in memory |
| `FlushTree.Attach` | hammer2_chain.c:2940-2958 | putting a loose chain with all below it under a parent, and telling the parent, keeps the tree fit |
| `FlushTree.Create` | hammer2_chain.c:2897-2958 | so does a new chain, modified from the start, with a new block and an empty table; nothing else changes but flags |
| `FlushTree.Load` | hammer2_chain.c:243-281 | the chain of a table entry may be put in memory without telling anybody |
| `FlushTree.Detach` | hammer2_chain.c:3090-3190 | a deleted chain is gone from its parent, and its entry, and only this one, from its parent's table; the rest is fit, and the chain with all below it is free to be put elsewhere |
| `FlushTree.ReenterReady` | hammer2_chain.c:3060-3080 | entering a moved chain's old reference keeps the tree fit exactly if the chain is unmodified or differs from it |
| `FlushTree.Reenter` | hammer2_chain.c:3060-3080 | the moved chain is due for an update exactly if its reference differs from its entry, and the tree is fit exactly if that is so or the chain is unmodified |
| `FlushTree.GraftShaped` | hammer2_chain.c:2897-2907 | linking a chain of a new key gives the tree with the subtree added |
| `FlushTree.PruneShaped` | hammer2_chain.c:3122-3127 | unlinking a chain gives the tree without the subtree |
| `FlushTree.UnlinkReady` | hammer2_chain.c:3090-3190 | the tree that is left and the one that is taken out are both fit |
| `FlushTree.Sync` | hammer2_flush.c:287-357 | a flush of a fit tree leaves all of it clean and entered, and fit for the next round; every table keeps its entries of chains not in memory |
| `Flush.FlushInode` | hammer2_flush.c:287-357 | after a flush of an inode's tree nothing in it is dirty, every reference with its check code is in its parent's table, every table has kept its entries of chains not in memory, modified chains were written to the blocks they had, and the tree may be flushed again |
| `FlushTable.StandsUnique` | hammer2_flush.c:926-945 | a set of entries stands for one map |
| `FlushTable.EnterArray` | hammer2_flush.c:926-945 | entering a chain in an array of slots that stands for the parent's map finds a slot, and the array then stands for the map that the flush leaves |

## Left out

- BulkfreeWindow.Window.Callback: references are assumed to be the allocator's (sizes it serves, equal or disjoint, inside the window and a segment), so the clipping of illegal ones is not modelled.
- BulkfreePass.LiveMap.SyncAll: runs undisturbed; what allocation and deduplication do in between is the subject of `Collector`. Media errors and failing modifications of a leaf are not modelled.
- Flush.Flusher.FlushCore: does not model destroyed chains, PFS boundaries and INODE_STOP, indirect maintenance during a flush, errors, the depth limit panic, transaction ids, or roots without a parent.
- Lz4Decoder.DecompressSafe: asks for at least one input byte, because the code reads the first token unconditionally; a back reference of distance zero copies bytes the buffer held before and is left unspecified.
- Lz4Encoder.CompressLimitedOutput: asks for the slack behind the limit explained above.
- Lz4Encoder.NbCommonBytes: the bit-scan intrinsics are modelled by what they compute on a little-endian machine.
- InodeDepend.Pfs.Request: is for inodes none of which is being synced; moving an inode between the sync queue's ends, sleeping and restarting in `hammer2_inode_lock4` are not modelled.
- Collector.TwoStageSafety: is for passes over a snapshot; the fallback to the live topology after a sync that ran out of space is not modelled.
- Collector.StepKeeps: works on 16KB blocks; that fragments of one block stay disjoint while passes and recovery move the linear iterator is not claimed (for allocation alone it is, in `AllocateAll`).
- RadixTree.LookupFindsLeaf: is about one key at a time on trees as values; continuing a range lookup upward through parents is not modelled.
- Indirect.Node.Maintenance: works on one node's list of elements; the array edits under it are those of `BlockTable`.
- LiveCount.Core.Create: is for counted parents; INITIAL and uncounted parents are not modelled.
- LiveRun.RunFamily: refuses a split whose range is not clear of the elements that stay and a collapse whose elements are not clear of the block's siblings; when they are is the subject of `Indirect`.
- BlockTable.Table.Insert: keeps no chain flags (BLKMAPPED, BLKMAPUPD; `LiveCount` does) and no leaf_count; the same holds of `BlockTable.Table.Delete`.
- Ccms.StepKeeps: temporary release, `ccms_thread_lock_setown` and the panics on misuse are not modelled; the unlocked test for recursion and the wakeup after the spin lock count as part of the same step.
- RbScan.Scan: callbacks that unlink elements or stop the scan early, the scan without a comparison, and `rb_prev` and `rb_last` are not modelled.
- Red-black nodes are addresses in one memory map, not heap objects, and mirror-image branches are written once with a side as parameter: aliasing between tree nodes is captured, aliasing with other objects is not.
- A flush visits the children as listed at its start; insertions and deletions by other threads during the scan are not modelled.
- Partial decoding, the 64KB-prefix mode, the 64KB compressor variant (identical in this build) and big-endian machines.
- FileKey.IndkeyFile: is about the elements of one node; the panics on a radix the freemap does not have and on an unknown block size are not modelled, nor shifts by 64 and more.
- FlushTree.Create: allocates and links in one step; the table of the new chain is empty.
- BulkfreePass.LiveMap.SyncSegment: the comparison of the live hint with the in-memory map (`bigmask_get`, where `1LU << 32` has no defined value if long has 32 bits) is an arbitrary answer.
- BulkfreeVolume.VolumeMap.Pass: the snapshot is the same for all windows; memory for maps and cache is new for each instead of cleared, the number of leaves a window has is a parameter, and the reported stopping point is not modelled.
- Flush.Flusher.Modify: the flag DEDUPABLE, under which a chain that is marked modified gets new storage once more, overwriting in place, errors and emergency mode are not modelled; the check code that the caller sets after a deduplication is set in the same step.
- The in-memory avail and class of the bulkfree callback, scan priorities, ticks, rate limits, aborts, check-code errors and emergency mode.
- The saturating leaf-count hint of a block reference, and the skipping of deleted chains in `hammer2_chain_scan`.
- The statistic `check.freemap.avail` of a freemap leaf, device buffers and read-before-write avoidance in the allocator, freemap rotation and reserve area.
- Check codes are an opaque function of a block table; I/O, clocks, locks inside chain lookup, reference counts, network messages, ioctl dispatch, mount and the command line.
