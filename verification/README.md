# Wireway: a verified model of its storage, index and queue code

Wireway keeps named endpoints in B+ trees whose nodes live in bitmap-allocated blocks of zone
files, takes requests in a small binary format, and moves packets through a lock-free queue
served by one kernel thread per cpu. This project models that code in Dafny and proves what it
promises.

- **B+ tree** (bptree.c). Nodes are objects with key and pointer buffers, changed in place by
  the same shifts, splits, borrowings and merges as in the source, with `size` 5. A ghost tree
  says what the nodes stand for; an operation in the middle of a cascade is a tree in a context
  of ancestors. `BPlusTree.TreeRoot.Valid` says: all leaves at one depth, every node within its
  bounds, separators in order, every parent link exact, leaves chained left to right, and no
  node or buffer shared. Insert and delete are proved to act on the abstract map, for every tree.
- **Bits and bitmaps** (bitops.c, bitops.h, bitmap.c, bitmap.h). 64-bit words with the source's
  masks, its 4-way unrolled scan, its jumps and its retry loop, against bit-by-bit definitions.
- **Block store** (storage_sys.c). The allocator on a zone's bitmap, the id encoding, and the
  file as bytes, with invariants that tie the file to the memory, and results over runs of
  allocations, saves and reads on all zones.
- **Lock-free queue** (netfilter_mod/lf_rwq.c). Any number of writers, readers and timer fillers,
  one shared access per step, any interleaving. Proved for every run: no slot is written before
  it was read, no item is lost, doubled or mixed up, no permit is created or lost; and what each
  call comes to, with the exact room in the queue.
- **Receiver protocol and read accounting** (netfilter_mod/wireway_dev.c). Waiting and waking as
  atomic steps, with the window in which a wakeup is lost characterised and the exact condition
  for a wait to sleep; and the batched credits.
- **Request format** (thread_main.c). Writer and parser undo each other.

## Layout

| files | content |
|---|---|
| Keys, BPlusNode, Buffers, NodeOps | string order, nodes, shifting loops, the operations on one or a few nodes |
| HeapOps, TreeModel, InOrder, SeqFacts | the same on the heap of all nodes; ghost trees and contexts; the in-order walk |
| Search, Insert, Delete, BPlusTree | the operations of the tree |
| InsertProofs, LeafProofs, DeleteProofs, MergeProofs, ShareProofs, ShareSteps, TreeFacts | lemmas behind them, and results about valid trees |
| RawBits, Words, BitSearch, BitOps, Bitmap, BitmapLogic, BitmapCombine, Unsigned | words, searches, bitmaps |
| StorageIds, AllocRuns, Layout, BlockFile, BlockStore, StoreRuns, StoreAnswers, SetFacts | the block store |
| Rings, LfQueue, LfQueueProofs, LfQueueRuns, LfQueueAnswers, ReadAccounting | the lock-free queue and its reader |
| RcvProtocol, RcvAnswers, EntityReq | wait and wake; the request format |

The queue's functions are declared in netfilter_mod/lf_rwq.h, which the table below cites; their
bodies are in netfilter_mod/lf_rwq.c, at the lines that the third column and the comments of
`LfQueue` name. (That file has comments in another encoding than UTF-8.)

## Where the code differs from what it means or promises

- bptree.c:194-198: `find_leaf` moves to the child only inside the test for a child that is not
  loaded. The tree operations use the intended descent; `TreeFacts.LoopStaysAtRoot` says what the
  loop does as written.
- bptree.c:644, 656 and 484 write through `block`, which is NULL while `save` is 0. The model has
  no block mirrors and no such write.
- bitmap.c:22-28 promises that unused bits never affect a result; `bitmap_and` and
  `bitmap_andnot` return values that they do affect. `BitmapCombine.AndReturn` and `AndNotReturn`
  give the exact condition.
- storage_sys.c:303: a full zone is not noticed. The index is then block_count, every time
  (`AllocRuns.SucceedsIffRoom`, `FromEmpty`); such an id names no block.
- storage_sys.c:306: `block_free_count` goes up with every request, so it is the number of free
  blocks only until the first one (`StoreAnswers.FreeCountRightIff`).
- storage_sys.c:344 and 380: `save_data` and `save_data_offset` do not compare the length with the
  block size, nor the offset with 0. `BlockFile.SparesIffSafe` and `StoreRuns.SaveSparesIff` say
  exactly which saves leave the headers and the other blocks alone.
- storage_sys.c:331-342: the loop of `find_file_stream` has no step to the next file, so with the
  index of another file saving and reading do not return (`BlockStore.SearchEnds`, and `ends` of
  the operations); and `file_index` is an int, so some indices far outside the zone lead to its
  blocks all the same (`StoreRuns.IndicesOfBlock`, `SameBlockIff`).
- bitmap.c:200-237: with an align_mask of all ones the aligned sum wraps and the search may return a
  wrong index or never return (`Bitmap.FullMaskRightIff`, `NeverReturnsIff`).
- wireway_dev.c:82-96: `wake_up_process` may come before the receiver has marked itself asleep
  (`RcvProtocol.LostIff`, `WakeupCanBeLost`).
- thread_main.c:108-166: the parser does not check that the fields it reads lie inside the buffer
  (`EntityReq.StaysInsideIff` is the exact condition, `ShortBufferOverruns` an input).
- thread_main.c:117-135: the parser allocates a byte for the terminating NUL of each name and
  does not write it (`EntityReq.NameTerminated`).

## Model

| member | source | states |
|---|---|---|
| Keys.TotalOrder | bptree.h:8 | the key comparison the tree is registered with (`strcmp`, wireway_func.c:17 and user_entity_core.c:10) orders keys totally: exactly one of before, equal, after |
| Keys.LtTrans | bptree.h:8 | that order is transitive |
| Keys.FirstDifference | bptree.h:8 | the first character in which two keys differ decides |
| Keys.PrefixFirst | bptree.h:8 | a proper prefix comes first |
| BPlusTree.TreeRoot.Find | bptree.c:131-148 | for every valid tree and key: the value bound to the key, or nothing if no leaf anywhere binds it |
| BPlusTree.TreeRoot.IsKeyExist | bptree.c:150-164 | true exactly when some leaf binds the key |
| BPlusTree.TreeRoot.Insert | bptree.c:367-383 | adds exactly this binding (a duplicate key changes nothing), through any cascade of splits; the tree is valid again and at most one level taller; only nodes of the tree and new ones change |
| BPlusTree.TreeRoot.Delete | bptree.c:688-701 | removes exactly this key (nothing if absent), through any chain of borrowing, merging and root collapse; the tree is valid again and at most one level shorter |
| BPlusTree.MakeNewTree | bptree.c:276-317 | one leaf with one binding, a valid tree of height 0 |
| BPlusTree.InsertKey | bptree.c:367-383 | insert on a non-empty tree: new root, new footprint, proper tree, bindings and height as promised |
| BPlusTree.DeleteKey | bptree.c:688-701 | delete on a non-empty tree: proper tree or none at all when the last binding went, bindings and height as promised |
| BPlusTree.InsertIntoLeafAfterSplitting | bptree.c:582-686 | a full leaf and a new binding end, through the whole cascade, in a proper tree with exactly this binding added, at most one level taller |
| Search.FindLeaf | bptree.c:182-201 | by the intended descent: the one leaf that can hold the key, because every separator on the path bounds it |
| Search.ChildSlot | bptree.c:192-193 | the scan stops at the child whose separators enclose the key |
| Insert.InsertIntoParent | bptree.c:385-402 | from a pending pair of siblings to a whole tree: same walk of items with the separator added, height plus at most one; terminates on the ancestors left |
| Insert.InsertIntoNodeAfterSplitting | bptree.c:431-540 | a full inner node splits in two, its middle key moves up, children get their new parent; the pair is pending one level up |
| Delete.DeleteEntry | bptree.c:703-728 | from a node that loses an entry to a whole tree with the same bindings, or an empty one; terminates on the ancestors left |
| Delete.Refill | bptree.c:711-728 | the borrow-or-merge decision of delete_entry for a node below its minimum restores the minimum everywhere |
| Delete.CoalesceNodes | bptree.c:793-836 | a node and its neighbour become one, the separator comes down, and what is left to remove is one entry of their parent |
| Delete.DistributeNodes | bptree.c:730-791 | one entry moves over from the left or right neighbour through the separator; both reach their minimum and the walk of bindings is unchanged |
| Delete.AdjustRoot | bptree.c:848-861 | a root without keys gives way to its only child, or to the empty tree; any other root stays |
| Delete.Coalesced | bptree.c:816-836 | merging keeps the bindings, their order and the leaf chain, and leaves the parent one entry short |
| DeleteProofs.RootGivesWay | bptree.c:848-861 | the only child of a keyless root is a proper tree by itself with the same items, one level lower |
| DeleteProofs.RemovedWalk | bptree.c:863-889 | dropping binding i of a leaf drops exactly its key from the whole tree and keeps order and leaves |
| LeafProofs.InsertedWalk | bptree.c:542-580 | putting a key at the slot the scan found adds exactly its binding to the whole tree and keeps order and leaves |
| NodeOps.ChildIndex | bptree.c:838-846 | finds the one slot of the parent that points to the child |
| NodeOps.InsertIntoLeaf | bptree.c:542-580 | key and value come in at the index, the rest of the node is as before |
| NodeOps.InsertIntoNode | bptree.c:404-429 | key comes in at the index, the child to its right at the next slot |
| NodeOps.SplitLeaf | bptree.c:582-669 | the overfull sequence of bindings is cut at size/2: the leaf keeps size/2 of them, the new leaf has the rest, stands next in the chain and has the same parent |
| NodeOps.LinkNewLeaf | bptree.c:666-669 | the new leaf takes over the chain link and the old leaf points to it |
| NodeOps.SplitNode | bptree.c:431-524 | the overfull node is cut with size/2 (rounded up) pointers left, the middle key is handed up and kept by neither half |
| NodeOps.AdoptChildren | bptree.c:525-532 | each child of the new node gets it as parent, no other parent changes |
| NodeOps.RemoveEntry | bptree.c:863-889 | key and pointer of the entry are gone, the others keep their order |
| NodeOps.BorrowLeafFromLeft | bptree.c:730-791 | the last binding of the left leaf becomes the first here and the new separator |
| NodeOps.BorrowChildFromLeft | bptree.c:730-791 | the last child of the left node moves over, its last key goes up, the separator comes down |
| NodeOps.BorrowLeafFromRight | bptree.c:730-791 | the first binding of the right leaf moves over and its second key becomes the separator |
| NodeOps.BorrowChildFromRight | bptree.c:730-791 | the first child of the right node moves over, its first key goes up, the separator comes down |
| NodeOps.MergeInto | bptree.c:793-836 | the neighbour holds both nodes' entries in order, with the separator between inner nodes and the chain link taken over between leaves |
| HeapOps.MakeNewRoot | bptree.c:338-365 | a root with two children and one key, and both children name it as parent |
| TreeFacts.ChildKnowsParent | bptree.c:829-846 | whatever an inner node points to has that node as its parent |
| TreeFacts.ParentPointsToChild | bptree.c:395-401 | every node but the root is pointed to by its parent, so the sibling searches find it |
| TreeFacts.SubtreeSize | bptree.c:711-727 | minimum and maximum number of bindings under a node of a given height |
| TreeFacts.TreeSize | bptree.c:642-669 | the height of every valid tree is logarithmic in its number of bindings |
| TreeFacts.ChainVisitsAll | bptree.c:666-669 | following the chain of leaves meets every binding of the tree once, keys strictly increasing |
| TreeFacts.LoopStaysAtRoot | bptree.c:182-201 | find_leaf as written (the step to the child inside the not-loaded test): with all children in memory it never leaves the root, so it reaches a leaf if and only if the root is one |
| TreeFacts.LoopMissesLeaves | bptree.c:182-201 | so with five bindings or more, which is before the call a matter of counting, it never reaches a leaf |
| TreeFacts.SampleMissed | bptree.c:182-201 | and the proper tree that five inserts leave, whose leaves it never reaches |
| Words.Clz32 | bitops.h:31-60 | the count that shifts the highest one to bit 0, and 32 exactly for zero |
| Words.Clz64 | bitops.h:63-73 | exactly the number of zero bits above the highest one, 64 for zero |
| Words.Ctz32 | bitops.h:76-106 | the count of zeros below the lowest one, and 32 exactly for zero |
| Words.Ctz64 | bitops.h:109-120 | exactly the number of zero bits below the lowest one, 64 for zero |
| Words.SameBits | bitops.h:215-218 | a word is determined by what test_bit says of its 64 bits |
| BitSearch.FindNextBit | bitops.c:21-80 | the least set bit in [offset, size), or size; no word outside the bitmap is read |
| BitSearch.FindNextZeroBit | bitops.c:86-129 | the least clear bit in [offset, size), or size; no word outside the bitmap is read |
| BitSearch.FindLastBit | bitops.c:131-158 | the greatest set bit below size, or size |
| BitOps.SetBit | bitops.h:131-137 | that bit is set, every other bit of the bitmap unchanged |
| BitOps.ClearBit | bitops.h:144-150 | that bit is clear, every other bit unchanged |
| BitOps.ChangeBit | bitops.h:157-163 | that bit is flipped, every other bit unchanged |
| BitOps.TestBit | bitops.h:215-218 | the bit, with the bitmap only read |
| BitOps.TestAndSetBit | bitops.h:170-178 | as set_bit, and the old value of the bit |
| BitOps.TestAndClearBit | bitops.h:185-193 | as clear_bit, and the old value of the bit |
| BitOps.TestAndChangeBit | bitops.h:200-208 | as change_bit, and the old value of the bit |
| BitOps.SameWords | bitops.h:215-218 | two bitmaps with the same bits are the same words |
| Bitmap.BitmapSet | bitmap.c:160-178 | exactly the bits of [start, start + nr) become ones, across any number of words |
| Bitmap.BitmapClear | bitmap.c:180-198 | exactly the bits of [start, start + nr) become zeros |
| Bitmap.ClearUndoesSet | bitmap.c:160-198 | clearing a range just set where it was clear restores every word, and the other way round |
| Bitmap.SetsCommute | bitmap.c:160-198 | two ranges may be set (or cleared) in either order |
| Unsigned.AlignLeast | bitmap.c:200 | ALIGN_MASK with 2^k - 1 gives the least multiple of 2^k that is not smaller |
| Bitmap.BitmapFindNextZeroArea | bitmap.c:214-237 | the least aligned index >= start with nr clear bits inside size, or a value above size exactly when there is none; the retry loop terminates, and its rounds are those of the code |
| Bitmap.NeverReturnsIff | bitmap.c:214-237 | with an align_mask of all ones, where the aligned sum wraps, the retry loop goes on for ever if and only if nr <= size and one of the first nr bits is set |
| Bitmap.FullMaskRightIff | bitmap.c:214-237 | and it returns what is promised if and only if nr > size, or start is 0 and the first nr bits are clear |
| BitmapLogic.SlowEmpty | bitmap.c:39-55 | no used bit is set; the unused ones do not matter |
| BitmapLogic.SlowFull | bitmap.c:57-74 | every used bit is set |
| BitmapLogic.SlowEqual | bitmap.c:76-94 | the used bits agree |
| BitmapLogic.SlowIntersects | bitmap.c:239-256 | some used bit is set in both |
| BitmapLogic.BitmapEmpty | bitmap.h:186-193 | bit for bit the same answer from the one-word path and from the loop; for a bitmap of no bits the answer for its whole first word |
| BitmapLogic.BitmapFull | bitmap.h:195-202 | bit for bit the same answer from the one-word path and from the loop; for a bitmap of no bits the answer for its whole first word |
| BitmapLogic.BitmapEqual | bitmap.h:176-184 | bit for bit the same answer from the one-word path and from the loop; for a bitmap of no bits the answer for its whole first word |
| BitmapLogic.BitmapIntersects | bitmap.h:204-212 | bit for bit the same answer from the one-word path and from the loop; for a bitmap of no bits the answer for its whole first word |
| BitmapCombine.SlowAnd | bitmap.c:110-121 | every bit of the words used is the conjunction, all other words unchanged, also when the destination is a source; and what it returns, over whole words |
| BitmapCombine.SlowOr | bitmap.c:123-132 | every bit of the words used is the disjunction, all other words unchanged |
| BitmapCombine.SlowXor | bitmap.c:134-143 | every bit of the words used is the exclusive or, all other words unchanged |
| BitmapCombine.SlowAndNot | bitmap.c:145-156 | every bit of the words used is a and not b, all other words unchanged; and what it returns |
| BitmapCombine.SlowComplement | bitmap.c:96-108 | used bits are flipped, unused bits of the last word come out clear |
| BitmapCombine.BitmapAnd | bitmap.h:128-135 | the same result from the one-word path and from the loop; for a bitmap of no bits one whole word is written |
| BitmapCombine.BitmapOr | bitmap.h:137-145 | the same result from the one-word path and from the loop; for a bitmap of no bits one whole word is written |
| BitmapCombine.BitmapXor | bitmap.h:147-155 | the same result from the one-word path and from the loop; for a bitmap of no bits one whole word is written |
| BitmapCombine.BitmapAndNot | bitmap.h:157-164 | the same result from the one-word path and from the loop; for a bitmap of no bits one whole word is written |
| BitmapCombine.BitmapComplement | bitmap.h:166-174 | the same result from the one-word path and from the loop; for a bitmap of no bits one whole word is written |
| BitmapCombine.AndReturn | bitmap.c:22-28 | the promise that unused bits never affect a result: what bitmap_and returns keeps it if and only if the used bits meet or the unused bits of the last word do not |
| BitmapCombine.AndNotReturn | bitmap.c:145-156 | the same condition for bitmap_andnot |
| BitmapCombine.AndReturnFails | bitmap.c:110-121 | a bitmap of one bit for which the promise fails |
| BitmapCombine.AndNotReturnFails | bitmap.c:145-156 | likewise for bitmap_andnot |
| BitmapCombine.TailStaysClear | bitmap.c:30-33 | no unused bits set in the sources, none set in the result |
| BitmapCombine.ComplementTwice | bitmap.c:96-108 | complementing twice restores the used bits |
| BitmapCombine.XorTwice | bitmap.c:134-143 | combining twice with the same bitmap restores the words |
| StorageIds.RoundTrip | storage_sys.c:317 | decoding an id gives back zone and index if and only if the zone is below 256 and the index below 2^56 |
| StorageIds.EncodeInjective | storage_sys.c:317 | different blocks have different ids |
| StorageIds.ZonesWrap | storage_sys.c:115-118 | zone numbers only count up: zone 256 has the ids of zone 0 |
| StorageIds.DecodeThenEncode | storage_sys.c:346-354 | every 64-bit id is the code of what it decodes to |
| StorageIds.InvalidCode | storage_sys.c:311-328 | the -1 of a failed call is the id of the last index of zone 255 and of no other block |
| AllocRuns.AllocTakes | storage_sys.c:303-305 | an allocation takes one index that was free and leaves the others; on a full zone the set of taken blocks stays |
| AllocRuns.SucceedsIffRoom | storage_sys.c:303-305 | the index found is a block exactly when fewer than block_count blocks are taken |
| AllocRuns.NeverTwice | storage_sys.c:286-329 | over any run of allocations no block is found twice, and none that was taken before |
| AllocRuns.RunTakes | storage_sys.c:286-329 | over any run the set bits are exactly the old ones and the indices found |
| AllocRuns.RunCounts | storage_sys.c:286-329 | of n allocations as many succeed as there was room for |
| AllocRuns.FromEmpty | storage_sys.c:286-329 | on a new zone the k-th allocation finds block k, and once it is full every further one finds block_count |
| BlockStore.IdsNeverTwice | storage_sys.c:286-329 | over any run no id of a block is given out twice |
| BlockStore.AllocInZone | storage_sys.c:301-317 | one allocation step on the bitmap, the media header in the file rewritten to match, every byte outside it unchanged |
| BlockStore.Store.GetZone | storage_sys.c:267-284 | the first zone with this id, or none |
| BlockStore.Store.AllocBlockFromZone | storage_sys.c:286-329 | the id encodes zone and found index, the zone makes one allocation step, other zones are untouched; -1 and no change without a block zone of this id |
| BlockStore.Store.SaveData | storage_sys.c:344-378 | the bytes are written at the offset of block index % block_count in that zone's file, the allocator and all other zones untouched; it returns if and only if there is no such zone or the index divided by block_count is 0 as an int |
| BlockStore.Store.SaveDataOffset | storage_sys.c:380-414 | the same at an offset; a negative one that fseek refuses writes where the file stands |
| BlockStore.Store.ReadData | storage_sys.c:416-455 | the block's bytes as far as the file holds them, nothing changed; an id with the number of a listed block zone and an index below block_count is always found and read at that index; nothing for an unknown zone; it returns under the same condition |
| BlockStore.FileFound | storage_sys.c:331-342 | on a zone's one media file the search finds the stream for file_index 0 and never returns for any other |
| BlockStore.ServedIff | storage_sys.c:267-296 | calls with a zone number are served if and only if some block zone of the list has it, and no zone before that one |
| BlockStore.IdLeads | storage_sys.c:346-362 | an id with the number of such a zone and an index below its block_count leads to the block of that index there, and the search for the file ends |
| BlockStore.SearchEnds | storage_sys.c:331-342 | over any number of rounds of the loop and any media list: the search ends if and only if the list is empty or its first file is the one wanted |
| BlockStore.Zone.constructor | storage_sys.c:119-170 | a new zone: both headers in the file, an empty bitmap, and the invariant of the store |
| BlockStore.RestoredBitmap | storage_sys.c:60-72 | between calls the bitmap that would be loaded from the bytes written to the file is the one in memory |
| Layout.LoadStored | storage_sys.c:66-67 | words written to a file and read back are the same words |
| BlockFile.BlocksApart | storage_sys.c:362-372 | blocks overlap neither each other nor the headers |
| BlockFile.WriteKeepsOthers | storage_sys.c:362-374 | a save inside one block changes no other block and neither header |
| BlockFile.SparesIffSafe | storage_sys.c:344-414 | a write at any place spares the headers and all other blocks, whatever file and bytes, if and only if it is empty, or begins in or behind its block and fits it, has no block behind it, or begins behind the last one |
| BlockFile.LongWriteSpills | storage_sys.c:344-414 | a save past the end of its block overwrites the first bytes of the next one, if there is one |
| BlockFile.LastSaveReads | storage_sys.c:344-455 | reading a block gives the last save at its offset, over any run of saves that fit their blocks and miss those bytes |
| BlockFile.SavesKeepHeaders | storage_sys.c:344-414 | no run of saves touches the headers or the stored bitmap |
| StoreRuns.ReadsLastSave | storage_sys.c:286-455 | in every run of allocations, saves and reads on all zones, a read gives the bytes of the last save at their offset in the block, as long as the saves in between fit their blocks and miss those bytes |
| StoreRuns.IdsDiffer | storage_sys.c:286-329 | in every such run no two blocks handed out, in any zones below 256, have the same id |
| StoreAnswers.AllocAnswer | storage_sys.c:286-329 | told from the list of zones alone: the id is never -1 for a block zone, names that zone, and has its least free index, which is taken now; on a full zone the index is block_count and nothing is taken |
| StoreAnswers.InvalidIff | storage_sys.c:286-329 | the answer is -1, and nothing happens, if and only if the list has no block zone of this number |
| StoreAnswers.SaveAnswer | storage_sys.c:344-414 | for an id with an index below block_count: the bytes are at the offset given in the block of that index (where the file stood if fseek refuses the place), every other byte, bitmap and zone is as before |
| StoreAnswers.OwnerReads | storage_sys.c:286-455 | whoever got a block from a zone with room reads there what was last saved under its id at an offset, through any calls on any zones whose saves fit the blocks of other ids |
| StoreAnswers.FreeCounts | storage_sys.c:303-306 | over any run: block_free_count is its first value plus one for every request, while the number of free blocks falls by one until it is 0 |
| StoreAnswers.FreeCountRightIff | storage_sys.c:306 | so block_free_count is the number of free blocks if and only if no block has been asked for |
| StoreRuns.DifferentBlocks | storage_sys.c:346-362 | ids with an index below block_count lead to the same block only if they are equal |
| StoreRuns.SaveSparesIff | storage_sys.c:380-414 | for every offset, negative ones and ones that fseek refuses included: exactly which saves leave the headers and the other blocks alone |
| StoreRuns.IndicesOfBlock | storage_sys.c:354-359 | the indices that lead to a block are exactly those 2^32 laps of the zone apart, because file_index is an int |
| StoreRuns.SameBlockIff | storage_sys.c:346-362 | two ids lead to one block if and only if the zones agree and the indices differ by such laps |
| StoreRuns.TwoIdsOneBlock | storage_sys.c:346-362 | two such ids for a zone of 1000 blocks |
| Rings.PowerOf | netfilter_mod/lf_rwq.h:42 | the length check of lfrwq_init accepts exactly the powers of two, and 0, and counts the exponent (lf_rwq.c:241-264) |
| Rings.Masks | netfilter_mod/lf_rwq.h:6-22 | with such lengths the masks and shifts find slot, block and place in the block (lf_rwq.c:39-49) |
| Rings.SameSlot | netfilter_mod/lf_rwq.h:6-22 | indices on one slot are told apart by their laps (lf_rwq.c:121-123) |
| LfQueueProofs.StepKeeps | netfilter_mod/lf_rwq.h:6-43 | every single step of every process, in any state, keeps the invariant of slots, claims, permits and credits (lf_rwq.c:32-233) |
| LfQueueProofs.NoOverlap | netfilter_mod/lf_rwq.h:34 | a writer whose compare-and-swap succeeded always finds its slot empty: the overlap branch is never taken (lf_rwq.c:137-141) |
| LfQueueProofs.SeesOwn | netfilter_mod/lf_rwq.h:32 | the first thing a reader sees in its slot is the item written for its own index (lf_rwq.c:38-44) |
| LfQueueProofs.ReadsBegun | netfilter_mod/lf_rwq.h:38 | readers never run ahead of the blocks writers have begun, because permits bound them (lf_rwq.c:204-223) |
| LfQueueProofs.ClaimPassed | netfilter_mod/lf_rwq.h:34 | when an index is claimed, all earlier laps of its block have been read (lf_rwq.c:121-131) |
| LfQueueProofs.AskPermits | netfilter_mod/lf_rwq.h:38 | taking too many permits and giving the surplus back neither creates nor loses any (lf_rwq.c:204-223) |
| LfQueueRuns.RunSound | netfilter_mod/lf_rwq.h:6-43 | the invariant holds in every state of every run of any number of readers and writers (lf_rwq.c:32-233) |
| LfQueueRuns.Safe | netfilter_mod/lf_rwq.h:32-43 | in every run: no overlap, and a reader holds exactly the item of its index (lf_rwq.c:32-145) |
| LfQueueRuns.ExactlyOnce | netfilter_mod/lf_rwq.h:32-34 | an item put in the queue is read unchanged, once and by one reader, or is still in its slot (lf_rwq.c:32-145) |
| LfQueueRuns.AtRest | netfilter_mod/lf_rwq.h:38-40 | with all processes idle every claimed index is written, every taken one read, and permits left, held and used add up to whole blocks (lf_rwq.c:197-233) |
| LfQueueRuns.RefusedIffUnread | netfilter_mod/lf_rwq.h:34-40 | with all reads credited the test of lfrwq_inq refuses an index if and only if something of an earlier lap of its block is unread (lf_rwq.c:122-128) |
| LfQueueAnswers.AcceptedIff | netfilter_mod/lf_rwq.h:34 | so the writer's step goes on to claim the index if and only if all earlier laps of its block have been read, and comes back with -1 otherwise (lf_rwq.c:122-131) |
| LfQueueAnswers.EnqueueAnswer | netfilter_mod/lf_rwq.h:34 | lfrwq_inq by itself: the item is at the write index, in its slot, and a block it begins is granted to readers; or, exactly when the block is not read out, nothing changes (lf_rwq.c:104-151) |
| LfQueueAnswers.RoomAtRest | netfilter_mod/lf_rwq.h:34-43 | the room in every run: a queue at rest stores one more item if and only if the block of the write index is less than blk_cnt blocks ahead of the block of the read index (lf_rwq.c:104-151) |
| LfQueueAnswers.EnqueueEnds | netfilter_mod/lf_rwq.h:34 | in every interleaving lfrwq_inq goes on until its item is at a new index or a full block refuses it; a lost compare-and-swap does not end it (lf_rwq.c:114-151) |
| LfQueueAnswers.SomeoneClaims | netfilter_mod/lf_rwq.h:34 | the compare-and-swap claims the index that was checked, or another writer has claimed that one in the meantime (lf_rwq.c:129-136) |
| LfQueueAnswers.SoftAnswer | netfilter_mod/lf_rwq.h:43 | lfrwq_soft_inq by itself, at the write index: every index up to the end of the block gets a mark, no block is begun, nothing else changes (lf_rwq.c:52-101) |
| LfQueueAnswers.AskAnswer | netfilter_mod/lf_rwq.h:38 | lfrwq_get_rpermit by itself: as many permits as suggested, all there are if that is less, none if there are none; the counter falls by exactly that (lf_rwq.c:204-223) |
| LfQueueAnswers.AskBetween | netfilter_mod/lf_rwq.h:38 | the same number when others step between its two accesses (lf_rwq.c:208-219) |
| LfQueueAnswers.SpinsUntilWritten | netfilter_mod/lf_rwq.h:32 | a reader leaves its loop, with its own item, if and only if that has been written (lf_rwq.c:40-43) |
| LfQueueAnswers.ReadAnswer | netfilter_mod/lf_rwq.h:32-40 | lfrwq_deq and its credit by themselves: the item of the read index, its slot free, one permit used, one read more to the credit of its block (lf_rwq.c:32-49, 197-201) |
| LfQueueAnswers.CreditsAdd | netfilter_mod/lf_rwq.h:40 | crediting reads together is crediting them one after the other (lf_rwq.c:197-201) |
| ReadAccounting.ReadBatch | netfilter_mod/wireway_dev.c:203-250 | the calls of lfrwq_add_rcnt credit each block exactly as often as a dequeue returned it (as far as 32 bits show it), each batch non-empty, neighbours different |
| ReadAccounting.CreditsExact | netfilter_mod/wireway_dev.c:174-232 | the credits are exact if and only if every block number fits the 32 bits of local_idx |
| ReadAccounting.CreditsSum | netfilter_mod/wireway_dev.c:185-250 | the credits sum to the permits used |
| ReadAccounting.CallsSettle | netfilter_mod/wireway_dev.c:235-250 | in the queue these calls settle exactly what the reader owes and touch nothing else |
| RcvProtocol.StepKeeps | netfilter_mod/wireway_dev.c:79-135 | every step of the receiver and of every waker keeps the invariant of the wait and wake protocol |
| RcvProtocol.OneClaimEach | netfilter_mod/wireway_dev.c:119-132 | in every interleaving each wait episode is claimed at most once |
| RcvProtocol.OneWakerEach | netfilter_mod/wireway_dev.c:119-132 | no two wakers act on the same claim at the same time |
| RcvProtocol.NextWaitYields | netfilter_mod/wireway_dev.c:79-99 | after an exchange that returned thread_running the receiver's next wait takes the branch that does not sleep (RcvAnswers.WaitSleepsIff has the other direction) |
| RcvAnswers.WaitSleepsIff | netfilter_mod/wireway_dev.c:79-99 | every wait, the first one included: at its next own step the receiver is back at work if some waker exchanged since it last came back, and asleep if none did |
| RcvAnswers.OwnStep | netfilter_mod/wireway_dev.c:82-97 | whatever wakers do in between: a marked receiver goes to sleep, one that yields or was woken comes back as thread_running, a sleeper stays |
| RcvAnswers.CallClaims | netfilter_mod/wireway_dev.c:115-121 | a call that finds another state than thread_run leaves thread_run, and goes on to wake the receiver if and only if its exchange returned thread_wait or thread_idle |
| RcvAnswers.CallsAgain | netfilter_mod/wireway_dev.c:124-131 | wake_up_process on a sleeper is the last; on others the waker calls it again if and only if it then finds thread_running |
| RcvProtocol.LostIff | netfilter_mod/wireway_dev.c:82-131 | a wakeup is lost if and only if wake_up_process fell between the exchange and set_current_state, the receiver sleeps, and no other waker is about to wake it |
| RcvProtocol.SleepsUnmissed | netfilter_mod/wireway_dev.c:82-96 | when it did not, a sleeping receiver is unclaimed or its waker is on the way |
| RcvProtocol.LostForever | netfilter_mod/wireway_dev.c:102-135 | no later waker wakes a lost receiver |
| RcvProtocol.WakeupCanBeLost | netfilter_mod/wireway_dev.c:82-131 | a run in which that happens |
| RcvProtocol.WaitIsWoken | netfilter_mod/wireway_dev.c:102-135 | a receiver asleep and unclaimed: once any waker has taken two steps, with any others in between, it is awake or claimed by a waker whose next step wakes it |
| RcvProtocol.ClaimerWakes | netfilter_mod/wireway_dev.c:119-132 | that next step, however late and whatever happens before it, leaves the receiver awake |
| EntityReq.SerialEntityReq | thread_main.c:47-98 | every byte of a buffer of exactly the computed length is written, fields in order; -1 for an empty name |
| EntityReq.DeserialEntityReq | thread_main.c:99-175 | for every buffer and every mem_len: the cursor walk comes to NULL, to the fields where the format puts them, to an access outside the buffer, or to the overflow of a name length plus one |
| EntityReq.RoundTrip | thread_main.c:47-175 | parsing what was serialised gives back every field, whatever follows in the buffer |
| EntityReq.LeDigits | thread_main.c:75-96 | byte k of a number in the message is its digit k to the base of 256, as a little-endian machine stores it |
| EntityReq.ParseThenSerialise | thread_main.c:47-175 | serialising what was parsed gives back the message, byte for byte |
| EntityReq.RejectedIff | thread_main.c:149-161 | with its fixed fields inside the buffer a message is rejected exactly when its length disagrees with the sizes in it, or its size is so negative that malloc refuses |
| EntityReq.OtherLengthRejected | thread_main.c:149-154 | a message with the fields of a serialised one and any other length, cut short or padded, is rejected |
| EntityReq.ShortBufferOverruns | thread_main.c:108-147 | messages for which it does: a serialised request whose buffer ends before those fields |
| EntityReq.StaysInsideIff | thread_main.c:99-166 | for every buffer and every mem_len: the exact condition, to be checked before the call, for the parser to stay inside the buffer and inside int |
| EntityReq.OverrunIffUnframed | thread_main.c:99-166 | with no negative size in the message, it reads past the buffer if and only if the fixed fields are not in the buffer |
| EntityReq.NameTerminated | thread_main.c:117-135 | the parsed name reads as the name if and only if malloc left a NUL in the byte after it, which the parser does not write |

## Left out

- Persistence of tree nodes: block mirrors, lazy loading, `restore_bptree_root` and the id arrays; a tree in memory is modelled.
- Tree records and keys as memory: records are opaque addresses that are never freed, keys are string values without the 30-byte limit of their buffers, freed slots hold an empty string; the `tree_root` pointer of each node is not kept.
- `coalesce_nodes` clearing the slots of the node it destroys: that node is unreachable afterwards.
- Failed allocations (`malloc` returning NULL, `alloc_block_func` returning -1), `print_tree` and its queue, `destroy_tree`.
- BPlusTree.TreeRoot: `size` is the constant 5 of bptree.c:7; other orders are not covered.
- Bitmap.BitmapFindNextZeroArea: for sums below 2^64 only. `FullMaskRightIff` and `NeverReturnsIff` cover an align_mask of 2^64 - 1; any other mask of this form needs a bitmap of more than 2^62 bits to reach such a sum. With nr = 0 the result is not the least index, as the source starts at the next clear bit.
- Bitmap sizes as `int`: lengths are unbounded here; `bitmap_zero`, `bitmap_fill`, `bitmap_copy`, `hweight_long` and the extract and deposit functions would add only easy members.
- BlockStore.Store: zones with one media file each, open, and offsets of blocks that fit an `int` (the sum with the argument of `save_data_offset` is not narrowed); registration under a name, restoring a zone, several media files and free zones are not part of this model. The overflow of `block_free_count` after 2^31 requests is not modelled. The zone header and the pointers in the media header are opaque bytes, and what `fwrite` wrote is in the file at once.
- LfQueue: 64-bit indices that do not wrap, items that are not NULL, and an `int` permit counter that does not overflow; fairness is not assumed, so that a waiting reader gets to step is not claimed, and debug counters are left out. One shared access is one step on a sequentially consistent memory.
- RcvProtocol: one cpu at a time, as the cpus share nothing in it; the counters for debugging are left out.
- ReadAccounting.ReadBatch: the dequeued block numbers are its input; freeing messages and giving up the cpu after 100 of them change no count.
- EntityReq.DeserialEntityReq: the sum of the cursor for buffers of 2^31 bytes and more, which an `int` does not hold.
- EntityReq.ParseThenSerialise: names without NUL, since `strncpy` stops at one.
- Wireway forwarding and bridge graphs, user entities, the id cache of netfilter_mod/wireway_func.c, message queues, sockets, netfilter hooks, character devices and timers.
