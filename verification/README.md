# LogFS tools: a verified model

A Dafny model of `mklogfs`: the in-memory B+tree it keeps its bookkeeping in (`btree.c`), the block
trees of files (`readwrite.c`), the log-structured segment writer (`segment.c`), and the parts of
`mkfs.c` that lay out and account for what is written, up to what a reader of the finished device finds.
`dafny verify dfyconfig.toml` checks the whole project.

## The B+tree

`Heap.dfy` is the memory: a node is one flat array, keys first, values after, reached through its
address. Any allocation may be refused; `Calloc.dfy` counts the refusals, and every operation that allocates
says that it fails exactly when one of its allocations was refused. `Find.dfy`, `InsertOps.dfy`, `Steal.dfy`,
`RemoveOps.dfy`, `Btree.dfy` and `Visitor.dfy` hold the operations with the loops, the recursion up the tree,
the `retry`, the in-place shifting and the key pointers into nodes of the original. Each step of an operation is also
a function on a value, `Trees.Tree` (memory, root, height, and for every node its level, its parent slot
and the key interval it may hold); what these steps keep is proved in `Find.dfy`, `Resplit.dfy`,
`Split.dfy`, `Insert.dfy`, `Cut.dfy`, `Border.dfy`, `Merge.dfy` and `Remove.dfy`.

The invariant `Trees.Inv(t, l)` speaks about levels `l` and up only, so it holds while `split` has an
empty sibling linked into the parent and while `merge` has two children swapped under their separators.
The contract of one level (`SplitProof.InsertPost`, `MergeProof.Removed`) says: the entries of the level
change by one pair, nothing below the level changes but parent links, and no node is leaked. Separators
are lower bounds that `find_level` lowers on its way (`Find.Lowered`). In `Btree.dfy` a head stands for
a finite map; `OthersKept` says that memory outside the tree is untouched and that the set of allocated
nodes outside the tree is the same, so nothing leaks, on the -ENOMEM path included.

Every `BUG` and `BUG_ON` of these functions is either an `assert` (the child is found in its parent, at
least one entry is stolen, there is a neighbour, a removal never climbs past the root) or follows
from the callee's precondition being proved at every call (non-NULL value, no duplicate key, node not
NULL, index not negative).

Keys are numbers below `span`. `Longs.dfy` proves that `longcmp` compares word arrays as such numbers, that
different keys are different numbers, and that all three geometries give at least five pairs, the trees
needing four.

What the code does with an absent key is part of the contract of `Btree.Remove`; see the findings below.

## The block trees, the segments and mkfs

`Disk.dfy` describes the writer as a value: device bytes, twelve area buffers, segment entries, and the pieces
(segment headers and objects) put anywhere so far; `Segments.dfy` is the imperative writer over it. Offsets are
computed in the 32-bit arithmetic of the code, on devices of any size: an object is known by the place where it
really begins, and the offset returned is that place modulo 2^32 (`Segments.Super.SegmentWrite`). Which segments
cannot be erased is a property of the device; writes and allocations may fail at any time and are counted, and
every operation says that it fails exactly when one of them did, when the segments have run out, or, for files,
when an offset did not fit (`Segments.Super.Trouble`). `Index.dfy` has the index arithmetic, from the shifts and
masks of the C code to base-512 digits. `Blocks.dfy` says what a partly flushed tree of indirect blocks stands
for, `ReadWrite.dfy` has the operations, `FileRun.dfy` follows block pointers on the device bytes, `MkFs.dfy`
the order in which a filesystem is filled, `Journal.dfy` the journal and its entries.

`Mount.dfy` puts everything together. `Mount.Mounted` is a reader that is given the bytes of the device, the
size and number of its segments, where the journal begins and ends, and a decompressor: it steps through the
journal, unpacks anchor, superblock entry and aliases, follows the anchor to the inodes of segment file and root,
follows the block pointers of the segment file, and replays the aliases. `Mount.MakeFilesystem` runs `mkfs` from an
empty device. It says how each run ends, and proves of every complete run that this reader finds every segment
entry as it was in memory, a count of bytes in use that is the sum of the valid counts of these entries and the
sum of the counts stored in anchor and inodes, and the values the format gives all other fields of the anchor and
of both inodes. What the headers of segments, objects, inodes and journal entries hold is stated byte by byte,
apart from the functions that build them (`Disk.SegmentTells`, `Disk.HeaderTells`, `Segments.Filed`,
`FileRun.PathNamed`, `MkFs.InfoOf`).

Hypotheses, as the code has them: a file is flushed at height 3 or less, because `bixmask` shifts a 32-bit one;
one flush per file, because a flushed tree is not read back; objects have the length of their type; the
compressor stays within its space, and what it reports as shorter can be unpacked again.

## Findings

- Removing the absent key 0 (btree.c:610-613). Unused slots have key 0. When the leaf that holds the smallest
  key is not full, `btree_remove_level` takes its unused slot for a hit, returns NULL, and clears the last used
  slot: the smallest entry of the tree is lost. `Btree.AbsentUnchanged` proves that removing an absent key leaves
  the map alone if and only if this is not the case, `Btree.AbsentZeroExample` is a tree with the one key 5.
- Removing an absent key from a full leaf (btree.c:612). When all keys of the leaf are larger, the comparison
  reads the word behind the keys, the first value; if that equals the key, the code goes on to a value outside the
  node. `Btree.Remove` reports this exactly when `RemoveProof.Overrun` holds of the tree, and `Btree.OverrunExample`
  is a tree for which it does. Neither of these two is reached by the callers, who remove present keys or remove
  from an empty tree.
- The offset `logfs_segment_write` returns is computed in 32 bits (segment.c:163). It is exact for the segments of
  the first 4 GiB and for no other (`Segments.OffsetExact`); no object is lost or overwritten beyond, but what is
  returned no longer names it. As long as the segments taken end below 4 GiB every offset of a run is exact,
  however large the device is (`Segments.Super.Run`).
- `grow_inode` (readwrite.c:118) compares with `bix > maxbix(height)` where `>=` is needed: index 512^h exactly
  does not raise the height. Such a file has two blocks on its top level, the flush writes one of them, and
  everything below the other is lost. `ReadWrite.RoundTrip` and `FileRun.WriteFile` prove, for every sequence of
  writes, that a reader is exact after the flush if and only if the largest index written is no power of 512 or is
  the only indirect one; `ReadWrite.LostBlocks` says that otherwise all other indirect blocks are lost, and
  `FileRun.PathIff` tells on whose way the reader passes the right blocks, and `FileRun.BoundaryExample` is a run
  that shows the loss (blocks 16 and 512 of a new file). A segment file runs into this exactly when the number of
  segments lies in 262145..262656 or in 134217729..134218240 (`MkFs.SegfileCondition`). Its blocks are all zero,
  so a reader that takes a missing block for zeros still gets the right table (`MkFs.SegmentTable`).
- `je_alias` (mkfs.c:363-380) writes one alias of 32 bytes per used segment into a scratch buffer of two blocks
  without looking at its size: it overruns exactly when more than 256 segment entries are not zero
  (`Journal.JeAlias`). On a device that begins with 257 bad segments mkfs always gets there, unless something
  fails before (`Mount.ScratchExample`).

## Model

| member | source | states |
|---|---|---|
| Longs.ValueRange | btree.c:56-70 | a key of n words below w is a number below w^n |
| Longs.FirstDifference | btree.c:77-88 | the first differing word decides which of two keys is the larger number |
| Longs.ValueInjective | btree.c:77-88 | different keys of one length are different numbers |
| Longs.LongCmp | btree.c:77-88 | the loop returns -1, 0 or 1 as the first key is numerically less, equal or greater; no operation of the tree calls it, since keys there are the numbers |
| Longs.LongCpy | btree.c:90-98 | copies exactly n words and leaves the rest of the destination; not called by the tree operations, whose keys are numbers |
| Longs.LongSet | btree.c:100-108 | sets exactly n words and leaves the rest; not called by the tree operations, whose keys are numbers |
| Longs.Geometries | btree.c:48-70 | for 32, 64 and 128-bit keys, both word sizes and any cache line: at least 5 pairs, the node is not overrun, keys and values do not overlap |
| Memory.Heap.constructor | btree.c:72-75 | an empty memory |
| Memory.Heap.Alloc | btree.c:72-75 | calloc gives an unused address with an all-zero node, or NULL with memory unchanged, and NULL exactly when it is refused |
| Memory.Heap.Free | btree.c:331-331 | exactly the freed node disappears |
| Memory.Heap.GetKey | btree.c:116-119 | reads the key slot of the abstract node |
| Memory.Heap.GetVal | btree.c:121-124 | reads the value slot of the abstract node |
| Memory.Heap.GetWord | btree.c:116-119 | bkey past the keys reads the values |
| Memory.Heap.SetKey | btree.c:126-130 | changes one key slot of one node and nothing else in memory |
| Memory.Heap.SetVal | btree.c:132-136 | changes one value slot of one node and nothing else in memory |
| Memory.Heap.ClearPair | btree.c:138-142 | zeroes one pair of one node and nothing else in memory |
| Nodes.PosInFill | btree.c:254-275 | getpos never passes the used part, and getfill started there still finds its end |
| Nodes.InsertAtFacts | btree.c:488-495 | shifting and inserting keeps keys strictly falling and unused slots zero, one more slot used |
| Nodes.InsertAtEnts | btree.c:488-495 | a node gains exactly the inserted pair |
| Nodes.RemoveAtFacts | btree.c:616-621 | removing and shifting keeps keys strictly falling and unused slots zero, one slot less used |
| Nodes.RemoveAtEnts | btree.c:616-621 | a node loses exactly the removed pair |
| Trees.SameNode | btree.c:278-302 | intervals of one level are disjoint: a key routes to one node only |
| Find.GetPos | btree.c:254-264 | the first slot with a key at most the given one |
| Find.GetFill | btree.c:266-275 | the first unused slot at or after the start |
| Find.LowerLastInv | btree.c:290-296 | lowering the right-most separator to a key routed there keeps the invariant |
| Find.FindLevel | btree.c:279-302 | ends at the node of the level the original separators route the key to, whose interval then holds it; only separators above were lowered, invariant and fill limits kept |
| Resplit.PartsEnts | btree.c:335-414 | moving the border between two neighbours loses and invents no entry |
| Resplit.MovedInv | btree.c:335-414 | moving the border restores the invariant of the level |
| Resplit.MovedEntries | btree.c:335-414 | moving the border changes no entry of the level |
| SplitProof.OpenedPre | btree.c:391-396 | an empty sibling may be inserted one level up under the middle key: the key is new there and its position is known |
| SplitProof.SplitHolds | btree.c:401-413 | moving the left half over completes the split: invariant, fill limits, entries, nothing below touched, room for the key |
| SplitProof.FailedInv | btree.c:397-400 | when the insertion one level up fails, freeing the sibling leaves a well formed tree with the same nodes |
| InsertProof.PlaceInv | btree.c:488-495 | storing the pair keeps the invariant, with the new child linked before its sibling |
| InsertProof.PlaceEntries | btree.c:488-495 | the level gains exactly the pair |
| InsertProof.PlaceBelow | btree.c:488-495 | nothing below the level changes but the parent links, and no node is leaked |
| InsertProof.GrowSearching | btree.c:304-320 | the new root is a well formed top level ready for the insertion, the old tree below it untouched |
| InsertOps.Grow | btree.c:304-320 | a new root over the old one under its smallest key; -ENOMEM and no change exactly when the allocation is refused |
| InsertOps.MoveHalf | btree.c:401-412 | the loop of split leaves the first half in the sibling and the second, shifted and cleared, in the node, for even and odd sizes |
| InsertOps.Split | btree.c:385-414 | on success the split level has the same entries and room for the key, and the node has shared its entries evenly with a new one; it fails exactly when an allocation is refused, and then only separators above were lowered |
| InsertOps.ShiftInsert | btree.c:488-495 | the shifting loop stores the pair at its position, reading the key through its pointer after the shift |
| InsertOps.InsertLevel | btree.c:459-497 | the level gains one pair and nothing below it changes, or, exactly when an allocation is refused, nothing changes; the levels split are consecutive, from this one on, one node on each, and memory gains one node for each split and each new root |
| CutProof.CutInv | btree.c:616-621 | removing a slot keeps the invariant of the level |
| CutProof.CutEntries | btree.c:616-621 | exactly the removed pair is gone from the level |
| CutProof.CutSlots | btree.c:519-524 | the next child takes over the range of the removed one |
| BorderProof.BorderRange | btree.c:353-354 | the new separator lies strictly between its neighbours |
| BorderProof.StolenHolds | btree.c:335-381 | stealing rebalances the level: invariant, fill limits, entries, children keep their ranges |
| MergeProof.ExchangedCut | btree.c:514-522 | with the two children swapped under their separators, the levels above are well formed and the slot can be removed |
| MergeProof.SwallowedHolds | btree.c:519-524 | after the recursive removal the merged node is still linked, with at least its old upper bound, and everything else on and below the level is as before |
| MergeProof.MergedHolds | btree.c:507-525 | merging rebalances the level: invariant, fill limits, entries, children keep their ranges, the emptied node is freed |
| StealOps.StealL | btree.c:335-357 | the loops leave in both nodes and the parent what moving the border by the given number of entries gives |
| StealOps.StealR | btree.c:359-381 | the same for stealing from the right |
| RemoveProof.ParentFound | btree.c:533-535 | the parent search ends in the parent of the child at the slot of the child, and there is a neighbour |
| RemoveProof.KeyFound | btree.c:609-611 | the search for a stored slot ends at that slot |
| RemoveProof.ShrunkInv | btree.c:322-333 | dropping the root leaves a well formed tree of one level less |
| RemoveProof.RemovedShrunk | btree.c:322-333 | shrinking completes a removal at the top level |
| RemoveProof.LeafFound | btree.c:609-614 | what a removal at the leaves finds, for present and absent keys, key 0 and full leaves included |
| RemoveOps.HalfDifference | btree.c:570-588 | half the difference is at least one entry and leaves both nodes at least two |
| RemoveOps.CutDone | btree.c:616-628 | after the shift the aliased key pointer reads the next key, which still lies in the range of the same node |
| RemoveOps.Shrink | btree.c:322-333 | drops the root when it is empty or has one child, and only then |
| RemoveOps.Merge | btree.c:507-525 | rebalances the level, through a removal one level up whose key pointer is the slot being removed; the left node has the entries of both, the right one is freed |
| RemoveOps.RebalanceIn | btree.c:537-592 | the level is rebalanced: the child is merged with its left or else its right neighbour exactly if both fit one node, left as it is if it has more than one entry, and otherwise shares evenly with its left neighbour, or its right one; the final BUG is not reached |
| RemoveOps.Rebalance | btree.c:527-592 | finds the child in its parent and rebalances the level |
| RemoveOps.RemoveLevel | btree.c:595-631 | exactly one slot leaves the level and everything above is rebalanced; the recursion never passes the root |
| Walk.FlatFalling | btree.c:675-698 | a walk meets strictly falling keys in the range of the node |
| Walk.FlatIsEntries | btree.c:675-698 | a walk from the root meets exactly the entries of the leaves |
| Walk.UnderParts | btree.c:675-698 | a subtree is its node and the disjoint subtrees of its slots |
| Walk.HeightBound | btree.c:322-333 | a tree of height h of 2 or more holds at least 2^h entries |
| Btree.Init | btree.c:194-203 | an empty head is the empty map |
| Btree.Insert | btree.c:499-503 | the map gains exactly the pair, unless an allocation is refused; then, and only then, -ENOMEM, with map, nodes and other trees as before |
| Btree.Lookup | btree.c:225-252 | agrees with the map for every key, 0 included, NULL for absent keys |
| Btree.Last | btree.c:205-217 | a pointer to the largest key, NULL exactly for the empty map |
| Btree.LeastUnique | btree.c:610-613 | the leaf with the smallest key is unique, so the exception for key 0 is well defined |
| Btree.AnswerSpec | btree.c:609-631 | from what was found to what happens to the map: present keys removed, absent ones ignored, key 0 as described above |
| Btree.Remove | btree.c:633-640 | a present key is removed and its value returned; an absent key changes nothing, but for key 0 with an unused slot in the last leaf; the read outside a full leaf is reported exactly when it happens |
| Btree.OverrunExample | btree.c:609-614 | a full leaf with first value 5: removing the absent key 5 reads outside the leaf |
| Btree.AbsentUnchanged | btree.c:610-621 | removing an absent key leaves the map alone if and only if the key is not 0 or the leaf with the smallest key is full |
| Btree.AbsentZeroExample | btree.c:610-621 | removing the absent key 0 from a tree with the single key 5 empties it |
| Btree.ApartKept | btree.c:659-670 | an operation on one tree leaves the other trees of the memory as they were |
| Btree.MoveEntry | btree.c:661-671 | one entry moves from victim to target; nothing does exactly when an allocation is refused |
| Btree.MergeTrees | btree.c:642-673 | the target becomes the union and the victim empty; an empty target takes over the tree as it is and never fails; exactly when an allocation is refused it stops, and the two still share out the same entries |
| Btree.Step | readwrite.c:41-49 | look first, then insert the absent or remove the present; left undone exactly when an allocation is refused |
| Btree.Run | btree.c:459-640 | over any run of operations the tree is well formed, equals the map the operations describe, has logarithmic height, and leaks nothing; every operation is done if and only if no allocation is refused |
| Visitor.ForEach | btree.c:675-698 | one call per entry of the subtree, left to right, numbered on from the count; with reap each node of the subtree is freed once |
| Visitor.VisitAll | btree.c:740-753 | every pair once, keys strictly falling, indices from 0, the count is the number of pairs |
| Visitor.VisitGrim | btree.c:755-769 | the same calls; exactly the nodes of the tree are freed and the head is empty |
| Bytes.BeRoundTrip | mkfs.c:271-273 | a number stored big-endian is read back modulo its width |
| Disk.ImageReadsBack | segment.c:147-156 | every field of an object header is read back: length and type by kind, no compression, inode, index, and the two checksums; then the payload |
| Disk.SegHeaderReadsBack | segment.c:62-77 | every field of a segment header is read back: type 3, level, segment number, erase count 1, segment number again, checksum |
| Disk.Taken | segment.c:39-60 | taking a segment from the end disturbs no earlier piece |
| Disk.OpenedOk | segment.c:62-77 | an area that starts a fresh segment keeps every earlier piece, the header being the first piece of the new one |
| Disk.PutOk | segment.c:33-37 | an object goes into free space and disturbs no earlier piece |
| Disk.WrittenSettled | segment.c:89-97 | writing an area's buffer puts all pieces of its segment on the device |
| Disk.TotalPut | segment.c:109-119 | the sum over all inodes grows by what one inode is charged |
| Disk.SumOne | segment.c:99-102 | changing one segment's count changes the sum by the difference |
| Segments.Device.Write | mkfs.c:162-193 | bytes outside the range are untouched, those inside are the buffer's unless the write fails, and failures are counted |
| Segments.Blit | segment.c:33-37 | exactly the copied range changes |
| Segments.Area.CopyBuf | segment.c:33-37 | the bytes are appended to the used part |
| Segments.Super.GetSegment | segment.c:39-60 | the first segment from the end on that is not bad; all before it are marked, nothing allocated earlier is touched; it fails only when no good segment is left |
| Segments.Super.ReserveSegment | mkfs.c:508-519 | one more segment set aside; it counts no bytes, disturbs no piece, and nothing is ever put there; fails only when no good segment is left |
| Segments.Super.Open | segment.c:62-77 | a full area moves on to a fresh segment without losing a piece or a byte of the accounts |
| Segments.Super.FinishArea | segment.c:89-107 | the segment is on the device with its count, level and erase count entered; a new one follows unless final |
| Segments.Super.Store | segment.c:163-166 | an object is stored at an unused place at the end of its area; what is returned is this place modulo 2^32 |
| Segments.Super.SegmentWrite | segment.c:135-170 | one object is added where its area had room, or first in a fresh segment whose header names the area; all others stay where they are, the inode is charged header and payload, and the accounts agree; the offset is exact unless it does not fit 32 bits; it fails exactly when a write or allocation failed or no segment was left |
| Segments.Super.FlushSegments | segment.c:172-186 | afterwards every object is on the device and the valid counts add up to the bytes in use; fails exactly when a write does |
| Segments.Super.WriteReserved | mkfs.c:451-451 | a segment set aside is on the device, and, where its 32-bit offset is exact, every object and every account is as before |
| Segments.Super.Extents | segment.c:158-166 | objects overlap neither each other nor a segment header and cross no segment boundary |
| Segments.Super.WhereFiled | segment.c:135-146 | after a flush, every object lies in one segment, behind a header of type 3 with the level of the object, 6 higher for the inode file; the entry of the segment tells that level and erase count 1 |
| Segments.Super.LevelsApart | segment.c:144-146 | objects in one segment have one level, and objects of the inode file share no segment with others |
| Segments.Super.Run | segment.c:135-186 | after any run of writes and a flush, on a device of any size, it holds header and payload of every object at a place of its own, in a segment whose header and entry tell its level; the value of this place in 32 bits was returned; extents are disjoint, accounts agree; offsets are exact if the segments taken end below 4 GiB; it fails exactly when a write or allocation failed or no segment was left |
| Segments.Super.Below | segment.c:158-166 | objects lie in the segments taken so far |
| Segments.OffsetExact | segment.c:163-163 | the 32-bit product is exact for the segments of the first 4 GiB and for no other |
| Index.MaskIsCanon | readwrite.c:84-89 | or-ing the mask gives the index of the block above |
| Index.GetBitsIsDigit | readwrite.c:16-29 | shifting down, up and down in 64 bits extracts the base-512 digit |
| Index.CanonFacts | readwrite.c:98-105 | the parent of an inner index is the parent of every index below it |
| Index.CanonInjective | readwrite.c:98-105 | parent index and digit together determine the index of an inner block |
| Index.ChildOfCanon | readwrite.c:98-105 | going up one level and down again by the digit leads back to the same block |
| Index.DigitPath | readwrite.c:84-105 | every index below 512^h has its own digit path |
| Blocks.PayloadReadsBack | readwrite.c:105-105 | the words of an indirect block are read back from its bytes |
| Blocks.WalkKept | readwrite.c:91-107 | writing further objects does not change what is read, nor that every pointer of a tree leads to the block whose inode, level and index belong there |
| Blocks.EnterReach | readwrite.c:98-105 | a stored pointer is what is read behind it, and nothing else changes |
| Blocks.StoredMore | readwrite.c:122-136 | after writing a data block it is found at its new offset and all others where they were |
| Blocks.SplitStep | readwrite.c:154-164 | moving one indirect block up keeps every data block reachable |
| Blocks.TopKey | readwrite.c:166-171 | the top level is not empty, its largest key stands above the largest block; below 512^h it is the only one and has key 512^h - 1 |
| Blocks.TopWritten | readwrite.c:171-176 | what a walk from the top block reads, for every index and every largest index |
| ReadWrite.Last64 | btree.h:173-182 | the largest key, 0 for the empty tree |
| ReadWrite.File.GrowInode | readwrite.c:109-120 | the smallest height whose maximum is not below the index, for data blocks only; for all indices the 64-bit shift covers |
| ReadWrite.LowHeight | readwrite.c:109-120 | the height stays at 3 or below while no index exceeds 512^3 |
| ReadWrite.File.WriteDirect | readwrite.c:72-82 | the object is written and its offset put into the direct slot |
| ReadWrite.File.WriteLoop | readwrite.c:91-107 | the object is written and its offset entered at its digit in the parent block, created if missing; fails exactly on a fault or an offset that does not fit |
| ReadWrite.File.Write | readwrite.c:122-136 | the block is on the medium as handed over, and is the latest version of its index, for every index the 64-bit shift covers; fails exactly on a fault or an offset that does not fit |
| ReadWrite.File.Drain | readwrite.c:149-165 | the level is empty afterwards and every data block is found below the next one, every pointer leading to the block whose inode, level and index belong there; the loop ends |
| ReadWrite.File.WriteTop | readwrite.c:166-177 | a block remains, and the walk from it reads what the top of the tree stands for; it and all blocks below carry inode, level and index of their place |
| ReadWrite.File.Flush | readwrite.c:138-178 | all levels are written bottom up, every block with inode, level and index of its place, and nothing remains in memory if the largest index is below 512^height; fails exactly on a fault or an offset that does not fit |
| ReadWrite.RoundTrip | readwrite.c:109-178 | after a flush the reader finds the last write of every block and nothing else if and only if the largest indirect index is no power of 512 or the only one |
| ReadWrite.LostBlocks | readwrite.c:109-178 | otherwise every indirect block but the one with the largest index is lost |
| FileRun.BoundaryExample | readwrite.c:114-120 | blocks 16 and 512 written to a new file, flushed: height 1, block 16 is not found, the reader is not exact |
| FileRun.DevWalkIs | readwrite.c:154-177 | pointers followed on the device bytes lead where the written objects say |
| FileRun.DevWalkNamed | readwrite.c:154-177 | pointers followed on the device towards a block lead, on each level, to the block above it, until one is missing |
| FileRun.DeviceRoundTrip | readwrite.c:109-178 | the if-and-only-if of the round trip, down to the bytes of the device |
| FileRun.PathIff | readwrite.c:138-178 | the headers on the device of the blocks passed on the way to a written block tell type, inode, index and level of the blocks above it, if and only if the indices fit the tree or the block has the largest one |
| FileRun.WritesFit | readwrite.c:114-120 | whether a file fits its tree can be told from the indices written |
| FileRun.WriteFile | readwrite.c:122-178 | any writes, a file flush and a segment flush: reading the device gives every block as last written, header and payload, and no other block below 512^height, if and only if the largest index written is no power of 512 or the only indirect one; and the way to each block leads through blocks that name themselves as those above it, under the same condition or for the largest block; fails exactly on a fault or an offset that does not fit |
| MkFs.InodeReadsBack | mkfs.c:237-246 | every field is read back from an inode: mode, height, flags, count 1, bytes in use, size and pointers, zeros in owner, times and generation |
| MkFs.WriteSegmentFile | mkfs.c:248-278 | all blocks the segment file needs are written as zeros and flushed |
| MkFs.WriteFiles | mkfs.c:248-297 | segment file and both inodes are written, with mode, height, flags, size, pointers and bytes in use; only three inodes are charged, two of them not after being stored |
| MkFs.Format | mkfs.c:582-592 | everything is on the device; the two inodes read back there are a regular file (0x8000) of 8 bytes for every segment and a directory (0x41ed) of size 0, with height, flags, count 1 and bytes in use; the bytes in use are the sum of the valid counts, and of the counts of the three inodes |
| MkFs.SegfileCondition | mkfs.c:269-274 | for every 32-bit number of segments, the segment file fits its tree if and only if that number is not in 262145..262656 or 134217729..134218240 |
| MkFs.SegfileHeight | readwrite.c:114-120 | the height of the segment file, exactly, for every number of segments |
| MkFs.ZeroFound | mkfs.c:269-274 | every block of the segment file found on the device is zero |
| MkFs.SegmentTable | mkfs.c:355-383 | the aliases replayed onto the segment file on the device give all segment entries, whether or not that file fits its tree |
| Journal.AliasReadsBack | mkfs.c:371-377 | index and packed value of an alias decode to the segment and its entry |
| Journal.AliasBytesReadBack | mkfs.c:373-377 | an alias is read back from its 32 bytes |
| Journal.AliasesReadBack | mkfs.c:355-383 | the data of the alias entry is read back as the aliases |
| Journal.JeAlias | mkfs.c:355-383 | the aliases of all entries that are not zero stand in the scratch buffer, and replaying them onto the all-zero segment file gives the whole table; they overrun the buffer if and only if more than 256 entries are not zero |
| Journal.TouchedBad | segment.c:52-57 | marked bad segments count among the entries that are not zero |
| Journal.HeaderReadsBack | mkfs.c:301-315 | every field of the header of a journal entry is read back, the five letters at its end included |
| Journal.DynsbReadsBack | mkfs.c:343-353 | global erase count 0x1000 and the bytes in use are read back |
| Journal.AnchorFields | mkfs.c:332-337 | size 65536, last inode 16 and bytes in use of the inode file are read back |
| Journal.JournalHeaderReadsBack | mkfs.c:225-235 | every field of the header of a journal segment is read back: type 2, level 0, segment number, erase count 0, checksum |
| Journal.ChainScan | mkfs.c:301-315 | stepping by header and aligned length visits exactly the written entries |
| Journal.ChainChecked | mkfs.c:301-315 | the checksum of every entry covers header and stored bytes, and its padding is as it should be |
| Journal.EntryCarries | mkfs.c:410-420 | a reader gets the data of an entry back, whatever the compressor did |
| Journal.EntryFits | mkfs.c:412-424 | an entry that starts within the first block ends one header behind it at the latest |
| Journal.Writer.WriteJe | mkfs.c:392-425 | BUG_ON fires if and only if there are data, the compressor fails and they do not fit the rest of the first block; otherwise the entry is appended with the output of the compressor, or with the data if it failed, and its offset recorded, unless it runs over the segment |
| Journal.Writer.WriteCommit | mkfs.c:385-425 | the commit entry holds the offsets of all entries before it, uncompressed and itself not listed; BUG_ON fires if and only if they do not fit the rest of the first block; or it runs over the segment |
| Journal.Writer.WriteJournal | mkfs.c:427-452 | a reader finds exactly the entries written, checksums right, and the commit entry lists the offsets of the others in order; it ends early exactly where BUG_ON fires or an entry runs over the segment |
| Journal.SmallJournal | mkfs.c:410-416 | entries that fit the first block uncompressed, commit entry included, are never refused |
| Mount.AnchorPointers | mkfs.c:332-339 | the block pointers of the inode file are read back from the anchor |
| Mount.InodePointers | mkfs.c:237-246 | block pointers and height are read back from an inode |
| Mount.BuildJournal | mkfs.c:443-450 | the journal segment with header and four entries, or where their layout ends early; up to 117 aliases always find their place |
| Mount.MakeJournal | mkfs.c:427-452 | journal segment header, anchor, superblock entry, aliases and commit entry are on the device, and the aliases stand for all segment entries; without a fault it ends as entries and compressor have it: complete, in the overrun, or in `write_je` |
| Mount.CompleteVolume | mkfs.c:323-383 | what journal and inodes on the device tell a reader |
| Mount.Mkfs | mkfs.c:580-605 | without a fault it ends as entries and compressor have it; when complete, a reader of the bytes finds the segment entries as they were in memory, global erase count and bytes in use, size and last inode of the inode file, and mode, height, flags, count, size and bytes in use of segment file and root, with the values mkfs gives them |
| Mount.SetAsideSegments | mkfs.c:508-519 | the segment of the first superblock and those of the journal are set aside; fails only when no good segment is left |
| Mount.MarksIn | segment.c:39-60 | segment entries that stand for no objects: set aside, bad, or not taken yet |
| Mount.MakeFilesystem | mkfs.c:580-605 | from an empty device of any size: how each run ends, and of a complete run, that what a reader finds on the bytes has these values, and a count of bytes in use that is the sum of the valid counts of the segment entries it finds, and of the counts in anchor and inodes |
| Mount.BadAtStart | segment.c:52-57 | bad segments at the start of the device are all marked as soon as one segment has been set aside |
| Mount.ScratchExample | mkfs.c:363-380 | on a device that begins with 257 bad segments the aliases overrun the scratch buffer, unless there is a fault |

## Left out

- Btree.Remove: reports the read outside a full leaf and stops there; what the original reads and does then is not modelled. For keys of more than one word the comparison before it reads several values, which is not modelled either.
- Index.MaskIsCanon: covers levels up to 3; `bixmask` shifts a 32-bit one, and C gives the shift no meaning above.
- ReadWrite.File.WriteLoop: the same, for the level of the parent block.
- ReadWrite.File.Write: promises nothing about the file when it fails, because the program ends there, or, if an offset did not fit 32 bits, goes on with a pointer that names something else.
- ReadWrite.File.Flush: covers heights up to 3, beyond which it needs `bixmask` of level 4, and the one flush a file gets; a flushed tree is not read back, so a second round of writes would start from empty indirect blocks.
- Segments.Super.Open: takes the segment before the buffer is filled, the original in between; this differs only when no segment is left and the program ends.
- Journal.Writer.WriteJournal: stops where an entry runs over the end of the segment; what that overwrites is not modelled. It also stops in the original, by BUG_ON, where the compressor fails with the unlimited space it gets behind the first block.
- Journal.JeAlias: stops at the overrun of the scratch buffer; what it overwrites is not modelled.
- Mount.MakeJournal: counts a journal segment whose 32-bit offset is wrong as a fault; what the write to that offset destroys is not modelled.
- Keys of several words: a key slot is one number; `Longs` relates words and numbers.
- Block trees of files are finite maps with the contract of the B+tree interface, and indirect blocks are values in them, so sharing of block buffers between owners is not captured.
- The inode tree: files are passed to the operations, and the bytes in use per inode are a map.
- Widths: counters and sizes are unbounded numbers, but for the 32-bit offset product, the 64-bit shifts of the index arithmetic and the big-endian fields; `je_array` and `journal_seg` have no upper bound.
- Checksums are an uninterpreted function, deflate is any output within its space; neither is computed.
- The superblocks (mkfs.c:118-160, 456-504): the segment of the first one is set aside, its contents and the second one are not modelled, nor is how a reader learns where the journal lies and ends; segment allocation is assumed to stay clear of the second one.
- Opening and probing devices, ioctl, option parsing, prompts and printing.
- The compiled-out AGGRESSIVE_COMPACTION branch (btree.c:419-455) and the debug dumps.
- The typed wrappers of btree.h, the visitor shims and the default callback of the visitors; a callback is assumed not to change the tree.
- fsck.c, which is a shell without checks.
