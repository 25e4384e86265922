# A verified model of rdb-rs

rdb-rs is a small relational database engine. It stores rows in slotted pages of
8192 bytes, keeps pages in a buffer pool with clock replacement, indexes columns
with a B+tree, and runs SQL statements through a parser, a binder and an
executor. This project models the engine layer by layer and proves what each
layer promises to the one above it.

| layer | modules | the main results |
|---|---|---|
| slotted page | `PageLayout`, `PageSteps`, `PageBytes`, `PageWrites`, `PageCompaction`, `SlottedPage` | a page of raw bytes is a map from slots to rows; live rows and free blocks tile the row area exactly; an insertion or a growing update fails exactly when the page has no room even after packing |
| heap table | `HeapTable`, `HeapRuns` | over every run a table is a map from row ids to rows, and a scan lists it once in page-then-slot order |
| B+tree | `Keys`, `BTreeModel`, `BTreeNodes`, `BTreeRouting`, `BTreeShape`, `BTreeDistinct`, `BTreeWalk`, `BTreeAnswers`, `BTreeDeletion`, `BTreeExact`, `BTreeSteps`, `BTreeStates`, `BTree`, `BTreeRuns`, `BTreeStraddle` | over every insert-only run, and every run with distinct live keys, a search returns exactly the stored rows; with duplicates, a deletion is exact if and only if a condition on the pages before it holds, and a run from an empty tree where it does not; exactly when an insertion is accepted, and when a deletion reports a refused merge |
| index pages | `BigEndian`, `NodeCodec`, `NodePages`, `Formats` | the bytes of an index page stand for exactly one node; appending and reading back agree with the tree's own notion of a node and of a full page; splitting, merging and shrinking a leaf on its bytes do what the tree does to the node |
| storage | `BufferPool`, `StorageModel`, `Storage`, `StorageRuns` | for every capacity of at least one, every run replies as plain files would; the exact choice of the clock |
| queries | `KeyOrder`, `Rows`, `RowMeaning`, `Joins`, `FromClause`, `Pushdown`, `Prepare`, `IndexChanges`, `Maintenance`, `Statements`, `StatementRuns` | a query yields every combination of stored rows that its joins and its filter hold for, once each, however it is run; the hash join is the nested-loop join; UPDATE and DELETE change what the joined rows and the statement call for; what a statement does to the trees of its indexes, when it fails, and exactly when indexes and heap still agree afterwards |
| binding | `Binder`, `Select`, `Scope`, `Denotation` | what a parsed statement means in a catalog; the binder returns exactly that, and refuses exactly the statements that mean nothing |
| SELECT | `Aggregates`, `SelectRun` | a bound SELECT runs without error except for numbers that leave the 64-bit range, and what it returns |
| tuples | `Tuple` | encoding is a bijection between well-typed rows and decodable bytes |
| SQL | `Ast`, `Grammar`, `Sentences`, `Parser` | the parser inverts the rendering of statements, in both directions; the words of that rendering |

`Wrappers` holds `Option` and `Result`. `dafny verify dfyconfig.toml` checks the
whole project.

Conventions. Code that updates state in place is a class (`SlottedPage.Page`,
`HeapTable.HeapTable`, `BTree.Tree`, `BufferPool.BufferPool`,
`Storage.StorageManager`, `Maintenance.Engine`, `Parser.Parser`) or a method
over an array; code made of expressions is a function. Each such method is
proved against a specification, and the lemmas say what the specification means.
Where a function is both run and used to specify a loop, a lemma named after it with
`Means` says what it computes in terms that do not mention it, and contracts of whole
operations are stated in those terms.
Errors are values. Numbers are unbounded except where a width decides a branch:
page offsets and lengths (16 bits), keys and column values (32 and 64 bits),
entry counts (16 bits), sums and counts (64 bits), LIMIT.

Two ideas carry the B+tree proof. Keys are ordered by a rank among the real
numbers (`Keys.CompareIsRankOrder`). And every leaf page, live or superseded, has
ghost constants fixed when it is written: a low bound, the rows filed exactly at
that bound, and a position that rises along the leaf links. They define how often
a walk from a leaf meets a row (`Here`); the invariant says that this is the
number of times the row is stored, for every key in the leaf's range. The
constants add nothing to the pages: what a walk finds is a function of the pages
(`BTreeWalk.Walk`), the constants can always be recomputed from it, and the
invariant holds exactly when every search returns the rows stored under its key
(`BTreeWalk.RepresentsIsExact`). A tree is `Sound` when its pages are well
formed, and `Valid` when its leaves also answer for exactly its contents.

Where the repository's README and its code differ, the model follows the code:

- The README says that a row longer than a page is refused with `RowTooLarge`.
  `insert_row` does that; `update_row` reports `StorageFull` instead. For a row
  whose rounded length exceeds 16 bits it looks in the free list for what 16 bits
  leave of the length; if some block is that long, the write runs past the page
  and the engine aborts (`SlottedPage.Page.UpdateRow`, outcome `OutOfBounds`).
- The README names pages by table id and page id; the code names them by a
  relation id that is either a heap or an index (`BufferPool.RelationId`).
- The README lists index scans and a choice of plans as future work; an index
  is already used for an equality that every result row must satisfy
  (`FromClause.Lookup`).
- The README lists deletion and merging of the B+tree as complete. With
  duplicate keys a deletion may hide other rows, for it drops the link of the
  leaf it rewrites. `BTree.Tree.Delete` states when it takes out exactly its
  entry: an entry that is stored must be in the leaf its key leads to, and the
  rows that the leaf's link leads to under the separator after the leaf must be
  none, or the very rows that the right neighbour it is then merged with leads
  to; if it is merged with its left neighbour, that merge must not change what
  is found under the separator between them (`BTreeExact.Clean`). With distinct
  live keys this always holds (`BTreeRuns.Run`). Seven insertions of one key of
  2000 bytes, a deletion that reports success and a search that returns three of
  the six rows left show that it can fail (`BTreeStraddle.ShortSearch`).
- A deletion may report an error although the entry is gone: the leaf has become
  underfull, and it does not fit in a page with its neighbour
  (`BTreeExact.Overflows`). With duplicate keys it may also report that there is
  no entry although there is one, in a leaf to the right of the one it looks in.
  `BTree.Tree.Delete` states exactly when. Both stop a DELETE or an UPDATE before
  the heap is changed, and nothing is undone. `Maintenance.Engine.DeleteOne`
  states exactly when indexes and heap agree afterwards, and `StatementRuns` runs
  the three cases from an empty database: an error after which a stored row has
  lost its index entry (`RefusedStatement`), a stored row that cannot be deleted
  (`MissedStatement`), and a successful DELETE after which the index finds three
  of six rows (`HiddenRows`). Refused merges need no duplicates. Without keys on
  both sides of a split they are the only way for a DELETE to fail, besides the
  heap, and a DELETE that succeeds leaves indexes and heap in agreement.

## Model

| member | source | states |
|---|---|---|
| `SlottedPage.Page.InsertRow` | src/storage/page/row.rs:8-34 | Fails with RowTooLarge iff the row is longer than 8180 bytes, with StorageFull iff its rounded length (and a slot, when none is free) exceeds what packing all live rows would leave; a failure changes no row; a success puts the row in the least unused slot and changes no other. |
| `SlottedPage.Page.UpdateRow` | src/storage/page/row.rs:47-80 | An absent slot is reported; otherwise, for rows of every length, the update succeeds iff the new allocation is no larger than the old one or fits beside all packed rows with the old one still counted; a row whose rounded length exceeds 16 bits is refused too unless the free list has a block for its low 16 bits, and then the engine aborts; only that slot changes, and nothing changes on failure. |
| `SlottedPage.Page.UpdateEqual` | src/storage/page/row.rs:110-120 | A row of the same rounded size is replaced in place; the tiling and all other rows stay. |
| `SlottedPage.Page.UpdateLess` | src/storage/page/row.rs:122-138 | A shorter row leaves its surplus on the free list; the tiling stays exact and all other rows stay. |
| `SlottedPage.Page.UpdateGreater` | src/storage/page/row.rs:140-170 | A longer row moves and frees its old space; StorageFull exactly when the allocation exceeds the packed remainder; after a failure every row is as before, even though the page may have been compacted; a row longer than 16 bits for which some free block is found runs past the page. |
| `SlottedPage.Page.AllocateForUpdate` | src/storage/page/row.rs:140-160 | For lengths within 16 bits: free list, then free end, then compaction; space is found iff the packed remainder suffices, whichever of the three finds it. |
| `SlottedPage.Page.DeleteRow` | src/storage/page/row.rs:82-92 | Removes exactly the named row and frees its space, or reports that there is none. |
| `SlottedPage.Page.ReadRow` | src/storage/page/row.rs:36-45 | Returns the stored row, or SlotNotFound; a valid page never yields InvalidRowBounds. |
| `SlottedPage.Page.ScanRows` | src/storage/page/row.rs:94-108 | Lists the rows of the page in slot order. |
| `PageCompaction.InOrderLists` | src/storage/page/row.rs:94-108 | What slot order means: every row exactly once, slots ascending, nothing else. |
| `SlottedPage.Page.TryInsertFromFreeBlock` | src/storage/page/row.rs:183-196 | Succeeds iff some block is long enough and the directory need not grow or can; otherwise the page is untouched; a row that is placed did fit beside all packed rows. |
| `SlottedPage.Page.InsertFromFreeEnd` | src/storage/page/row.rs:198-217 | Succeeds iff the row and its slot fit between directory and rows; a failure leaves the layout untouched. |
| `SlottedPage.Page.WriteRowAt` | src/storage/page/row.rs:219-236 | Turns reserved space into the row of a reused tombstone or of a new slot; no other row changes. |
| `SlottedPage.Page.Compact` | src/storage/page/free_space.rs:142-171 | Keeps every row and slot number, empties the free list, and leaves exactly the packed remainder between directory and rows. |
| `PageCompaction.PackStep` | src/storage/page/free_space.rs:142-171 | While rows are placed again there is always room for the next one: compaction cannot fail half way. |
| `PageCompaction.CompactDone` | src/storage/page/free_space.rs:142-171 | When no row is pending, all rows are back with their slots and lengths and the bytes encode the layout. |
| `SlottedPage.Page.FindFreeBlock` | src/storage/page/free_space.rs:38-56 | First fit: the first block of the list that is long enough, and its predecessor; none only if every block is too short. The walk ends, so the list has no cycle. |
| `SlottedPage.Page.TakeFromList` | src/storage/page/free_space.rs:115-140 | Unlinks a whole block, or its first part while the rest stays linked in its place. |
| `SlottedPage.Page.TryAllocateFromFreeBlock` | src/storage/page/free_space.rs:115-140 | Finds a block iff some block is as long as the low 16 bits of the length; reserves the space out of it if it is long enough; rows, directory and bounds stay, and without a reservation the layout does. |
| `SlottedPage.Page.TryAllocateFromFreeEnd` | src/storage/page/free_space.rs:102-113 | Succeeds iff the space between directory and rows suffices. |
| `SlottedPage.Page.AddFreeBlock` | src/storage/page/free_space.rs:31-36 | Puts a block at the head of the list, in the bytes of the block and of the header only. |
| `SlottedPage.Page.FreeSpace` | src/storage/page/free_space.rs:173-179 | The distance from the directory to the rows. |
| `PageBytes.TakeBlockEncodes` | src/storage/page/free_space.rs:58-140 | The few bytes rewritten by an allocation are exactly those by which the encodings of the two free lists differ. |
| `PageBytes.GiveBackEncodes` | src/storage/page/free_space.rs:31-36 | The bytes written when a block is freed encode the longer free list. |
| `PageWrites.SettledIsExact` | src/storage/page/free_space.rs:31-171 | Live allocations and free blocks start at multiples of 4, overlap nowhere, and cover every byte from the free end to the end of the page. |
| `PageLayout.TilesApart` | src/storage/page/free_space.rs:31-171 | Tiles of a page are pairwise disjoint, lie within the page and are at least 4 bytes long. |
| `PageLayout.TilesCover` | src/storage/page/free_space.rs:31-171 | Every byte of the row area belongs to a tile. |
| `PageWrites.SpaceSplit` | src/storage/page/free_space.rs:142-179 | The packed remainder is the free list plus the gap: freeing and allocating conserve it. |
| `PageLayout.AllocLeast` | src/storage/page/free_space.rs:182-192 | A row takes the least positive multiple of 4 that holds it. |
| `PageLayout.LongestRow` | src/storage/page/mod.rs:17-19 | An empty page takes rows of up to 8180 bytes: 8192 less header and slot. |
| `PageWrites.DeleteRowOk` | src/storage/page/row.rs:82-92 | Freeing the space and clearing the slot together remove one row and keep tiling and encoding. |
| `PageWrites.MoveRowOk` | src/storage/page/row.rs:140-181 | Writing the row elsewhere and redirecting its slot replaces that row and leaves its old space free. |
| `PageWrites.ShrinkRowOk` | src/storage/page/row.rs:110-138 | Rewriting a row in place replaces that row only, and only its surplus becomes free. |
| `PageWrites.FirstTombstoneUnused` | src/storage/page/slot.rs:92-110 | The slot that a new row is given is the least one that holds no row. |
| `SlottedPage.Page.FindTombstone` | src/storage/page/slot.rs:92-110 | The first tombstone, or none if all slots are in use. |
| `SlottedPage.Page.ReadSlot` | src/storage/page/slot.rs:67-81 | The slot if it holds a row, SlotNotFound otherwise. |
| `SlottedPage.Page.WriteSlot` | src/storage/page/slot.rs:83-90 | Writes offset and length into the four bytes of the slot and no others. |
| `HeapTable.HeapTable.Insert` | src/table/heap.rs:28-61 | Succeeds iff the row has at most 8180 bytes; the id was not in use; no earlier page had room; every other row stays. |
| `HeapTable.HeapTable.Get` | src/table/heap.rs:63-74 | The row with that id, SlotNotFound, or an error for a page that does not exist. |
| `HeapTable.HeapTable.Update` | src/table/heap.rs:76-90 | Replaces the named row or changes nothing, and says exactly when and with which error. |
| `HeapTable.HeapTable.Delete` | src/table/heap.rs:92-105 | Removes exactly the named row, or reports that there is no such row or page. |
| `HeapTable.HeapTable.Scan` | src/table/heap.rs:107-129 | Every live row once, by page and then by slot. |
| `HeapTable.ScanPage` | src/table/heap.rs:107-129 | Appending the rows of the next page to a scan of the pages before gives a scan of both. |
| `HeapTable.NewPageHasRoom` | src/table/heap.rs:28-61 | The page that is added when all others are full takes every row that is not too large. |
| `HeapRuns.Run` | src/table/heap.rs:28-129 | Over every run the outcomes are those of a map from row ids to rows, and the final scan lists that map. |
| `HeapRuns.Step` | src/table/heap.rs:28-129 | Each operation changes the map as its outcome says. |
| `HeapRuns.Untouched` | src/table/heap.rs:28-129 | A live id keeps its row under every operation that does not name it. |
| `BTreeRuns.RunAndSearch` | src/index/btree/tree.rs:63-96 | After every insert-only run, and every run with distinct live keys, a search returns exactly the row ids stored under the key, as often as they are stored. |
| `BTreeRuns.Run` | src/index/btree/tree/insert.rs:21-218 | Every run from an empty tree leaves it sound; insert-only and distinct-key runs leave it standing for exactly the operations that took effect; with distinct keys a deletion takes effect iff its entry is stored; fixed-width keys that are not stored when they are inserted are all taken as long as the tree has at most two levels. |
| `BTreeRuns.Step` | src/index/btree/tree/delete.rs:19-94 | One more operation keeps what is known of a run. |
| `BTreeRuns.Apply` | src/index/btree/tree/delete.rs:19-94 | One operation on any sound tree and the exact reply: success, no entry, or a refused merge after the entry is gone; in an exact tree, duplicates or not, the deletion leaves it exact iff the condition on its pages held before. |
| `BTree.Tree.Create` | src/index/btree/tree.rs:37-53 | A new tree is valid and empty. |
| `BTree.Tree.FindLeaf` | src/index/btree/tree.rs:98-117 | In every sound tree the descent ends, at the leaf whose range holds the key. |
| `BTree.Tree.Search` | src/index/btree/tree.rs:63-96 | In every sound tree the walk along the leaf links ends, through superseded pages too, and returns what the pages on it hold under the key; in a valid tree these are exactly the stored rows; a key of another type is refused. |
| `BTree.Tree.Insert` | src/index/btree/tree/insert.rs:21-59 | Accepted iff the leaf has room, or both of its halves fit a page and the root page can take them, by itself or split in turn: a condition on the leaf and the root page. An error leaves every page in use and every answer as it was; a success adds exactly the entry; no insertion repairs an inexact tree. A full leaf of a three-level tree refuses every entry; distinct fixed-width keys in a tree of at most two levels are never refused. |
| `BTree.Tree.RootLeafSplit` | src/index/btree/tree/insert.rs:61-94 | The full root becomes an internal page over two fresh leaves with the same entries and the new one; it fails iff a half is too long for a page. |
| `BTree.Tree.ChildLeafSplit` | src/index/btree/tree/insert.rs:96-218 | Both halves go to fresh pages and the root, split in turn when full, routes to them; the superseded leaf stays linked and changes no answer; any error leaves the reachable tree as it was.; it succeeds iff both halves fit a page and the root page, or the half of it that the separator points to, holds the old leaf and has room. |
| `BTree.Tree.Delete` | src/index/btree/tree/delete.rs:19-94 | The entry is found iff it is in the leaf of its key; PageFull is reported iff the leaf is then underfull and overflows a page with its neighbour, and the entry is gone all the same. In every valid tree, duplicates or not, exactly the entry is taken out iff the condition on the pages held before, whichever of the two is reported; without a key on both sides of a split it always is. |
| `BTree.Tree.FindLeafAndParent` | src/index/btree/tree/delete.rs:96-117 | The same leaf as a search reaches, and the page above it. |
| `BTree.Tree.RemoveHere` | src/index/btree/leaf/operation.rs:11-34 | The leaf is rewritten without one entry and without its link; with no straddle exactly that entry is gone. |
| `BTree.Tree.Take` | src/index/btree/tree/delete.rs:31-93 | Rewriting the leaf and perhaps merging it removes the entry and, iff the condition held, nothing else; the error is reported iff the merge overflows a page. |
| `BTree.Tree.MergeBelow` | src/index/btree/tree/delete.rs:42-90 | An underfull leaf is merged with the next child of its parent, the last child with the one before it, iff both fit a page; otherwise no page changes; PageFull iff there is such a neighbour and the two do not fit. |
| `BTreeModel.InsertInPlace` | src/index/btree/tree/insert.rs:33-44 | Appending to a leaf keeps the leaf level intact and adds exactly that entry to what it stands for, duplicates included. |
| `BTreeModel.SplitLeaf` | src/index/btree/leaf/split.rs:12-61 | Writing both halves of a leaf to fresh pages keeps the level intact and adds exactly the new entry, even when equal keys fall on both sides and older pages still link to the old leaf. |
| `BTreeModel.SplitNoStraddle` | src/index/btree/leaf/split.rs:12-61 | A separator that does not recur on the right leaves no key on both sides. |
| `BTreeModel.RemoveExactIff` | src/index/btree/leaf/operation.rs:11-34 | Rewriting a leaf without an entry removes exactly that entry from the tree iff no row is filed beyond the leaf under a key of the leaf. |
| `BTreeModel.MergeLeaves` | src/index/btree/leaf/split.rs:63-95 | With no key on both sides of a split, merging two neighbours changes no answer. |
| `BTreeWalk.RepresentsIsExact` | src/index/btree/tree.rs:63-96 | The invariant over the leaf pages holds iff every search returns exactly the rows stored under its key. |
| `BTreeWalk.RefiledExact` | src/index/btree/tree.rs:63-96 | What searches return depends on the pages alone, not on the ghost constants. |
| `BTreeDeletion.TakenExact` | src/index/btree/leaf/operation.rs:11-34 | Rewriting a leaf loses, besides the entry, just the rows under its separator that its link led to; it is exact iff there are none. |
| `BTreeDeletion.RightMergeExact` | src/index/btree/tree/delete.rs:42-90 | Followed by a merge with the right neighbour it is exact iff the neighbour leads to the rows that the link led to. |
| `BTreeDeletion.LeftMergeExact` | src/index/btree/tree/delete.rs:42-90 | Followed by a merge with the left neighbour it is exact iff the link led to no row and the merge keeps what is found under the separator between the two. |
| `BTreeDeletion.MergeFound` | src/index/btree/leaf/split.rs:63-95 | In every sound tree a merge changes no answer but, at most, that for the separator it removes. |
| `BTreeDeletion.MergeFoundAt` | src/index/btree/leaf/split.rs:63-95 | It keeps that one iff the first of the two leaves that the search for the separator comes to leads to the same rows as the right leaf, or the right leaf has none. |
| `BTreeExact.DeletionExactIff` | src/index/btree/tree/delete.rs:19-94 | In every exact tree a deletion that finds its entry leaves the tree exact iff the condition on the pages before it holds: leaf, link, parent, size and neighbour decide it. |
| `BTreeExact.LinkedNeighbourClean` | src/index/btree/tree/delete.rs:42-90 | A leaf that is merged with the very leaf it links to loses no row. |
| `BTreeExact.OverflowsRewritten` | src/index/btree/tree/delete.rs:42-90 | Whether the merge is refused can be told from the pages before the deletion. |
| `BTreeExact.ChoiceMeans` | src/index/btree/leaf.rs:12-23 | A merge is tried iff the rewritten leaf takes at most 4096 bytes and its parent has another child; with the next child, or the last one with the one before; it is refused iff the entries of both and one header exceed 8192 bytes. |
| `BTreeAnswers.SomeContents` | src/index/btree/tree.rs:63-96 | Every sound tree, exact or not, stands for some multiset of entries: the one its searches return. |
| `BTreeAnswers.OneContents` | src/index/btree/tree.rs:63-96 | It stands for no other. |
| `BTreeAnswers.InsertedIff` | src/index/btree/tree/insert.rs:21-59 | If what the leaves stand for has gained an entry, then the tree answers for what is stored exactly if it did before. |
| `BTreeStraddle.RepeatedStep` | src/index/btree/tree/insert.rs:21-94 | Up to seven insertions of one 2000-byte key succeed: four fill the root leaf, the fifth leaves two left and three right of a split, further ones go left. |
| `BTreeStraddle.InsertRepeatedly` | src/index/btree/tree/insert.rs:21-94 | The run from an empty tree. |
| `BTreeStraddle.ShortSearch` | src/index/btree/tree/delete.rs:19-94 | After seven insertions a deletion returns true and a search returns three of the six rows stored under the key. |
| `BTreeStraddle.RefusedMerge` | src/index/btree/tree/delete.rs:42-90 | After six insertions the same deletion reports PageFull; its entry is gone. |
| `BTreeStraddle.MissedEntry` | src/index/btree/tree/delete.rs:19-40 | After five insertions for different rows, deleting a stored entry of the right leaf reports that there is none. |
| `BTreeStraddle.ShortLeafRestored` | src/index/btree/leaf.rs:12-23 | After five insertions a deletion from the left leaf is exact, for the leaf is underfull and is merged with the leaf it links to. |
| `BTreeDistinct.SeparatorFresh` | src/index/btree/tree/insert.rs:96-213 | With distinct keys the separator recurs nowhere to its right and lies strictly above the separator before it. |
| `BTreeDistinct.FullLeafSplits` | src/index/btree/leaf/split.rs:12-61 | A full leaf of fixed-width keys always divides into two halves that fit. |
| `BTreeDistinct.HalfHasRoom` | src/index/btree/tree/insert.rs:140-213 | When the root is full, each of its halves has room for one more child. |
| `BTreeDistinct.SeparatorFits` | src/index/btree/internal/page.rs:25-49 | The key of a stored entry always fits an internal page as a separator. |
| `BTreeSteps.SidePicked` | src/index/btree/tree/insert.rs:160-190 | With distinct keys the comparison of separators picks the half that holds the old child. |
| `BTreeRouting.ReplaceRoutes` | src/index/btree/internal/split.rs:48-86 | Replacing a child after a split redirects only its own keys: left iff the key is at most the separator. |
| `BTreeRouting.SplitRoutes` | src/index/btree/internal/split.rs:13-46 | An internal split under its separator routes every key as the original page did. |
| `BTreeRouting.RemoveRoutes` | src/index/btree/internal/merge.rs:13-50 | Removing a merged right child redirects exactly its keys to the left one. |
| `BTreeNodes.FindInternalChild` | src/index/btree/internal.rs:22-45 | The child before the first separator not below the key, or the rightmost; InvalidPage for any other page. |
| `BTreeNodes.LeafSplit` | src/index/btree/leaf/split.rs:12-61 | The halves divide the old entries and the new one around the separator, fit their pages, and are linked left to right to the old successor; it succeeds iff the leaf is not empty and both halves fit a page. |
| `BTreeNodes.OneLength` | src/index/btree/leaf/split.rs:26-38 | The separator and the lengths of the halves do not depend on the order in which an unstable sort leaves equal keys. |
| `BTreeSteps.EntersWhen` | src/index/btree/tree/insert.rs:119-192 | Whether the root page can take the halves does not depend on that order either. |
| `BTreeSteps.AlwaysEnters` | src/index/btree/tree/insert.rs:96-218 | With distinct fixed-width keys a full leaf of a two-level tree can always be split and entered. |
| `BTreeNodes.LeafMerge` | src/index/btree/leaf/split.rs:63-95 | The left page gets all entries and the right link; it fails only with PageFull. |
| `BTreeNodes.InternalSplit` | src/index/btree/internal/split.rs:13-46 | A page with entries always splits: children and separators are divided in order and the middle separator moves up. |
| `BTreeNodes.ReplaceChild` | src/index/btree/internal/split.rs:48-86 | Succeeds iff the child is there and the longer page fits; replaces its first occurrence by two children around the separator. |
| `BTreeNodes.FindMergePair` | src/index/btree/internal/merge.rs:52-79 | The child and its right neighbour, or its left one for the rightmost child; none if it is alone; an error iff it is no child. |
| `BTreeNodes.RemoveRightChild` | src/index/btree/internal/merge.rs:13-50 | Removes the right child and the separator between the two, and always fits. |
| `BTreeNodes.FillLeaf` | src/index/btree/leaf/page.rs:20-46 | Refilling a page succeeds iff the entries fit, in order. |
| `BTreeNodes.FillInternal` | src/index/btree/internal/page.rs:20-49 | Likewise for an internal page. |
| `BTreeShape.RootSplit` | src/index/btree/tree/insert.rs:61-94 | After a root split the root leads over one separator to two leaves that stand for the old contents and the new entry. |
| `BTreeShape.ChildSplit` | src/index/btree/tree/insert.rs:96-213 | After a split below a root with room the tree stands for the old contents and the new entry. |
| `BTreeShape.RootGrows` | src/index/btree/tree/insert.rs:140-233 | After the full root is split too, three levels stand for the old contents and the new entry. |
| `BTreeShape.MergeShape` | src/index/btree/tree/delete.rs:42-90 | Removing a merged child leaves the pages above in order. |
| `Keys.CompareIsRankOrder` | src/index/btree/key.rs:36-44 | Keys of one type are totally ordered, equal only when identical; keys of different types do not compare. |
| `KeyOrder.CompareMeans` | src/index/btree/key.rs:36-44 | Numbers by size, false before true, strings byte by byte with a prefix first; equal only when identical; undefined across types. |
| `KeyOrder.BytesInOrder` | src/index/btree/key.rs:36-44 | Strings are ordered by the first byte in which they differ, or by length. |
| `NodeCodec.AppendLeafEntry` | src/index/btree/leaf/page.rs:25-46 | Appending to the bytes of a leaf succeeds iff appending to the leaf does, with the same error; the bytes then stand for the longer leaf; a failure changes no byte that matters. |
| `NodeCodec.AppendInternalEntry` | src/index/btree/internal/page.rs:25-49 | Likewise for internal pages. |
| `NodeCodec.ReadLeafEntries` | src/index/btree/leaf/page.rs:48-93 | Reading a leaf returns its entries in order; any other page is invalid. |
| `NodeCodec.ReadInternalEntries` | src/index/btree/internal/page.rs:51-93 | Reading an internal page returns its entries in order; any other page is invalid. |
| `NodeCodec.AppendEntry` | src/index/btree/leaf/page.rs:25-46 | An entry fits iff its bytes fit after the last one and the count stays below its 16-bit limit; otherwise no byte changes. |
| `NodeCodec.InitializeLeaf` | src/index/btree/leaf/page.rs:20-23 | The page stands for an empty leaf without a link. |
| `NodeCodec.InitializeInternal` | src/index/btree/internal/page.rs:20-23 | The page stands for an internal page with one child. |
| `NodeCodec.LeafLength` | src/index/btree/leaf/page.rs:25-46 | The byte count that decides when a leaf is full is the length of its encoding. |
| `NodeCodec.InternalLength` | src/index/btree/internal/page.rs:25-49 | Likewise for internal pages. |
| `NodeCodec.OneNode` | src/index/btree/leaf/page.rs:48-93 | No page stands for two different nodes. |
| `NodeCodec.HeaderRoundTrip` | src/index/btree/header.rs:58-143 | A written header is read back as it was. |
| `NodeCodec.LeafEntryRoundTrip` | src/index/btree/leaf/entry.rs:17-47 | A leaf entry is read back as it was, and its first bytes give the length of its key. |
| `NodeCodec.ChildRoundTrip` | src/index/btree/internal/entry.rs:19-47 | An internal entry is read back as it was. |
| `NodeCodec.KeyRoundTrip` | src/index/btree/key.rs:55-87 | A key is read back as it was from its bytes and its type. |
| `NodePages.SetNext` | src/index/btree/leaf/split.rs:46-60 | Rewriting the header of a leaf changes its link and nothing else. |
| `NodePages.FillPage` | src/index/btree/leaf/page.rs:20-46 | A page takes a list of entries iff they fit, and then stands for the leaf with them in order. |
| `NodePages.SplitPages` | src/index/btree/leaf/split.rs:12-61 | On bytes: the pages then stand for the halves of the entries around the separator, linked left to right to the old successor; it succeeds iff the leaf is not empty and both halves fit a page. |
| `NodePages.MergePages` | src/index/btree/leaf/split.rs:63-95 | On bytes: it succeeds iff both leaves fit one page; the left page then stands for all entries and the right link, the right one for an empty leaf; a failure changes no byte. |
| `NodePages.RemoveFromPage` | src/index/btree/leaf/operation.rs:11-34 | On bytes: the first entry equal to the given one is gone, and so is the link; if there is none, no byte changes. |
| `BigEndian.Int32RoundTrip` | src/index/btree/key.rs:72 | A 32-bit key value is read back as it was, and its four bytes are the only ones that mean it. |
| `BigEndian.Int64RoundTrip` | src/index/btree/key.rs:73 | Likewise for 64 bits. |
| `Formats.IntBytes` | src/index/btree/key.rs:57-58 | Numbers are stored in two's complement, the most significant byte first. |
| `Formats.KeyLayout` | src/index/btree/key.rs:55-67 | The bytes of a key of each type. |
| `Formats.EntryLayout` | src/index/btree/leaf/entry.rs:17-47 | Leaf entry: length of the key, key, page, slot; internal entry: child, length of the separator, separator. |
| `Formats.HeaderLayout` | src/index/btree/header.rs:58-143 | Header of an index page, byte by byte: kind, number of entries, where they end, link or rightmost child. |
| `Formats.LeafSize` | src/index/btree/leaf/page.rs:25-46 | A leaf of entries with keys of one length fits a page iff 14 bytes and 12 and a key per entry are at most 8192. |
| `Formats.InternalSize` | src/index/btree/internal/page.rs:25-49 | Likewise for internal pages, with 13 bytes and 10 and a separator per child. |
| `Formats.AppendLimits` | src/index/btree/leaf/page.rs:25-46 | A leaf refuses keys of more than 65535 bytes, and entries beyond 8192 bytes. |
| `Formats.SlottedPageBytes` | src/storage/page/header.rs:3-46 | The numbers in a slotted page, byte by byte: header, slot directory, and the link and length at the start of each free block. |
| `StorageRuns.Run` | src/storage/mod.rs:47-116 | For every capacity of at least one, every sequence of reads, writes, flushes, allocations and counts gets the replies that plain files would give. |
| `StorageRuns.Step` | src/storage/mod.rs:47-116 | Each operation changes what readers see, and replies, as on plain files. |
| `Storage.StorageManager.FetchPage` | src/storage/mod.rs:47-60 | Returns the page that readers see, pinned; changes nothing they see; fails exactly when the page does not exist or every frame is pinned; pinned frames stay where they are. |
| `Storage.StorageManager.FlushPage` | src/storage/mod.rs:62-77 | Afterwards the page on disk is the page readers see; nothing they see changes, and no other frame does. |
| `Storage.StorageManager.EvictOne` | src/storage/mod.rs:79-87 | Frees a frame iff some frame is unpinned; written pages are not lost and pinned ones stay. |
| `Storage.StorageManager.AllocatePage` | src/storage/mod.rs:97-105 | Readers see one blank page more at the end of the relation, and the cached count follows. |
| `Storage.StorageManager.PageCount` | src/storage/mod.rs:107-116 | The number of pages of the file, whether cached or not. |
| `Storage.StorageManager.CreateRelation` | src/storage/mod.rs:89-95 | Adds the pages of the relation to what readers see; registering again changes nothing. |
| `Storage.StorageManager.GuardWrite` | src/storage/buffer/pool.rs:32-50 | Writing through a guard changes exactly that page for readers and marks the frame dirty. |
| `Storage.StorageManager.GuardDrop` | src/storage/buffer/pool.rs:46-50 | Dropping a guard takes one pin away and changes nothing that readers see. |
| `StorageModel.WriteView` | src/storage/buffer/pool.rs:32-50 | A page written in its frame is seen at once and no other page changes. |
| `StorageModel.FlushView` | src/storage/mod.rs:62-77 | Writing a frame back and marking it clean changes nothing that is seen. |
| `StorageModel.RemoveView` | src/storage/buffer/pool.rs:116-137 | Dropping a clean frame uncovers an equal page. |
| `StorageModel.InsertView` | src/storage/buffer/pool.rs:88-114 | Caching a page that was read changes nothing that is seen. |
| `BufferPool.BufferPool.SelectClockFrame` | src/storage/buffer/pool.rs:148-175 | Finds a victim iff some frame is unpinned, within two sweeps; it is the first unreferenced unpinned frame from the hand, or the first unpinned one when all are referenced; exactly the reference bits passed over are cleared and the hand stops behind the victim. |
| `BufferPool.VictimIsLeastUsed` | src/storage/buffer/pool.rs:148-175 | A victim is never pinned, and was referenced only if every unpinned frame was. |
| `BufferPool.BufferPool.InsertPage` | src/storage/buffer/pool.rs:88-114 | Fills an empty frame and enters it in the table; the two errors exactly when there is no frame or the page is cached; an error changes nothing. |
| `BufferPool.BufferPool.RemovePage` | src/storage/buffer/pool.rs:116-137 | Removes frame and table entry together; refuses an absent, pinned or dirty page and then changes nothing. |
| `BufferPool.BufferPool.FetchCached` | src/storage/buffer/pool.rs:71-86 | Adds one pin and the reference bit to the frame of a cached page and changes nothing else. |
| `Joins.HashJoin` | src/executor/mod.rs:293-328 | For all sides without a common table instance: what it returns are all pairs that agree on the condition, left rows outermost, as the nested-loop join returns them, with NULL keys, duplicates, swapped columns and the fallback when both columns lie on one side; it fails only if the nested loop does or one side is empty, and never when the columns resolve. |
| `Joins.UnresolvedFails` | src/executor/mod.rs:330-357 | A row with no value for its column makes the nested loop fail as well, as soon as the other side has a row. |
| `Joins.NestedLoopJoin` | src/executor/mod.rs:272-291 | All pairs in which both columns have one value that is not NULL, left rows outermost; an error iff in some pair a column has no value. |
| `Joins.MatchesMeans` | src/executor/mod.rs:330-371 | Two rows match iff side by side both columns have one value that is not NULL; an error is a column without a value. |
| `Joins.JoinMeans` | src/executor/mod.rs:272-291 | The join as a list: the pairs that agree, in order; and when there is none because a column lacks a value. |
| `Joins.JoinOneByKey` | src/executor/mod.rs:293-328 | What a left row joins to is what its key finds in the hash table, in order; NULL finds nothing. |
| `Joins.MatchIsEqualKeys` | src/executor/mod.rs:330-371 | Two rows match iff their join keys are equal and not NULL, whichever side each column of the condition names. |
| `Joins.Probe` | src/executor/mod.rs:293-328 | Looking up every left row in the table gives the nested-loop join, or an error that the nested loop has too unless the right side is empty. |
| `Rows.ValueInJoined` | src/executor/mod.rs:373-394 | A column of a joined row has the value it has in the part that holds its table instance. |
| `RowMeaning.HoldsMeans` | src/tuple/mod.rs:45-83 | Each comparison in terms of numbers, truth values and bytes: LessThan on INT is x < y, and so on for all operators and types; values of different types are only unequal; nothing holds of NULL. |
| `RowMeaning.ColumnValueMeans` | src/executor/mod.rs:373-394 | The value of a column: in the first part of the row with the table instance, at the first place of the column in the table. |
| `RowMeaning.FindMeans` | src/executor/mod.rs:66-71 | The part of a row that belongs to a table instance. |
| `Pushdown.PushdownKeepsRows` | src/database/execute.rs:111-200 | For every FROM tree and filter: filtering the rows read with index lookups below the joins gives the same multiset as filtering full scans, and neither fails. |
| `Pushdown.FromTimes` | src/database/execute.rs:111-154 | With predicates pushed down every row occurs as often as under full scans if its parts satisfy the predicates, and not at all otherwise. |
| `Pushdown.LookupTimes` | src/database/execute.rs:136-167 | An index lookup yields each scanned row that satisfies its predicate once. |
| `Pushdown.PassesPredicate` | src/database/execute.rs:179-200 | A predicate taken out of a filter holds for every row that passes the filter; none is taken from under an OR. |
| `Pushdown.ExecuteFrom` | src/database/execute.rs:111-134 | Reading with lookups and hash joins gives the rows of the clause under nested loops, in the same order. |
| `Pushdown.SelectRows` | src/database/execute.rs:39-49 | A query run with indexes and hash joins yields every combination of one stored row of each table for which all join conditions and the filter hold, exactly once, and nothing else; its rows are those that pass the filter, in the order in which they are read. |
| `Pushdown.FromOnce` | src/database/execute.rs:111-134 | Nested loops over full scans list every combination of stored rows that the join conditions hold for once. |
| `Pushdown.JoinTimes` | src/executor/mod.rs:272-328 | A row occurs in a join as often as its parts occur on the two sides, if they match. |
| `Pushdown.FilterTimes` | src/executor/predicate.rs:13-50 | A filter keeps every matching row as often as it occurs. |
| `FromClause.FilterRows` | src/executor/predicate.rs:13-27 | The rows that pass, in order: a comparison passes by the value of its column, AND if both sides pass, OR if one does; an error iff some row lacks a value that has to be looked at. |
| `FromClause.FilterDefined` | src/executor/predicate.rs:29-50 | In every row of the clause a bound filter has a truth value, true iff the row passes. |
| `FromClause.MatchMeans` | src/executor/predicate.rs:29-50 | A filter is true of the rows that pass, and undefined iff a value that has to be looked at is missing; the right side is looked at only if the left one does not decide. |
| `FromClause.FilterMeans` | src/executor/predicate.rs:13-27 | The filtered rows are those that pass, in order. |
| `FromClause.PredicateMeans` | src/database/execute.rs:179-200 | The equality that an index is looked up for is the first one on the table among the parts joined by AND, and there is none only if none of them is one. |
| `FromClause.GetRowsMeans` | src/database/execute.rs:156-177 | The rows of a table are read in the order of the ids that an index or a scan lists. |
| `Prepare.PrepareUpdate` | src/executor/mod.rs:101-166 | One update for every stored row that some assignment is to in some joined row, and none for any other; each column gets the value of the last assignment to it, over joined rows in order and assignments in order within each, and keeps its own if there is none; every new row is encoded; it fails iff some row so changed cannot be stored in the columns of its table. |
| `Prepare.CollectUpdates` | src/executor/mod.rs:110-146 | The same updates before encoding; this part never fails on bound statements. |
| `Prepare.StorableWhen` | src/executor/mod.rs:148-163 | For typed assignments, some row so changed cannot be stored iff some column finally gets a string of more than 65535 bytes. |
| `Prepare.LastWriteMeans` | src/executor/mod.rs:110-146 | Of the writes so far, the last one to a column carries the value of the last assignment to it. |
| `Prepare.UpdateMeans` | src/executor/mod.rs:110-146 | The writes call for an update of a row iff joined rows and assignments do. |
| `Prepare.LastInListDecides` | src/executor/mod.rs:110-146 | If a column of a table is always assigned under one instance, the last assignment in the list gives its value. |
| `Prepare.RowOrderDecides` | src/executor/mod.rs:110-146 | A self-join in which the first of two assignments in the list wins, for a later joined row shows the row under its instance. |
| `Prepare.PlansStep` | src/executor/mod.rs:101-166 | Adding a write to the update of its row, or starting one, keeps a plan a plan. |
| `Prepare.WritesRead` | src/executor/mod.rs:101-166 | Every assignment resolves in every joined row, and what it takes for the old values is what is stored. |
| `Prepare.PrepareDelete` | src/executor/mod.rs:168-196 | Each stored row that a target names in some joined row once, with its stored values, and no other; fails iff some joined row lacks a target. |
| `Maintenance.Engine.ExecuteInsert` | src/database/execute.rs:17-37 | The row is encoded, then stored, then entered in every index: it succeeds iff it encodes, the heap takes it and every tree accepts its entry; afterwards indexes and heap agree iff it succeeded or the heap did not take the row. |
| `Maintenance.Engine.ExecuteUpdate` | src/database/execute.rs:51-80 | The rows change up to the first that fails; it succeeds only if every tree finds every old entry without a refused merge; after success indexes and heap agree if every removal was clean. |
| `Maintenance.Engine.UpdateOne` | src/database/execute.rs:61-77 | One row: indexes first, then the heap; when it succeeds, they agree afterwards iff every removal was clean, and when it fails, iff no entry has changed. |
| `Maintenance.Engine.ExecuteDelete` | src/database/execute.rs:82-109 | It succeeds iff, row by row, every tree finds its entry, no merge is refused and the heap gives up the row; exactly the rows before the first failure are gone. After success indexes and heap agree if every removal was clean; after a refused merge they do not. Without keys on both sides of a split it is always clean and fails only by a refused merge or the heap. |
| `Maintenance.Engine.DeleteOne` | src/database/execute.rs:92-106 | One row: indexes first, then the heap; when it succeeds, they agree afterwards iff every removal was clean, and when it fails, iff no entry has gone. |
| `Maintenance.Engine.CreateIndex` | src/index/mod.rs:42-67 | A new tree is filled with the rows of a scan one by one and then projects its column; a NULL column is refused; a failed one leaves the other indexes alone. |
| `Maintenance.Engine.IndexInsertRow` | src/index/mod.rs:114-157 | The trees of the indexes of the table take the entry of their column one after the other, unless it is NULL, up to the first that refuses. |
| `Maintenance.Engine.IndexUpdateRow` | src/index/mod.rs:82-112 | Where the column changes, the old entry goes and then the new one comes, index by index, up to the first failure of either. |
| `Maintenance.Engine.IndexDeleteRow` | src/index/mod.rs:159-210 | The trees give up the entry of their column one after the other, up to the first that does not find it or refuses a merge; the latter has lost it. |
| `Maintenance.Backfill` | src/index/mod.rs:249-270 | After the rows of a scan have been added the tree is exact and holds the values of the column that are not NULL; a failure is the refusal of a tree. |
| `IndexChanges.ProjectsChanged` | src/index/mod.rs:82-112 | Trading the entries of one row keeps a projection a projection. |
| `IndexChanges.FollowsWhen` | src/index/mod.rs:114-210 | All indexes follow a removal iff every tree gives its entry, and an insertion iff every tree takes its entry. |
| `IndexChanges.FollowsExactly` | src/index/mod.rs:82-210 | When indexes and heap have followed a change, they agree iff every removal in it was clean. |
| `IndexChanges.FollowsAlone` | src/database/execute.rs:63-106 | While the heap does not follow, they agree iff no entry has changed; after a refused removal they never do. |
| `IndexChanges.HeapAlone` | src/database/execute.rs:24-34 | When the heap has stored a row that an index refuses, they do not agree. |
| `IndexChanges.FollowsUnstraddled` | src/index/mod.rs:159-210 | Without keys on both sides of a split a removal is clean, and fails only by a refused merge. |
| `IndexChanges.StepExact` | src/index/mod.rs:82-112 | An index that follows a change stays exact iff the removal in it was clean: nothing that is added afterwards repairs it. |
| `IndexChanges.TraceAgrees` | src/database/execute.rs:63-106 | As long as every row so far was clean, indexes and heap agree between the rows of a statement. |
| `IndexChanges.FailureAgrees` | src/database/execute.rs:63-106 | After a row that fails they agree iff no index has lost or gained an entry. |
| `IndexChanges.DeleteUnstraddled` | src/database/execute.rs:93-106 | The same over whole DELETE statements without keys on both sides of a split. |
| `IndexChanges.AppliedRows` | src/database/execute.rs:51-109 | A plan carried out changes each of its rows as planned and no other row. |
| `Statements.AgreeingDatabase` | src/index/mod.rs:212-247 | Indexes that are projections of the heap answer lookups as a scan would. |
| `Statements.Update` | src/database/execute.rs:51-80 | UPDATE end to end: it plans from the rows that the statement is about; for typed assignments it is refused as a whole iff some column finally gets too long a string, and then nothing changes; otherwise every touched row gets its last assigned values, row by row up to the first failure, and after success indexes and heap agree if every removal was clean. |
| `Statements.Delete` | src/database/execute.rs:82-109 | DELETE end to end: the rows that the targets name in the rows the statement is about; it succeeds iff for each of them every tree finds its entry without a refused merge and the heap gives up the row; exactly the rows before the first failure are gone. |
| `StatementRuns.RefusedStatement` | src/database/execute.rs:93-106 | From an empty database, six rows with one long string: DELETE of one reports an error, the row stays, its index entry is gone, and index and heap no longer agree. |
| `StatementRuns.MissedStatement` | src/database/execute.rs:93-106 | Five rows: DELETE of a stored row reports that its index entry is missing, and nothing changes. |
| `StatementRuns.HiddenRows` | src/database/execute.rs:93-106 | Seven rows: DELETE of one succeeds, and then the index finds three of the six rows left. |
| `Binder.BindFromBound` | src/query/binder/mod.rs:211-276 | Table instances of a bound clause are the numbers from the first on, each used once, and every join condition names columns of its own tables. |
| `Binder.BindColumnBound` | src/query/binder/mod.rs:278-351 | A bound column is a column of the table of its instance in the clause. |
| `Binder.CandidatesInScope` | src/query/binder/mod.rs:322-351 | Every candidate for an unqualified name is a column in scope. |
| `Binder.BindFilterBound` | src/query/binder/select.rs:46-83 | Every column of a bound filter resolves, and every comparison is between values of one type. |
| `Binder.BindValuesTyped` | src/query/binder/mod.rs:83-100 | A bound INSERT has one value of the right type for every column. |
| `Binder.BindUpdateBound` | src/query/binder/mod.rs:147-172 | A bound UPDATE meets all that planning and carrying it out ask for (what it says is Denotation.UpdateMeans). |
| `Binder.BindDeleteBound` | src/query/binder/mod.rs:102-145 | A bound DELETE likewise: every target names a table of the clause (what it says is Denotation.DeleteMeans). |
| `Binder.LeftmostBound` | src/query/binder/mod.rs:386-390 | The default target of a DELETE is a table of the clause. |
| `Scope.TableNamedMeans` | src/catalog/metadata/database.rs:161-163 | A name means the first table of the catalog that has it. |
| `Scope.ColumnNamedMeans` | src/catalog/metadata/table.rs:89-91 | Likewise for the columns of a table. |
| `Scope.ColumnMeans` | src/query/binder/mod.rs:278-351 | A column reference is bound to c iff it denotes c: qualified, the column of that name in the first table the qualifier refers to, an alias taking the place of the name; unqualified, the column of that name in the only table that has one. |
| `Denotation.OperatorMeans` | src/query/common.rs:7-15 | Every operator is bound to itself. |
| `Denotation.LiteralMeans` | src/query/binder/mod.rs:413-436 | A literal is bound to its own value iff it suits the type of the column: numbers within 32 or 64 bits, strings for VARCHAR, NULL for all. |
| `Denotation.FilterMeans` | src/query/binder/select.rs:46-83 | A filter is bound to the same tree of AND and OR over the same comparisons of the columns denoted, and refused iff there is none. |
| `Denotation.WhereMeans` | src/query/binder/mod.rs:134-144 | There is a filter iff one is written. |
| `Denotation.FromMeans` | src/query/binder/mod.rs:211-276 | A FROM clause is bound to the same joins of the tables named, with instances counted from left to right, on the columns denoted; refused iff a name means nothing, two tables of a join share a name, or types differ. |
| `Denotation.InsertMeans` | src/query/binder/mod.rs:83-100 | INSERT: the table named, and one value for every column in order; refused otherwise. |
| `Denotation.UpdateMeans` | src/query/binder/mod.rs:147-172 | UPDATE: the clause, the assignments one for one in order with their values, and the filter; refused iff it means nothing. |
| `Denotation.DeleteMeans` | src/query/binder/mod.rs:102-145 | DELETE: the tables named in order, or the first table written; the clause and the filter; refused iff it means nothing. |
| `Denotation.LeftmostMeans` | src/query/binder/mod.rs:386-391 | The default target is the first table of the clause as written. |
| `Select.BindSelectExecutable` | src/query/binder/select.rs:13-213 | Every SELECT the binder accepts has columns that resolve, sums over numbers only, and no projection or order that the executor does not support (what it says is Denotation.SelectMeans). |
| `Denotation.SelectMeans` | src/query/binder/select.rs:13-44 | SELECT: projections, grouping and order one for one with the columns denoted and the direction written, the filter, and the limit as it is; refused iff it means nothing or mixes aggregates with other columns. |
| `Denotation.ProjectionsMean` | src/query/binder/select.rs:85-123 | Projections are bound one for one in order; SUM only over columns of numbers. |
| `Denotation.AllowedMeans` | src/query/binder/select.rs:160-213 | What may be selected and ordered by next to aggregates and GROUP BY. |
| `SelectRun.Query` | src/executor/mod.rs:198-248 | A SELECT is refused iff it means nothing in the catalog; otherwise it returns the answer of the statement that is meant, and fails iff a count or a sum of some group leaves the 64-bit range. |
| `SelectRun.ExecuteSelect` | src/executor/mod.rs:198-248 | The rows that the statement is about, each combination once; ordered, projected and cut at the limit, or one summary of each group in order, or one of all rows; it fails iff a number in some summary leaves its range, also in groups that the limit cuts off. |
| `SelectRun.ValueTyped` | src/executor/mod.rs:373-394 | A bound column has a value of its declared type in every row of the clause. |
| `SelectRun.ProjectRows` | src/executor/projection.rs:15-41 | For every row, in order: what each projection shows, one after the other; * shows the values of all tables, the first table first. |
| `SelectRun.AllValuesMeans` | src/executor/projection.rs:25-29 | The values that * shows are those of the tables one after the other. |
| `SelectRun.FlattenAt` | src/executor/projection.rs:15-41 | Where each of them stands: after all values of the tables before. |
| `SelectRun.AggregateGroups` | src/executor/projection.rs:80-92 | One summary for every group, in order; an error iff a number in one of them leaves its range. |
| `SelectRun.AggregateGroup` | src/executor/projection.rs:94-140 | Each value of a summary is the group key, the number of rows, or the numeric sum it stands for; an error iff a number leaves its range, and which. |
| `SelectRun.OrderRows` | src/executor/predicate.rs:52-72 | The same rows, of any two of which the values of the column are in order, by size and with NULL last, or the other way round for DESC; and stably. |
| `SelectRun.OrderGroups` | src/executor/predicate.rs:74-92 | Likewise for groups, by the position of the column in the group key. |
| `Aggregates.GroupRows` | src/executor/projection.rs:43-69 | Every key once, in the order in which keys first occur; each group holds exactly the rows with its key, in order; NULL is a key. |
| `Aggregates.KeyMeans` | src/executor/projection.rs:50-55 | The key of a row holds its values in the grouped columns, in their order. |
| `Aggregates.SumColumn` | src/executor/projection.rs:94-149 | The numeric sum of the INT and BIGINT values in the column, NULL if all are NULL, SumOverflow iff some partial sum takes more than 64 bits. |
| `Aggregates.NoOverflowTotal` | src/executor/projection.rs:94-149 | A sum without overflow on the way fits 64 bits. |
| `Aggregates.SortByKey` | src/executor/predicate.rs:52-72 | Sorted by size with NULL last, a permutation, and stable: equal keys keep their order. |
| `Aggregates.OrderOfType` | src/executor/predicate.rs:95-105 | The comparison of ORDER BY is a total order on the values of one type. |
| `Aggregates.CompareValuesMeans` | src/executor/predicate.rs:95-105 | What does not compare greater comes first: numbers by size, false before true, strings byte by byte, NULL last. |
| `Tuple.EncodingIsBijective` | src/tuple/mod.rs:85-198 | Values encode to given bytes iff those bytes decode to the values. |
| `Tuple.EncodesExactly` | src/tuple/mod.rs:85-128 | A row encodes iff every value is NULL or of its column type, and no string exceeds 65535 bytes. |
| `Tuple.DecodeEncodedValues` | src/tuple/mod.rs:130-198 | What was encoded decodes to the same values, wherever it stands. |
| `Tuple.EncodeDecodedValues` | src/tuple/mod.rs:130-198 | Whatever decodes encodes to the same bytes, up to the last one. |
| `Tuple.Encode` | src/tuple/mod.rs:85-128 | The loop computes the encoding, or the first error; a wrong number of values is refused. |
| `Tuple.Decode` | src/tuple/mod.rs:130-191 | The loop computes the decoding, or the first error; trailing bytes are refused. |
| `Formats.ColumnBytes` | src/tuple/mod.rs:85-128 | A column in bytes: 0 for NULL, else 1 and four bytes, eight bytes, one byte, or a length and the string; no string beyond 65535 bytes. |
| `Parser.Parser.Parse` | src/query/sql/mod.rs:39-61 | The parser ends on every token list, within it; what it accepts is written exactly as its result is, and every statement that can be written is parsed to itself. |
| `Parser.Parser.ParseBody` | src/query/sql/mod.rs:39-61 | Likewise for a statement without its semicolon. |
| `Parser.Parser.ParseSelect` | src/query/sql/mod.rs:63-103 | Inverts the rendering of a SELECT with its clauses in order, each at most once. |
| `Parser.Parser.ParseInsert` | src/query/sql/mod.rs:105-113 | Inverts the rendering of an INSERT. |
| `Parser.Parser.ParseUpdate` | src/query/sql/mod.rs:115-132 | Inverts the rendering of an UPDATE. |
| `Parser.Parser.ParseDelete` | src/query/sql/mod.rs:134-161 | Inverts the rendering of a DELETE, with or without targets. |
| `Parser.Parser.ParseFromClause` | src/query/sql/mod.rs:225-247 | Inverts the rendering of joins that lean left. |
| `Parser.Parser.ParseFilter` | src/query/sql/mod.rs:333-346 | Inverts the rendering of at most one OR between conjunctions. |
| `Parser.Parser.ParseConjunction` | src/query/sql/mod.rs:348-361 | Inverts the rendering of a left-deep chain of AND. |
| `Parser.Parser.ParseComparison` | src/query/sql/mod.rs:363-382 | Inverts the rendering of a comparison of a column with a literal. |
| `Parser.Parser.ParseProjections` | src/query/sql/mod.rs:249-288 | Inverts the rendering of a projection list. |
| `Parser.Parser.ParseGroupBy` | src/query/sql/mod.rs:290-300 | Inverts the rendering of a list of columns. |
| `Parser.Parser.ParseOrderBy` | src/query/sql/mod.rs:302-316 | Inverts the rendering of an order; ASC may be written out or not. |
| `Parser.Parser.ParseLimit` | src/query/sql/mod.rs:318-331 | Inverts the rendering of a limit; a negative number is refused. |
| `Parser.Parser.ParseAssignments` | src/query/sql/mod.rs:163-173 | Inverts the rendering of an assignment list. |
| `Parser.Parser.ParseLiteralList` | src/query/sql/mod.rs:182-194 | Inverts the rendering of a list of literals in parentheses. |
| `Parser.Parser.ParseTableReference` | src/query/sql/mod.rs:196-204 | Inverts the rendering of a table with or without an alias. |
| `Parser.Parser.ParseColumnReference` | src/query/sql/mod.rs:206-223 | Inverts the rendering of a column with or without a table. |
| `Parser.Parser.ParseCreateTable` | src/query/sql/mod.rs:384-390 | Inverts the rendering of a CREATE TABLE. |
| `Parser.Parser.ParseCreateIndex` | src/query/sql/mod.rs:392-406 | Inverts the rendering of a CREATE INDEX. |
| `Parser.Parser.ParseDefinitionList` | src/query/sql/mod.rs:408-427 | Inverts the rendering of column definitions. |
| `Parser.Parser.ParseDataType` | src/query/sql/mod.rs:429-442 | Accepts exactly the type names. |
| `Parser.Parser.Expect` | src/query/sql/mod.rs:475-483 | Moves past the expected token and no other, and never past the end mark. |
| `Parser.Parser.Advance` | src/query/sql/mod.rs:489-493 | Moves one token on, except at the end mark. |
| `Grammar.WriteLeft` | src/query/sql/mod.rs:348-361 | A rendered chain of AND is its left part followed by what the loop has yet to read. |
| `Grammar.WriteLeftJoin` | src/query/sql/mod.rs:225-247 | Likewise for a chain of joins. |
| `Sentences.ComparisonWords` | src/query/sql/mod.rs:363-382 | The token of each operator, between column and literal. |
| `Sentences.WhereWords` | src/query/sql/mod.rs:333-361 | AND binds tighter than OR. |
| `Sentences.FromWords` | src/query/sql/mod.rs:225-247 | A join: table, JOIN, table with alias, ON, two qualified columns and the equality between. |
| `Sentences.ProjectionWords` | src/query/sql/mod.rs:249-288 | The asterisk, a column, a count and a sum. |
| `Sentences.TailWords` | src/query/sql/mod.rs:290-331 | GROUP BY, ORDER BY without and with a direction, LIMIT. |
| `Sentences.InsertWords` | src/query/sql/mod.rs:105-113 | An INSERT, word by word. |
| `Sentences.UpdateWords` | src/query/sql/mod.rs:115-132 | An UPDATE, word by word. |
| `Sentences.DeleteWords` | src/query/sql/mod.rs:134-161 | A DELETE without and with targets, word by word. |
| `Sentences.CreateTableWords` | src/query/sql/mod.rs:384-442 | A CREATE TABLE with a column of each type, word by word. |

## Left out

- HeapRuns.Run: an update that makes the engine abort (`OutOfBounds`) is a failed operation of the run, and the run goes on; what the process leaves on disk when it aborts is not modelled.
- BTree.Tree.Search: the tree works on decoded nodes kept in a sequence of pages. That whole-leaf operations on bytes agree with those on nodes is proved in `NodePages`, and that cached pages are seen as plain files in `StorageRuns`; they are not combined into one program. The same holds for the pages of a heap table.
- BTreeNodes.LeafSplit: entries are sorted by insertion; the original uses an unstable library sort, and nothing depends on the order of equal keys.
- Aggregates.SortByKey: an insertion sort in place of the library's stable sort.
- Storage.StorageManager.FetchPage: a guard is the index of a pinned frame, and frames are values in a sequence; that guards cannot outlive the pool is left to the original's type system.
- Storage.StorageManager.CreateRelation: opening and registering relation files that another process created, and reopening a database, are not modelled.
- Maintenance.Engine.ExecuteInsert: whether and where the heap takes a row (`at`), and on which rows it is stuck in UPDATE and DELETE (`stuck`), are parameters; `HeapTable` states when that is.
- Maintenance.Engine.ExecuteUpdate: the condition for success is stated in one direction. The new entry is offered to the tree that the removal of the old one has left, which the contract describes by its steps (`IndexChanges.StepsVia`) and not by a condition on the pages before. Whether a statement of several rows that was not clean ends in agreement all the same, because a later merge restored what was hidden, is not stated; for one row it is (`Maintenance.Engine.DeleteOne`, `UpdateOne`).
- Maintenance.Engine.CreateIndex: duplicate names, the catalog entry, and the index file are left out.
- Statements.Update: what the index answers a query (`search`) is a parameter that returns the rows the trees hold; `BTree.Tree.Search` proves that a tree does.
- Binder.BindFromBound: lists are bound by recursive functions where the original pushes onto vectors, so in-place growth of those lists is not captured.
- Parser.Parser.Parse: takes the statement that the tokens are meant to write (`w`) as a ghost argument, so that both directions of the round trip stand in one contract; it has no effect on what is parsed.
- SelectRun.ExecuteSelect: rows hold column values; decoding a stored row to values is `Tuple.Decode`.
- Page ids, relation ids, table instances and slot counts of a table are unbounded numbers; the original uses 32 and 64 bits.
- Files, seeks, directories and operating-system errors: a disk is a map from relations to sequences of pages, and an operation on an allocated page succeeds.
- Catalog metadata, its serialisation and the lookups in it beyond what the binder reads; CREATE TABLE in the binder and the catalog.
- The lexer, UTF-8 and character strings: the parser starts from tokens, a VARCHAR is a sequence of bytes, and which of them are valid UTF-8 is a parameter.
- The command line, error texts and the wrapping of errors: an error keeps only the kind that decides a branch.
- Transactions, recovery and concurrency, which the original does not have.
