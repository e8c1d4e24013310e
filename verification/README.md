# Verified models of XTL data structures

A Dafny 4.11 project beside the XTL sources. It models five pieces of the library in the form the sources have
(objects with fields changed in place, loops over buffers, recursive descent over a cursor) and proves what they
promise. `dafny verify dfyconfig.toml` checks all of it.

* `btree/` models the B+ tree with linked leaves. Leaves and branches are heap objects with parent, slot and
  neighbour links. Each operation is proved on the heap against small lemmas about snapshots of the nodes. The
  invariant is that of the tree's own self-test: exact separators, minimum fill, uniform levels, leaf chain, order
  and counters. All capacities of at least two and both kinds of trees (unique keys or not) are covered.
  Line 609 of `BTree.hpp` passes a number of items where an end position is expected. The tree is built with the
  range as written or as intended (`asWritten`), and deletion is proved right exactly when a condition on the tree
  before the call holds: with unique keys, that the leaf of the key has no left sibling about to lend it items. With
  the intended range it is always right.
* `hash/` models the linear hash file, with overflow chains rewritten in place while a slot is split, and the
  in-memory table with a load limit.
* `json/` models the JSON values, both printers and the parser with its row and column. The parser's grammar is
  written down as functions of the text still to be read; the parser that moves a cursor is proved to agree with
  them, and they are proved to undo the printers.
* `storage/` models the lock file, the temporary file and the rename that protect a stored document, as steps
  taken in any order by any number of processes that may fail or stop anywhere; and the storage classes as one
  process runs them, each operation being a run of those steps.

Keys of the tree are integers and `Less` is their order. Hash functions, the trigger of a split, insertion handlers, the
C library's text for floating point numbers, and the success of system calls are parameters.

Four places where the code does not keep a promise are stated exactly:

* Deletion loses items through line 609 when the left leaf lends to the right one (`BTreeTree.BTree.Delete`,
  `BTreeTree.BTree.SpoilsWhenLending`). `BTreeLending.Build` makes a valid tree where this happens, and
  `BTreeLending.DeletionLoses` deletes from it.
* A value survives printing and parsing only without NUL characters and repeated keys (`JsonRoundTrip.RoundTrip`).
  Keys are never repeated in an object made through its own operations (`JsonObjects.JsonObjectValue.IndexIsSlot`);
  that half of the condition is about the model's values, which are plain lists of entries. Reading the least 64-bit
  integer overflows on the way (`JsonRoundTrip.OverflowsAtMinimum`); that it is still read back assumes that signed
  arithmetic wraps around.
* A floating point value whose text has neither point nor exponent is read back as an integer, one whose text has a
  positive exponent is not read back at all, and a negative one whose text has a whole part of zero, such as -0.5,
  loses its sign (`JsonDecimals.DecimalShows` says exactly which texts read back).
* Saving a document does not look at the result of its writes. The saved file is the whole text exactly when no write
  was lost without closing the file failing (`StorageProtocol.Reachable`, `Storage.JsonFile.Save`).

The self-test of the tree does not look at `firstLeaf_` nor at the size of a branch at the root; that of the hash file
looks neither for empty overflow records nor for repeated keys, nor at the split slot, and checks only the sum of the
two sizes; that of the in-memory table does not look at the slots of overflows. The theorems about them name these gaps.

## Model

| member | source | states |
|---|---|---|
| `BTreeTree.BTree.Insert` | trunk/lib/xtl/BTree.hpp:949-977 | every insertion keeps the whole invariant and adds exactly one item, at a position that keeps the order; nothing changes when keys are unique and the key is there; the returned slot holds the item; `size` follows; one leaf is added exactly when an item goes in and the tree was empty, or the leaf the descent ends at is full and stands alone or between neighbours without room; the branches added are the full ones above such a leaf, told from the tree before the call |
| `BTreeTree.BTree.Delete` | trunk/lib/xtl/BTree.hpp:979-991 | a key is found exactly when it is present; the invariant is kept and exactly the occurrence a search ends at goes, if and only if that slot is not spoiled before the call; only the range of line 609 as written can spoil it, and with unique keys it does exactly when the left sibling of the leaf that holds the key is to lend; a leaf goes exactly when it is left below its minimum and is the last one emptied or fits into one leaf with its sibling, and the branches that go with it are told from the tree before the call |
| `BTreeTree.BTree.Find` | trunk/lib/xtl/BTree.hpp:1578-1581 | the search succeeds exactly when the key is somewhere in the tree, and returns a slot that holds it, the one the binary searches on the way lead to |
| `BTreeTree.BTree.FindInNode` | trunk/lib/xtl/BTree.hpp:1583-1599 | the descent is right even when the binary search stops at any of several equal separators |
| `BTreeTree.BTree.constructor` | trunk/lib/xtl/BTree.hpp:898-906 | an empty tree of any capacities of at least two satisfies the invariant |
| `BTreeTree.BTree.Clear` | trunk/lib/xtl/BTree.hpp:939-947 | the tree is valid and empty again |
| `BTreeTree.BTree.InsertIntoNode` | trunk/lib/xtl/BTree.hpp:1370-1380 | below any node an insertion leaves either a valid tree or one split node whose right half and separator are still to be hung up |
| `BTreeTree.BTree.InsertIntoLeaf` | trunk/lib/xtl/BTree.hpp:1382-1463 | whichever way the leaf takes the item, the contents gain it at its place and all counters and links hold |
| `BTreeTree.BTree.Rearrange` | trunk/lib/xtl/BTree.hpp:1426-1457 | a full leaf shares its items exactly when a neighbour has room: with the emptier one, evenly, under another parent too, and no other leaf changes; the separator above both is exact again |
| `BTreeGrowth.LandingPacked` | trunk/lib/xtl/BTree.hpp:1465-1492 | whatever is split above, the leaf a search ends at is full and has no neighbour with room |
| `BTreeTree.BTree.ShareRight` | trunk/lib/xtl/BTree.hpp:449-493 | the items of both leaves with the new one stand in order across the pair, and the invariant is kept |
| `BTreeTree.BTree.ShareLeft` | trunk/lib/xtl/BTree.hpp:495-538 | the same with the left neighbour |
| `BTreeTree.BTree.CutAt` | trunk/lib/xtl/BTree.hpp:411-447 | a split leaf and its new neighbour hold all items in order; the chain, the leaf count and all spans make room for one leaf |
| `BTreeTree.BTree.InsertIntoBranch` | trunk/lib/xtl/BTree.hpp:1465-1492 | the split of a child is absorbed by its branch, or the branch is split in its turn; no item is touched |
| `BTreeTree.BTree.AttachAt` | trunk/lib/xtl/BTree.hpp:680-691 | hanging up the new child restores a whole tree with exact separators and links |
| `BTreeTree.BTree.SplitAt` | trunk/lib/xtl/BTree.hpp:693-757 | after the split of a branch the promoted key is exact for the left half, all children are linked to the half that holds them, and the contents are the same |
| `BTreeTree.BTree.GrowTop` | trunk/lib/xtl/BTree.hpp:964-974 | a new root over both halves gives a whole tree one level higher with the same contents |
| `BTreeTree.BTree.DeleteFromLeaf` | trunk/lib/xtl/BTree.hpp:1494-1537 | the item at a slot goes and nothing else, exactly when the leaf pair is not spoiled; the leaf and branch counts fall as the fields before the call tell |
| `BTreeTree.BTree.RemoveAt` | trunk/lib/xtl/BTree.hpp:540-573 | taking the greatest item away repairs the separator wherever it is kept, for an emptied leaf too |
| `BTreeTree.BTree.FixLeaf` | trunk/lib/xtl/BTree.hpp:575-637 | joining or sharing a leaf pair restores the minimum fill and keeps the contents, exactly when nothing is spoiled; the pair is joined exactly when one leaf holds its items, and then one leaf less is counted |
| `BTreeTree.BTree.EvenAt` | trunk/lib/xtl/BTree.hpp:601-633 | the pair keeps its items if and only if the items to move are those already in their place; the left leaf ends with half of them |
| `BTreeTree.BTree.JoinAt` | trunk/lib/xtl/BTree.hpp:592-600 | all items end up in the left leaf; the emptied one is a hole to be dropped |
| `BTreeTree.BTree.JoinAndDrop` | trunk/lib/xtl/BTree.hpp:1521-1536 | the joined pair is one leaf of a whole tree with the same contents; exactly one leaf goes, and the branches the loss of a child costs |
| `BTreeTree.BTree.CloseGap` | trunk/lib/xtl/BTree.hpp:1521-1536 | dropping the empty leaf closes the chain around it and restores a whole tree |
| `BTreeTree.BTree.DeleteFromBranch` | trunk/lib/xtl/BTree.hpp:1539-1576 | removing a child, with all merges, borrowings and root changes it causes, keeps the contents and restores the invariant; the recursion climbs one level at a time; as many branches go as the tree before the call tells |
| `BTreeShrinking.DropsShrunk` | trunk/lib/xtl/BTree.hpp:1539-1576 | the number is the same before and after the branch has lost its child |
| `BTreeShrinking.DropsSame` | trunk/lib/xtl/BTree.hpp:772-840 | it does not depend on what happens below |
| `BTreeTree.BTree.Rebalance` | trunk/lib/xtl/BTree.hpp:1549-1575 | a branch below its minimum is filled up or merged, and the branch count stays true |
| `BTreeTree.BTree.RearrangeKeys` | trunk/lib/xtl/BTree.hpp:772-840 | two sibling branches end with all keys in one exactly when one branch holds them and the one between, or with both filled; separators stay exact and every child is linked to its branch |
| `BTreeTree.BTree.MergeAt` | trunk/lib/xtl/BTree.hpp:791-804 | the merged branch holds all children in order, the separator of the pair among its keys |
| `BTreeTree.BTree.BorrowAt` | trunk/lib/xtl/BTree.hpp:805-837 | children are shared anew with the exact key in between, in both directions; the left branch ends with half of the keys |
| `BTreeTree.BTree.ShrinkRoot` | trunk/lib/xtl/BTree.hpp:1549-1560 | a root without separators hands over to its only child with the same contents; one branch less is counted then, and only then |
| `BTreeTree.BTree.SpoilsWhenLending` | trunk/lib/xtl/BTree.hpp:602-610 | with unique keys the written range fails exactly when the left leaf is to lend items |
| `BTreeArrays.WrittenMovesNothing` | trunk/lib/xtl/BTree.hpp:609 | the written end index lies at or before the beginning: nothing is ever moved |
| `BTreeTree.BTree.HoldsOnce` | trunk/lib/xtl/BTree.hpp:1392-1396 | with unique keys one slot of one leaf holds a key |
| `BTreeLending.Build` | trunk/lib/xtl/BTree.hpp:602-610 | a valid tree with leaves -1 0 1 2 and 10 11 in which the leaf of 10 has a sibling about to lend |
| `BTreeLending.DeletionLoses` | trunk/lib/xtl/BTree.hpp:604-612 | deleting 10 from it does not leave a valid tree with -1 0 1 2 11 |
| `BTreeArrays.BinarySearch` | trunk/lib/xtl/BTree.hpp:219-245 | the slot found holds the key, or parts smaller from greater keys |
| `BTreeArrays.InsertedHead` | trunk/lib/xtl/BTree.hpp:411-447 | a hole opened in the kept part leaves the first items of the insertion in place |
| `BTreeArrays.InsertedSplitTail` | trunk/lib/xtl/BTree.hpp:430-445 | the two moves around a hole give the rest of the insertion in order |
| `BTreeArrays.ShareRightHigh` | trunk/lib/xtl/BTree.hpp:474-488 | three moves into the right buffer give the upper part of both leaves with the new item |
| `BTreeArrays.TakeLow` | trunk/lib/xtl/BTree.hpp:517-530 | two moves and a store give the left leaf the lower part of both leaves with the new item |
| `BTreeArrays.PushKeys` | trunk/lib/xtl/BTree.hpp:808-821 | the rotation through the parent's separator keeps the key sequence of the pair |
| `BTreeNodes.Node.UpdateKey` | trunk/lib/xtl/BTree.hpp:865-875 | exactly the one separator that bounds the node is set, however far above it is kept |
| `BTreeNodes.Node.LeafInsertAndSplit` | trunk/lib/xtl/BTree.hpp:411-447 | both halves hold the insertion in order, each has its share, and the neighbour links are those of the cut chain |
| `BTreeNodes.Node.InsertAndRearrangeWithRight` | trunk/lib/xtl/BTree.hpp:449-493 | both leaves hold the concatenation with the new item, cut at half its length |
| `BTreeNodes.Node.InsertAndRearrangeWithLeft` | trunk/lib/xtl/BTree.hpp:495-538 | the same towards the left |
| `BTreeNodes.Node.BranchInsertAndSplit` | trunk/lib/xtl/BTree.hpp:693-757 | the keys of both halves and the promoted key are the insertion; so are the children |
| `BTreeNodes.Node.EvenKeys` | trunk/lib/xtl/BTree.hpp:772-840 | the keys of both branches with the parent's separator are a sequence that is only cut at another place |
| `BTreeStructure.ChildOrder` | trunk/lib/xtl/BTree.hpp:1320-1354 | children of a branch cover consecutive spans of leaves |
| `BTreeSearch.RangeDown` | trunk/lib/xtl/BTree.hpp:1583-1599 | if the key is anywhere, then below the child that the search chooses |
| `BTreeSearch.Separators` | trunk/lib/xtl/BTree.hpp:1330-1340 | in an ordered tree a separator bounds everything up to the end of its child |
| `BTreeRelinks.SplitRelinked` | trunk/lib/xtl/BTree.hpp:740-756 | the writes of a branch split give exactly the records of the two halves |
| `BTreeOwners.OwnerOfLeaf` | trunk/lib/xtl/BTree.hpp:865-875 | climbing from the last leaf below a child ends at the separator behind that child |
| `BTreeOwners.KeyUnique` | trunk/lib/xtl/BTree.hpp:865-875 | no two separators stand at one boundary between leaves, so that one repair is enough |
| `BTreeIterate.ConstIterator.Advance` | trunk/lib/xtl/BTree.hpp:1084-1098 | the iterator steps to the next item of the tree's sequence and stays at the end |
| `BTreeIterate.Begin` | trunk/lib/xtl/BTree.hpp:1111-1114 | the iterator stands before the first item |
| `BTreeIterate.BTreeSet.ForEach` | trunk/lib/xtl/BTreeSet.hpp:57-63 | terminates and visits every item exactly once, in order: the items of the leaves that a descent through the children meets |
| `BTreeIterate.TraversalIs` | trunk/lib/xtl/BTree.hpp:1072-1114 | from the first leaf the `next` links lead through exactly the leaves of the in-order traversal, and their items are those of the tree |
| `BTreeTraversal.ChainIsInOrder` | trunk/lib/xtl/BTree.hpp:415-422 | in a whole tree the leaf chain is the in-order traversal by children |
| `BTreeIterate.BTreeSet.Insert` | trunk/lib/xtl/BTreeSet.hpp:42-49 | the value is a member afterwards, no other membership changes, and the answer tells whether it was new |
| `BTreeRuns.Run` | trunk/lib/xtl/BTree.hpp:949-991 | over any run the answers and the contents are those of a multiset of keys, or of a set, and the keys stand in order; with line 609 as written this holds up to the first deletion that makes a left sibling lend, and with unique keys no further |
| `BTreeRuns.Lending` | trunk/lib/xtl/BTree.hpp:602-610 | whether deleting a key would make a left sibling lend can be read off the leaf a search finds; if not, the deletion is right |
| `BTreeRuns.FinalIsSet` | trunk/lib/xtl/BTree.hpp:1392-1396 | with unique keys no run ever holds a key twice |
| `BTreeRuns.SameBagSameKeys` | trunk/lib/xtl/BTree.hpp:1072-1114 | trees of any shape that hold the same keys list them alike |
| `BTreeRuns.SortedSame` | trunk/lib/xtl/BTree.hpp:1072-1114 | a sorted sequence is determined by its bag |
| `BTreeHeight.HeightBound` | trunk/lib/xtl/BTree.hpp:1151-1185 | a root at level h has at least 2 * (B/2 + 1)^(h-1) * (L/2) items below it |
| `BTreeHeight.BelowNode` | trunk/lib/xtl/BTree.hpp:1228-1310 | every node but the root has the least number of items of its level below it |
| `BTreeTester.Tester.Run` | trunk/lib/xtl/BTree.hpp:1151-1185 | on any nodes that form a tree by their children the self-test passes, and the first leaf and the root's separators are right, exactly when the tree is valid |
| `BTreeShape.TreeFormed` | trunk/lib/xtl/BTree.hpp:1189-1219 | nodes that form a tree by their children, with the parents, slots and levels the descent has looked at, are a whole tree |
| `BTreeShape.WholeShaped` | trunk/lib/xtl/BTree.hpp:1320-1345 | every whole tree is formed by its children, so that the self-test applies to it |
| `BTreeTester.Tester.TestNode` | trunk/lib/xtl/BTree.hpp:1189-1219 | a subtree passes only if all its links are right, and when those of the tree are, exactly when its leaves and branches are in order; then the counters have grown by its own counts |
| `BTreeTester.Tester.TestLeaf` | trunk/lib/xtl/BTree.hpp:1221-1301 | a leaf passes exactly when its fill, its links to the leaf before and its order are right |
| `BTreeTester.Tester.TestBranch` | trunk/lib/xtl/BTree.hpp:1303-1354 | a branch passes exactly when its fill, its separators and all below it are right |
| `BTreeTesterFacts.FineIsGood` | trunk/lib/xtl/BTree.hpp:1189-1354 | what the self-test looks at is the invariant: minimum fill, exact separators, chained leaves, order |
| `BTreeTesterFacts.SubAll` | trunk/lib/xtl/BTree.hpp:1309-1345 | the branches below a branch are those below its children and itself, each counted once |
| `HashAddressing.SlotInRange` | trunk/_TODO/LinearHash.hpp:889-902 | an address always lies among the primary records |
| `HashAddressing.SlotAfterAdvance` | trunk/_TODO/LinearHash.hpp:45-53 | advancing moves exactly the keys of the split slot, each to its slot of the next level |
| `HashAddressing.NextLevel` | trunk/_TODO/LinearHash.hpp:884-887 | one more level keeps a slot or adds half of the new range |
| `HashAddressing.LowBits` | trunk/_TODO/LinearHash.hpp:884-887 | the slot of a level is what the hash has below that power of two, whatever stands above |
| `HashAddressing.SlotOfBits` | trunk/_TODO/LinearHash.hpp:889-902 | the address is the low bits, and the one bit above them counts exactly when their slot has been split |
| `HashAddressing.HashParts` | trunk/_TODO/LinearHash.hpp:884-887 | every hash is a multiple of the range and its slot |
| `HashAddressing.PowersOfTwo` | trunk/_TODO/LinearHash.hpp:884-887 | the ranges are the powers of two |
| `HashTable.LinearHash.Split` | trunk/_TODO/LinearHash.hpp:417-603 | a split deals the items of one slot out to two, in order and without loss; no other slot changes; counters, chains and the map are right afterwards |
| `HashTable.LinearHash.SplitSlot` | trunk/_TODO/LinearHash.hpp:417-598 | the old chain is rewritten in place and the new one filled; both are full but for their last record, and the size counters follow |
| `HashTable.LinearHash.SplitPrimary` | trunk/_TODO/LinearHash.hpp:428-442 | the items of the primary record that stay close up in order, the others fill the new one |
| `HashTable.LinearHash.ReadItem` | trunk/_TODO/LinearHash.hpp:457-549 | one more item read goes behind those already dealt out to its half, and the size counters follow |
| `HashTable.LinearHash.Trim` | trunk/_TODO/LinearHash.hpp:553-598 | the records behind the last one written are freed, and only they |
| `HashSplitting.UnreadWrite` | trunk/_TODO/LinearHash.hpp:457-492 | an item is written at or before the place being read, so that no unread item is lost |
| `HashSplitting.WriteNext` | trunk/_TODO/LinearHash.hpp:468-492 | the next item of the old chain goes to the next free place of the records already read |
| `HashSplitting.WriteNew` | trunk/_TODO/LinearHash.hpp:495-548 | the new chain grows by a fresh record exactly when its last one is full |
| `HashLayout.ChosenAll` | trunk/_TODO/LinearHash.hpp:417-603 | the items that stay and those that go are all the items |
| `HashLayout.PutOk` | trunk/_TODO/LinearHash.hpp:91-101 | one more item keeps a chain full but for its last record |
| `HashTable.LinearHash.Get` | trunk/_TODO/LinearHash.hpp:243-284 | finds a key exactly when the map has it, with its value |
| `HashTable.LinearHash.Insert` | trunk/_TODO/LinearHash.hpp:286-415 | inserts exactly when the key is new; an existing item is changed only if the handler says so; the map stays one value for a key; a primary record is added, and the split slot moves on, exactly when the key is new and the table was crowded before the call |
| `HashTable.LinearHash.Locate` | trunk/_TODO/LinearHash.hpp:294-325 | an item of the chain is found exactly when the key is in the map |
| `HashTable.LinearHash.Enter` | trunk/_TODO/LinearHash.hpp:337-412 | the item goes behind the last one of its slot, with a new record when the last is full |
| `HashTable.LinearHash.constructor` | trunk/_TODO/LinearHash.hpp:144-240 | an empty file with one primary record is a valid empty map at level zero |
| `HashTable.LinearHash.SelfTest` | trunk/_TODO/LinearHash.hpp:627-740 | on any file whose links form chains the test passes exactly when all items lie in their slots, every record with a successor is full and the counters agree; together with what it does not look at this is the invariant |
| `HashTable.LinearHash.TestSlot` | trunk/_TODO/LinearHash.hpp:672-727 | a slot passes exactly when its items belong there and every record with a successor is full; then its items and overflow records are counted |
| `HashTable.LinearHash.ValidIs` | trunk/_TODO/LinearHash.hpp:627-740 | the invariant is what the self-test looks at and what it leaves out |
| `HashTable.PutAll` | trunk/_TODO/LinearHash.hpp:286-415 | any run of insertions leaves the last value put in for every key, whatever triggers the splits |
| `MemoryHash.MemoryBucket.Sift` | trunk/_TODO/LinearHashing/simpletest.cpp:143-187 | the items that stay keep their order and close up, overflows moving into free slots; the others go over in order; overflows remain only behind a full bucket |
| `MemoryHash.MemoryTable.Split` | trunk/_TODO/LinearHashing/simpletest.cpp:143-196 | a split keeps the bag of items and every item in its slot |
| `MemoryHash.MemoryTable.Insert` | trunk/_TODO/LinearHashing/simpletest.cpp:120-141 | one item more, in its slot; capacity grows exactly when four fifths are taken |
| `MemoryHash.MemoryTable.SelfTest` | trunk/_TODO/LinearHashing/simpletest.cpp:198-252 | on sound buckets the self-test passes, and the overflows it does not look at are placed right, exactly when the invariant holds |
| `MemoryHash.InsertAll` | trunk/_TODO/LinearHashing/simpletest.cpp:120-196 | any run keeps the bag of items and the load limit |
| `MemoryHash.LoadBound` | trunk/_TODO/LinearHashing/simpletest.cpp:129-139 | 5 * size < 4 * capacity + 5 after any number of insertions, if and only if a bucket takes two items or more |
| `MemoryHash.SiftedAll` | trunk/_TODO/LinearHashing/simpletest.cpp:150-187 | dealing out loses and adds nothing |
| `MemoryHash.TestedSlot` | trunk/_TODO/LinearHashing/simpletest.cpp:208-237 | the comparisons of the self-test, range by range, are the comparison with the slot |
| `MemoryHash.HashOfInt` | trunk/_TODO/LinearHashing/simpletest.cpp:279-287 | 32-bit integers from zero on are their own hash, and negative ones count from the top |
| `MemoryHash.SlotOfInt` | trunk/_TODO/LinearHashing/simpletest.cpp:122-127 | up to 32 levels the slot is what is left of the integer itself, negative or not, when multiples of the range are taken away |
| `JsonRoundTrip.RoundTrip` | trunk/_OLD_CODE/xtl/Json.cpp:136-191 | parsing a printed value gives the very value back, for both printers at any indent, if and only if its texts hold no NUL and no key of an object is repeated |
| `JsonRoundTrip.ParsePrinted` | trunk/_OLD_CODE/xtl/Json.cpp:233-292 | what is read back for every value: texts cut at their first NUL, repeated keys merged where the first stood; blank text around does no harm |
| `JsonRoundTrip.ReprintedSame` | trunk/_OLD_CODE/xtl/JsonParser.cpp:213-226 | printing a parsed text and parsing it again gives the same value, whatever the text looked like |
| `JsonRoundTrip.DocumentClean` | trunk/_OLD_CODE/xtl/JsonParser.cpp:46-226 | whatever the parser accepts has one entry for a key, texts without NUL and 64-bit integers |
| `JsonRoundTrip.OverflowsAtMinimum` | trunk/_OLD_CODE/xtl/Parser.cpp:24-49 | reading a printed 64-bit integer overflows on the way only for the least one |
| `JsonDecimals.DecimalRead` | trunk/_OLD_CODE/xtl/Parser.cpp:51-115 | what the parser makes of every decimal text: an integer, a real number, or a number with its exponent left unread |
| `JsonDecimals.DecimalShows` | trunk/_OLD_CODE/xtl/Json.cpp:107-110 | the printed text of a floating point value reads back as the value if and only if it has a point or a negative exponent, no positive one, and no sign before a whole part of zero |
| `JsonNumbers.ReadInTens` | trunk/_OLD_CODE/xtl/Parser.cpp:51-115 | in integers: what is read times a power of ten is the number of all digits before and behind the point, with the sign of the whole part; the power counts the digits behind the point and those a minus exponent adds |
| `JsonNumbers.RaisedInTens` | trunk/_OLD_CODE/xtl/Parser.cpp:84-112 | an exponent without a sign multiplies by its power of ten, an integer with 64-bit wrap-around |
| `JsonNumbers.MeaningInTens` | trunk/_OLD_CODE/xtl/Json.cpp:107-110 | what a decimal text stands for, in integers: all its digits with the point moved |
| `JsonNumbers.PartIs` | trunk/_OLD_CODE/xtl/Parser.cpp:65-82 | the digits behind the point stand for their number over that power of ten |
| `JsonNumbers.ScaleIs` | trunk/_OLD_CODE/xtl/Parser.cpp:103-110 | scaling multiplies by a power of ten or divides by one |
| `JsonNumbers.RaiseIs` | trunk/_OLD_CODE/xtl/Parser.cpp:91-94 | raising an integer multiplies it by a power of ten, with 64-bit wrap-around |
| `JsonNumbers.WholePlaces` | trunk/_OLD_CODE/xtl/Parser.cpp:39-43 | the number of digits in a row is that of those in front times a power of ten and that of the rest; one digit stands for its place in 0123456789 |
| `JsonNumbers.DigitsWrap` | trunk/_OLD_CODE/xtl/Parser.cpp:39-43 | the loop keeps the number of any digits, however many, as far as 64 bits can |
| `JsonNumbers.NatTextIs` | trunk/_OLD_CODE/xtl/Json.cpp:102-105 | the digits printed stand for the number, and no zero is too many in front |
| `JsonRoundTrip.ReadInt` | trunk/_OLD_CODE/xtl/Parser.cpp:24-49 | every 64-bit integer is read back, the least one by wrap-around |
| `JsonRoundTrip.ReadEscaped` | trunk/_OLD_CODE/xtl/Parser.cpp:120-182 | unescaping undoes escaping for every text |
| `JsonGrammar.Escapes` | trunk/_OLD_CODE/xtl/Parser.cpp:158-174 | exactly eight escapes are accepted, and what each stands for |
| `JsonGrammar.Classes` | trunk/_OLD_CODE/xtl/Parser.hpp:32-38 | the characters that are blank, end a line or are digits |
| `JsonRoundTrip.TextNulFree` | trunk/_OLD_CODE/xtl/Json.cpp:17-76 | a printed text holds no NUL, so that it survives as a C text |
| `JsonValues.SurvivesIff` | trunk/_OLD_CODE/xtl/Json.hpp:298-391 | a value is left as it is by writing and reading exactly when it is clean |
| `JsonValues.MergeDistinct` | trunk/_OLD_CODE/xtl/Json.cpp:299-319 | setting entries with distinct keys appends them in order |
| `JsonErrors.ParseText` | trunk/_OLD_CODE/xtl/JsonParser.cpp:8-13 | for every NUL-terminated text: the document's value, or an error at exactly the row and column of the fault; nothing behind the first NUL matters |
| `JsonErrors.DocumentPlace` | trunk/_OLD_CODE/xtl/JsonParser.cpp:75-79 | the word an error points back over lies on one line right before the place reached |
| `JsonErrors.ColumnBack` | trunk/_OLD_CODE/xtl/JsonParser.cpp:77 | going back over a word on one line moves the column by its length and keeps the row |
| `JsonErrors.PrintAndParse` | trunk/_OLD_CODE/xtl/Json.cpp:78-292 | both printers and the parser run one after the other: the value comes back exactly when it is clean |
| `JsonParsing.PositionStep` | trunk/_OLD_CODE/xtl/Parser.hpp:40-42 | one character moves the row and column of a text as the cursor does |
| `JsonParsing.ColumnIs` | trunk/_OLD_CODE/xtl/Parser.hpp:40-42 | the column is the distance from the last newline |
| `JsonParsing.JsonParser.Advance` | trunk/_OLD_CODE/xtl/Parser.hpp:40 | the cursor never passes the NUL and row and column stay exact |
| `JsonParsing.JsonParser.AdvanceNewLine` | trunk/_OLD_CODE/xtl/Parser.hpp:42 | the same at a newline |
| `JsonParsing.JsonParser.SkipSpaces` | trunk/_OLD_CODE/xtl/JsonParser.cpp:27-44 | stops at the first character that is not blank, rows counted |
| `JsonParsing.JsonParser.ParseStringLiteral` | trunk/_OLD_CODE/xtl/Parser.cpp:120-182 | reads the text the grammar gives, or stops where and why the grammar says |
| `JsonParsing.JsonParser.ParseIntegerLiteral` | trunk/_OLD_CODE/xtl/Parser.cpp:24-49 | the value of the digits as 64 bits keep it |
| `JsonParsing.JsonParser.ParseNumberLiteral` | trunk/_OLD_CODE/xtl/Parser.cpp:51-115 | an integer, also with a positive exponent, or a real number, as the grammar says (`JsonNumbers.ReadInTens` says it in integers) |
| `JsonParsing.JsonParser.ParseIdentifier` | trunk/_OLD_CODE/xtl/Parser.cpp:15-21 | the longest word from the cursor on |
| `JsonParsing.JsonParser.ReadValue` | trunk/_OLD_CODE/xtl/JsonParser.cpp:46-95 | agrees with the grammar on value, rest, fault and place, and terminates on every text |
| `JsonParsing.JsonParser.ReadArray` | trunk/_OLD_CODE/xtl/JsonParser.cpp:124-158 | the items in order, or the first fault |
| `JsonParsing.JsonParser.ReadObject` | trunk/_OLD_CODE/xtl/JsonParser.cpp:161-211 | the entries with later values of a key replacing earlier ones, or the first fault |
| `JsonParsing.JsonParser.Parse` | trunk/_OLD_CODE/xtl/JsonParser.cpp:213-226 | the whole text is one value with blank text around it, or the first fault is reported |
| `JsonPrinting.EscapeString` | trunk/_OLD_CODE/xtl/Json.cpp:17-76 | the text up to the first NUL in pieces, one for each character: mark, slash and backslash behind a backslash of their own, five control characters as letters behind one, all others as they are; no control character of the five is left |
| `JsonPrinting.EscapedInPieces` | trunk/_OLD_CODE/xtl/Json.cpp:27-70 | every escaped text is cut into such pieces |
| `JsonPrinting.PrintArrayPlain` | trunk/_OLD_CODE/xtl/Json.cpp:136-162 | appends the text of the list in the plain style |
| `JsonPrinting.PlainGaps` | trunk/_OLD_CODE/xtl/Json.cpp:136-162 | the plain style writes one blank behind an opening bracket and a comma and before a closing bracket, and none in an empty list |
| `JsonPrinting.PrintArray` | trunk/_OLD_CODE/xtl/Json.cpp:164-191 | appends the text of the list in the indented style |
| `JsonPrinting.PrintObjectPlain` | trunk/_OLD_CODE/xtl/Json.cpp:233-261 | appends the text of the object in the plain style |
| `JsonPrinting.PrintObject` | trunk/_OLD_CODE/xtl/Json.cpp:263-292 | appends the text of the object in the indented style |
| `JsonPrinting.Print` | trunk/_OLD_CODE/xtl/Json.cpp:78-85 | indents first if told to, then writes the value |
| `JsonLayout.PrintAligned` | trunk/_OLD_CODE/xtl/Json.cpp:87-94 | every line of an indented print begins four columns further for each bracket open there, brackets in string literals not counted |
| `JsonLayout.TextAligned` | trunk/_OLD_CODE/xtl/Json.cpp:164-292 | the same below any depth, with any text behind |
| `JsonObjects.JsonObjectValue.Set` | trunk/_OLD_CODE/xtl/Json.cpp:299-319 | list and index stay one; the value of a key is replaced where it stands or appended; the cell returned is the one the key has in the list and in the index |
| `JsonObjects.JsonObjectValue.Insert` | trunk/_OLD_CODE/xtl/Json.hpp:346-361 | a null entry is appended exactly when the key is missing; the cell returned is that of the key |
| `JsonObjects.JsonObjectValue.Delete` | trunk/_OLD_CODE/xtl/Json.hpp:323-332 | exactly the entry of the key goes, the others keep their order |
| `JsonObjects.JsonObjectValue.Get` | trunk/_OLD_CODE/xtl/Json.hpp:334-344 | the value of the key, or null |
| `JsonObjects.JsonObjectValue.Exists` | trunk/_OLD_CODE/xtl/Json.hpp:318-321 | true exactly when an entry has the key |
| `JsonObjects.SetThenLookup` | trunk/_OLD_CODE/xtl/Json.cpp:299-319 | after a set the key has the value and every other key what it had |
| `JsonObjects.RemoveThenLookup` | trunk/_OLD_CODE/xtl/Json.hpp:323-332 | after a removal the key is gone and every other key has what it had |
| `StorageProtocol.Reachable` | trunk/_OLD_CODE/xtl/JsonStorage.cpp:12-83 | whatever the order of steps of any processes, with failures and stops anywhere: at most one owns the lock, and the document is the first one or the last one saved, whole exactly when no write of it was lost unnoticed |
| `StorageProtocol.NothingLost` | trunk/_OLD_CODE/xtl/JsonFile.cpp:117-124 | without such a lost write every document saved is whole |
| `StorageProtocol.Safe` | trunk/_OLD_CODE/xtl/FileLock.cpp:10-61 | every step keeps: one owner exactly while the lock file is there, a temporary file that holds what its writer has written so far, and a whole document |
| `StorageProtocol.Undisturbed` | trunk/_OLD_CODE/xtl/JsonStorage.cpp:63-83 | while a process has the lock no steps of others change the document, the temporary file or its hold |
| `StorageProtocol.OpenReadsLast` | trunk/_OLD_CODE/xtl/JsonStorage.cpp:30-61 | opening gives back the document saved last without a loss, as it was exactly when it is clean |
| `StorageProtocol.StaleLock` | trunk/_OLD_CODE/xtl/FileLock.cpp:26-39 | a process that stops with the lock leaves it behind: nobody gets it any more and the document stays |
| `StorageProtocol.Stopped` | trunk/_OLD_CODE/xtl/JsonStorage.cpp:12-83 | a process may stop anywhere; it leaves every file as it is, the lock file too, and does nothing any more |
| `StorageProtocol.SavesEdited` | trunk/_OLD_CODE/xtl/JsonStorage.cpp:63-74 | from every state in which a process has the lock it can change the document and save it |
| `StorageProtocol.LockIff` | trunk/_OLD_CODE/xtl/FileLock.cpp:41-61 | the lock is got exactly when no process, living or stopped, has it |
| `StorageProtocol.FilesStep` | trunk/_OLD_CODE/xtl/JsonFile.cpp:100-147 | only a living owner of the lock changes the document or the temporary file |
| `Storage.FileLock.TryLock` | trunk/_OLD_CODE/xtl/FileLock.cpp:41-61 | succeeds exactly when the lock file was missing and could be made; any other failure raises an error and changes nothing |
| `Storage.FileLock.Unlock` | trunk/_OLD_CODE/xtl/FileLock.cpp:26-39 | gives the lock up unless the file is there and cannot be removed, which raises an error |
| `Storage.JsonFile.Load` | trunk/_OLD_CODE/xtl/JsonFile.cpp:27-98 | the document's value, or null with the reason |
| `Storage.JsonFile.Save` | trunk/_OLD_CODE/xtl/JsonFile.cpp:100-147 | replaces the document when every step works, by the whole text exactly when no write was lost, and leaves it alone otherwise |
| `Storage.JsonStorage.Create` | trunk/_OLD_CODE/xtl/JsonStorage.cpp:12-28 | is one step of the protocol |
| `Storage.JsonStorage.Open` | trunk/_OLD_CODE/xtl/JsonStorage.cpp:30-61 | is a run of three steps of the protocol; it succeeds exactly when the lock is got and the document can be loaded, and each other answer has its own condition on the files and system calls; a lock that served for nothing is given back |
| `Storage.JsonStorage.Flush` | trunk/_OLD_CODE/xtl/JsonStorage.cpp:63-74 | is a run of the saving steps, done only with the lock |
| `Storage.FlushSteps` | trunk/_OLD_CODE/xtl/JsonFile.cpp:100-147 | the saving steps of one process taken in a row, with a failure or a lost write anywhere, leave exactly these files |
| `Storage.JsonStorage.Close` | trunk/_OLD_CODE/xtl/JsonStorage.cpp:76-83 | is a run of two steps; afterwards the lock is kept only if it could not be removed |
| `Storage.StoreAndReload` | trunk/_OLD_CODE/xtl/JsonStorage.cpp:12-83 | a document stored, closed and opened again is opened, and comes back exactly when it is clean |

## Left out

- Tree: generic keys and items with data (an item is its key and a number). A run compares finitely many keys with `Less` alone, and integers order any finite number of keys in every way; keys that are not totally ordered are left out. So are the array managers for objects, `DebugPrint`, `UsedMemory`, sibling helpers, `InsertAtEnd`, destructors, and the tail checks of the self-test.
- Tree and hash: the width of the unsigned counters. Numbers are unbounded.
- Hash file: saving and loading records, its file sizes and failures of the record pool. A record is a heap object, and a new one is always available.
- Hash file: the threshold of a split is any function of the counters, because it is a floating point comparison. In the in-memory table the comparison with 0.8 is taken exactly.
- JSON: parent pointers, `PushFront` (which appends), iterators, the variable and reference wrappers, streams and conversions between types. Children are values, so that sharing of subtrees is not modelled.
- JSON: rounding. Fractions and exponents are computed in real numbers. Round trips are stated for values whose floating point texts read back; which decimal texts do is stated, that "%.16g" gives such a text of the very value is not.
- JSON printing: the loop of the indented printer steps back from the end of an empty list before it starts; the position is not used, and the model does not take that step.
- Storage: waiting for the lock is repeated trying. A document is read in one step, because only the owner of the lock replaces it. A write that fails has no effect on the file. Other programs that touch the files are not modelled.
- Bit sets, buffered file streams, number conversion outside JSON and shared pointers are not part of this model; they would add easier members.
- Sockets, database clients, configuration files, loggers and program options are not part of this model.
