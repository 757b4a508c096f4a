# A model of the list, tree and queue library in Dafny

The library is a set of C containers, most of them ports of Linux kernel code. This project models the
parts whose correctness is not obvious from reading one function at a time, and proves what they promise:

* **`btree.c`, `btree.h`** (`BTree*.dfy`, `KeyWords.dfy`). Nodes are arrays of pairs changed in place by the
  loops of the source. A ghost sequence of levels describes the tree; insertion, removal, the merges, growth
  and shrinking are proved to keep packing, strict descending order, separator bounds and linkage at every
  level, and to change the map from keys to values exactly as promised. A key is the number its words stand
  for; `KeyWords` proves that the word loops compute on that number.
* **`rbtree.c`, `rbtree_augmented.h`, `rbtree_test.c`, `rblist.cpp`** (`Rb*.dfy`). Linked nodes with parent
  links, colours and stored summaries. A context around a place in the tree describes the states between the
  cases of the fix-up loops, where parents and colours are out of date. Left and right are one text with a side
  parameter where the source writes both mirror images out.
* **`klist.c`** (`Klist*.dfy`). Each section under the locks is one step; runs are arbitrary interleavings. The
  loops of the source are proved to be those steps.
* **`slist.h`** (`Slist.dfy`). Each read, write, compare-exchange and exchange is one step of a thread.
* **`kfifo.c`** (`KfifoIndex.dfy`, `Kfifo.dfy`, `KfifoSpsc.dfy`). The byte ring with 32-bit running indices as a
  queue of elements and of records, and the interleavings of one writer and one reader.
* **`jhash.h`** (`Jhash.dfy`, `JhashKnown.dfy`). The two loop forms of one hash, both mixes undone line by line, and
  one value of the hash that its author publishes.

`dafny verify dfyconfig.toml` checks the whole project.

## What the code does that its comments do not say

* `btree_remove` and `btree_update` treat a cleared slot as a stored key 0 (btree.c:605-609, 293-297). Removing an
  absent key 0 takes away the least binding when the last leaf is not full, and reads or clears slot -1 when the
  root leaf is empty; updating an absent key 0 binds it. `BTree.BTreeHead.Remove` and `BTree.BTreeHead.Update`
  say exactly when; `BTreeExamples.RemoveTakesLeast` and `BTreeExamples.UpdateBinds` are inputs.
* When every key of a full leaf is larger than the one to remove, `btree_remove` compares it with the value words
  behind the keys (btree.c:605). If they spell the key, the least pair of that leaf goes and NULL is returned, where
  a node has a spare word (128-byte nodes for 128-bit keys, and for 64-bit keys on 32-bit machines); elsewhere the
  code reads outside the node
  (`BTree.BTreeHead.Remove`; `BTreeExamples.RemoveStrays` is an input).
* `btree_get_prev` wraps around to the greatest binding when nothing is stored below the key and the root's last
  separator is 0 (btree.c:353-356); `BTree.BTreeHead.GetPrev` says exactly when, `BTreeExamples.PrevWraps` is an
  input. `BTree.BTreeHead.ForEach` is stated for the other trees and those that store key 0;
  `BTree.BTreeHead.NeverEnds` shows that on the rest the walk goes around for ever.
* The comment that no two neighbouring nodes can be merged (btree.c:581-587) does not hold, because rebalancing
  starts only below half fill: a leaf that can be merged stays exactly if it keeps half its pairs
  (`BTree.BTreeHead.Remove`; `BTreeExamples.NeighboursStay` is an input). What holds with an even number of pairs
  to a node, and with five, is that one-entry children never fill the first or the last half of a node, or, with
  five pairs, never stand next to each other (`BTreeMixed`). This keeps an interior root at two children, in all
  geometries of btree.c:54-75 with nodes of 128 bytes. For an odd number of seven or more pairs the contracts of
  removal and `btree_merge` ask for a node with two pairs on the path to the removed key; their `Valid` admits trees
  without one, and whether a run can build such a tree is left open.
* `btree_last` overwrites the caller's key on an empty leaf (btree.c:218), although btree.h:169-170 says it does not:
  exactly if the tree is empty but has a node (`BTree.BTreeHead.Last`, `BTreeExamples.LastOverwrites`).
* The branch of `btree_remove_level` for a level above the root (btree.c:597-602) is never taken.
* `kfifo` rounds a size down to a power of two (kfifo.c:86-87), where kfifo.h:327 and kfifo.h:362 say up
  (`Kfifo.RoundedIsAsked`, `Kfifo.ThirdRefused`).
* `slist_remove_head` does not answer NULL on an empty list; it reads the successor of a null pointer (slist.h:178).
  `Slist.Enabled` leaves that to the caller, as slist.h:172-185 does.
* `rblist__remove_node` leaves the entry count as it was (rblist.cpp:44-48), on which `rblist__empty` and
  `rblist__nr_entries` rest (`RbList.RblistHead.CountIsSize`, `RbList.AddAndRemove`).

## Model

| member | source | states |
|---|---|---|
| KeyWords.Longcmp | btree.c:103-114 | the word-by-word comparison has the sign of the difference of the two numbers the keys stand for, and is 0 only for equal keys |
| KeyWords.FirstDifference | btree.c:107-112 | the first differing word decides which key is the smaller number, whatever follows |
| KeyWords.DecKey | btree.c:135-146 | the key becomes the number one less; zero becomes the greatest key, all words ones |
| KeyWords.LessValue | btree.c:140-145 | borrowing through zero words takes exactly one off the number |
| KeyWords.KeyZero | btree.c:229-238 | true exactly for the key whose number is 0 |
| BTreeNode.GetPos | btree.c:362-372 | the position found is the first slot whose key is not above the searched one, cleared slots counting as key 0 |
| BTreeNode.GetFill | btree.c:374-382 | the number of pairs stored, from any start inside them |
| BTreeNode.ShiftInsert | btree.c:498-504 | the node holds its pairs with the new one put in at the position, still packed to the left |
| BTreeNode.ShiftRemove | btree.c:611-616 | the node holds its pairs without the one at the position (the last one if the position is behind them), the freed slot cleared |
| BTreeNode.MoveHalf | btree.c:482-493 | the new node gets the first half of the pairs and the old one the rest, odd counts included, both packed and cleared behind |
| BTreeNode.MoveLeft | btree.c:526-530 | the left node holds its pairs followed by the right node's |
| BTreeNode.FindEqual | btree.c:262-264 | the leaf search by equality: the first slot with the key; key 0 also matches a cleared slot |
| BTreePaths.LowerWf | btree.c:398-404 | lowering the last separator of a node, and with it the interval of its last child, keeps the tree well formed and routes the key to that child |
| BTreePaths.RouteDown | btree.c:394-406 | a covered key goes through the slot that the separator search finds; the child below it is the one node covering the key |
| BTreePaths.Forced | btree.c:398-404 | when some node of the target level already covers the key, the descent finds a separator at every level and writes none |
| BTreeMixed.MixedHalves | btree.c:468-494 | a full node of an even number of slots, or five, whose weights are mixed is cut into two such nodes: no half is left with ones only |
| BTreeMixed.MixedConcat | btree.c:526-530 | a node below half fill with a weight other than one can be appended on either side |
| BTreeMixed.AllMerge | btree.c:519-537 | merging a node below half fill that has a slot of a weight other than one keeps every node of the level mixed |
| BTreeMixed.AllSplit | btree.c:468-494 | splitting a full node keeps every node of the level mixed |
| BTreeMixed.AllDropSlot | btree.c:545-553 | dropping an emptied child keeps the level mixed and leaves its parent a slot of a weight other than one |
| BTreeRemoval.MergeMixed | btree.c:531-535 | exchanging the two children and removing the slot keeps the parent level mixed, with such a slot left |
| BTreeRemoval.LeftMixed | btree.c:559-580 | a node that is left below half fill because its neighbours are full keeps the level above mixed |
| BTreeRemoval.SwapWf | btree.c:531-533 | with the two child values exchanged the levels from the parent up are well formed although the level below is not linked to them |
| BTree.BTreeHead.constructor | btree.c:176-187 | an empty tree with the empty map |
| BTree.BTreeHead.Descend | btree.c:393-407 | one level down: to the child covering the key; the levels change only if all separators are larger, and then exactly the last one is lowered; no BUG_ON |
| BTree.BTreeHead.FindLevel | btree.c:387-410 | the node of the level that covers the key; well-formedness and contents are kept although separators may be lowered; nothing changes if a node covered the key before |
| BTree.Pool.Take | btree.c:97-99 | a cleared node, or NULL only where the pool may fail; the pool counts its refusals |
| BTree.BTreeHead.NodeAlloc | btree.c:93-101 | a cleared node, or NULL exactly if the pool refused, and only where it may |
| BTree.BTreeHead.Grow | btree.c:412-429 | a new root above the old one, with its last key as separator, or no change on failure |
| BTree.BTreeHead.Locate | btree.c:462-464 | node, position and fill for the key; the outline of the level is unchanged |
| BTree.BTreeHead.InsertHere | btree.c:498-506 | the pair goes into a node with room and the whole tree from that level up stays well formed |
| BTree.BTreeHead.SplitNode | btree.c:468-495 | after the split, through any recursive splits and growth above, the level has the same outline and the node for the key has room; it fails exactly if the pool refused once, and then only separators were lowered |
| BTree.BTreeHead.FinishSplit | btree.c:482-493 | starting with an empty sibling already linked in the parent, moving the half restores the whole invariant |
| BTree.BTreeHead.InsertLevel | btree.c:447-507 | the new pair is put in front of its slot at the level (at the leaves: the map gets the binding) and everything above is well formed again; it fails exactly if the pool refused once, and never if the node for the key has a free slot |
| BTree.BTreeHead.Insert | btree.c:509-514 | for an absent key the map gets exactly this binding; it fails exactly if the pool answered NULL to it, and then the map is unchanged and the tree valid; it asks the pool for nodes only if the tree is empty or the leaf for the key is full |
| BTree.BTreeHead.Shrink | btree.c:431-445 | the only child of the root becomes the root, the levels below unchanged |
| BTree.BTreeHead.DropChild | btree.c:545-553 | an emptied child is taken out of its parent, cascading upwards, until the tree is mended or the root is left without children |
| BTree.BTreeHead.MergeMove | btree.c:526-533 | moving the pairs and exchanging the two children leaves the level above well formed |
| BTree.BTreeHead.MergeRest | btree.c:535-536 | the removal in the parent, whose key argument lies in the node being shifted, ends with the two neighbours as one node |
| BTree.BTreeHead.Merge | btree.c:519-537 | two neighbours become one node, the outline of the level only growing wider, and the tree is mended |
| BTree.BTreeHead.MergeLeft | btree.c:559-569 | merges with the left neighbour exactly if the pairs fit in one node, else changes nothing |
| BTree.BTreeHead.MergeRight | btree.c:570-580 | merges with the right neighbour exactly if the pairs fit in one node, else changes nothing |
| BTree.BTreeHead.Rebalance | btree.c:539-588 | a node below half fill leaves its level exactly if it is empty or fits into a neighbour under the same parent, and otherwise nothing changes; the tree is mended, with an empty root exactly if no node on the path had two pairs |
| BTree.BTreeHead.Clear | btree.c:611-616 | exactly one pair leaves the node |
| BTree.BTreeHead.RemovePair | btree.c:609-623 | the value of the found slot is returned, its pair removed and the tree rebalanced or shrunk |
| BTree.BTreeHead.RemoveLevel | btree.c:590-626 | above the leaves: exactly the slot leaves the outline of the level, through recursion, merges and shrinking; the branch for a level above the root is never taken |
| BTree.BTreeHead.Remove | btree.c:628-635 | a stored key: its value is returned, the map loses exactly it, and the tree is valid again if and only if some node on the path had two pairs (always with an even number of pairs to a node, or five); its leaf leaves the tree if that is empty, or below half fill with a neighbour that has room, and otherwise no node but the leaf changes. An absent key: nothing happens, unless it is 0 and matches a cleared slot, or the value words behind a full leaf spell it; then the last pair of the leaf that the search ends in goes |
| BTree.BTreeHead.RemoveFound | btree.c:609-625 | the leaf part of removal: the pair at the position, or the last pair when a cleared slot matched key 0 |
| BTree.BTreeHead.RemoveLeaf | btree.c:603-625 | at the leaf level, from what the search found: the stored pair, the last pair for a key that matched something else, or nothing |
| BTree.BTreeHead.RemoveStray | btree.c:609-618 | the position behind the last slot of a full leaf: its last pair goes, and the leaf stays above half fill |
| BTree.BTreeHead.RootHasTwo | btree.c:581-587 | with an even number of pairs to a node, or five, an interior root always has two children |
| BTree.BTreeHead.Route | btree.c:249-259 | the read-only descent of lookup and update: the covering leaf, or NULL only for a key that is not stored |
| BTree.BTreeHead.Lookup | btree.c:240-267 | the bound value for every stored key, NULL for every other, key 0 included |
| BTree.BTreeHead.Update | btree.c:270-299 | succeeds if and only if the key is stored, or is 0 and a cleared slot matches it; the map is updated exactly then |
| BTree.BTreeHead.SetSlot | btree.c:293-297 | setting the value of the matched slot, which in the case of key 0 can be the first cleared one |
| BTree.BTreeHead.Last | btree.c:206-220 | the greatest binding; on an empty leaf NULL, the caller's key then overwritten with 0 (btree.h:169-170 says unchanged) |
| BTree.BTreeHead.PrevOnce | btree.c:323-351 | one descent: the greatest binding not above the key, or a last separator below which every such key lies |
| BTree.BTreeHead.GetPrev | btree.c:302-359 | the greatest binding strictly below the key if there is one; otherwise NULL, except that a root whose last separator is 0 makes the key wrap around to the greatest binding of the tree; the retries end |
| BTree.BTreeHead.ForEach | btree.h:215-218 | unless the last root separator is 0 and key 0 is not stored, last and then repeated get_prev list every stored key once in strictly descending order |
| BTree.BTreeHead.NeverEnds | btree.c:353-356 | if the last root separator is 0 and key 0 is not stored, get_prev of a stored key always answers with a stored key, so the same walk does not end |
| BTree.BTreeHead.LooksHollow | btree.c:215-216 | the NULL that btree_last meets at once in an interior root without children |
| BTreeExamples.NeighboursStay | btree.c:581-587 | a tree in which one removal leaves two neighbours that would fit into one node |
| BTreeExamples.PrevWraps | btree.c:353-356 | a tree in which get_prev of the least key answers with the greatest binding |
| BTreeExamples.RemoveStrays | btree.c:605-616 | 128-bit keys on 64-bit words: a full leaf whose first two value words spell an absent key; removing it takes the least stored key away |
| BTreeExamples.RemoveTakesLeast | btree.c:605-609 | a tree in which removing the absent key 0 takes the key 1 away |
| BTreeExamples.UpdateBinds | btree.c:293-297 | a tree in which updating the absent key 0 binds it |
| BTreeExamples.LastOverwrites | btree.c:216-218 | after the only key is removed, btree_last answers NULL and sets the caller's key to 0 |
| BTreeMerge.TakeOver | btree.c:648-654 | an empty target takes over the victim's tree |
| BTreeMerge.MoveLast | btree.c:659-669 | one round: the binding moves over, or the union of both maps is conserved when the insertion fails, which it does exactly if the pool refused, with the target empty or its leaf for the key full |
| BTreeMerge.Round | btree.c:656-670 | one turn of the loop: it ends with the victim empty or, exactly if the pool refused, without memory, or the victim has one binding less; the union is conserved |
| BTreeMerge.MergeTrees | btree.c:638-672 | disjoint trees: target ends as the union and victim empty, or, exactly if the pool refused once, at any point, the union is conserved and both trees are valid; a null pointer is excluded for every even number of pairs to a node and for five |
| BTreeRuns.RunAll | btree.c:509-636 | with any even number of pairs to a node from four on, or five: every run of insertions and removals, made by any caller that may look at what has failed, ends in the map that the successful calls amount to and an interior root with two children, with as many failed calls as the pool has refused |
| RbShape.PlugInOrder | rbtree.c:34-41 | the in-order sequence around any place is fixed: what stands before and after it does not depend on the subtree there |
| RbShape.RotateInOrder | rbtree.c:149-163 | a rotation moves no node in the order |
| RbShape.FlipGrowing | rbtree.c:102-122 | case 1 of insertion keeps the loop invariant two levels up |
| RbShape.OuterBalanced | rbtree.c:149-163 | case 3 of insertion gives a red-black tree |
| RbShape.InnerBalanced | rbtree.c:124-163 | cases 2 and 3 of insertion give a red-black tree |
| RbShape.RedSiblingShort | rbtree.c:219-236 | case 1 of removal leaves the hole one black node short under a red parent with a black sibling |
| RbShape.FlipShort | rbtree.c:237-267 | case 2 of removal ends the fix-up under a red parent or at the root, and otherwise moves the missing black node up to the parent |
| RbShape.OuterRepairs | rbtree.c:290-310 | case 4 of removal gives a red-black tree |
| RbShape.InnerRepairs | rbtree.c:268-310 | cases 3 and 4 of removal give a red-black tree |
| RbShape.OnlyChild | rbtree_augmented.h:134-157 | a node with at most one child: the child is red and takes over black, or the place is fine or exactly one black node short |
| RbShape.SuccessorMoves | rbtree_augmented.h:201-215 | moving the successor up leaves its old place fine or exactly one black node short, as the rebalance test says |
| RbShape.HeightBound | rbtree.c:43-46 | at most 2 * log2(n + 1) nodes from the root to a leaf |
| RbShape.TotalSplit | rbtree_augmented.h:53-84 | under the law of rotations a summary can be split at any node |
| RbShape.FoldIsTotal | rbtree_augmented.h:53-84 | a subtree's summary depends only on its values in order, not on its shape |
| RbShape.NoNodeTwice | rbtree.c:436-466 | the order lists every node once |
| RbShape.InsertSortedSorted | rbtree_test.c:29-35 | putting a node behind all that are not greater keeps a sorted order sorted and adds exactly that node |
| RbHeap.PlugLinked | rbtree.c:68-76 | links, parents and colours of a whole tree are right exactly if they are right inside and around any place |
| RbHeap.PlugStored | rbtree_augmented.h:53-84 | the stored summaries of a whole tree are right exactly if they are right inside and around any place |
| RbHeap.RotateFold | rbtree_augmented.h:74-81 | a rotation keeps the summary of the subtree it turns, so copying it to the new root is right |
| RbTree.RbRoot.constructor | rbtree.h:51 | an empty valid tree |
| RbTree.RbRoot.ChangeChild | rbtree_augmented.h:110-121 | the link above, or the root, points to the new child and to nothing else than before otherwise |
| RbTree.RbRoot.RotateSetParents | rbtree.c:68-76 | the new node takes over place, parent and colour; the old one hangs below it with the given colour |
| RbTree.RbRoot.AugmentRotate | rbtree_augmented.h:74-81 | the new root takes over the summary and the old one recomputes its own |
| RbTree.RbRoot.RotateLinks | rbtree.c:158-162 | all links, parents and colours after the rotation that six branches share, from links that may be out of date at the rising node |
| RbTree.RbRoot.Rotate | rbtree.c:149-163 | the same with summaries: the tree around the place is right again |
| RbTree.RbRoot.InsertFlip | rbtree.c:102-122 | case 1: parent and uncle black, grandparent red, everything else unchanged |
| RbTree.RbRoot.InsertInner | rbtree.c:124-147 | case 2 leaves exactly what case 3 needs, with the grandparent's link out of date |
| RbTree.RbRoot.InsertTurn | rbtree.c:124-163 | cases 2 and 3, either side: a red-black tree with the same order |
| RbTree.RbRoot.InsertColor | rbtree.c:78-201 | a red node put into a red-black tree: the rules are restored, the order unchanged, links and summaries right |
| RbTree.RbRoot.EraseRedSibling | rbtree.c:219-236 | case 1: the red sibling above the parent, links and summaries right |
| RbTree.RbRoot.EraseFlip | rbtree.c:237-267 | case 2: sibling red, parent black |
| RbTree.RbRoot.EraseInner | rbtree.c:268-289 | case 3 leaves exactly what case 4 needs, although the sibling's parent and both colours are out of date |
| RbTree.RbRoot.EraseOuter | rbtree.c:290-310 | case 4 ends the fix-up in a red-black tree with the same order |
| RbTree.RbRoot.EraseInnerOuter | rbtree.c:268-310 | cases 3 and 4 together end the fix-up in a red-black tree with the same order |
| RbTree.RbRoot.EraseBlackSibling | rbtree.c:237-310 | an iteration under a black sibling ends the fix-up, or goes on at a black parent one black node short |
| RbTree.RbRoot.EraseColor | rbtree.c:203-363 | from one black node short at the hole back to a red-black tree; order, links and summaries kept; the loop ends because it climbs |
| RbTree.RbRoot.Propagate | rbtree_augmented.h:55-66 | every summary up to the stop node is right afterwards; stopping early at an unchanged one loses nothing |
| RbTree.RbRoot.UnlinkLow | rbtree_augmented.h:134-157 | case 1 of removal: the only child takes place and colour; fix-up is asked for exactly if a black leaf went |
| RbTree.RbRoot.FindSuccessor | rbtree_augmented.h:189-193 | the leftmost node of the right subtree and its parent |
| RbTree.RbRoot.CutSuccessor | rbtree_augmented.h:194-196 | case 3: the successor leaves its parent and takes the right subtree |
| RbTree.RbRoot.LoosenDeep | rbtree_augmented.h:174-199 | case 3 up to the first propagate: summaries below the successor are right and it holds the copied one |
| RbTree.RbRoot.LoosenNext | rbtree_augmented.h:161-173 | case 2: the right child is the successor and gets the copied summary |
| RbTree.RbRoot.SeatSuccessor | rbtree_augmented.h:201-215 | the successor takes over left subtree, place, parent and colour; its former child is black under its former parent |
| RbTree.RbRoot.UnlinkHigh | rbtree_augmented.h:158-217 | cases 2 and 3: the successor stands in the node's place |
| RbTree.RbRoot.EraseAt | rbtree_augmented.h:126-222 | at any place of a red-black tree: exactly the node leaves the order and every rule, link and summary is right |
| RbTree.RbRoot.Erase | rbtree.c:387-390 | the tree is valid again and the order loses exactly the node |
| RbTree.RbRoot.LinkNode | rbtree.h:77-86 | the node hangs red and childless at the empty place |
| RbTree.RbRoot.LinkAndColor | rbtree_augmented.h:46-51 | linking at an empty place and fixing up puts the node exactly there in the order of a valid tree |
| RbTree.RbRoot.Absorb | rbtree_test.c:74-82 | a step of the descent: the node counts the new value and the rest of the way stays right |
| RbTree.RbRoot.Insert | rbtree_test.c:67-88 | the node goes behind all whose key is not greater; the tree is valid, with every summary counting it |
| RbTree.RbRoot.InsertPlain | rbtree_test.c:24-39 | the same for a tree without summaries |
| RbTree.RbRoot.Extreme | rbtree.c:417-418 | the outermost node of a subtree on either side |
| RbTree.RbRoot.End | rbtree.c:410-434 | rb_first and rb_last: the first and last node of the order, NULL for an empty tree |
| RbTree.RbRoot.Neighbour | rbtree.c:436-494 | rb_next and rb_prev: the neighbour in the order on either side, NULL at its end |
| RbTree.RbRoot.Replace | rbtree.c:497-511 | same shape and colours with the new node in the victim's place of the order; the tree is valid again, whatever the new value, if the new node's summary is right for it and the same as the victim's |
| RbCheck.BlackPathCount | rbtree_test.c:109-115 | for every node of any linked tree, the black nodes on the way down to it from the root |
| RbCheck.BlacksToBalanced | rbtree_test.c:130-133 | in a red-black tree that is the black height of the tree less that of either child of the node |
| RbCheck.EvenIsCounted | rbtree_test.c:129-133 | equal counts at the nodes with a missing child alone mean equal black counts on all paths, and conversely |
| RbCheck.RedsAreClean | rbtree_test.c:127-128 | no red node below a red or missing parent, seen node by node, is the colour rule of the whole tree |
| RbCheck.Check | rbtree_test.c:117-138 | on any linked tree, red-black or not, no warning fires if and only if it is a sorted red-black tree of the given size |
| RbCheck.CheckAugmented | rbtree_test.c:140-149 | no warning fires if and only if, besides, every stored summary is right |
| RbCheck.StoredIsRecomputed | rbtree_test.c:147 | each node storing its recomputed summary is the same as all stored summaries being right |
| RbCheck.RootSummary | rbtree_augmented.h:53-84 | the root's summary is the total of all values in order |
| RbMax.MaxIsLawful | rbtree_test.c:46-62 | the maximum obeys the laws, both for rotations and for updating ancestors on the way down |
| RbMax.AugmentRecompute | rbtree_test.c:46-62 | the maximum of the node's value and its children's summaries: not below any of them, and one of them |
| RbMax.TotalIsGreatest | rbtree_test.c:46-65 | the summary of a sequence of nodes is the greatest of their values |
| RbMax.StoresGreatest | rbtree_test.c:46-65 | every node stores the greatest value below it |
| RbMax.InsertAugmented | rbtree_test.c:67-88 | with the maximum as the summary: sorted insertion, a valid tree, and the greatest value at the root |
| RbMax.EraseAugmented | rbtree_test.c:90-93 | with the maximum as the summary: exactly the node goes, a valid tree, and the greatest value at the root |
| RbList.RblistHead.constructor | rblist.cpp:72-80 | an empty set with count 0 |
| RbList.RblistHead.AddNode | rblist.cpp:14-42 | an equal entry gives -EEXIST, else a failed allocation -ENOMEM, both without change; otherwise exactly the new entry is in the ordered set and counted |
| RbList.RblistHead.Find | rblist.cpp:50-70 | the entry that compares equal, NULL if and only if there is none |
| RbList.RblistHead.RemoveNode | rblist.cpp:44-48 | exactly the node leaves the set and is handed to node_delete; the count stays as it was |
| RbList.RblistHead.Delete | rblist.cpp:82-95 | every node is handed to node_delete once, in order, and the set is empty |
| RbList.RblistHead.Entry | rblist.cpp:97-107 | the entry at the index in increasing order, NULL past the end |
| RbList.RblistHead.CountIsSize | rblist.cpp:44-48 | the count is the number of entries (in 32 bits) if and only if the number of removals so far is a multiple of 2^32 |
| RbList.RblistHead.NrEntries | rblist.h:41-44 | entries stored and removed together, in 32 bits |
| RbList.RblistHead.Empty | rblist.h:36-39 | true of an empty set only if nothing was ever removed (or the count wrapped around) |
| RbList.AddAndRemove | rblist.cpp:44-48 | one entry added and removed leaves an empty set with count 1 that is not reported as empty |
| RbList.StrictPlace | rblist.cpp:24-31 | the place where the descent ends keeps the set strictly ordered |
| Klist.StepKeeps | klist.c:95-319 | every atomic step keeps: listed exactly while counted; count = one if not killed plus the iterators parked; a waiter woken exactly if its node has left the list since; one put for each get |
| Klist.ReleaseKeeps | klist.c:184-203 | releasing a node whose count reached zero keeps all of that |
| Klist.PutKeeps | klist.c:205-223 | dropping a reference restores the invariant, and only a dead node is ever released (the WARN_ON) |
| Klist.KillKeeps | klist.c:210-218 | killing a node and dropping its first reference keeps the invariant |
| Klist.WokenByRelease | klist.c:192-200 | a waiter is woken in the very step that takes its node off the list, and in no other |
| Klist.OnlyIteratorsDelay | klist.c:235-259 | a waiter still asleep has its node listed, and once it is killed only a parked iterator can be the reason |
| Klist.FoundIs | klist.c:342-357 | klist_next stops at the first live node behind the iterator's place; all it skips is dead |
| Klist.NeverDead | klist.c:349-355 | the node returned is listed and live when chosen and held afterwards |
| Klist.StepKept | klist.c:95-364 | no step changes the order of the nodes that stay live, or on which side of another node they stand |
| Klist.NextAdvances | klist.c:334-364 | one call carries on exactly where the last one stopped |
| Klist.RunKept | klist.c:95-364 | in every run the nodes that stay live keep their order in the list |
| Klist.IterationReturnsAhead | klist.c:281-364 | in every interleaving, an iteration from klist_iter_init or klist_iter_init_node until NULL returns, of the nodes that stay live throughout, exactly those ahead of its start, each once and in list order |
| KlistSteps.AddedInPlace | klist.c:95-165 | klist_add_head gives the node in front of the list and klist_add_tail behind it; wherever the list is cut around the given node, klist_add_after puts the new one right behind it and klist_add_before right in front |
| KlistSteps.LiveAfter | klist.c:112-233 | a node is live exactly from the step that adds it until the one that kills it |
| KlistSteps.ListedExactly | klist.c:184-223 | a node is listed exactly while it is live or an iterator is parked on it |
| KlistSteps.OthersStay | klist.c:184-364 | a step that adds no node leaves the list as it was but for the nodes that left it |
| KlistSteps.ItersAfter | klist.c:281-364 | only the iterator named in a step moves: to the list head, the given node or the node found, or away |
| KlistSteps.WaitersAfter | klist.c:239-250 | only klist_remove adds a waiter, asleep and for a node still live; nobody else waits for another node than before |
| KlistSteps.AddedMeanwhile | klist.c:126-165 | in every interleaving, a node added while an iteration runs and live from then on is returned before NULL exactly if it was put in ahead of the iterator |
| KlistSteps.TailIsReturned | klist.c:135-139 | in every interleaving, a node put in by klist_add_tail while an iteration runs and live from then on is returned before NULL |
| Klist.IterationIsComplete | klist.c:298-364 | in every interleaving, an iteration from klist_iter_init until NULL returns each node that stays live throughout exactly once, in list order |
| KlistHead.KlistHead.constructor | klist.c:85-92 | an empty list |
| KlistHead.KlistHead.AddHead | klist.c:123-127 | one step of the machine; the list is the node followed by the old list |
| KlistHead.KlistHead.AddTail | klist.c:135-139 | one step; the list is the old list followed by the node |
| KlistHead.KlistHead.AddAfter | klist.c:147-155 | one step; wherever the list is cut around the given node, the new one stands right behind it |
| KlistHead.KlistHead.AddBefore | klist.c:163-171 | one step; wherever the list is cut around the given node, the new one stands right before it |
| KlistHead.KlistHead.WakeWaiters | klist.c:191-201 | exactly the waiters for this node are woken and leave the queue |
| KlistHead.KlistHead.Release | klist.c:184-203 | the release of the machine |
| KlistHead.KlistHead.DecAndDel | klist.c:205-208 | one reference less, released exactly if it was the last |
| KlistHead.KlistHead.Del | klist.c:229-232 | the kill step; put is called exactly if the node is gone |
| KlistHead.KlistHead.Enqueue | klist.c:243-248 | the wait step of klist_remove |
| KlistHead.KlistHead.IterInit | klist.c:281-301 | the two iterator beginnings |
| KlistHead.KlistHead.IterExit | klist.c:312-319 | the iterator lets go of its node; put is called exactly if that released it |
| KlistHead.KlistHead.StepOff | klist.c:342-349 | the next place is read before the last node is let go, and stays right even if that node leaves the list |
| KlistHead.KlistHead.Next | klist.c:334-364 | the loop over dead nodes is the one step of the machine, and its answer is the returned node |
| KlistHead.KlistHead.NodeAttached | klist.c:266-269 | attached exactly while listed |
| Slist.StepKeeps | slist.h:155-198 | every read, write and exchange of any thread keeps the list linked, the records complete and each thread's local variables true |
| Slist.PushKeeps | slist.h:164-166 | a successful compare-exchange of slist_add links the new node in front of the list as it is then |
| Slist.PopKeeps | slist.h:178-181 | a successful compare-exchange of slist_remove_head installs the true successor of the head |
| Slist.StepIsStackOperation | slist.h:155-198 | each step is one operation of a sequential stack or none; the answers (was empty, head, chain newest to oldest) are that stack's |
| Slist.CallEnds | slist.h:160-181 | a call ends in the step that brings about the operation it was made for and in no other; until then it stays a call for that operation, and nobody else's step touches it |
| Slist.AloneEnds | slist.h:160-181 | left alone at any point of its call a thread brings about its operation and ends within four steps: no lock is waited for |
| Slist.CallsDoTheirWork | slist.h:155-185 | in every interleaving, what a thread has asked for, in order, is what its calls have brought about and the one operation its present call still owes |
| Slist.EveryNodeSomewhere | slist.h:155-198 | in every interleaving, the nodes slist_add was called for are those in the list, in the chains taken out and still held by the threads adding them, each as often as it was called for |
| Slist.Linearizable | slist.h:155-198 | in every interleaving the memory holds the stack that the operations so far amount to |
| Slist.NothingLost | slist.h:155-198 | in every interleaving each node whose addition took effect is in the list or in exactly one chain taken out |
| Slist.ChainStays | slist.h:89-90 | in every interleaving, a chain returned by slist_del_all stays linked, newest to oldest, until one of its nodes is added again |
| Slist.TwoConsumersCorrupt | slist.h:9-17 | with two threads in slist_remove_head a concrete run from idle threads leaves a removed node in the list: why the single consumer is needed |
| KfifoIndex.AndMask | kfifo.c:111 | masking with a power of two less one is taking the remainder |
| KfifoIndex.WrapSub | kfifo.c:33-36 | the difference of the 32-bit indices is the true number of elements across the wrap; they are equal only when the queue is empty |
| KfifoIndex.SlotOf | kfifo.c:111-115 | the masked, scaled index is the slot of the element's first byte, whatever the running counter |
| KfifoIndex.PourAppends | kfifo.c:117-120 | writing behind the contents of the ring appends to them as long as they fit |
| KfifoIndex.TwoCopiesIn | kfifo.c:117-120 | the two memcpy calls write the ring as one |
| KfifoIndex.TwoCopiesOut | kfifo.c:156-159 | the two memcpy calls read the ring as one |
| Kfifo.KfifoRing.constructor | kfifo.c:81-101 | refused below two elements; otherwise an empty queue of the size rounded down to a power of two (kfifo.h:327 says up) |
| Kfifo.RoundedIsAsked | kfifo.c:86-87 | the queue holds the number of elements asked for if and only if that is a power of two |
| Kfifo.ThirdRefused | kfifo.c:86-87 | a queue asked for three elements takes two |
| Kfifo.KfifoRing.Unused | kfifo.c:33-36 | the free elements, from the 32-bit indices |
| Kfifo.KfifoRing.CopyIn | kfifo.c:104-126 | the bytes stand in the ring from the element's slot on, around its end |
| Kfifo.KfifoRing.In | kfifo.c:128-140 | as many elements as fit are appended to the queue, and that many are reported |
| Kfifo.KfifoRing.CopyOut | kfifo.c:143-165 | the bytes of the elements from the slot on, around the end; the rest of the buffer untouched |
| Kfifo.KfifoRing.OutPeek | kfifo.c:167-178 | the oldest elements, without removing them |
| Kfifo.KfifoRing.Out | kfifo.c:181-187 | the oldest elements leave the queue, in order |
| Kfifo.KfifoRing.PokeN | kfifo.c:436-445 | the length in one or two bytes, low byte first, around the end of the ring |
| Kfifo.KfifoRing.PeekN | kfifo.c:413-425 | the length read back from the front of the queue |
| Kfifo.KfifoRing.InR | kfifo.c:453-464 | a record with its length is appended whole, or nothing |
| Kfifo.KfifoRing.OutCopyR | kfifo.c:467-477 | the start of the first record, cut to the buffer, and its full length |
| Kfifo.KfifoRing.OutPeekR | kfifo.c:479-488 | the first record cut to the buffer, without removing it |
| Kfifo.KfifoRing.OutR | kfifo.c:491-502 | the first record, cut to the buffer, while the whole of it leaves the queue; 0 on an empty queue |
| Kfifo.KfifoRing.SkipR | kfifo.c:505-511 | exactly the first record leaves the queue |
| Kfifo.KfifoRing.LenR | kfifo.c:447-450 | the length of the first record |
| Kfifo.MaxR | kfifo.c:397-404 | the greatest length the length field can hold, or the given one if that is less |
| Kfifo.LowByteFirst | kfifo.c:436-445 | the length field is little-endian: its second byte counts 256 times as much as its first |
| Kfifo.HeaderExact | kfifo.c:413-445 | the length field reads back the length if and only if __kfifo_max_r leaves the length alone |
| Kfifo.RecordAppended | kfifo.c:453-464 | appending a framed record to framed records is framing one record more |
| Kfifo.FirstFrame | kfifo.c:467-511 | a framed queue gives back the first record and the framed rest |
| KfifoRuns.RunRecords | kfifo.c:453-511 | any run of record operations on the ring does what it does on a bounded queue of records, and leaves the ring holding the waiting records |
| KfifoRuns.RunInOrder | kfifo.c:453-511 | in every run the k-th record taken or skipped is the k-th accepted, whole or cut to the buffer |
| KfifoSpsc.StepKeeps | kfifo.c:104-188 | every step of the writer or the reader, on its stale copy of the other's index, keeps the queue right, and the length a call works with is the smaller of what was asked for and what there was room for, or was stored, when it began |
| KfifoSpsc.WritesFreeSlot | kfifo.c:117-120 | the slot written next holds no element that is still to be read |
| KfifoSpsc.ReadsNext | kfifo.c:156-159 | the slot read next holds the next element in order |
| KfifoSpsc.OutputIsPrefix | kfifo.h:43-51 | in every interleaving of one writer and one reader, what was read is a prefix of what was accepted |
| KfifoSpsc.WriteUnderWay | kfifo.c:128-140 | in every interleaving, while __kfifo_in runs its length is the smaller of its buffer and the room there was when it began, and it has written one element for each of its steps |
| KfifoSpsc.PublishAppends | kfifo.c:128-140 | in every interleaving, a call of __kfifo_in that ends has appended exactly the first elements of its buffer, as many as there was room for when it began |
| KfifoSpsc.ReadUnderWay | kfifo.c:167-187 | in every interleaving, while __kfifo_out runs its length is the smaller of what was asked for and what was stored when it began, and it has copied one element for each of its steps |
| KfifoSpsc.ReleaseHandsOut | kfifo.c:167-187 | in every interleaving, a call of __kfifo_out that ends has handed out exactly the oldest elements stored when it began, as many as asked for or all |
| Jhash.Mix | jhash.h:52-60 | the eighteen statements are six lines of one pattern |
| Jhash.MixReversible | jhash.h:51-60 | two states never mix to the same one, and every state is reached |
| Jhash.RolMovesBits | jhash.h:33-36 | bit i of the word becomes bit (i + s) modulo 32 |
| Jhash.RolBack | jhash.h:33-36 | rolling on by 32 - s undoes rolling by s |
| Jhash.XorBits | jhash.h:54-70 | bit i of the exclusive or is the sum of the two bits modulo two |
| Jhash.FinalMix | jhash.h:63-72 | the fourteen statements are seven lines of one pattern, and the hash is the third register |
| Jhash.FinishUndone | jhash.h:63-72 | seven inverse lines with the rotations 24, 14, 4, 16, 25, 11, 14 give all three registers back, so the final mix loses nothing |
| Jhash.FinishReaches | jhash.h:63-72 | every state of the three registers is the final mix of some state |
| Jhash.EndIsPadding | jhash.h:103-122 | the fall-through cases for the end of a key are blocks of three words filled up with zeros |
| Jhash.StartsAlike | jhash.h:93 | length and initial value enter the start in the same way |
| Jhash.EmptyKey | jhash.h:91-125 | the hash of the empty key is 0xdeadbeef plus the initial value |
| JhashKnown.FourScore | jhash.h:87-125 | the hash of "Four score and seven years ago" from 0 is 0x17770551, the value lookup3.c publishes |
| JhashKnown.HashFourScore | jhash.h:87-125 | the byte loop answers that value |
| Jhash.Jhash2 | jhash.h:134-162 | the word loop and its fall-through tail compute the hash of the words |
| Jhash.JhashBytes | jhash.h:87-125 | the byte loop and its fall-through tail compute the hash of the key's words, the last filled up with zero bytes |
| Jhash.AddTail | jhash.h:106-118 | the four cases for one register add exactly the (possibly incomplete) word |
| Jhash.SerialWords | jhash.h:40-44 | reading little-endian words undoes serialising them |
| Jhash.FormsAgree | jhash.h:87-162 | the two forms of the hash agree on every array of words and its bytes |
| Jhash.BothForms | jhash.h:87-162 | the two loops, run on a key in its two forms, give the same hash |

## Left out

- Geometries with fewer than four pairs to a node: btree.c:54-75 has none. A key is a number below `top`, the
  count of all word vectors of its length, so no key is excluded.
- BTreeRuns.RunAll: stated for even numbers of pairs to a node and for five. For odd numbers of seven or more (nodes
  of 512 bytes and keys of two words, say) `BTree.BTreeHead.Remove` covers each call on every well-formed tree.
- BTree.BTreeHead.RootHasTwo: stated for the same numbers of pairs.
- BTreeMerge.MoveLast: for odd numbers of seven or more pairs `Crash` is left open.
- BTreeMerge.MergeTrees: for odd numbers of seven or more pairs `Crash` is not excluded, nor is it claimed to happen.
- `btree_insert` of a stored key and of a NULL value, which the code leaves to its callers.
- B+tree visitors, `btree_grim_visitor` and the typed adapters of btree-type.h: calls through function parameters,
  no further structure.
- Freeing of nodes and the memory pools: an allocation succeeds or, where it may, fails.
- Mirror-image branches of the red-black fix-up: one text with a side parameter instead of two.
- Pairs of independent writes inside one case of the red-black fix-up may come in another order than in the source.
- Colour and dead bits inside addresses: ordinary fields.
- The doubly linked list inside klist is a sequence; adding a node is one step, since no other thread knows the
  node before.
- The scheduler under `klist_remove`: sleep and wake are the woken flag alone.
- `slist_for_each` and `slist_for_each_safe`: traversal of a chain already taken out.
- Memory barriers, and `cmpxchg` and `xchg` in assembly: sequential consistency and the atomic contract of
  cmpxchg.h:83-87.
- Scatter lists of kfifo, the copies from and to user space, and the locked wrappers.
- `jhash_3words`, `jhash_2words` and `jhash_1word`, straight-line code over the same final step.
- avltree.cpp, whose rotations lose subtrees (avltree.cpp:48, 62-76), segmentree.cpp, rfifo.c and map.h, which use
  undeclared names, and the thin wrappers (dlist.h, hlist.h, fifo.h, queue.h, stack.h, strlist.cpp, intlist.cpp).
