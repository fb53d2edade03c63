# Proofs for the file watcher and scanner

The repository is a Linux file watcher with a caching virus scanner on top. Its C part links
against bundled copies of libuv and cJSON. This project models the data structures,
protocols and codecs of that code in Dafny, and the cache and scheduler of the Python part,
and proves what they promise, for all inputs, all runs and all interleavings.

One module stands for one component; `Common.dfy` holds what several of them share.

| module | component |
|---|---|
| `RbTree` | the intrusive red-black tree of `tree.h` |
| `HeapInl` | the pointer-linked binary heap of `heap-inl.h` |
| `Timers` | the timer queue of `timer.c` |
| `Barriers` | the reusable barrier of `thread-common.c` |
| `Asyncs` | the wakeup protocol of `async.c` |
| `ThreadPools`, `ThreadOrders` | the worker threads of `threadpool.c`, and the order of their work over runs |
| `IoWatchers` | the watcher table of `core.c` and its registration with epoll in `linux.c` |
| `Inet`, `InetTexts` | IPv4 and IPv6 text in `inet.c`, and the grammar that it follows |
| `Idna`, `IdnaTexts` | UTF-8 decoding and the Punycode encoder of `idna.c`, and which bytes the decoder accepts |
| `CJsonStrings`, `CJsonCodec`, `CJsonList` | strings, values and child lists of `cJSON.c` |
| `CJsonGrammars`, `CJsonLiterals` | the texts that `cJSON.c` reads and writes, as grammars |
| `ScanCaches` | `ClamAVDB` of `clamavdb.py` |
| `ScanSchedulers`, `DeferredScans` | `FinishableQueue`, the main loop and `DeferredScanManager` of `scan.py` |

`dafny verify dfyconfig.toml` checks all of it.

## How the modules are built

- Pointer structures are objects with mutable links. A ghost function takes a picture of all
  links, and one representation predicate ties the picture to an abstract tree. A local change is
  proved on a subtree and a one-hole context around it. The methods keep the loops and
  branches of the source; each is tied to a step on pictures, and lemmas about the steps
  carry the order, colour and shape arguments.
- Protocols are state machines. A step is one atomic operation, one section under a mutex, or
  what happens between two awaits. An invariant is proved for every step, then for every
  state of every run, and the promises are theorems about runs. The methods of the classes carry
  out the steps on mutable fields and are proved equal to them.
- Codecs are loops over buffers, proved equal to functions. The functions are then measured
  against references that do not mention them: the Punycode decoder of section 6.2 of RFC 3492,
  the UTF-8 of section 3 of RFC 3629, a grammar of IPv6 texts with the values of its digits, and
  a grammar of JSON texts with the meaning of each text, in which both what is parsed and
  what is printed is located. What is accepted is exactly what the grammar spells.

## Where the code does not keep its promise

Each entry has the exact condition, for all inputs or runs, and names an input or a run.

- `ScanCaches.VerdictsAreFresh`: a cached verdict is always one of a version current during
  the call exactly for harmless histories: whenever a scannable version has the size and
  whole second of a later one, every version that may have been read in its place must have
  the later one's verdict. `ScanCaches.StaleRun` is the run for every history that is not.
- `DeferredScans.ReaperDies`: a task that is cancelled before its first step ends with
  CancelledError, which the reaper's handler (`scan.py:176-181`) does not catch. The reaper
  then ends, and every tracked path stays blocked (`DeferredScans.StuckForEver`).
  `DeferredScans.WriteThenRemove` is such a run for every path outside `/tmp`.
- `DeferredScans.WriteIsServed`: a write is dropped exactly if it is reported while the tracked
  task of the path is cancelled or over. `DeferredScans.WriteIsDropped` is a file that is
  written, removed and written again.
- `ScanSchedulers.OptionRaises`: a value given with `-m` stays a string (`scan.py:275`), and the
  first turn of the main loop ends in TypeError, exactly unless the queue is finished and empty;
  `ScanSchedulers.OptionWitness`.
- `CJsonCodec.NameBehindComma`: the name of a member is read behind the end of the buffer exactly
  if the comma in front of it is the last byte of the text. `CJsonGrammars.OverreadWitness` is the
  text `{"a":null,` given to `cJSON_ParseWithLength` without a NUL.
- `CJsonGrammars.TextRoundTrip`: printing has no nesting limit, so a value prints but does not parse
  exactly if it is nested deeper than 1000 levels; `CJsonGrammars.DeepWitness`.
- `CJsonList.AddItem`: appending to a list that is not empty leaves `item->next` as it was; the
  list is well formed afterwards exactly if that was NULL; `CJsonList.DanglingAppend`.
- `CJsonList.Insert`: an array is refused as its own element behind the last index, and
  accepted before it.
- `Idna.NameRoundTrip`, `Idna.LabelRoundTrip`: an ASCII label that already begins with "xn--" is
  written as it is, so encoding is not injective; exactly the names with such a label do not
  come back. `Idna.PrefixedAsciiFails` is one.
- `IdnaTexts.ProperIffWellFormed`: the UTF-8 decoder reads every well-formed sequence, and also some
  ill-formed ones. What it accepts is well-formed exactly if it is as long as its first byte
  announces and the other bytes are continuation bytes: only the exclusive or of their top bits
  is tested (`idna.c:72`), and at the end of the text a first byte is taken for that of a shorter
  sequence. `IdnaTexts.LooseContinuation` and `IdnaTexts.CutOff` are witnesses.
- `CJsonLiterals.ProperIffHexFollows`: every string of RFC 8259 is accepted
  (`CJsonLiterals.UnitsAreLiteral`), and an accepted string is one, control characters allowed,
  exactly if four hexadecimal digits follow every `\u` in it. Four other bytes count as 0
  (`cJSON.c:615-649`); `CJsonLiterals.LooseWitness`, and `CJsonLiterals.LiteralIsUnits` for all the rest.
- `IoWatchers.Loop.Start`: the assertion admits the descriptor 2^31 - 2, for which the size of
  the table overflows (`IoWatchers.TableSize`); the program then aborts exactly if it has no slot.
  Whether a system ever hands out that descriptor is outside the model.

Two tests in the source can never matter:

- `inet.c:125`: the case of a run of exactly seven words with a last word other than 1 cannot
  matter: word 6 is inside such a run, so the test is never reached.
- `heap-inl.h:189`: the test never holds. The pointer to the last node, which is the root
  when it is the only node, has been cleared before.

## Model

| member | source | states |
|---|---|---|
| `RbTree.FillBst` | watcher-src/deps/libuv/include/uv/tree.h:53-61 | the search order of a whole tree holds iff it holds in a subtree, in what surrounds it, and between the two; the step that lets every local change be judged locally |
| `RbTree.FillRb` | watcher-src/deps/libuv/include/uv/tree.h:53-61 | a subtree with red-red freedom and black height h, put where its surroundings expect its root colour and h, gives a tree with a black root and equal black heights |
| `RbTree.UnfillRb` | watcher-src/deps/libuv/include/uv/tree.h:53-61 | conversely, every position of a well coloured tree splits that way |
| `RbTree.RotLAt` | watcher-src/deps/libuv/include/uv/tree.h:342-360 | the pointer rotation to the left, at any place of any tree, leaves a pointer structure (children, parents, root) that represents the left-rotated tree, in search order, with the same nodes |
| `RbTree.RotRAt` | watcher-src/deps/libuv/include/uv/tree.h:362-380 | the same for the rotation to the right |
| `RbTree.UncleRedL` | watcher-src/deps/libuv/include/uv/tree.h:407-449 | red uncle, parent a left child: recolouring moves the only red-red violation two levels up, one black level higher, with order, links and nodes kept |
| `RbTree.UncleRedR` | watcher-src/deps/libuv/include/uv/tree.h:407-449 | the mirror case of the row above, with left and right exchanged |
| `RbTree.TurnedL` | watcher-src/deps/libuv/include/uv/tree.h:407-449 | black uncle, outer grandchild: two recolourings and a rotation of the grandparent keep links, order and nodes, and bring the red focus closer to the root |
| `RbTree.TurnedR` | watcher-src/deps/libuv/include/uv/tree.h:407-449 | the mirror case of the row above, with left and right exchanged |
| `RbTree.StraightenedL` | watcher-src/deps/libuv/include/uv/tree.h:407-449 | inner grandchild: rotating the parent gives the outer case with parent and child exchanged, nothing else changed |
| `RbTree.StraightenedR` | watcher-src/deps/libuv/include/uv/tree.h:407-449 | the mirror case of the row above, with left and right exchanged |
| `RbTree.Attached` | watcher-src/deps/libuv/include/uv/tree.h:598-626 | linking a red leaf where the search ended gives the tree with exactly that node added, in search order, with right links |
| `RbTree.SiblingRedL` | watcher-src/deps/libuv/include/uv/tree.h:451-528 | red sibling: after recolouring and rotating, the same subtree is one black node short below a red parent with a black sibling; links, order, nodes kept |
| `RbTree.SiblingRedR` | watcher-src/deps/libuv/include/uv/tree.h:451-528 | the mirror case of the row above, with left and right exchanged |
| `RbTree.NephewsBlackL` | watcher-src/deps/libuv/include/uv/tree.h:451-528 | black sibling with black children: recolouring the sibling moves the deficit of one black node up to the parent |
| `RbTree.NephewsBlackR` | watcher-src/deps/libuv/include/uv/tree.h:451-528 | the mirror case of the row above, with left and right exchanged |
| `RbTree.NearRedL` | watcher-src/deps/libuv/include/uv/tree.h:451-528 | only the near nephew red: recolouring and rotating the sibling makes the far nephew red and keeps the deficit where it is |
| `RbTree.NearRedR` | watcher-src/deps/libuv/include/uv/tree.h:451-528 | the mirror case of the row above, with left and right exchanged |
| `RbTree.FarRedL` | watcher-src/deps/libuv/include/uv/tree.h:451-528 | far nephew red: the last rotation removes the deficit, the whole tree is well coloured and holds the same nodes |
| `RbTree.FarRedR` | watcher-src/deps/libuv/include/uv/tree.h:451-528 | the mirror case of the row above, with left and right exchanged |
| `RbTree.UnlinkedAt` | watcher-src/deps/libuv/include/uv/tree.h:530-595 | taking out a node with at most one child leaves the tree without exactly that node, in order, with right links |
| `RbTree.UnlinkedRb` | watcher-src/deps/libuv/include/uv/tree.h:530-595 | the colouring then still holds if the node was red, else the child is exactly one black node short |
| `RbTree.ReplacedAt` | watcher-src/deps/libuv/include/uv/tree.h:559-570 | copying the links and colour of a node with two children to another node, and redirecting the neighbours, puts that node in its place in the tree |
| `RbTree.SpineLeast` | watcher-src/deps/libuv/include/uv/tree.h:530-595 | the node at the end of the leftmost path is the least of its tree |
| `RbTree.InnerStart` | watcher-src/deps/libuv/include/uv/tree.h:530-595 | unlinking the in-order successor and putting it in the place of a node with two children yields the tree without exactly that node, in order, with right links, also when the successor is its right child |
| `RbTree.InnerDone` | watcher-src/deps/libuv/include/uv/tree.h:530-595 | the position that RB_REMOVE_COLOR then starts from is well coloured if the successor was red, else one black node short, and its parent is the one that the code computes |
| `RbTree.RbSize` | watcher-src/deps/libuv/include/uv/tree.h:60-61 | a red-black tree of black height h has at least 2^h - 1 nodes and is at most 2h high (2h + 1 below a red root) |
| `RbTree.HeightBound` | watcher-src/deps/libuv/include/uv/tree.h:60-61 | 2 to the height is at most (n + 1) squared, which is the header comment's 2 lg (n + 1) |
| `RbTree.NextIsParent` | watcher-src/deps/libuv/include/uv/tree.h:668-687 | the node after all of a left subtree is that subtree's parent |
| `RbTree.NextIsLeast` | watcher-src/deps/libuv/include/uv/tree.h:668-687 | the node after one with a right child is the leftmost node of the right subtree |
| `RbTree.RbHead.constructor` | watcher-src/deps/libuv/include/uv/tree.h:306-308 | RB_INIT makes a valid empty tree |
| `RbTree.RbHead.RotateLeft` | watcher-src/deps/libuv/include/uv/tree.h:342-360 | the statements of the macro have exactly the effect on the links that RotLAt is about |
| `RbTree.RbHead.RotateRight` | watcher-src/deps/libuv/include/uv/tree.h:362-380 | the same to the right, with RotRAt |
| `RbTree.RbHead.InsertRoundL` | watcher-src/deps/libuv/include/uv/tree.h:407-449 | one loop round with the parent a left child: same nodes in order, at most one red-red violation left, and nearer to the root |
| `RbTree.RbHead.InsertRoundR` | watcher-src/deps/libuv/include/uv/tree.h:407-449 | the mirror round |
| `RbTree.RbHead.InsertColor` | watcher-src/deps/libuv/include/uv/tree.h:407-449 | from one red-red violation at the new node to a well coloured tree with the same nodes in order; the loop ends |
| `RbTree.RbHead.Descend` | watcher-src/deps/libuv/include/uv/tree.h:598-614 | the search loop ends at the node with an equal key, or at the empty place and parent where the key belongs |
| `RbTree.RbHead.Link` | watcher-src/deps/libuv/include/uv/tree.h:615-623 | the new node is linked at that place, red and without children |
| `RbTree.RbHead.InsertNew` | watcher-src/deps/libuv/include/uv/tree.h:615-626 | and the result after recolouring is a valid tree with exactly one node more |
| `RbTree.RbHead.Insert` | watcher-src/deps/libuv/include/uv/tree.h:598-626 | a node with an equal key, which may be the new node itself, is returned iff there is one, and then nothing at all changes; else the tree is valid and has exactly the new node more |
| `RbTree.RbHead.Find` | watcher-src/deps/libuv/include/uv/tree.h:629-644 | returns the node with the key, or NULL exactly if none has it |
| `RbTree.RbHead.Nfind` | watcher-src/deps/libuv/include/uv/tree.h:647-665 | returns the node with the least key not below the given one, or NULL exactly if all keys are below |
| `RbTree.RbHead.RemoveRoundL` | watcher-src/deps/libuv/include/uv/tree.h:460-490 | one loop round with the short node a left child: same nodes in order, and the deficit is gone, or higher up, or at a red node |
| `RbTree.RbHead.RemoveRoundR` | watcher-src/deps/libuv/include/uv/tree.h:491-524 | the mirror round |
| `RbTree.RbHead.RemoveRound` | watcher-src/deps/libuv/include/uv/tree.h:451-525 | a round on either side; the sibling it dereferences is never NULL |
| `RbTree.RbHead.RemoveColor` | watcher-src/deps/libuv/include/uv/tree.h:451-528 | from a subtree that is one black node short to a well coloured tree with the same nodes in order; the loop ends |
| `RbTree.RbHead.Unlink` | watcher-src/deps/libuv/include/uv/tree.h:579-590 | the statements for a node with at most one child have the effect that UnlinkedAt is about |
| `RbTree.RbHead.Replace` | watcher-src/deps/libuv/include/uv/tree.h:559-570 | the statements that put the successor in place have the effect that ReplacedAt is about |
| `RbTree.RbHead.Successor` | watcher-src/deps/libuv/include/uv/tree.h:541-543 | the walk finds the leftmost node of the right subtree |
| `RbTree.RbHead.RemoveInner` | watcher-src/deps/libuv/include/uv/tree.h:530-595 | removal of a node with two children, up to the label: exactly that node is gone, order and links hold, and child, parent and colour describe the deficit |
| `RbTree.RbHead.Remove` | watcher-src/deps/libuv/include/uv/tree.h:530-595 | every node of a valid tree can be removed: the result is valid (order, parent links, black root, no red-red, equal black heights) and has exactly the other nodes |
| `RbTree.RbHead.Next` | watcher-src/deps/libuv/include/uv/tree.h:668-687 | returns the node with the next larger key, or NULL exactly at the largest |
| `RbTree.RbHead.MinMax` | watcher-src/deps/libuv/include/uv/tree.h:711-724 | returns a node with the least or the greatest key, NULL exactly for the empty tree |
| `HeapInl.SwapCells` | watcher-src/deps/libuv/src/heap-inl.h:72-104 | what every link of parent, child, grandchildren and sibling is after heap_node_swap, and that no other link changes but the one above |
| `HeapInl.SwapAt` | watcher-src/deps/libuv/src/heap-inl.h:72-104 | so the pointers represent the tree with parent and child exchanged and no node gained or lost, anywhere in the heap, for either child |
| `HeapInl.RootLeast` | watcher-src/deps/libuv/src/heap-inl.h:67-69 | in heap order no node is less than the root |
| `HeapInl.HeapCount` | watcher-src/deps/libuv/src/heap-inl.h:106-148 | a complete tree of the shape for nelts holds exactly nelts nodes |
| `HeapInl.ShapeHeight` | watcher-src/deps/libuv/src/heap-inl.h:119-124 | and its height is logarithmic: 2^(height - 1) is at most nelts |
| `HeapInl.TurnsLead` | watcher-src/deps/libuv/src/heap-inl.h:119-136 | the binary digits of a position below the highest, read as turns from the root, lead to that position |
| `HeapInl.DescendStep` | watcher-src/deps/libuv/src/heap-inl.h:126-136 | while path bits are left the walk stands on an existing node, and the next bit leads to the child on the way to the position |
| `HeapInl.CtxShapeElsewhere` | watcher-src/deps/libuv/src/heap-inl.h:119-140 | growing or shrinking the heap by one leaves the shape of every subtree alone that is not above the last position |
| `HeapInl.Attached` | watcher-src/deps/libuv/src/heap-inl.h:138-141 | a node hung at the place found is in the tree, once, with right links |
| `HeapInl.Detached` | watcher-src/deps/libuv/src/heap-inl.h:181-185 | unlinking the last node removes exactly it |
| `HeapInl.LastUnlinked` | watcher-src/deps/libuv/src/heap-inl.h:163-185 | the walk of heap_remove ends at the last node, and unlinking it keeps order and completeness |
| `HeapInl.ReplacedAt` | watcher-src/deps/libuv/src/heap-inl.h:195-214 | the copied links and the redirected neighbours put the last node exactly in the place of the removed one |
| `HeapInl.ReplacedOrder` | watcher-src/deps/libuv/src/heap-inl.h:195-237 | afterwards only that node can be out of order, downwards or upwards |
| `HeapInl.SinkStep` | watcher-src/deps/libuv/src/heap-inl.h:216-229 | swapping it with a child that is less and not more than the other one leaves only it out of order, one level down |
| `HeapInl.RiseStep` | watcher-src/deps/libuv/src/heap-inl.h:143-147 | swapping a node that is less than its parent leaves only it out of order, one level up |
| `HeapInl.Heap.constructor` | watcher-src/deps/libuv/src/heap-inl.h:62-65 | heap_init makes a valid empty heap |
| `HeapInl.Heap.Min_` | watcher-src/deps/libuv/src/heap-inl.h:67-69 | NULL exactly for the empty heap, else a node that no other is less than |
| `HeapInl.Heap.NodeSwap` | watcher-src/deps/libuv/src/heap-inl.h:72-104 | the statements have the effect that SwapAt is about |
| `HeapInl.Heap.PathTo` | watcher-src/deps/libuv/src/heap-inl.h:119-124 | the first loop leaves path bits that lead from the root to the position |
| `HeapInl.Heap.Descend` | watcher-src/deps/libuv/src/heap-inl.h:126-136 | the second loop ends at the link for that position, with the link of its parent |
| `HeapInl.Heap.Rise` | watcher-src/deps/libuv/src/heap-inl.h:143-147 | the upward loop ends with a heap in order, complete, of the same nodes |
| `HeapInl.Heap.Sink` | watcher-src/deps/libuv/src/heap-inl.h:216-229 | the downward loop ends with only the upward order open, complete, same nodes |
| `HeapInl.Heap.Insert` | watcher-src/deps/libuv/src/heap-inl.h:106-148 | the result is a valid heap (links agree, complete, ordered) of exactly the old nodes and the new one |
| `HeapInl.Heap.UnlinkLast` | watcher-src/deps/libuv/src/heap-inl.h:160-185 | the last node is unlinked; what is left is ordered and complete |
| `HeapInl.Heap.RemoveInner` | watcher-src/deps/libuv/src/heap-inl.h:195-237 | with the last node in the place of the removed one, the loops restore the order, whether it has to go down or up |
| `HeapInl.Heap.RemoveOne` | watcher-src/deps/libuv/src/heap-inl.h:150-237 | the tree then holds exactly the other nodes, ordered and complete |
| `HeapInl.Heap.Remove` | watcher-src/deps/libuv/src/heap-inl.h:150-237 | every node of a valid heap can be removed, and exactly it is gone; on the empty heap nothing happens |
| `HeapInl.Heap.Dequeue` | watcher-src/deps/libuv/src/heap-inl.h:239-241 | removes exactly the minimum, does nothing to an empty heap |
| `Timers.LessIsStrictWeakOrder` | watcher-src/deps/libuv/src/timer.c:38-55 | the comparison of timers is a strict weak order, so the heap of HeapInl may be used with it |
| `Timers.ClampedIsSaturating` | watcher-src/deps/libuv/src/timer.c:80-82 | the test for a wrapped sum makes the addition saturate at 2^64 - 1, so no timer is due too early |
| `Timers.RearmedInTheFuture` | watcher-src/deps/libuv/src/timer.c:111-121 | a repeating timer is re-armed strictly after the loop time iff that is not 2^64 - 1, and so at every value that the clock, which counts milliseconds by division, can have |
| `Timers.WaitFollowsLess` | watcher-src/deps/libuv/src/timer.c:142-160 | the waiting time reported follows the order of the heap |
| `Timers.OrderStep` | watcher-src/deps/libuv/src/timer.c:163-180 | the timer that a round fires was due at the start, has not fired yet, and is not less than any fired before |
| `Timers.ReflectStep` | watcher-src/deps/libuv/src/timer.c:163-180 | what a round changes is what one more firing changes: the timer is stopped, or armed again with the next id |
| `Timers.PassComplete` | watcher-src/deps/libuv/src/timer.c:163-180 | when the minimum is not due, every timer due at the start has fired |
| `Timers.PassGoesOn` | watcher-src/deps/libuv/src/timer.c:163-180 | a round on the least timer of the heap, if that is due, keeps: what fired was due at the start, once, in order, and handles, active set and id counter are what these firings make of them |
| `Timers.PassEnds` | watcher-src/deps/libuv/src/timer.c:163-180 | when nothing active is due, what has fired is exactly what was due at the start |
| `Timers.PassInFields` | watcher-src/deps/libuv/src/timer.c:163-180 | what that means on the fields: which timers fire, in which order, and what becomes of them, said without the comparison of the heap |
| `Timers.Loop.constructor` | watcher-src/deps/libuv/src/unix/loop.c:52-69 | an empty heap and a loop time that the clock can show |
| `Timers.Loop.Init` | watcher-src/deps/libuv/src/timer.c:58-64 | a new handle without callback, which is not active; all others unchanged |
| `Timers.Loop.Stop` | watcher-src/deps/libuv/src/timer.c:98-108 | the handle is out of the heap and not active any more, others stay |
| `Timers.Loop.Start` | watcher-src/deps/libuv/src/timer.c:67-95 | refused exactly for a closing handle or a NULL callback, with nothing changed; else the handle is in the heap with the saturated timeout, the repeat value and the next id |
| `Timers.Loop.Again` | watcher-src/deps/libuv/src/timer.c:111-121 | refused exactly for a handle without callback; a repeater is armed from now, others are left alone; a closing repeater ends stopped |
| `Timers.Loop.NextTimeout` | watcher-src/deps/libuv/src/timer.c:142-160 | -1 exactly without active timers; 0 exactly if one is due; else, up to INT_MAX, the least difference between the timeout of an active timer and the loop time |
| `Timers.Loop.NextDue` | watcher-src/deps/libuv/src/timer.c:167-174 | the root of the heap if it is due; NULL exactly if no active timer is due; no timer is less than it |
| `Timers.Loop.FireOne` | watcher-src/deps/libuv/src/timer.c:176-177 | stop and re-arm of one timer: only this handle, the active set and the counter change, and the heap stays valid |
| `Timers.Loop.RunTimers` | watcher-src/deps/libuv/src/timer.c:163-180 | with the pointer heap itself: ends; a timer fires iff it was active with a timeout not after the loop time, once; by timeout, and by start id where timeouts are equal; one-shots end stopped, repeaters are re-armed at the saturated sum of time and repeat with fresh ids, all others are as before; afterwards none is due |
| `Barriers.SectionKeepsWaiting` | watcher-src/deps/libuv/src/thread-common.c:85-120 | a step of any thread keeps: the threads in the second wait loop are exactly those counted by in, or those still to leave |
| `Barriers.EnterKeeps` | watcher-src/deps/libuv/src/thread-common.c:99-112 | counting in keeps the history right: full rounds before, the current one growing |
| `Barriers.ReturnKeeps` | watcher-src/deps/libuv/src/thread-common.c:114-119 | leaving keeps it right: the last of a round, and only the last, returns 1 |
| `Barriers.StepKeeps` | watcher-src/deps/libuv/src/thread-common.c:85-120 | every step of every thread keeps the invariant |
| `Barriers.RunKeeps` | watcher-src/deps/libuv/src/thread-common.c:85-120 | so it holds after every schedule of steps and wakeups |
| `Barriers.BarrierRounds` | watcher-src/deps/libuv/src/thread-common.c:85-120 | for any threshold, number of threads, reuse and spurious wakeups: nobody leaves a round before threshold threads have entered it, nobody enters a round before all have left the previous one, and a completed round has returned 1 exactly once |
| `Barriers.NoLostWakeup` | watcher-src/deps/libuv/src/thread-common.c:99-117 | in every run, with the broadcasts: a thread that sleeps on the condition variable waits for a round that is not full, or for threads that have still to leave a full one |
| `Barriers.StepsGoOn` | watcher-src/deps/libuv/src/thread-common.c:85-120 | in every run: a step of a thread of a full round returns from it, and one of a thread that is in no round enters the next one, unless threads have still to leave the last; no other step changes the history |
| `Barriers.Barrier.constructor` | watcher-src/deps/libuv/src/thread-common.c:38-82 | the initial state |
| `Barriers.Barrier.TryInit` | watcher-src/deps/libuv/src/thread-common.c:38-82 | UV_EINVAL exactly for a count of zero, else a new barrier in which the invariant of all runs holds |
| `Barriers.Barrier.WaitFromStart` | watcher-src/deps/libuv/src/thread-common.c:85-120 | the code from the lock to a wait or the return is that step; it reports whether the call has returned; a return is 1 iff it is the last of the round |
| `Barriers.Barrier.WaitFromWakeup` | watcher-src/deps/libuv/src/thread-common.c:109-119 | the same from a wakeup in the second loop |
| `Asyncs.QueuedKept` | watcher-src/deps/libuv/src/unix/async.c:160-166 | every handle that is not closed is in exactly one of the loop's queue and the moved queue, once, after every step |
| `Asyncs.InsideMoved` | watcher-src/deps/libuv/src/unix/async.c:76-84 | a step of one thread changes the number of threads inside by its own entering or leaving |
| `Asyncs.BusyKept` | watcher-src/deps/libuv/src/unix/async.c:76-84 | the busy word of a handle counts exactly the threads between its increment and decrement |
| `Asyncs.WakeupKept` | watcher-src/deps/libuv/src/unix/async.c:65-178 | no lost wakeup, step by step: pending set on a handle that is not being closed means that the descriptor is unread, a sender is about to write, or the loop is about to visit it |
| `Asyncs.SealedKept` | watcher-src/deps/libuv/src/unix/async.c:92-129 | a closing handle keeps pending set, and after the spin nobody is about to write for it |
| `Asyncs.DeliveredKept` | watcher-src/deps/libuv/src/unix/async.c:65-87 | a request made since a call began stays pending or has been served |
| `Asyncs.CallsKept` | watcher-src/deps/libuv/src/unix/async.c:65-87 | every call past its exchange has such a request |
| `Asyncs.StepKeeps` | watcher-src/deps/libuv/src/unix/async.c:65-212 | every atomic step of every sender and of the loop keeps all of these |
| `Asyncs.RunKeeps` | watcher-src/deps/libuv/src/unix/async.c:65-212 | so they hold in every state of every run |
| `Asyncs.SendIsFollowedByCallback` | watcher-src/deps/libuv/src/unix/async.c:65-178 | in every run: when a call of uv_async_send has returned and all is quiet again, the callback has run since the call began, unless the handle was closed |
| `Asyncs.CountedStep` | watcher-src/deps/libuv/src/unix/async.c:65-178 | every step keeps the count of exchanges that found the flag clear equal to that of the callbacks run, but for one that is pending |
| `Asyncs.RunsCountSends` | watcher-src/deps/libuv/src/unix/async.c:65-178 | in every run the callback of a handle has run once for each exchange that found the flag clear, but for one that is pending: it never runs without a send, sends between two visits share one call, and closing can only take that last call away |
| `Asyncs.VisitedInOrder` | watcher-src/deps/libuv/src/unix/async.c:131-178 | in every run: when the loop visits a handle, every handle that the last drain found ahead of it in the queue has been visited since, or was closed |
| `Asyncs.NoWriteAfterSpin` | watcher-src/deps/libuv/src/unix/async.c:90-129 | in every run: once uv__async_spin has returned for a handle, no thread is ever again about to write for it, and the loop never visits it |
| `Asyncs.AsyncLoop.constructor` | watcher-src/deps/libuv/src/unix/async.c:215-240 | the state without handles |
| `Asyncs.AsyncLoop.Init` | watcher-src/deps/libuv/src/unix/async.c:46-62 | a new handle is queued with both words zero |
| `Asyncs.AsyncLoop.ReadPending` | watcher-src/deps/libuv/src/unix/async.c:72-74 | the relaxed read, as a step of the protocol: the call returns iff the flag is set |
| `Asyncs.AsyncLoop.EnterBusy` | watcher-src/deps/libuv/src/unix/async.c:76-77 | the increment of busy as a step |
| `Asyncs.AsyncLoop.Exchange` | watcher-src/deps/libuv/src/unix/async.c:79-81 | the exchange as a step: the thread must write iff the flag was clear |
| `Asyncs.AsyncLoop.Write` | watcher-src/deps/libuv/src/unix/async.c:181-212 | the write as a step |
| `Asyncs.AsyncLoop.LeaveBusy` | watcher-src/deps/libuv/src/unix/async.c:83-84 | the decrement as a step |
| `Asyncs.AsyncLoop.DrainAndMove` | watcher-src/deps/libuv/src/unix/async.c:142-160 | the read of the descriptor and the move of the queue as a step |
| `Asyncs.AsyncLoop.VisitNext` | watcher-src/deps/libuv/src/unix/async.c:161-177 | one iteration: the first handle of the moved queue goes to the end of the other one, its flag is fetched and cleared, the callback runs iff it was set |
| `Asyncs.AsyncLoop.BeginClose` | watcher-src/deps/libuv/src/unix/async.c:97-102 | the store at the start of closing as a step |
| `Asyncs.AsyncLoop.SpinOnce` | watcher-src/deps/libuv/src/unix/async.c:104-129 | the spin ends, and the handle is unlinked, iff busy is zero |
| `ThreadPools.Chosen` | watcher-src/deps/libuv/src/threadpool.c:65-117 | what a worker holding the mutex decides: it sleeps only when nothing in the queue may run, takes slow work only below the threshold and from the head of the slow queue, takes other work from the queue, and leaves the slow message whenever slow work is left |
| `ThreadPools.TakerSignals` | watcher-src/deps/libuv/src/threadpool.c:111-117 | a worker that puts the slow message back replaces the wakeup that it used up |
| `ThreadPools.SectionSignalsEnough` | watcher-src/deps/libuv/src/threadpool.c:65-117 | after a section of a worker: while some worker sleeps without a signal, at least as many signals are under way as entries may run |
| `ThreadPools.StepKeeps` | watcher-src/deps/libuv/src/threadpool.c:57-324 | every section of every thread keeps placement, history, counters, throttle and signals |
| `ThreadPools.RunKeeps` | watcher-src/deps/libuv/src/threadpool.c:57-324 | so they hold in every run, and the number of workers stays |
| `ThreadPools.ExactlyOnePlace` | watcher-src/deps/libuv/src/threadpool.c:57-324 | in every run each submitted request is in exactly one of the two queues, a worker, the hands of a cancel, the two loop queues and the reports, and there once |
| `ThreadPools.CancelsOfRun` | watcher-src/deps/libuv/src/threadpool.c:278-301 | the recorded cancels are exactly those steps of the run where uv__work_cancel returns 0 |
| `ThreadPools.CancelIffUnstarted` | watcher-src/deps/libuv/src/threadpool.c:278-302 | in every run a cancel succeeds iff no worker has started the request; it is then in no queue any more; otherwise nothing changes |
| `ThreadPools.DoneAtMostOnce` | watcher-src/deps/libuv/src/threadpool.c:57-324 | in every run done is called at most once per request, with UV_ECANCELED iff an earlier cancel returned 0; a cancelled work function never runs, every other reported one has run exactly once |
| `ThreadPools.Throttle` | watcher-src/deps/libuv/src/threadpool.c:45-139 | in every run slow_io_work_running counts the slow workers until they are back at the mutex, at most (nthreads + 1) / 2 execute slow work, and pending slow work implies the slow message in the queue |
| `ThreadPools.NothingForgotten` | watcher-src/deps/libuv/src/threadpool.c:57-160 | in every run, when all workers sleep and no signal is outstanding, both queues are empty; and once the loop has collected its queues every request was reported |
| `ThreadPools.Pool.constructor` | watcher-src/deps/libuv/src/threadpool.c:193-241 | n waiting workers, empty queues |
| `ThreadPools.Pool.PickWork` | watcher-src/deps/libuv/src/threadpool.c:65-117 | the loop under the mutex, with its re-queueing and starting over, decides as Chosen describes; it ends |
| `ThreadPools.Pool.Section` | watcher-src/deps/libuv/src/threadpool.c:65-117 | a worker from the lock to the wait or to w->work is the step Section |
| `ThreadPools.Pool.FinishWork` | watcher-src/deps/libuv/src/threadpool.c:121-129 | the end of an iteration is the step Finish: work cleared, request queued at the loop |
| `ThreadPools.Pool.SubmitWork` | watcher-src/deps/libuv/src/threadpool.c:142-160 | the request is the last of its queue; the slow message is put behind all work unless it is queued already; a sleeping worker is signaled |
| `ThreadPools.Pool.CancelWork` | watcher-src/deps/libuv/src/threadpool.c:278-292 | succeeds exactly for a request that is linked in a queue and whose work is not NULL, and then unlinks it |
| `ThreadPools.Pool.CancelWorkEnd` | watcher-src/deps/libuv/src/threadpool.c:294-300 | the rest of it is the step CancelEnd |
| `ThreadPools.Pool.MoveQueue` | watcher-src/deps/libuv/src/threadpool.c:304-313 | taking the queue is the step Move |
| `ThreadPools.Pool.DeliverNext` | watcher-src/deps/libuv/src/threadpool.c:315-323 | one iteration is the step Deliver, and the status is UV_ECANCELED iff a cancel of the request succeeded |
| `ThreadOrders.StepInTurn` | watcher-src/deps/libuv/src/threadpool.c:57-165 | every step keeps of two requests of a kind: the one submitted first is ahead in the queue, or started, or cancelled |
| `ThreadOrders.StartedInOrder` | watcher-src/deps/libuv/src/threadpool.c:79-165 | in every run, any number of workers and any interleaving: of two requests of a kind the one submitted first is started first, unless it has been cancelled |
| `ThreadOrders.ReportedInOrder` | watcher-src/deps/libuv/src/threadpool.c:124-325 | in every run: of two requests the one handed to the loop first is reported by its done callback first, unless it is cancelled in between |
| `ThreadOrders.MessageGoesLast` | watcher-src/deps/libuv/src/threadpool.c:89-116 | a worker that finds the slow message at the head takes slow work or other work, and the message goes behind everything that waits |
| `ThreadOrders.SlowTakesTurns` | watcher-src/deps/libuv/src/threadpool.c:68-118 | in every run: once a worker has found the slow message at the head, no more slow work starts before all requests then in the queue have been started or cancelled |
| `ThreadOrders.SlowMeetsMessage` | watcher-src/deps/libuv/src/threadpool.c:89-118 | slow work is only started in such a section, one request at a time |
| `ThreadOrders.WaitsForThreshold` | watcher-src/deps/libuv/src/threadpool.c:45-75 | in every run, while a worker sleeps and no signal is under way: no plain request waits, and slow work waits only if (nthreads + 1) / 2 workers are busy with slow work |
| `Inet.AcceptedIsCanonical` | watcher-src/deps/libuv/src/inet.c:175-211 | from any state of the scan, text that inet_pton4 accepts completes to exactly the decimal text of the bytes that it returns |
| `Inet.CanonicalIsAccepted` | watcher-src/deps/libuv/src/inet.c:48-59 | the text of any four bytes is accepted with those bytes |
| `Inet.Text4BothWays` | watcher-src/deps/libuv/src/inet.c:48-211 | inet_pton4 accepts a text with result b iff it is what inet_ntop4 writes for b: no leading zeros, no other spelling |
| `Inet.FinishAll` | watcher-src/deps/libuv/src/inet.c:272-297 | the shift of the bytes behind "::" puts the zeros back exactly where the run was |
| `Inet.TailScanned` | watcher-src/deps/libuv/src/inet.c:108-298 | from any word on, the parser turns the rest of the text into the rest of the bytes, through runs, separators and the embedded IPv4 form |
| `Inet.RoundTrip6` | watcher-src/deps/libuv/src/inet.c:62-298 | for every 16 bytes, inet_pton6 of the text of inet_ntop6 gives the same bytes, including the embedded IPv4 forms |
| `Inet.RoundTrip6Zone` | watcher-src/deps/libuv/src/inet.c:146-172 | and with any zone text behind a percent sign |
| `Inet.BestIsUnique` | watcher-src/deps/libuv/src/inet.c:83-106 | there is at most one leftmost longest run of at least two zero words, so the text of an address is determined |
| `Inet.Text6Fits` | watcher-src/deps/libuv/src/inet.c:70-141 | the text and its NUL never need more than 46 bytes |
| `Inet.FindRun` | watcher-src/deps/libuv/src/inet.c:83-106 | the search finds the leftmost longest run of at least two zero words (sections 4.2.2 and 4.2.3 of RFC 5952), or none |
| `Inet.Ntop4` | watcher-src/deps/libuv/src/inet.c:48-59 | the dotted text with its NUL in the destination and nothing behind it changed, or UV_ENOSPC and an unchanged destination exactly if text and NUL do not fit |
| `Inet.ReadWords` | watcher-src/deps/libuv/src/inet.c:80-82 | the words of the address, big-endian |
| `Inet.PutWord` | watcher-src/deps/libuv/src/inet.c:112-134 | one round of the formatting loop writes what the text has for this word |
| `Inet.WriteText6` | watcher-src/deps/libuv/src/inet.c:108-138 | the loop writes the whole text and never leaves the 46 byte buffer |
| `Inet.Ntop6` | watcher-src/deps/libuv/src/inet.c:62-143 | the text with the best run replaced, likewise: in the destination, or UV_ENOSPC and nothing changed |
| `Inet.Strscpy` | watcher-src/deps/libuv/src/strscpy.c:25-38 | a text that fits is copied with its NUL, and nothing behind it changes |
| `Inet.Pton4` | watcher-src/deps/libuv/src/inet.c:175-211 | accepts exactly what the scan accepts, for every input |
| `Inet.LoopBody6` | watcher-src/deps/libuv/src/inet.c:232-271 | one round of the main loop on buffer, colonp, curtok and counters; no store leaves the 16 bytes |
| `Inet.ScanLoop6` | watcher-src/deps/libuv/src/inet.c:222-271 | the whole main loop from the leading colons on |
| `Inet.Shift` | watcher-src/deps/libuv/src/inet.c:283-292 | the in-place shift moves the bytes behind colonp to the end and leaves zeros |
| `Inet.End6` | watcher-src/deps/libuv/src/inet.c:272-297 | what follows the loop, with its three error cases |
| `Inet.Pton6` | watcher-src/deps/libuv/src/inet.c:214-298 | inet_pton6 returns what the scan and its end give, for every input |
| `Inet.UvPton6` | watcher-src/deps/libuv/src/inet.c:146-172 | a zone is cut off; an address longer than 45 characters in front of a zone is refused |
| `InetTexts.DigitMeaning` | watcher-src/deps/libuv/src/inet.c:214-240 | the value of a digit is its index in the sixteen digits, in either case |
| `InetTexts.SpelledIsAccepted` | watcher-src/deps/libuv/src/inet.c:214-298 | every spelling of an address is accepted with its bytes: groups of one to four hexadecimal digits, leading zeros allowed, at most one pair of colons for a gap, perhaps an IPv4 address at the end |
| `InetTexts.AcceptedIsSpelled` | watcher-src/deps/libuv/src/inet.c:214-298 | whatever is accepted is such a spelling |
| `InetTexts.AcceptedIffSpelled` | watcher-src/deps/libuv/src/inet.c:214-298 | for every text and all bytes: inet_pton6 yields these bytes iff the text is a spelling of an address with these bytes |
| `InetTexts.CaseIgnored` | watcher-src/deps/libuv/src/inet.c:214-298 | for every text, accepted or not: upper-case and lower-case digits give the same result |
| `InetTexts.HexMeaning` | watcher-src/deps/libuv/src/inet.c:112-128 | a word is written in lower-case hexadecimal digits without leading zeros |
| `InetTexts.DecMeaning` | watcher-src/deps/libuv/src/inet.c:48-59 | an octet is written in decimal digits without leading zeros |
| `InetTexts.Text6IsSpelled` | watcher-src/deps/libuv/src/inet.c:62-143 | what inet_ntop6 writes is a spelling of the address in the sense of the parser's grammar |
| `InetTexts.Text6Meaning` | watcher-src/deps/libuv/src/inet.c:62-143 | it has the shortest lower-case groups, a gap exactly at the best run, and ends in an IPv4 address iff that run is words 0 to 5, or 0 to 4 with word 5 equal to ffff |
| `Idna.IntRoundTrip` | watcher-src/deps/libuv/src/idna.c:214-240 | a generalized variable-length integer, read by section 6.2 of RFC 3492, gives the number back and stops behind it, for every bias and whatever follows |
| `Idna.RfcThreshold` | watcher-src/deps/libuv/src/idna.c:205-213 | the threshold of the code is that of section 5 of RFC 3492, with the parameters named there |
| `Idna.RfcAdapt` | watcher-src/deps/libuv/src/idna.c:230-247 | the bias adaptation of the code is that of section 6.1 of RFC 3492, with the parameters named there, which the decoder uses |
| `Idna.EmitAgrees` | watcher-src/deps/libuv/src/idna.c:207-261 | the decoder inserts the emitted code point at its place and then agrees with the encoder again on n, bias and position |
| `Idna.ScanAgrees` | watcher-src/deps/libuv/src/idna.c:202-261 | the same over a whole pass over the label |
| `Idna.RoundsAgree` | watcher-src/deps/libuv/src/idna.c:180-265 | the same over all rounds: the integers written decode to the label |
| `Idna.EncodedDecodes` | watcher-src/deps/libuv/src/idna.c:142-265 | ASCII part, separator and integers decode to exactly the code points of the label |
| `Idna.LabelRoundTrip` | watcher-src/deps/libuv/src/idna.c:105-268 | every label encoded without error decodes to itself iff it is not an ASCII label that already begins with "xn--" |
| `Idna.LabelShape` | watcher-src/deps/libuv/src/idna.c:122-255 | ASCII labels are written as they are; every other label is xn--, the ASCII code points in order, a hyphen if there are any, and lower-case letters and decimal digits only |
| `Idna.PrefixedAsciiFails` | watcher-src/deps/libuv/src/idna.c:167-168 | a label of that kind, "xn--a", is written as it is and does not decode to itself |
| `Idna.PrefixedIsShort` | watcher-src/deps/libuv/src/idna.c:167-168 | a label of that kind can only decode to something shorter, so its name cannot come back |
| `Idna.JumpTest` | watcher-src/deps/libuv/src/idna.c:193-200 | the test before the jump fails exactly if delta + x * y needs more than 32 bits |
| `Idna.ScanDelta` | watcher-src/deps/libuv/src/idna.c:202-264 | delta stays below the number of code points behind the last emission, so the unchecked increment after a pass cannot overflow |
| `Idna.SmallLabelsFit` | watcher-src/deps/libuv/src/idna.c:180-265 | no label of at most 3854 code points is refused with UV_E2BIG |
| `Idna.AcceptedIsScalar` | watcher-src/deps/libuv/src/idna.c:26-103 | whatever the bytes, an accepted sequence gives a Unicode scalar value |
| `Idna.Utf8RoundTrip` | watcher-src/deps/libuv/src/idna.c:26-103 | a well-formed sequence (section 3 of RFC 3629), anywhere in a text, is read as its code point, and the pointer moves behind it |
| `Idna.WellFormedDecodes` | watcher-src/deps/libuv/src/idna.c:127-140 | a well-formed text is read as its code points |
| `Idna.NameRoundTrip` | watcher-src/deps/libuv/src/idna.c:270-315 | a name, split at its dots and decoded, is the name with each of the four full stops of section 3.1 of RFC 3490 written as a dot, iff no label of it is an ASCII label that already begins with "xn--" |
| `Idna.Utf8Decode1` | watcher-src/deps/libuv/src/idna.c:26-103 | the returned code point or -1 and the new pointer, for every input |
| `Idna.Sink.constructor` | watcher-src/deps/libuv/src/idna.c:105-106 | an empty output range |
| `Idna.Sink.Put` | watcher-src/deps/libuv/src/idna.c:235-240 | a store that is dropped at the end of the output; what is stored is always the beginning of what was to be written |
| `Idna.OneDigit` | watcher-src/deps/libuv/src/idna.c:215-236 | one digit: written and quotient decrease; ten digits are enough for 32 bits |
| `Idna.PutInt` | watcher-src/deps/libuv/src/idna.c:214-240 | the digit loop ends and writes the integer |
| `Idna.AdaptBias` | watcher-src/deps/libuv/src/idna.c:242-258 | the bias is that of section 6.1 of RFC 3492, with nothing overflowing 32 bits |
| `Idna.CountLabel` | watcher-src/deps/libuv/src/idna.c:123-140 | refuses exactly ill-formed labels, and counts ASCII and other code points |
| `Idna.WriteBasic` | watcher-src/deps/libuv/src/idna.c:150-165 | writes exactly the ASCII code points, in order, although it stops at the last one |
| `Idna.FindLeast` | watcher-src/deps/libuv/src/idna.c:181-191 | the least code point not below n |
| `Idna.Encoder.EmitNext` | watcher-src/deps/libuv/src/idna.c:214-260 | one emission: output and registers |
| `Idna.Encoder.Character` | watcher-src/deps/libuv/src/idna.c:203-261 | one character of the inner loop; UV_E2BIG exactly if delta is 2^32 - 1 and the character is below n |
| `Idna.Encoder.Pass` | watcher-src/deps/libuv/src/idna.c:202-261 | the inner loop over the label |
| `Idna.EncodeRound` | watcher-src/deps/libuv/src/idna.c:181-264 | one round of the outer loop, with both overflow reports |
| `Idna.EncodeRest` | watcher-src/deps/libuv/src/idna.c:180-265 | the outer loop ends, and writes all integers or reports UV_E2BIG |
| `Idna.ToAsciiLabel` | watcher-src/deps/libuv/src/idna.c:105-268 | UV_EINVAL exactly for ill-formed labels, UV_E2BIG exactly on 32-bit overflow, else the encoded label is written |
| `Idna.PutLabel` | watcher-src/deps/libuv/src/idna.c:293-296 | a label of a name, given by its two ends, is encoded from exactly its own code points |
| `Idna.ToAscii` | watcher-src/deps/libuv/src/idna.c:270-315 | the name: labels, dots and NUL written, its length returned, errors exactly as for labels |
| `IdnaTexts.ReadsWellFormed` | watcher-src/deps/libuv/src/idna.c:25-103 | every well-formed sequence is read as the value that it encodes, and is proper: as long as its first byte announces, the other bytes continuation bytes |
| `IdnaTexts.ProperIsWellFormed` | watcher-src/deps/libuv/src/idna.c:25-103 | a proper sequence that is accepted is well-formed, and its value the one read |
| `IdnaTexts.ProperIffWellFormed` | watcher-src/deps/libuv/src/idna.c:25-103 | for all bytes: the sequence is well-formed (section 3 of RFC 3629) iff it is accepted and proper |
| `IdnaTexts.TextIffWellFormed` | watcher-src/deps/libuv/src/idna.c:25-103 | a whole text is the UTF-8 of some scalar values iff it is accepted, read as these, and each of its sequences is proper |
| `IdnaTexts.LooseContinuation` | watcher-src/deps/libuv/src/idna.c:72-73 | E1 41 41, whose last bytes are no continuation bytes, is accepted as U+1041 |
| `IdnaTexts.CutOff` | watcher-src/deps/libuv/src/idna.c:45-66 | E2 81, a sequence of three bytes that is cut off, is accepted as U+0081 |
| `CJsonStrings.RoundBound` | watcher-src/deps/cjson/cJSON.c:821-874 | what one round of the second pass writes, and the backslashes the first pass saw in what it reads, are together at most the bytes read |
| `CJsonStrings.OutputBound` | watcher-src/deps/cjson/cJSON.c:773-899 | for every input, also when \u escapes put the two passes out of step, the second pass writes at most the bytes of the literal less those skipped by the first |
| `CJsonStrings.AllocationSuffices` | watcher-src/deps/cjson/cJSON.c:811-877 | so bytes and NUL fit the allocation, with one byte to spare |
| `CJsonStrings.QuotedRoundTrip` | watcher-src/deps/cjson/cJSON.c:773-1021 | a printed NUL-free string, wherever it stands in a text, is parsed back to the string, and the offset moves behind its quote |
| `CJsonStrings.Utf16Meaning` | watcher-src/deps/cjson/cJSON.c:652-770 | a \u literal or surrogate pair for a scalar value becomes its UTF-8 bytes (section 3 of RFC 3629) |
| `CJsonStrings.Utf16Refused` | watcher-src/deps/cjson/cJSON.c:652-770 | a literal is refused exactly if no scalar value is written by it, alone or as a surrogate pair: it is cut off, or holds a lone or a mismatched surrogate |
| `CJsonStrings.PutUtf8` | watcher-src/deps/cjson/cJSON.c:720-764 | the encoding loop, last byte first, stores the UTF-8 bytes |
| `CJsonStrings.Utf16ToUtf8` | watcher-src/deps/cjson/cJSON.c:652-770 | length, bytes stored and failure, for every input |
| `CJsonStrings.MeasurePass` | watcher-src/deps/cjson/cJSON.c:786-808 | the first pass: where the closing quote is and how many bytes are skipped, failing on an unfinished literal |
| `CJsonStrings.UnescapeRound` | watcher-src/deps/cjson/cJSON.c:821-874 | one round of the second pass, all branches |
| `CJsonStrings.UnescapePass` | watcher-src/deps/cjson/cJSON.c:819-877 | the second pass into the measured allocation; every store lies within it, for every input |
| `CJsonStrings.ParseStringAt` | watcher-src/deps/cjson/cJSON.c:773-899 | parse_string, for every text and offset up to its end: the unescaped bytes up to a NUL and the new offset, or failure; the byte behind the buffer is read exactly for an offset at its end |
| `CJsonStrings.CountEscapes` | watcher-src/deps/cjson/cJSON.c:929-953 | the counting pass counts exactly what escaping adds |
| `CJsonStrings.PutEscaped` | watcher-src/deps/cjson/cJSON.c:972-1016 | one character of the writing pass, with the NUL of sprintf inside the buffer |
| `CJsonStrings.WriteEscapes` | watcher-src/deps/cjson/cJSON.c:972-1016 | the writing pass writes exactly as many bytes as were counted |
| `CJsonStrings.WriteQuoted` | watcher-src/deps/cjson/cJSON.c:961-1020 | both ways of writing give the quoted text and its NUL |
| `CJsonStrings.PrintBuffer.Ensure` | watcher-src/deps/cjson/cJSON.c:439-522 | succeeds exactly if the offset lies in the buffer and there is or can be made room within INT_MAX; keeps what is written and the byte behind it; a new buffer has twice the size needed, at most INT_MAX |
| `CJsonStrings.PrintBuffer.UpdateOffset` | watcher-src/deps/cjson/cJSON.c:525-535 | counts exactly the text written |
| `CJsonStrings.PrintBuffer.PrintString` | watcher-src/deps/cjson/cJSON.c:902-1021 | for a string or NULL, which prints as the empty one: fails exactly if there is no room for the quoted text and a NUL; else exactly that text is appended |
| `CJsonCodec.NameBehindComma` | watcher-src/deps/cjson/cJSON.c:1657-1663 | a name is looked for at the end of the buffer, and the byte behind it read, iff the comma in front of the name is the last byte of the text |
| `CJsonCodec.MembersOverread` | watcher-src/deps/cjson/cJSON.c:1632-1689 | the members of an object overread the buffer iff such a comma stands behind one of them, or the value of one overreads |
| `CJsonCodec.TextOverreads` | watcher-src/deps/cjson/cJSON.c:1095-1172 | a text can only be overread if a comma is its last byte, and so never if that is a NUL |
| `CJsonCodec.ParseBuffer.SkipWhitespace` | watcher-src/deps/cjson/cJSON.c:1038-1061 | the next character above 32, stepping back at the end of the buffer |
| `CJsonCodec.ParseBuffer.ReadValue` | watcher-src/deps/cjson/cJSON.c:1312-1364 | parse_value, for every text and offset, up to numbers |
| `CJsonCodec.ParseBuffer.ReadArray` | watcher-src/deps/cjson/cJSON.c:1441-1536 | parse_array, up to numbers, with the nesting test and the depth restored on success |
| `CJsonCodec.ParseBuffer.ReadItems` | watcher-src/deps/cjson/cJSON.c:1474-1513 | its loop collects the elements in order, up to numbers |
| `CJsonCodec.ParseBuffer.ReadObject` | watcher-src/deps/cjson/cJSON.c:1601-1711 | parse_object, up to numbers |
| `CJsonCodec.ParseBuffer.ReadMember` | watcher-src/deps/cjson/cJSON.c:1657-1682 | one member: name, colon, value, up to numbers; a name at the end of the buffer is reported as read behind it |
| `CJsonCodec.ParseBuffer.ReadMembers` | watcher-src/deps/cjson/cJSON.c:1632-1689 | the loop collects the members in order, up to numbers |
| `CJsonCodec.ReadText` | watcher-src/deps/cjson/cJSON.c:1095-1172 | cJSON_ParseWithLengthOpts, up to numbers, with byte order mark, surrounding white space, the optional NUL, and the read behind a buffer that ends in a comma |
| `CJsonCodec.PrintValue` | watcher-src/deps/cjson/cJSON.c:1367-1438 | appends exactly the text of the value, which holds no number, at the buffer's depth; fails only if the buffer may not grow or would outgrow INT_MAX |
| `CJsonCodec.PrintArray` | watcher-src/deps/cjson/cJSON.c:1539-1598 | the same for arrays |
| `CJsonCodec.PrintElement` | watcher-src/deps/cjson/cJSON.c:1562-1586 | one round of its loop |
| `CJsonCodec.PrintObject` | watcher-src/deps/cjson/cJSON.c:1714-1825 | the same for objects, with the indentation of the depth |
| `CJsonCodec.PrintName` | watcher-src/deps/cjson/cJSON.c:1743-1776 | indentation, name, colon and tab |
| `CJsonCodec.PrintMember` | watcher-src/deps/cjson/cJSON.c:1741-1805 | one round of the loop over members |
| `CJsonCodec.CloseObject` | watcher-src/deps/cjson/cJSON.c:1807-1822 | indentation and brace |
| `CJsonCodec.PrintText` | watcher-src/deps/cjson/cJSON.c:1187-1260 | cJSON_Print and cJSON_PrintUnformatted of a value without numbers: its text, and always a result when it fits INT_MAX |
| `CJsonGrammars.LiteralParsed` | watcher-src/deps/cjson/cJSON.c:773-905 | a string is read alike wherever it stands in a text |
| `CJsonGrammars.ParsedLiteral` | watcher-src/deps/cjson/cJSON.c:773-905 | and what is read depends on no other byte |
| `CJsonGrammars.ValueAccepted` | watcher-src/deps/cjson/cJSON.c:1312-1364 | every spelling of a value, with any blanks between its parts, wherever it stands, is parsed to what it means, and the offset moves exactly behind it, within the nesting limit |
| `CJsonGrammars.ItemsAccepted` | watcher-src/deps/cjson/cJSON.c:1474-1513 | the same for the elements of an array |
| `CJsonGrammars.MembersAccepted` | watcher-src/deps/cjson/cJSON.c:1632-1689 | the same for the members of an object, with blanks before and behind the name, the colon and the comma |
| `CJsonGrammars.ArrayAccepted` | watcher-src/deps/cjson/cJSON.c:1441-1536 | the same for arrays, one level deeper |
| `CJsonGrammars.ObjectAccepted` | watcher-src/deps/cjson/cJSON.c:1601-1711 | the same for objects, one level deeper |
| `CJsonGrammars.ValueSpelled` | watcher-src/deps/cjson/cJSON.c:1312-1364 | whatever is parsed is such a spelling, means the value returned, and is nested at most to the limit |
| `CJsonGrammars.ItemsSpelled` | watcher-src/deps/cjson/cJSON.c:1474-1513 | the same for the elements of an array |
| `CJsonGrammars.MembersSpelled` | watcher-src/deps/cjson/cJSON.c:1632-1689 | the same for the members of an object |
| `CJsonGrammars.ValueTooDeep` | watcher-src/deps/cjson/cJSON.c:1441-1714 | a spelling nested beyond the limit is refused, wherever the excess is |
| `CJsonGrammars.ParsedIffWritten` | watcher-src/deps/cjson/cJSON.c:1095-1172 | for every text and every value, with and without a required NUL: cJSON_ParseWithLengthOpts yields the value iff the text is a byte order mark or nothing, blanks, a spelling of the value nested at most 1000 deep, and whatever may stand behind it |
| `CJsonGrammars.WholeTooDeep` | watcher-src/deps/cjson/cJSON.c:1095-1172 | a whole text nested deeper is refused |
| `CJsonGrammars.PrintIsSpelled` | watcher-src/deps/cjson/cJSON.c:1367-1825 | what printing writes is a spelling of the value, so that printing and parsing agree on one grammar |
| `CJsonGrammars.PrintMeaning` | watcher-src/deps/cjson/cJSON.c:1187-1260 | cJSON_PrintUnformatted writes no white space outside strings; cJSON_Print writes a space behind the commas of arrays, each member on a line of its own, indented by its depth, and a tab behind its colon, and nothing else |
| `CJsonGrammars.ValueRoundTrip` | watcher-src/deps/cjson/cJSON.c:1312-1438 | a printed value, wherever it stands in a text, is parsed back to the value and the offset moves exactly behind it, formatted or not, iff the nesting limit is kept; else it is refused |
| `CJsonGrammars.TextRoundTrip` | watcher-src/deps/cjson/cJSON.c:1095-1260 | what cJSON_Print or cJSON_PrintUnformatted wrote holds no NUL, so it is all that cJSON_Parse sees; parsing it gives the value back iff it is nested at most CJSON_NESTING_LIMIT deep, whether or not a NUL is required at the end |
| `CJsonGrammars.DeepWitness` | watcher-src/deps/cjson/cJSON.c:1095-1260 | it does not for 1001 arrays inside one another |
| `CJsonGrammars.OverreadWitness` | watcher-src/deps/cjson/cJSON.c:1657-1663 | the ten bytes {"a":null, are overread |
| `CJsonLiterals.HexMeaning` | watcher-src/deps/cjson/cJSON.c:615-649 | the value of a hexadecimal digit is its index in the sixteen digits, in either case |
| `CJsonLiterals.Hex4Known` | watcher-src/deps/cjson/cJSON.c:615-649 | four digits give the value that they spell; four bytes that are not all digits give 0 |
| `CJsonLiterals.UnitsAreLiteral` | watcher-src/deps/cjson/cJSON.c:773-905 | every sequence of plain bytes, two-character escapes (the slash included), four-digit escapes of scalar values and surrogate pairs, in either case, is a string for parse_string and stands for the bytes of its units, as far as the first zero byte |
| `CJsonLiterals.LiteralIsUnits` | watcher-src/deps/cjson/cJSON.c:773-905 | whatever parse_string accepts consists of such units, but that four bytes which are not all digits count as 0, and may swallow the quote behind a backslash |
| `CJsonLiterals.ProperIffHexFollows` | watcher-src/deps/cjson/cJSON.c:773-905 | an accepted string is a sequence of proper units, standing for what was read, iff every \u in it is followed by four hexadecimal digits |
| `CJsonLiterals.LooseWitness` | watcher-src/deps/cjson/cJSON.c:615-649 | four letters z behind a \u, between quotes, are read as the empty string |
| `CJsonLiterals.UnitOfMeaning` | watcher-src/deps/cjson/cJSON.c:902-1021 | what is written for a byte: itself, the two-character escape where there is one, or its four digits for the other control characters |
| `CJsonLiterals.QuotedMeaning` | watcher-src/deps/cjson/cJSON.c:902-1021 | print_string_ptr writes one such unit per byte between quotes |
| `CJsonLiterals.RfcTextsAreParsed` | watcher-src/deps/cjson/cJSON.c:1095-1172 | every JSON text of RFC 8259 without numbers and U+0000, with any of its white space and escape sequences, is parsed to what it means iff it is nested at most 1000 deep |
| `CJsonList.AddItem` | watcher-src/deps/cjson/cJSON.c:1956-1987 | refused exactly for an item added to itself; else the children are the old ones and the item, in a well formed list, iff the list was empty or item->next was NULL, since next is not cleared |
| `CJsonList.DanglingAppend` | watcher-src/deps/cjson/cJSON.c:1956-1987 | it happens: an item with a sibling, appended to a list of one, is not refused and leaves a list that is not well formed |
| `CJsonList.GetItem` | watcher-src/deps/cjson/cJSON.c:1851-1868 | the child at the index, NULL exactly beyond the end |
| `CJsonList.InsertedList` | watcher-src/deps/cjson/cJSON.c:2279-2289 | the links that insertion sets make the list with the item in its place, at the head or inside |
| `CJsonList.RemovedList` | watcher-src/deps/cjson/cJSON.c:2187-2221 | the links that unlinking leaves make the list without the item, at the head, the end, inside or alone |
| `CJsonList.Detach` | watcher-src/deps/cjson/cJSON.c:2187-2221 | the children are the others, in order and well formed, and the item has no links, at the head, the end or inside |
| `CJsonList.DetachAt` | watcher-src/deps/cjson/cJSON.c:2223-2231 | the same by index; NULL and nothing changed for an index that there is not |
| `CJsonList.Insert` | watcher-src/deps/cjson/cJSON.c:2263-2290 | refused exactly for a negative index, or behind the end for the array itself; within the list the item stands before the child at the index in a well formed list, also when it is the array itself, which is then its own child; behind all the condition of AddItem holds |
| `CJsonList.InsertBefore` | watcher-src/deps/cjson/cJSON.c:2279-2289 | the list once the child is found, for any item, the array itself included |
| `CJsonList.Replace` | watcher-src/deps/cjson/cJSON.c:2292-2339 | the replacement stands in the place of the item, all else the same and the item without links; replacing an item by itself changes nothing; the array may replace its own child |
| `CJsonList.HeadsApart` | watcher-src/deps/cjson/cJSON.c:2706-2787 | the elements of a list in a tree without shared nodes are distinct and not below one another |
| `CJsonList.AppendApart` | watcher-src/deps/cjson/cJSON.c:2751-2772 | linking a disjoint duplicate behind the children keeps all nodes of the copy apart |
| `CJsonList.AppendLists` | watcher-src/deps/cjson/cJSON.c:2751-2772 | and keeps every list in it well formed |
| `CJsonList.AppendSame` | watcher-src/deps/cjson/cJSON.c:2751-2772 | and keeps copy and original equal |
| `CJsonList.RemainingStep` | watcher-src/deps/cjson/cJSON.c:2751-2772 | the loop visits the children of the original one after the other |
| `CJsonList.Progress` | watcher-src/deps/cjson/cJSON.c:2751-2772 | after each turn the copy equals the part of the original visited |
| `CJsonList.LinkChild` | watcher-src/deps/cjson/cJSON.c:2758-2770 | both branches of the linking keep the growing list well formed but for the last prev |
| `CJsonList.DuplicateNext` | watcher-src/deps/cjson/cJSON.c:2751-2772 | one turn: duplicate, link, go on |
| `CJsonList.DuplicateKids` | watcher-src/deps/cjson/cJSON.c:2749-2772 | after the loop all children have been duplicated, in order |
| `CJsonList.CloseList` | watcher-src/deps/cjson/cJSON.c:2773-2776 | setting the head's prev completes the list |
| `CJsonList.Duplicate` | watcher-src/deps/cjson/cJSON.c:2706-2787 | the copy is equal to the original but for the reference flag, which it never has; it is made of new nodes only, none shared, every list in it well formed; without recursion it has the data and no children |
| `IoWatchers.SpreadDoubles` | watcher-src/deps/libuv/src/unix/core.c:816-825 | each or-and-shift line doubles the run of ones below the highest bit |
| `IoWatchers.OnesValue` | watcher-src/deps/libuv/src/unix/core.c:816-825 | n ones are 2^n - 1 |
| `IoWatchers.SmearValue` | watcher-src/deps/libuv/src/unix/core.c:816-825 | so the five lines fill all bits below the highest one |
| `IoWatchers.NextPowerMeaning` | watcher-src/deps/libuv/src/unix/core.c:816-825 | the result is the least power of two not below the argument, and zero exactly for zero and above 2^31 |
| `IoWatchers.TableSize` | watcher-src/deps/libuv/src/unix/core.c:827-859 | the 32-bit size of the table that a descriptor below INT_MAX needs overflows to zero iff the descriptor is 2^31 - 2; else it has room for the descriptor and the two entries |
| `IoWatchers.CountUpdate` | watcher-src/deps/libuv/src/unix/core.c:895-927 | storing to one slot changes the number of watchers by what it adds and removes |
| `IoWatchers.Loop.MaybeResize` | watcher-src/deps/libuv/src/unix/core.c:827-859 | ends in abort() exactly for 2^31 - 1 slots that are not there yet; else every slot and the two entries behind the slots keep their values, new slots are NULL, and there are at least len of them |
| `IoWatchers.Loop.Start` | watcher-src/deps/libuv/src/unix/core.c:874-899 | aborts exactly for the descriptor 2^31 - 2 when it has no slot; else keeps: nfds counts the non-NULL slots, a watcher has its slot iff it wants events, and a watcher that is not queued agrees with the kernel; its mask is the union, and it is queued last iff the kernel does not have that mask and it is not queued yet |
| `IoWatchers.Loop.FinishStart` | watcher-src/deps/libuv/src/unix/core.c:892-898 | queueing and the slot restore what the new mask broke |
| `IoWatchers.Loop.Stop` | watcher-src/deps/libuv/src/unix/core.c:902-930 | keeps the same; the mask loses the events; a watcher that wants nothing leaves the queue, any other is queued; stopping a watcher that was never started does nothing |
| `IoWatchers.Loop.FinishStop` | watcher-src/deps/libuv/src/unix/core.c:917-927 | leaving queue and slot restores it for a watcher that wants nothing |
| `IoWatchers.Loop.NothingQueued` | watcher-src/deps/libuv/src/unix/linux.c:330-333 | without started watchers the queue is empty, which the assertion claims |
| `IoWatchers.Loop.RegisterNext` | watcher-src/deps/libuv/src/unix/linux.c:337-370 | one round keeps the invariant, and neither abort() is reached, also for descriptors that the kernel still knows; the kernel then has the mask of the first watcher of the queue, and all else as before |
| `IoWatchers.Loop.Register` | watcher-src/deps/libuv/src/unix/linux.c:330-370 | after the loop the kernel has exactly pevents for every started watcher, whatever mix of start, partial stop, stop and restart came before, and nothing has changed for descriptors that were not queued |
| `IoWatchers.Loop.Dispatch` | watcher-src/deps/libuv/src/unix/linux.c:484-494 | an event for a slot without watcher makes the kernel forget the descriptor; the invariant holds |
| `IoWatchers.Loop.Publish` | watcher-src/deps/libuv/src/unix/linux.c:465-470 | the batch and its size are in the two entries, all slots keep theirs |
| `IoWatchers.Loop.Retract` | watcher-src/deps/libuv/src/unix/linux.c:548-550 | both entries are NULL again, all slots keep theirs |
| `IoWatchers.Loop.Close` | watcher-src/deps/libuv/src/unix/core.c:933-940 | the watcher is gone, the kernel does not know its descriptor, and no event that is still to be dispatched names it; with the descriptor -1 nothing of this is touched |
| `IoWatchers.Loop.InvalidateFd` | watcher-src/deps/libuv/src/unix/linux.c:247-277 | exactly the events of the descriptor in the batch that the two entries behind the slots describe become -1, and the kernel forgets it |
| `ScanCaches.HitIsFresh` | clamdavdb/clamavdb.py:190-197 | when versions that look alike do no harm: if the stored size and second are those of the call's own lstat, the stored verdict is of a version current during the call |
| `ScanCaches.CallStepKeeps` | clamdavdb/clamavdb.py:190-217 | every step of scan_file and of scan inside it keeps that a stored row was statted at a scannable version before it was read |
| `ScanCaches.StepKeeps` | clamdavdb/clamavdb.py:190-222 | so do changes of files, removals of rows and new calls |
| `ScanCaches.RunKeeps` | clamdavdb/clamavdb.py:190-222 | so it holds in every run |
| `ScanCaches.VerdictsAreFresh` | clamdavdb/clamavdb.py:190-222 | for all runs of any number of overlapping calls, writers and removals, on a table with rows of earlier sessions: every verdict returned, cached or new, is that of a version current at some moment of the call, and a call that raises met a missing or unsuitable file during the call, iff the history is harmless: whenever a scannable version looks like a later one, every version that may have been read in its place has the verdict of the later one |
| `ScanCaches.FreshWhenHarmless` | clamdavdb/clamavdb.py:190-222 | in every single run and state of a harmless history |
| `ScanCaches.StaleRun` | clamdavdb/clamavdb.py:190-217 | for every three versions that are not harmless, the run in which the first is statted, the second read, and a call at the third is answered with the second's verdict |
| `ScanCaches.FreshWhenDistinguishable` | clamdavdb/clamavdb.py:196-197 | so it holds in particular if all versions of a path differ in size or whole second |
| `ScanCaches.StaleWithoutDistinction` | clamdavdb/clamavdb.py:196-197 | and fails in particular when a change of a scannable file keeps size and second and changes the verdict |
| `ScanCaches.ClamAVDB.constructor` | clamdavdb/clamavdb.py:156-165 | the table with the rows of earlier sessions, in which the invariant of all runs holds |
| `ScanCaches.ClamAVDB.GetItem` | clamdavdb/clamavdb.py:174-181 | KeyError exactly without a row; what is returned is that row, and its size and second are those of a scannable version that appeared no later than the version its verdict was read from |
| `ScanCaches.ClamAVDB.RemoveFile` | clamdavdb/clamavdb.py:219-222 | removes the row of that path only |
| `ScanCaches.ClamAVDB.Lookup` | clamdavdb/clamavdb.py:193-204 | hits iff the cache may be used, there is a row of the path, and its size and second are those of the call's lstat; the hit is the verdict of that row; no row changes |
| `ScanCaches.ClamAVDB.StoreResult` | clamdavdb/clamavdb.py:204-217 | the row of the path is the new one whatever it was before, the other rows are as they were, and the verdict is returned |
| `ScanSchedulers.FinishableQueue.Put` | scan.py:89-97 | refused exactly when finished; an item goes to the first waiter or to the end, and is accepted in order |
| `ScanSchedulers.FinishableQueue.Get` | scan.py:99-107 | the first item, QueueEmpty exactly if finished and empty, else a new waiter |
| `ScanSchedulers.FinishableQueue.GetNowait` | scan.py:109-115 | the first item; the event is cleared when it was the last one |
| `ScanSchedulers.FinishableQueue.Finish` | scan.py:117-125 | every waiter gets QueueEmpty, the event is set, the items stay |
| `ScanSchedulers.FillKeeps` | scan.py:319-322 | the inner loop starts paths in order until none or no room is left, and keeps the bounds |
| `ScanSchedulers.TurnCrashes` | scan.py:318-331 | asyncio.wait would be given an empty set iff a limit below 1 were given while paths are queued and nothing runs; the limit that the program computes is at least 6 |
| `ScanSchedulers.TurnKeeps` | scan.py:318-331 | with at least one scan allowed a turn keeps the invariant, and queued paths do not wait alone |
| `ScanSchedulers.StepKeeps` | scan.py:318-338 | so do puts, finish and completions |
| `ScanSchedulers.RunKeeps` | scan.py:318-338 | so it holds in every run |
| `ScanSchedulers.SchedulingSafe` | scan.py:318-338 | in every run with a limit of at least 1: at most that many scans in flight, never an empty set, every path put is started by a scan of its own in order or still queued, and the loop exits only when finished, drained and idle |
| `ScanSchedulers.TasksAreUnfinished` | scan.py:318-338 | in every run: a task in the set is still in it later iff asyncio.wait has not returned it in between |
| `ScanSchedulers.CompletedLeave` | scan.py:328-338 | so a completed task is never waited for again |
| `ScanSchedulers.WaitsForUnfinished` | scan.py:318-331 | and a queued path waits only beside the watching task or as many tasks as are allowed, none of which has completed |
| `ScanSchedulers.LastTurnExits` | scan.py:318-338 | a turn that collects all tasks that are left, on a finished and empty queue, ends the loop |
| `ScanSchedulers.DefaultIsSafe` | scan.py:265-275 | so without the option -m, whatever the number of processors |
| `ScanSchedulers.OptionRaises` | scan.py:275-320 | in every run with the option -m, whose value stays a string: no scan ever starts, and the first turn ends in TypeError iff the queue is not both finished and empty |
| `ScanSchedulers.OptionWitness` | scan.py:275-320 | it happens as soon as one path has been put |
| `ScanSchedulers.MainLoop.FillTasks` | scan.py:319-322 | the inner loop is that part of a turn |
| `ScanSchedulers.MainLoop.WatchFiles` | scan.py:324-326 | a watching task exists whenever nothing is queued and the queue is not finished |
| `ScanSchedulers.MainLoop.CollectTasks` | scan.py:332-338 | exactly the completed tasks leave the set, and the watching task is forgotten if it is one of them |
| `ScanSchedulers.MainLoop.RunTurn` | scan.py:318-338 | one iteration is a turn; it waits iff the loop has neither ended nor raised |
| `DeferredScans.ReapKeeps` | scan.py:175-183 | awaiting a completed task and deleting it keeps both dictionaries inverse; the deletions never miss a key |
| `DeferredScans.StepKeeps` | scan.py:160-210 | so does every other step |
| `DeferredScans.RunKeeps` | scan.py:160-210 | so it holds in every run |
| `DeferredScans.OneTaskPerPath` | scan.py:160-210 | in every run scans and paths_by_scan are mutually inverse, a path has at most one tracked task, and every task that may still put its path is tracked |
| `DeferredScans.TrackedUntilReaped` | scan.py:168-194 | in every run a task is tracked for a path iff a call of schedule_file_scan outside /tmp has made it for that path and the reaper has not gone through it since |
| `DeferredScans.ReapedIsServedAgain` | scan.py:175-194 | in every run a reaped path is tracked by neither dictionary entry, and the next call of schedule_file_scan for it, at any later step, makes a live task |
| `DeferredScans.CancelIsMarked` | scan.py:187-210 | a task that has not ended carries a cancellation iff cancel_file_scan has reached it |
| `DeferredScans.PutUnlessCancelled` | scan.py:196-210 | in every run a path is put only when a task tracked for it wakes up, once, and then iff no cancel_file_scan has reached that task |
| `DeferredScans.MarkedIffEarly` | scan.py:196-210 | a task ends with an uncaught CancelledError, or is going to, iff a cancel reached it before its first step |
| `DeferredScans.ReaperDies` | scan.py:168-183 | the reaper dies at a step iff it awaits a task that was cancelled before its first step |
| `DeferredScans.StuckForEver` | scan.py:187-191 | after that every tracked path stays tracked, and scheduling it again does nothing, for ever |
| `DeferredScans.WriteThenRemove` | scan.py:235-242 | it happens: one batch that writes and removes the same file is enough |
| `DeferredScans.ScheduleServes` | scan.py:187-194 | scheduling a path leaves a task that will put it iff no task of it was tracked, or one that is neither cancelled nor over |
| `DeferredScans.WriteIsServed` | scan.py:160-210 | in every run, until the path is scheduled or cancelled again: a reported write has been put since, or is going to be, iff at that moment no task of the path was tracked, or one that is neither cancelled nor over; else it is dropped |
| `DeferredScans.WriteIsDropped` | scan.py:187-202 | it is dropped for a file that is written, removed and written again before its cancelled task has woken up |
| `DeferredScans.DeferredScanManager.ScheduleFileScan` | scan.py:187-194 | nothing changes for a path that begins with /tmp or is tracked; else one new task, entered in both dictionaries |
| `DeferredScans.DeferredScanManager.CancelFileScan` | scan.py:196-198 | exactly the task of the path is marked as cancelled, if it has not ended; both dictionaries stay |
| `DeferredScans.DeferredScanManager.Forget` | scan.py:182-183 | the path and its task leave the two dictionaries, nothing else does |

## Left out

Deliberate differences, by member:

- RbTree.RbHead.Insert: keys are integers in their natural order, so comparison functions other than a total order on keys are not covered.
- HeapInl.Heap.Insert: the element count is unbounded; it agrees with the 32-bit `nelts` below 2^32 - 1 elements.
- Timers.Loop.RunTimers: callbacks that start or stop timers are left out.
- Timers.Loop.constructor: the loop time is at most (2^64 - 1) / 1000000, as `uv__update_time` makes it (`unix/internal.h:349-353`), and stays the same during one pass.
- Timers.Loop.Start: the handle's own list of active handles and reference counts are left out.
- Barriers.Barrier.TryInit: a NULL barrier is left out; failures of mutex and condition variable are too.
- Barriers.NoLostWakeup: a broadcast wakes every sleeping thread, and any thread may wake up by itself; that a thread that is awake runs at some time is not stated.
- Asyncs.SendIsFollowedByCallback: memory is sequentially consistent; the relaxed read is a step like any other, and read and write never fail for other reasons than a full or empty descriptor.
- Asyncs.AsyncLoop.Exchange: each method is one atomic step; preemption inside it is not modelled.
- ThreadPools.DoneAtMostOnce: a request that is submitted again counts as a new request; there is one loop, and shutdown and fork are left out.
- ThreadPools.NothingForgotten: a signal wakes whichever waiting worker the system picks; that a signaled worker runs at some time is not stated.
- IoWatchers.Loop.Start: a watcher that is not in use, or with a descriptor outside the assertion of `uv__io_start`, is left out.
- IoWatchers.Loop.Register: one watcher per descriptor, event masks as sets of flags. The kernel is a table from descriptors to masks, which fails with EEXIST for an addition that is there and ENOENT for a change or deletion that is not, and with nothing else (`IoWatchers.Loop.EpollCtl`).
- Inet.Ntop6: the destination is at least as long as the size given for it.
- Idna.ToAsciiLabel: labels are shorter than 2^31 bytes, since the result is an int. Output beyond the buffer is dropped silently, as in the source; the round trips are about what was to be written.
- CJsonStrings.PrintBuffer.Ensure: allocations succeed and the buffer is never empty. Released memory is not tracked.
- CJsonLiterals.RfcTextsAreParsed: a string with U+0000 ends there, as every C string does, so such texts are left out; `CJsonGrammars.ParsedIffWritten` covers them with what is kept of the string.
- CJsonCodec.ReadText: builds values instead of linked items, whose links are the subject of `CJsonList`. Numbers count as a failure. The error position and deletion on failure are left out.
- CJsonCodec.TextOverreads: which texts that end in a comma are overread is stated one member list at a time, by `CJsonCodec.MembersOverread`. The byte behind the buffer is not part of the model: parsing fails whatever it is.
- CJsonGrammars.TextRoundTrip: numbers, raw items and references are left out; numbers go through `sprintf` and `strtod`.
- CJsonList.Replace: the replaced item is unlinked; `cJSON_Delete` of it is left out.
- CJsonList.Duplicate: failing allocations are left out; `valuedouble` is copied as the bits it has.
- ScanCaches.VerdictsAreFresh: the verdict is a function of the version read. For a symbolic link the stat is that of the link and the verdict that of its target, so a change of the target is a version of the path with an equal stat. Errors other than a missing or unsuitable file are left out.
- ScanSchedulers.SchedulingSafe: the limit is at least 1, as the only integer that the program computes is (`ScanSchedulers.DefaultIsSafe`); `ScanSchedulers.OptionRaises` is about the strings.
- ScanSchedulers.FinishableQueue.Get: stops at its await; the main loop only uses `get_nowait` and the event.
- DeferredScans.OneTaskPerPath: delays are arbitrary; the ten seconds and the refusal of a finished queue are left out.

Not modelled at all:

- System calls, the kernel, fanotify, sockets, clamd: only the effect that a property needs.
- `RB_PREV`, splay trees and the inotify table built on the red-black tree.
- `uv__threadpool_cleanup`, `uv__async_fork`, `uv_barrier_destroy`, the pending queue of `core.c`, `epoll_wait` and the signal handling around it.
- `cJSON_Minify`, `cJSON_Compare`, lookup by name, `cJSON_PrintPreallocated` and number arrays.
- `watcher.c` and the Go watcher: the client table is simple and the rest decodes kernel buffers.
- Logging, argument parsing, output files, other platforms.
