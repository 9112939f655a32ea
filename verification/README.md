# Verified models

Dafny models of the hardest algorithms of this repository, with proofs:

- the lock-free queues and the semaphore read/write lock as transition systems over any number of threads
  (`MpmcQueue.dfy`, `MpscQueue.dfy`, `RwLock.dfy`, with `Bits.dfy` for masks);
- the slab allocator: the page layer (`SlabLists.dfy`, `SlabPages.dfy`) and the chunks of the size classes on top of it
  (`SlabBitmaps.dfy`, `SlabClasses.dfy`, `SlabChunks.dfy`, `SlabPool.dfy`), with and without PAGE_MERGE, and what
  PAGE_MERGE is worth over whole histories of calls (`SlabRuns.dfy`);
- the algorithms of pugixml: the node links with moves and copies (`Dom.dfy`, `ChildLists.dfy`, `NodeTrees.dfy`,
  `NodePool.dfy`, `NodeCopy.dfy`), document order and the XPath axes (`DocumentOrder.dfy`, `XPathAxes.dfy`, `NodeSets.dfy`), the
  XPath optimizer (`XPathOptimizer.dfy`), the in-place text decoders (`GapBuffer.dfy`, `References.dfy`, `ReferenceTexts.dfy`, `TextDecoding.dfy`, `TextNormalization.dfy`), printing and
  parsing (`Markup.dfy`, `MarkupPrinter.dfy`, `MarkupSpelling.dfy`, `MarkupReading.dfy`, `MarkupPieces.dfy`, `MarkupStrings.dfy`,
  `MarkupParser.dfy`, `RoundTrip.dfy`), sorting (`Sorting.dfy`), the hash table (`HashTable.dfy`), the expression parser
  (`ExpressionParser.dfy`) and integers as text (`IntegerText.dfy`), with numbers as digits in `Numerals.dfy`.

Shared memory is sequentially consistent: one step of a transition system is one atomic access. Nodes and page
descriptors are indices into sequences that the methods reassign; text buffers, sorted ranges and digit buffers are
arrays that are rewritten in place. `dafny verify dfyconfig.toml` checks everything.

Five findings about the code:

- the assertion in the constructor of the bounded queue admits one slot, and with one slot the protocol loses items
  (`MpmcQueue.SafeExactlyFromTwoSlots`);
- the slab allocator refuses a request for pages exactly when there are not so many free pages in a row, whatever has
  happened before, if and only if it is built with PAGE_MERGE (`SlabRuns.ExactExactlyWithMerge`); without it, five
  calls lead to a refusal although both pages of the pool are free (`SlabRuns.FailsThoughContiguous`);
- `node_is_before` calls a node before itself exactly if it has a parent (`DocumentOrder.NodeIsBefore`), and it is the
  test for equal nodes in the comparator that makes a strict total order of it (`NodeSets.ComparatorIsTotalOrder`);
- a move must be refused exactly if the new parent is in the subtree of the node: then, and only then, the links would
  become cyclic (`ChildLists.MoveKeepsAcyclicExactly`);
- the parser accepts exactly what can be spelled with matching end tags (`MarkupParser.Parse`), but of a text with an embedded
  NUL it sees only what is before it and the last character (`MarkupPieces.NulHides`).

## Model
| member | source | states |
|---|---|---|
| MpmcQueue.StepKeepsInv | Mutiqueue/mpmc-bounded-queue.hpp:63-142 | every atomic access of `enqueue` and `dequeue`, by any thread, keeps the invariant that ties each slot's sequence number to the tickets and to the threads between claim and release |
| MpmcQueue.RunKeepsInv | Mutiqueue/mpmc-bounded-queue.hpp:41-142 | from the constructor on, with any power of two from two on, every state of every interleaving has it |
| MpmcQueue.EveryRunSafe | Mutiqueue/mpmc-bounded-queue.hpp:63-142 | each ticket is claimed by one enqueuer and at most one dequeuer, the queue holds between 0 and `size` tickets, no slot is written while unread or being read, and what is dequeued for a ticket was enqueued for it |
| MpmcQueue.OneSlotUnsafe | Mutiqueue/mpmc-bounded-queue.hpp:50 | an execution with one slot, which the assertion admits, in which an item is overwritten |
| MpmcQueue.SafeExactlyFromTwoSlots | Mutiqueue/mpmc-bounded-queue.hpp:50-142 | among the admitted sizes, exactly those from two on are safe in every execution |
| MpmcQueue.EnqueueReportsFull | Mutiqueue/mpmc-bounded-queue.hpp:72-99 | at its load of `seq`, `enqueue` gives up exactly if its head is current and the previous lap of the slot is not released, and tries to claim exactly if it is |
| MpmcQueue.DequeueReportsEmpty | Mutiqueue/mpmc-bounded-queue.hpp:111-138 | `dequeue` gives up exactly if its tail is current and that ticket is not published |
| MpmcQueue.OperationsReport | Mutiqueue/mpmc-bounded-queue.hpp:63-142 | over every access of every thread: `dequeue` gives up at no other place and time than a load of `seq` with a current tail whose ticket is not published, `enqueue` at none but with a current head whose slot is not released; each succeeds exactly at its last store; a failed compare-exchange goes round again, and without a spurious failure only if another thread took the ticket |
| MpmcQueue.Dequeue | Mutiqueue/mpmc-bounded-queue.hpp:105-142 | one whole undisturbed call takes the oldest item out, or reports an empty queue exactly if there is none |
| MpmcQueue.Enqueue | Mutiqueue/mpmc-bounded-queue.hpp:63-103 | one whole undisturbed call appends the item, or reports a full queue exactly if it is full |
| MpmcQueue.SequenceNumbersGrow | Mutiqueue/mpmc-bounded-queue.hpp:87-126 | no access lowers a slot's sequence number, and exactly the two stores raise it |
| MpmcQueue.HistoryGrows | Mutiqueue/mpmc-bounded-queue.hpp:63-142 | claims and deliveries are never taken back or changed |
| MpmcQueue.QuietQueueHoldsTheRest | Mutiqueue/mpmc-bounded-queue.hpp:63-142 | with nobody inside a call, what was enqueued and not delivered waits in its slots, and nothing else is missing |
| MpscQueue.NextKeepsInv | Mutiqueue/mpsc-queue.hpp:56-83 | every access of any producer and of the consumer keeps the chain of nodes, broken at most where a producer has exchanged and not linked, and the ownership of memory |
| MpscQueue.RunKeepsInv | Mutiqueue/mpsc-queue.hpp:40-83 | so has every state of every execution |
| MpscQueue.HistoryGrows | Mutiqueue/mpsc-queue.hpp:56-83 | exchanges and deliveries are never taken back or changed |
| MpscQueue.EveryRunDeliversInOrder | Mutiqueue/mpsc-queue.hpp:56-83 | no freed memory is touched, what is delivered is a prefix of the exchange order, and a node about to be deleted is of no use to any producer |
| MpscQueue.DequeueReportsEmpty | Mutiqueue/mpsc-queue.hpp:72-77 | `dequeue` comes back empty-handed exactly if nothing is queued or the next item's producer has not linked yet |
| MpscQueue.EnqueueReports | Mutiqueue/mpsc-queue.hpp:56-66 | an enqueue joins the order exactly at its exchange, returns exactly with its link, and brings its item unchanged until then |
| MpscQueue.DequeueReports | Mutiqueue/mpsc-queue.hpp:68-83 | `dequeue` returns an item exactly with its last access, and then the oldest one that is not delivered |
| MpscQueue.QuietMemory | Mutiqueue/mpsc-queue.hpp:56-83 | with nobody inside a call the allocated nodes are exactly those of the chain |
| MpscQueue.QuietChain | Mutiqueue/mpsc-queue.hpp:56-83 | and the chain holds what is not delivered, linked and in order |
| MpscQueue.Dequeue | Mutiqueue/mpsc-queue.hpp:68-83 | one undisturbed call delivers the oldest item, or none if there is none |
| MpscQueue.Enqueue | Mutiqueue/mpsc-queue.hpp:56-66 | one whole undisturbed call appends the item |
| MpscQueue.Destroy | Mutiqueue/mpsc-queue.hpp:48-54 | the destructor takes everything that is left and returns all memory |
| RwLock.StepKeepsInv | sync/rwlock.c:97-178 | every semaphore or counter access keeps the balance of `mtx`, `wrt` and `readcount` with the threads inside |
| RwLock.RunKeepsInv | sync/rwlock.c:97-178 | so has every state of every execution |
| RwLock.EveryRunExclusive | sync/rwlock.c:97-178 | at most one writer is inside and never beside a reader, `readcount` counts the admitted readers, the semaphores stay in {0, 1} |
| RwLock.NoDeadlock | sync/rwlock.c:97-178 | if no call can continue although one waits, some thread is inside the lock |
| RwLock.WorkRunsOut | sync/rwlock.c:97-178 | without new calls the pending ones make only finitely many accesses |
| RwLock.ReadLock | sync/rwlock.c:126-151 | with `mtx` free a reader that runs alone comes in, beside other readers or into an empty lock; it waits exactly if a writer is inside |
| RwLock.ReadUnlock | sync/rwlock.c:153-178 | a reader that runs alone goes out, and the last one gives `wrt` back |
| RwLock.WriteLock | sync/rwlock.c:97-108 | a writer comes in exactly if `wrt` is free, and then nobody else is inside |
| RwLock.FreeWhenEmpty | sync/rwlock.c:97-178 | with nobody inside a call, `wrt` is free exactly if nobody is inside the lock |
| SlabLists.ChainUnlinked | Memory/ncx_slab.c:652-656 | unlinking a descriptor takes exactly it out of its list and touches no other list |
| SlabLists.ChainPushed | Memory/ncx_slab.c:658-663 | linking a descriptor in front puts exactly it before the others |
| SlabLists.ChainSwapped | Memory/ncx_slab.c:603-610 | what is left of a split run takes the place of the run on the list |
| SlabPages.RunOf | Memory/ncx_slab.c:594-700 | every page belongs to exactly one run, found going back to the first page with a size |
| SlabPages.PagePool.constructor | Memory/ncx_slab.c:85-118 | the pool begins as one free run of all pages |
| SlabPages.PagePool.Empty | Memory/ncx_slab.c:849-873 | `ncx_slab_empty` says exactly whether a page is free, whichever list it is on |
| SlabPages.PagePool.AllocPages | Memory/ncx_slab.c:594-640 | the first run on the free list that is long enough gives its first pages and its rest keeps its place; allocation fails exactly if every run on the list is too short, and then changes nothing |
| SlabPages.PagePool.FreePages | Memory/ncx_slab.c:642-700 | exactly the pages of the run become free, every other run in use stays, a slab page leaves the list of its class, slab pages keep what describes their chunks, and with PAGE_MERGE the run has joined the free runs beside it, so that no two free runs are neighbours if none were before |
| SlabPages.PagePool.JoinPrevious | Memory/ncx_slab.c:666-684 | joining the run before |
| SlabPages.PagePool.JoinNext | Memory/ncx_slab.c:686-697 | joining the run behind |
| SlabPages.CarvedKeepsInv | Memory/ncx_slab.c:601-633 | runs still tile the pages, the lists are linked, and every descriptor says what its page is, after a split or a whole run taken |
| SlabPages.ReleasedKeepsInv | Memory/ncx_slab.c:648-663 | the same after a run was freed |
| SlabPages.JoinedKeepsInv | Memory/ncx_slab.c:672-695 | the same after two free runs were joined |
| SlabPages.AllocationIsDisjoint | Memory/ncx_slab.c:594-640 | the pages of an allocated run were all free, every live run keeps its pages, and the page counts of free, whole and slab pages change by exactly the run |
| SlabPages.AllocationKeepsMerged | Memory/ncx_slab.c:601-633 | a split makes no new free neighbours |
| SlabPages.FreeingConserves | Memory/ncx_slab.c:642-700 | freeing gives back exactly the pages of the run, and the counts are conserved |
| SlabPages.FailsWithoutALongRun | Memory/ncx_slab.c:594-640 | the free list misses no free run: allocation fails exactly if no free run is long enough |
| SlabPages.FailsExactlyWhenFull | Memory/ncx_slab.c:594-700 | with PAGE_MERGE it fails exactly if there are not so many contiguous free pages |
| SlabPages.AllFreeIsOneRun | Memory/ncx_slab.c:665-699 | with PAGE_MERGE, when everything is free again there is one run of all pages |
| SlabRuns.HistoryKeepsMerged | Memory/ncx_slab.c:594-700 | with PAGE_MERGE, after any calls, no two free runs are neighbours |
| SlabRuns.NotExactWithout | Memory/ncx_slab.c:594-663 | without it, a history of allocations and releases from the constructor on that leaves two free runs side by side |
| SlabRuns.ExactExactlyWithMerge | Memory/ncx_slab.c:594-700 | every history leads to a state where requests are refused exactly if there are not so many free pages in a row, if and only if PAGE_MERGE is set |
| SlabRuns.FailsThoughContiguous | Memory/ncx_slab.c:594-663 | the calls themselves, made on a pool without PAGE_MERGE: the last one is refused although two pages in a row are free |
| SlabBitmaps.FullWord | Memory/ncx_slab.c:189-201 | a word equals the one with all bits set exactly if it has no clear bit |
| SlabBitmaps.UsedWords | Memory/ncx_slab.c:442-458 | some chunk behind the reserved ones is taken exactly if the masked first word or another word is not zero |
| SlabBitmaps.FirstClear | Memory/ncx_slab.c:187-224 | finds a clear bit in the first word that is not full |
| SlabBitmaps.AllFull | Memory/ncx_slab.c:201-208 | looking only at the words from the changed one on decides whether all bits are set |
| SlabBitmaps.AnyUsed | Memory/ncx_slab.c:442-458 | decides whether a bit behind the reserved ones is set |
| SlabClasses.SetSlabKeepsInv | Memory/ncx_slab.c:240-240 | another bitmap in a descriptor leaves pages and lists in order |
| SlabClasses.TakenOffKeepsInv | Memory/ncx_slab.c:210-216 | so does taking a page off the list of its class, which takes off exactly this page |
| SlabClasses.PutOnKeepsInv | Memory/ncx_slab.c:428-438 | so does putting it in front of the list |
| SlabClasses.MadeSlabKeepsInv | Memory/ncx_slab.c:330-334 | so does a whole page becoming the only one on an empty list |
| SlabChunks.Constants | Memory/ncx_slab.c:315-324 | for every size class: one bit for each chunk, reserved chunks as large as the bitmap, and room for more than those |
| SlabChunks.BitChanged | Memory/ncx_slab.c:196-440 | in each of the three encodings, changing a bit changes exactly one chunk, and shift and type stay readable |
| SlabChunks.TakenKeepsPlace | Memory/ncx_slab.c:233-253 | a page with a free chunk left stays on its list |
| SlabChunks.TakenLeavesList | Memory/ncx_slab.c:242-251 | a page without one leaves it |
| SlabChunks.ClearedIsListed | Memory/ncx_slab.c:477-494 | a page with a chunk given back and others in use is on its list |
| SlabChunks.PageIsGone | Memory/ncx_slab.c:492-498 | giving a page back takes no other page's chunks |
| SlabChunks.FreedElsewhere | Memory/ncx_slab.c:642-700 | freeing a page of chunks leaves the descriptors, bitmaps and lists of all others |
| SlabChunks.CarvedElsewhere | Memory/ncx_slab.c:594-640 | allocating pages leaves all pages of chunks as they are |
| SlabChunks.NewPageIs | Memory/ncx_slab.c:308-366 | a page that was cut for a class whose list was empty has exactly one chunk in use, the first behind its bitmap |
| SlabPool.ChunkIsAligned | Memory/ncx_slab.c:198-221 | a chunk in use is aligned to its size, lies in its page and behind the page's own bitmap |
| SlabPool.ChunksAreDisjoint | Memory/ncx_slab.c:162-367 | two chunks in use have no byte in common |
| SlabPool.WhereItIs | Memory/ncx_slab.c:403-423 | page and chunk number are recovered from the address |
| SlabPool.ClassOf | Memory/ncx_slab.c:162-171 | the smallest class whose chunks are large enough |
| SlabPool.MarkSmall | Memory/ncx_slab.c:187-219 | takes a free chunk and says whether it was the last |
| SlabPool.MarkWord | Memory/ncx_slab.c:233-292 | the same for one word, or half of it |
| SlabPool.FirstHasRoom | Memory/ncx_slab.c:173-304 | a listed page has a free chunk, so the search ends at the first page on the list |
| SlabPool.TakeChunk | Memory/ncx_slab.c:176-306 | takes exactly one chunk that was free; the page stays on the list exactly if it has another |
| SlabPool.IsFull | Memory/ncx_slab.c:428-517 | a page is known to be full by its missing link, or by its bitmap |
| SlabPool.ClearBit | Memory/ncx_slab.c:440-540 | gives back exactly one chunk, and tells whether others are in use on the page |
| SlabPool.ClearChunk | Memory/ncx_slab.c:408-540 | the page was or is put on its list, and all other pages stay in order |
| SlabPool.CutPage | Memory/ncx_slab.c:310-366 | cuts a page for each of the three encodings |
| SlabPool.NothingLeft | Memory/ncx_slab.c:308-369 | a request fails only if no page is free and no page of its class has a free chunk |
| SlabPool.Pool.AllocChunk | Memory/ncx_slab.c:162-369 | gives a chunk that was not in use, of the smallest class that fits; all other chunks stay in use or free, all other pages keep their class, use and run length; fails only if nothing is left, and then changes nothing |
| SlabPool.Pool.AllocRun | Memory/ncx_slab.c:145-160 | gives as many free pages as the size needs, as one run; all chunks, classes and other runs stay; fails only if no free run is so long |
| SlabPool.Pool.AllocLocked | Memory/ncx_slab.c:137-376 | one or the other, by the size: exactly one pointer more is held, for at least as many bytes, and all others are held for the same bytes as before; with PAGE_MERGE no two free runs become neighbours |
| SlabPool.Pool.FreeChunk | Memory/ncx_slab.c:412-540 | gives back exactly one chunk, and its page exactly if it was the last one in use there; all other pages keep their class, use and run length |
| SlabPool.Pool.FreeRun | Memory/ncx_slab.c:542-565 | gives back exactly the pages of the run; all chunks, classes and other runs stay |
| SlabPool.Pool.FreeLocked | Memory/ncx_slab.c:390-575 | the page type tells a chunk from a run; exactly this pointer is no longer held, and all others are held for the same bytes as before |
| SlabPool.AllocThenFree | Memory/ncx_slab.c:137-575 | giving back what was just given restores the use of every page, the runs, the classes and the chunks in use |
| SlabPool.GivenIsOneMore | Memory/ncx_slab.c:137-376 | a pointer that is given was not held, and no other pointer moves or changes its size |
| SlabPool.FreedIsOneLess | Memory/ncx_slab.c:390-575 | and the converse when it is given back |
| SlabPool.HeldApart | Memory/ncx_slab.c:137-376 | the bytes of two pointers that are held, for chunks or runs, do not overlap |
| SlabPool.GiveTwoBackBoth | Memory/ncx_slab.c:137-575 | a client that takes two pointers and gives them back in the order taken may do so, and leaves the pool holding what it held |
| SlabPool.NothingInUse | Memory/ncx_slab.c:390-700 | no page is kept without something in use on it; when nothing is, all pages are free, with PAGE_MERGE as one run |
| Dom.Laminar | xml/pugixml.cpp:1214-1304 | of two nodes of a linked tree one encloses the other or one ends before the other begins |
| Dom.FirstChild | xml/pugixml.cpp:1214-1251 | the first-child link and its cyclic previous sibling, in terms of document order |
| Dom.NextSibling | xml/pugixml.cpp:1253-1268 | the next-sibling link begins where the node's subtree ends |
| Dom.PreviousSibling | xml/pugixml.cpp:1270-1304 | the cyclic previous sibling has no next sibling exactly at a first child; otherwise it ends where the node begins |
| ChildLists.Inserted | xml/pugixml.cpp:1214-1285 | the links after an insertion spell out the child lists with the node inserted |
| ChildLists.Removed | xml/pugixml.cpp:1287-1304 | and after a removal, with the node taken out |
| ChildLists.MoveKeepsAcyclicExactly | xml/pugixml.cpp:4336-4358 | hanging a node under a new parent keeps the links acyclic exactly if the parent is not below the node |
| NodeTrees.DocumentIsTree | xml/pugixml.cpp:1214-1304 | consistent acyclic links below a document form a tree, with every node that the parent links lead up from |
| NodePool.Pool.AppendNode | xml/pugixml.cpp:1214-1233 | refines appending to the list of children |
| NodePool.Pool.PrependNode | xml/pugixml.cpp:1235-1251 | refines prepending |
| NodePool.Pool.InsertNodeAfter | xml/pugixml.cpp:1253-1268 | refines inserting behind a sibling |
| NodePool.Pool.InsertNodeBefore | xml/pugixml.cpp:1270-1285 | refines inserting before a sibling |
| NodePool.Pool.RemoveNode | xml/pugixml.cpp:1287-1304 | refines removing |
| NodePool.WhoHoldsWhom | xml/pugixml.cpp:4327-4334 | in every pool that is in order, who has a parent is neither a null node nor a document, its parent is a document or an element, and a declaration or doctype has a document as parent |
| NodePool.AllowedKinds | xml/pugixml.cpp:4327-4334 | the admitted pairs of parent and child, kind by kind |
| NodePool.Pool.AddChild | xml/pugixml.cpp:5768-5835 | adds a node of a kind that the parent may hold at an admitted place, in the parent's document, and nothing otherwise; all pairs of parent and child stay admitted |
| NodePool.Pool.AllowMove | xml/pugixml.cpp:4336-4358 | true exactly if the kinds fit, the document is the same and the parent is not in the node's subtree |
| NodePool.Pool.MoveChild | xml/pugixml.cpp:5944-6011 | a move is made exactly if it is allowed and the place is a child of the parent other than the node; it takes the node out of one list and puts it into another, and the links stay consistent and acyclic |
| NodeCopy.NextNode | xml/pugixml.cpp:4424-4437 | the way to the next source node, with the copy's place moving in step |
| NodeCopy.NodeCopyTree | xml/pugixml.cpp:4397-4440 | terminates; every node of the source but the new node has one copy, of its kind and text, whose children are the copies of its children in order; no other node changes |
| NodeCopy.CopyChild | xml/pugixml.cpp:5875-5941 | the tree of the copy says what the original said before the copy was put in its place, even inside the original, and nothing else changes |
| NodeCopy.DocumentsAreTrees | xml/pugixml.cpp:5768-6011 | after any of these operations every document is a tree of exactly the nodes allocated in it |
| DocumentOrder.NodeIsBeforeSibling | xml/pugixml.cpp:7872-7894 | orders two siblings by walking from both at once |
| DocumentOrder.NodeIsBefore | xml/pugixml.cpp:7896-7937 | equals comparing positions in preorder, for different nodes of one tree |
| DocumentOrder.NodeIsAncestor | xml/pugixml.cpp:7939-7945 | exactly the nodes that enclose a node, by position |
| DocumentOrder.SiblingsDecide | xml/pugixml.cpp:7896-7937 | ancestors that are siblings order their descendants |
| NodeSets.DocumentOrderComparator | xml/pugixml.cpp:7977-8029 | true exactly for pairs of nodes in document order, and so false for equal nodes |
| NodeSets.ComparatorIsTotalOrder | xml/pugixml.cpp:7977-8040 | both comparators of node-sets are strict total orders, as `sort` needs them |
| NodeSets.NodeSetInDocumentOrder | xml/pugixml.cpp:8815-8833 | nodes in any order and with duplicates, sorted by address, made unique and sorted by document order, become the one list of exactly these nodes in document order |
| XPathAxes.FillSelf | xml/pugixml.cpp:9940-9945 | the self axis |
| XPathAxes.FillParent | xml/pugixml.cpp:9947-9953 | the parent axis |
| XPathAxes.FillSiblings | xml/pugixml.cpp:9782-9789 | the child and following-sibling axes |
| XPathAxes.FillDescendants | xml/pugixml.cpp:9791-9821 | the descendant axes |
| XPathAxes.FillFollowing | xml/pugixml.cpp:9841-9877 | the following axis |
| XPathAxes.FillPreceding | xml/pugixml.cpp:9879-9918 | the preceding axis, backwards over last children, skipping ancestors |
| XPathAxes.FillPrecedingSiblings | xml/pugixml.cpp:9832-9839 | the preceding-sibling axis, ended by the cyclic link |
| XPathAxes.FillAncestors | xml/pugixml.cpp:9920-9938 | the ancestor axes |
| XPathAxes.StepFill | xml/pugixml.cpp:9767-9958 | every loop ends and pushes what the axis and the test select, or with `once` the first of these nodes and nothing if there is none |
| XPathAxes.SelectedIsTheAxis | xml/pugixml.cpp:10052-10096 | a full step has exactly the nodes on the axis of section 2.2 of XPath 1.0 that pass the test, strictly in document order, or in reverse on a reverse axis |
| XPathAxes.FiveAxesPartitionTheTree | xml/pugixml.cpp:9767-9958 | self, ancestor, descendant, following and preceding together visit every node of the tree once |
| XPathAxes.AncestorsByParentLinks | xml/pugixml.cpp:7939-7945 | enclosing by position is the same as being reached by parent links |
| XPathOptimizer.PredicateSelects | xml/pugixml.cpp:9548-9626 | a predicate keeps the nodes of which it holds, each at its place in the list |
| XPathOptimizer.PredicateHolds | xml/pugixml.cpp:9548-9598 | a number holds at the position it names, any other value if it is true |
| XPathOptimizer.TruthIs | xml/pugixml.cpp:10260-10275 | truth of a number, a string, a set |
| XPathOptimizer.OperatorsAre | xml/pugixml.cpp:9384-9424 | union, and equality of numbers and of an attribute and a string |
| XPathOptimizer.FilterIs | xml/pugixml.cpp:10725-10737 | a filter selects, of its nodes in document order, those of which its predicate holds |
| XPathOptimizer.PositionAndLast | xml/pugixml.cpp:10310-10314 | `[position()]` and `[last()]` keep every node, and the last one |
| XPathOptimizer.StepIs | xml/pugixml.cpp:10052-10096 | a step selects, from every context node, what its predicates leave of the nodes on its axis that pass its test |
| XPathOptimizer.RootIsFirst | xml/pugixml.cpp:10792-10801 | the root is the first node in document order |
| XPathOptimizer.PosinvIsInvariant | xml/pugixml.cpp:10904-10933 | what `is_posinv_expr` accepts has the same value at every position and size |
| XPathOptimizer.RewrittenHolds | xml/pugixml.cpp:10846-10852 | `[position()=e]` holds of a node exactly if `[e]` does |
| XPathOptimizer.ClassDoesNotMatter | xml/pugixml.cpp:9600-9640 | evaluating a predicate once, as its class permits, selects what evaluating it for every node selects |
| XPathOptimizer.FirstIsEnough | xml/pugixml.cpp:10058-10061 | fetching only the first node of a step changes nothing if its only predicate is `[1]` |
| XPathOptimizer.PosinvSelects | xml/pugixml.cpp:9642-9650 | position-independent predicates select by node alone |
| XPathOptimizer.FilterIgnoresOrder | xml/pugixml.cpp:10725-10734 | a filter with such a predicate need not sort its nodes first |
| XPathOptimizer.AxesCompose | xml/pugixml.cpp:10867-10882 | `descendant-or-self` followed by one of four axes is the merged axis |
| XPathOptimizer.MergeFrom | xml/pugixml.cpp:10935-10948 | the merged step with position-independent predicates selects what the two steps do, from every node |
| XPathOptimizer.MergeKeepsValue | xml/pugixml.cpp:10867-10882 | merging the steps leaves the node-set unchanged |
| XPathOptimizer.FirstNamedIs | xml/pugixml.cpp:10238-10245 | the direct lookup finds what the attribute step finds |
| XPathOptimizer.AttributeKeepsValue | xml/pugixml.cpp:10895-10901 | `@a = 'v'` has the value of the direct lookup |
| XPathOptimizer.OptimizedIsTyped | xml/pugixml.cpp:10830-10902 | expressions keep their types |
| XPathOptimizer.OptimizeKeepsValue | xml/pugixml.cpp:10830-10948 | `optimize` leaves the value of every expression unchanged, at every node, position and size, with `[1]` fetching one node only |
| GapBuffer.Gap.Push | xml/pugixml.cpp:2398-2413 | drops characters and keeps the decoded text, closing the older gap |
| GapBuffer.Gap.Flush | xml/pugixml.cpp:2416-2426 | leaves exactly the decoded text, before the place reading has reached |
| References.Utf8RoundTrip | xml/pugixml.cpp:1456-1494 | every code point is encoded as section 3 of RFC 3629 says, with the fewest bytes, so that reading them back gives it |
| References.MatchRef | xml/pugixml.cpp:2429-2567 | what a reference stands for is never longer than the reference |
| References.ReadNumber | xml/pugixml.cpp:2440-2486 | digits accumulated in 32 bits, valid exactly with a digit and a semicolon |
| References.Escape | xml/pugixml.cpp:2429-2567 | replaces the reference in place, or passes only over characters that mean themselves |
| ReferenceTexts.NumeralValue | xml/pugixml.cpp:2440-2486 | digits accumulated in 32 bits are the number they write, modulo 2 to the 32, in decimal and hexadecimal, in either case and with any leading zeros |
| ReferenceTexts.CodePointDecodes | xml/pugixml.cpp:2429-2486 | for every code point, `&#` or `&#x` with its digits and `;` is decoded to its UTF-8 bytes in every mode |
| ReferenceTexts.EntityDecodes | xml/pugixml.cpp:2488-2561 | so are the five entities, to their characters |
| ReferenceTexts.OnlyReferences | xml/pugixml.cpp:2429-2567 | and nothing else is taken for a reference |
| TextDecoding.DecodeRun | xml/pugixml.cpp:2646-2687 | one pass, by mode, with writing never overtaking reading |
| TextDecoding.ParsePcdata | xml/pugixml.cpp:2640-2689 | leaves the decoded text, trimmed if asked, ended by NUL, and touches nothing else |
| TextDecoding.ParseAttribute | xml/pugixml.cpp:2709-2856 | leaves the normalised value, or reports that the quote is missing |
| TextDecoding.CloseValue | xml/pugixml.cpp:2732-2740 | trailing white space of a normalised value is cleared, stopping at the opening quote at the latest |
| TextNormalization.NormalizeMatch | xml/pugixml.cpp:2429-2567 | normalising white space neither makes nor breaks a reference |
| TextNormalization.DecodeIsTwoPasses | xml/pugixml.cpp:2640-2856 | one pass is line-end or white-space normalisation (section 2.11 and section 3.3.3 of XML 1.0) followed by replacing references, so that what references stand for is not normalised |
| Markup.NameCharacters | xml/pugixml.cpp:1813-1862 | the characters of names, and those at their beginning, by code |
| Markup.EscapedCharIs | xml/pugixml.cpp:3889-3931 | what each character is printed as in a text and in a value |
| Markup.EscapedIsHarmless | xml/pugixml.cpp:3889-3931 | printed text holds no markup, and every `&` in it begins a reference |
| Markup.EscapeThenDecode | xml/pugixml.cpp:3889-3931 | reading what was escaped gives the value back and stops right behind it |
| MarkupSpelling.ValueStands | xml/pugixml.cpp:2582-2858 | a value or text is decoded alike wherever it stands |
| MarkupSpelling.DocumentIsSpelled | xml/pugixml.cpp:4207-4298 | what is printed is one of the spellings of the document |
| MarkupStrings.DecodeAhead | xml/pugixml.cpp:2582-2858 | decoding depends only on what lies ahead, not on what the parser has already overwritten |
| MarkupStrings.TreeLoads | xml/pugixml.cpp:3225-3461 | a tree whose nodes point to its strings in the buffer is what one reads there |
| MarkupReading.ReadItem | xml/pugixml.cpp:3225-3461 | a text, white space or element closed at once that has been read keeps the document that comes about, and whether its end tags match |
| MarkupReading.OpenItem | xml/pugixml.cpp:3237-3347 | so does a start tag |
| MarkupReading.CloseItem | xml/pugixml.cpp:3348-3385 | so does an end tag with the right name, and one with another name shows that they do not match |
| MarkupReading.AddRead | xml/pugixml.cpp:3225-3461 | whatever the document is, an item that was read extends what it is known to spell |
| MarkupPieces.AttributeHere | xml/pugixml.cpp:3261-3296 | a spelled attribute, with either quote and white space around `=`, stands where it is looked for |
| MarkupPieces.AttributeIs | xml/pugixml.cpp:3261-3296 | whatever is read as an attribute is a spelled one, and its value is what its raw text means |
| MarkupPieces.Skipped | xml/pugixml.cpp:3396-3415 | white space is passed over, and a text that is not blank only if all of it that is not is the last character |
| MarkupPieces.SpelledIsDocument | xml/pugixml.cpp:3488-3511 | what is written as MarkupSpelling says is the whole of the document |
| MarkupPieces.NulHides | xml/pugixml.cpp:3499-3511 | behind an embedded NUL nothing but the last character counts |
| MarkupPrinter.PrintFacts | xml/pugixml.cpp:4207-4298 | what has been written at each step down, on and up |
| MarkupPrinter.NodeOutput | xml/pugixml.cpp:4207-4298 | the loop over the links writes what the tree prints as |
| MarkupParser.ParseOne | xml/pugixml.cpp:3261-3299 | one attribute: what was read is an attribute with that name and value, in place in the buffer; every spelled one is read; a name right behind the quote is refused |
| MarkupParser.ParseAttributes | xml/pugixml.cpp:3257-3329 | succeeds exactly where attributes with white space before each and the end of the tag stand; values are decoded in place and names ended with NUL, and nothing before or ahead is touched; the error tells whether an attribute had begun |
| MarkupParser.ParseStart | xml/pugixml.cpp:3239-3347 | a start tag in any spelling, with or without attributes, white space and slash; what was read before stays in the buffer |
| MarkupParser.ParseEnd | xml/pugixml.cpp:3348-3385 | exactly how an end tag is answered: success if it bears the name of the innermost element and is complete, a bad end tag if it is incomplete, otherwise the mismatch |
| MarkupParser.ParseTag | xml/pugixml.cpp:3235-3392 | what comes behind `<`, by its first character, with these answers |
| MarkupParser.ParseText | xml/pugixml.cpp:3417-3450 | a text that is not blank, decoded in place inside of an element and passed over around the elements |
| MarkupParser.ParseTree | xml/pugixml.cpp:3225-3461 | of every buffer that is accepted, what it spells: all end tags match, and the rewritten buffer holds all names, values and texts where the nodes say; every document with matching end tags is accepted, and one in which an end tag bears another name gives the mismatch |
| MarkupParser.Parse | xml/pugixml.cpp:3488-3530 | `parse` succeeds exactly on the documents that can be written as MarkupSpelling says with matching end tags, loads the trees they mean, and tells whether there is an element; every spelled document with another name in an end tag gives the mismatch |
| RoundTrip.SaveThenLoad | xml/pugixml.cpp:4207-4298 | saving in raw format and loading gives the same document |
| Sorting.InsertionSort | xml/pugixml.cpp:7355-7375 | sorts a range, moving elements only within it |
| Sorting.Partition3 | xml/pugixml.cpp:7386-7411 | less, equal and greater elements, in this order, a rearrangement of the range |
| Sorting.Part | xml/pugixml.cpp:7417-7424 | one round parts what is left of the range and keeps what was sorted around it |
| Sorting.Sort | xml/pugixml.cpp:7413-7441 | a sorted rearrangement of the range, with recursion only into the smaller side |
| Sorting.DepthIsLogarithmic | xml/pugixml.cpp:7413-7441 | the recursion depth is below the logarithm of the number of elements |
| Sorting.SortedUnique | xml/pugixml.cpp:7413-7441 | a strict total order leaves one sorted arrangement, so the result does not depend on the pivots |
| Sorting.Unique | xml/pugixml.cpp:7332-7353 | compresses runs of equal elements to the front of the range |
| Sorting.CompressedSorted | xml/pugixml.cpp:7332-7353 | after sorting that leaves each distinct element once, in ascending order |
| HashTable.ProbesDiffer | xml/pugixml.cpp:339-360 | the triangular steps do not come back to a bucket |
| HashTable.EveryBucketProbedOnce | xml/pugixml.cpp:339-360 | in a table of a power of two they visit every bucket once |
| HashTable.NeverFull | xml/pugixml.cpp:339-360 | under the load bound the exit for a full table is not reached |
| HashTable.CompactHashTable.GetItem | xml/pugixml.cpp:339-360 | the bucket of a key, or the empty one where it belongs |
| HashTable.CompactHashTable.Find | xml/pugixml.cpp:290-298 | looks a key up in the finite map that the table stands for |
| HashTable.CompactHashTable.Insert | xml/pugixml.cpp:300-315 | binds a key in that map |
| HashTable.CompactHashTable.Reserve | xml/pugixml.cpp:317-323 | makes room and changes no binding; the table stays as it is if it has room, and otherwise gets the smallest capacity that will do |
| HashTable.CompactHashTable.Rehash | xml/pugixml.cpp:377-405 | keeps all bindings and their number, below the load bound |
| ExpressionParser.ParseComplete | xml/pugixml.cpp:11769-11826 | whatever the layered grammar of section 3 of XPath 1.0 derives, with node-sets on both sides of a union, is parsed into the tree of the derivation; names and `*` are operands or operators by their place |
| ExpressionParser.ParseSound | xml/pugixml.cpp:11769-11826 | whatever is parsed has a derivation with that tree |
| ExpressionParser.TableIsGrammar | xml/pugixml.cpp:11717-11767 | the table of operators and precedences is the productions of section 3 of XPath 1.0, token by token |
| ExpressionParser.ParserIsTheGrammar | xml/pugixml.cpp:11717-11826 | the parser accepts exactly the sentences of the grammar, written by its productions and not by the parser's table, in which both sides of a union are node-sets, which is its own condition |
| ExpressionParser.OneTreePerSentence | xml/pugixml.cpp:11717-11826 | and the grammar gives each sentence one tree, left-associative within a precedence |
| ExpressionParser.Parser.ParseQuery | xml/pugixml.cpp:11832-11842 | the loops over the tokens compute what the recursive description says, and fail if tokens are left |
| IntegerText.StringToInteger | xml/pugixml.cpp:4459-4539 | the value of the text clamped to the range, although accumulated modulo 2 to the width |
| IntegerText.DecimalOverflowExact | xml/pugixml.cpp:4500-4526 | the test on number of digits, leading digit and top bit decides overflow exactly |
| IntegerText.HexOverflowExact | xml/pugixml.cpp:4475-4498 | and so does the number of hexadecimal digits |
| IntegerText.Clamps | xml/pugixml.cpp:4528-4538 | comparing wrapped values clamps the unwrapped one |
| IntegerText.GetSigned | xml/pugixml.cpp:4541-4582 | the signed number a text means, clamped to the range |
| IntegerText.GetUnsigned | xml/pugixml.cpp:4546-4587 | the unsigned number, clamped |
| IntegerText.TextMeans | xml/pugixml.cpp:4459-4539 | spaces, a sign, `0x` and the digits of n, written by division, in either case and with any leading zeros, mean n or its negative |
| IntegerText.NoDigitsMeanZero | xml/pugixml.cpp:4459-4539 | without digits it is zero |
| IntegerText.IntegerToString | xml/pugixml.cpp:4590-4608 | writes the decimal text backwards into the buffer |
| IntegerText.SignedRoundTrip | xml/pugixml.cpp:4541-4608 | reading back the text of a signed number gives it, over the whole range |
| IntegerText.UnsignedRoundTrip | xml/pugixml.cpp:4541-4608 | the same for unsigned numbers |

## Left out
- Memory order weaker than sequential consistency, counters that wrap at 2 to the 64, and spurious failure of a compare-exchange beyond its being able to fail.
- The other queues, the task queue, the memory pool and the dictionary: easier than what is modelled here.
- `rwl_init`, `rwl_destroy`, `rwl_isActive`, and errors of the semaphores.
- Address arithmetic of `ncx_slab_init` and page sizes other than 4096 bytes; locking, logging and junk filling of the slab allocator; detection of invalid and double frees; statistics.
- What the program writes into its chunks: bitmaps kept in pages are sequences of their own, which is right because no chunk in use overlaps them (`SlabPool.ChunkIsAligned`).
- Running out of memory in pugixml, memory pages, wide characters, encodings, files and streams.
- Kinds of nodes other than elements and texts in printing and parsing (a tag that begins one ends the parser with `NotModelled`), indentation, and parse options other than the default ones in the parser.
- MarkupParser.Parse: which error a text gives that is no spelled document is said tag by tag (`ParseTag`, `ParseEnd`, `ParseAttributes`), not for the whole text; error offsets are not modelled, and a byte order mark is passed over like other text around the elements, which gives the same.
- Comments and CDATA sections in the text decoders; scanning four characters at a time is a plain loop.
- Removing a child with all that is below it, attributes as linked lists (names, values and attributes of a node are one text in `NodePool`), and sharing strings between copies.
- Attribute nodes: in document order and its comparator, as context nodes of axes, and the attribute axis.
- Nodes of different documents in `node_is_before`, and its shortcut by buffer addresses.
- The expression parser's predicates, paths, function calls and literals: a primary expression that is not in braces is one token; a path that is a single name or `*` is the token that also spells an operator.
- XPathOptimizer.OptimizeKeepsValue: not for attributes as context nodes, and a set of attributes counts by its values.
- The optimizer's table for `translate()`. Expressions are rewritten as values, not in place. Functions and the remaining operators are any functions of the context node and the arguments' values; numbers are reals, without NaN and infinities.
- Evaluation of expressions by result type and its short cuts for the first or any node, other than `once` in `XPathAxes` and for `[1]` in `XPathOptimizer`.
- The comparator of `sort` is given as the set of its pairs, and the finalizer of the hash as any function.
