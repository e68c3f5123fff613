# Verified models of Graphene's core data structures and protocols

This project models six parts of the Graphene library OS in Dafny and proves what they promise.

- **AVL tree** (`Avl*.dfy`). The intrusive tree with parent pointers is a heap of `Node` objects. Ghost shapes and
  a zipper (`Ctx`) describe the tree around the node that an operation looks at. `AvlShape` has the shapes, their
  heights and rotations, `AvlHeap` the pointer operations up to the rebalancing loop, `AvlDelete` the exchange with the
  successor, `AvlIterate` the neighbours, `AvlOrder` the stable sorted sequences that a tree stands for, `AvlHeight` the
  logarithmic bounds, `AvlTree` the public operations and `AvlRuns` whole runs of them.
- **Checkpoint and migration** (`Words`, `CStrings`, `Cp*.dfy`). The blob is a byte sequence in which a row of items is
  laid out (`CpFormat`); `CpStore`, `CpEmit` and `CpLists` write it, `CpWalk`, `CpRestore`, `CpJobs`, `CpReceive`,
  `CpHandles` and `CpRoundTrip` read and rebase it, and `CpChange` says what stays the same. `CpMap` is the address map and
  `CpShare` its use, `CpStream` the stream with partial transfers, `CpHeader` the header. `CpOps` describes whole runs of
  emissions, `CpParent` performs them, `CpArrive` says what becomes of them, and `CpMigrate` puts parent and child together.
- **ELF symbols** (`Bits`, `Elf*.dfy`). Both hash functions, lookup in GNU and System V hash tables, and resolution over the
  list of loaded objects.
- **Initial stack** (`InitStack.dfy`). `populate_stack` on a byte array, and what a program decodes from it.
- **Wake queues** (`WakeQueue.dfy`). Many owners as a state machine of atomic steps under sequential consistency.
- **Pool** (`Pool.dfy`). The two-ended allocator below the slab manager.

Machine words are natural numbers below a stated bound and wrap where the code wraps. Pointers into a checkpoint or a stack are
64-bit addresses; a memory has a base address and holds bytes by offset.

## Results worth knowing

- Deleting, inserting and replacing nodes keep the AVL tree well-formed, and every run of them is a stable sorted sequence.
- The child of a migration ends up with all that the parent emitted: regions, entries, objects, handles in their slots,
  overflow strings behind their `oflow` pointers, and the argument and environment lists. This holds for every run of
  emissions, all base addresses and all schedules of partial transfers on a stream that does not end early. When the stream
  ends early, or the peer has sent too little, `read_exact` and `write_exact` can report success on an incomplete transfer;
  `CpStream.TransferEnds` says exactly when, for every schedule and every number of bytes that can be had.
- `elf_hash` computes the gABI hash in 64-bit words. That is not always the 32-bit hash that other linkers store in tables:
  `ElfHash.WidthsAgree` says exactly when it is, `ElfHash.WidthsDiffer` shows a name for which it is not.
- A GNU hash lookup is a plain scan whenever there are two or more buckets. With one bucket the Bloom filter can reject a
  name for which a scan would accept a symbol, because `check_match` accepts any symbol whose name begins with the wanted
  one and the chain is compared without the lowest bit. `ElfLookup.LookupIsScan` says exactly when, and
  `ElfLookup.FilterLoses` is such a table.
- Resolution over all loaded objects prefers strong symbols, but each object takes part only with the first match to which its
  table leads. `ElfResolve.StrongPassedOver` is a table in which that hides a strong symbol of the wanted name.
- Parent and child report success only if every host call that was due has been made and none has failed; `CpSend.SendMemory`,
  `CpSend.SendHandles`, `CpReceive.ReceiveMemory` and `CpHandles.ReceiveHandles` count them on every host.
- The pointers that `get_cp_map_entry` hands out stay good for the life of the map.
- The child reads the header with a single call, so a partial read there ends it, although the header is written with
  `write_exact`. A parent whose child is gone before it writes its VMID reports success with VMID 0.
- The pool is recovered completely if and only if each end is freed in reverse order.

## Model

| member | source | states |
|---|---|---|
| `AvlHeap.FixupLink` | Pal/lib/avl_tree.c:53-67 | The parent's link to the old node, and only that, leads to the new one, which gets the parent; the assertion on the right child holds. |
| `AvlHeap.Rot1L` | Pal/lib/avl_tree.c:75-98 | The fields of all nodes touched by a single left rotation, with the new balances; no other node changes. |
| `AvlHeap.Rot1R` | Pal/lib/avl_tree.c:100-123 | The same for a single right rotation. |
| `AvlHeap.Rot2RL` | Pal/lib/avl_tree.c:125-164 | The same for the double rotation right-left, for all three balances of the middle node. |
| `AvlHeap.Rot2LR` | Pal/lib/avl_tree.c:166-205 | The same for the double rotation left-right. |
| `AvlHeap.DoBalance` | Pal/lib/avl_tree.c:210-243 | The rotated subtree hangs in place, is what the shape function says, and the result tells whether its height fell. |
| `AvlShape.DoBalanceKeepsOrder` | Pal/lib/avl_tree.c:75-243 | Every rotation keeps the in-order sequence. |
| `AvlShape.StepKeepsOrder` | Pal/lib/avl_tree.c:262-289 | One round of the rebalancing loop keeps the in-order sequence. |
| `AvlShape.StepWhole` | Pal/lib/avl_tree.c:284-294 | One round that starts with exactly one child off by one: afterwards the subtree is an AVL tree with the same sequence, its surroundings fit it if the round reports no change, so stopping early is sound, and otherwise it is the one subtree that is off by one; a grown child never has balance 0, so after an insertion a rotation ends the loop. |
| `AvlShape.SteppedPending` | Pal/lib/avl_tree.c:262-303 | After a reported change the parent is in turn the one node with a child off by one. |
| `AvlHeap.Balance` | Pal/lib/avl_tree.c:258-304 | From a tree with one pending height change the loop reaches an AVL tree with the same in-order sequence, within one round per level above, and returns the root of the subtree it stopped at. |
| `AvlTree.Tree.InsertUnbalanced` | Pal/lib/avl_tree.c:22-49 | The new leaf hangs where everything before it is smaller and everything after it is not. |
| `AvlTree.Tree.Insert` | Pal/lib/avl_tree.c:306-331 | The tree stays a well-formed AVL tree; its sequence is the old one with the node just before the first element at or above it; at most twice the height of steps, which is at most about four times the logarithm of the number of nodes. |
| `AvlTree.Tree.SwapNode` | Pal/lib/avl_tree.c:333-355 | The new node takes the position of the old one, and nothing else changes in order. |
| `AvlDelete.Exchange` | Pal/lib/avl_tree.c:427-446 | The relinking of a node and its successor, adjacent or distant, field by field. |
| `AvlDelete.SwappedAvl` | Pal/lib/avl_tree.c:412-451 | After the exchange the surroundings are balanced for the subtree that the node will leave behind. |
| `AvlDelete.SwappedOrder` | Pal/lib/avl_tree.c:412-451 | Taking the node out after the exchange leaves the old sequence without it. |
| `AvlDelete.SwapWithNext` | Pal/lib/avl_tree.c:417-451 | The pointers after the exchange form the exchanged tree. |
| `AvlTree.CheckNext` | Pal/lib/avl_tree.c:418-425 | All assertions on the successor hold in every AVL tree. |
| `AvlTree.Tree.Delete` | Pal/lib/avl_tree.c:411-490 | For every node: a well-formed AVL tree whose sequence is the old one without exactly that node; at most twice the height of steps, logarithmic in the number of nodes. |
| `AvlTree.Tree.Next` | Pal/lib/avl_tree.c:371-383 | The next element in order, or null after the last; the number of links followed, logarithmic in the number of nodes. |
| `AvlTree.Tree.Prev` | Pal/lib/avl_tree.c:357-369 | The element before, or null before the first; the number of links followed, logarithmic in the number of nodes. |
| `AvlTree.Tree.NextAndBack` | Pal/lib/avl_tree.c:357-383 | Prev undoes next at every node but the last. |
| `AvlTree.Tree.First` | Pal/lib/avl_tree.c:385-396 | The first element, or null for an empty tree. |
| `AvlTree.Tree.Last` | Pal/lib/avl_tree.c:398-409 | The last element, or null for an empty tree. |
| `AvlIterate.TourTwice` | Pal/lib/avl_tree.c:357-383 | Going through a subtree in order passes each of its links exactly twice. |
| `AvlTree.Tree.Walk` | Pal/lib/avl_tree.c:371-396 | Iterating next from first visits the whole sequence in order and follows 2n - 1 links, the climb off the end included. |
| `AvlTree.Tree.Find` | Pal/lib/avl_tree.c:492-515 | Finds an equal element if and only if there is one, within the height and so in logarithmic time. |
| `AvlTree.Tree.LowerBoundFn` | Pal/lib/avl_tree.c:517-532 | The leftmost element for which a monotone predicate holds, or null. |
| `AvlTree.Tree.LowerBound` | Pal/lib/avl_tree.c:534-539 | The leftmost element at or above the key, or null. |
| `AvlOrder.LowerBoundAfterInsert` | Pal/include/lib/avl_tree.h:49-54 | The lower bound of a node right after it was inserted is that node. |
| `AvlTree.IsBalancedSize` | Pal/lib/avl_tree.c:543-570 | On any linked tree: the height, and whether heights and stored balances are those of an AVL tree. |
| `AvlTree.Tree.DebugIsBalanced` | Pal/lib/avl_tree.c:572-575 | The checker accepts exactly the valid trees. |
| `AvlHeight.FibonacciSize` | Pal/lib/avl_tree.c:541-570 | A balanced tree of height h has at least Fib(h + 2) - 1 nodes. |
| `AvlHeight.LogarithmicHeight` | Pal/lib/avl_tree.c:541-575 | The height is at most about twice the binary logarithm of the number of nodes. |
| `AvlHeight.FewSteps` | Pal/lib/avl_tree.c:306-539 | One or two passes along the height are at most about two or four times the binary logarithm of the number of nodes. |
| `AvlHeight.ClimbBound` | Pal/lib/avl_tree.c:258-304 | Every descent and climb is within the height. |
| `AvlHeight.MoveBound` | Pal/lib/avl_tree.c:357-383 | Next and prev follow at most as many links as the tree is high. |
| `AvlRuns.InsertStable` | Pal/include/lib/avl_tree.h:49-54 | Insertion keeps equal elements newest first. |
| `AvlRuns.RunStable` | Pal/include/lib/avl_tree.h:49-54 | Every run of insert, delete and swap keeps the sequence sorted and, among equals, newest first. |
| `AvlRuns.RunFromEmpty` | Pal/lib/avl_tree.c:306-490 | The same for every run from the empty tree. |
| `AvlRuns.Execute` | Pal/lib/avl_tree.c:306-490 | The pointer tree goes through every such run in step with the abstract sequence. |
| `Words.RebaseExact` | LibOS/shim/include/shim_checkpoint.h:233-241 | Adding the difference of two bases in 64 bits moves a pointer exactly, whether or not the difference wraps. |
| `CpFormat.OffsetAligned` | LibOS/shim/include/shim_checkpoint.h:121-165 | Items start at multiples of eight. |
| `CpFormat.OffsetMonotone` | LibOS/shim/include/shim_checkpoint.h:121-165 | Items do not overlap. |
| `CpFormat.PokeLaid` | LibOS/shim/include/shim_checkpoint.h:149-157 | Writing inside a payload changes that payload and no other item. |
| `CpStore.Store.Reserve` | LibOS/shim/include/shim_checkpoint.h:121-139 | Reserves the bytes behind those in use exactly if they fit or the allocator grants the doubled extension; keeps what is there, grows to less than twice the need, and changes nothing on failure. |
| `CpStore.ExtendedIs` | LibOS/shim/include/shim_checkpoint.h:124-128 | The size after a reservation is the old one doubled a number of times, and no more often than the need requires. |
| `CpStore.Store.AddEntry` | LibOS/shim/include/shim_checkpoint.h:141-165 | Emits one entry, over any number of growths, exactly if its header can be reserved. |
| `CpStore.Store.AddOffset` | LibOS/shim/include/shim_checkpoint.h:149-157 | Emits a payload of the rounded size, exactly if both reservations are granted; its offset is aligned and past an entry header, so never 0; after a failure all that was emitted before is still in place. |
| `CpStore.Store.Close` | LibOS/shim/include/shim_checkpoint.h:281-284 | The emitted items, closed by a null entry, inside the store, exactly if the entry can be reserved; otherwise the store is as before. |
| `CpWalk.NextCpEntry` | LibOS/shim/include/shim_checkpoint.h:167-183 | The next entry that is not out-of-band, with arbitrary payload bytes in between; the cursor stays below the emitted size. |
| `CpWalk.WalkAll` | LibOS/shim/src/shim_checkpoint.c:449-475 | The walk gives exactly the emitted entries in order, and ends. |
| `CStrings.Measure` | LibOS/shim/src/shim_checkpoint.c:192-195 | The number of strings and their bytes with terminators. |
| `CpEmit.CpVector` | LibOS/shim/src/shim_checkpoint.c:184-251 | The payload is a null-terminated array of pointers to copies of all strings, followed by an entry for it; it takes a known number of bytes and succeeds whenever the allocator grants them. |
| `CpEmit.CpQstr` | LibOS/shim/src/shim_checkpoint.c:264-280 | Without overflow nothing; otherwise the string lies right before the entry for the object; succeeds whenever the allocator grants the bytes. |
| `CpRestore.Blob.RsVector` | LibOS/shim/src/shim_checkpoint.c:213-262 | All pointers of the vector are rebased and nothing else changes. |
| `CpRestore.Blob.RsQstr` | LibOS/shim/src/shim_checkpoint.c:282-293 | The pointer computed backwards from the entry is the address of the copied string. |
| `CpJobs.RestoreCheckpoint` | LibOS/shim/src/shim_checkpoint.c:449-475 | Every entry of a checkpoint is restored for the new address, for any mixture of vectors and overflow strings; the migrated pointers are those of the last vectors; no byte outside vectors and `oflow` pointers changes. |
| `CpMap.Map.Extend` | LibOS/shim/src/shim_checkpoint.c:48-59 | A new empty buffer, exactly if memory is granted; every entry handed out is where it was. |
| `CpMap.Map.Search` | LibOS/shim/src/shim_checkpoint.c:95-105 | The one entry of an address, exactly if there is one. |
| `CpMap.Map.GetEntry` | LibOS/shim/src/shim_checkpoint.c:90-126 | At most one entry per address; a new one lies in a free place of the newest buffer and has offset 0; pointers handed out earlier lead to the same entries, also when a buffer is added; null exactly if the address is new and there is no `create`, or no free place and no memory. |
| `CpMap.Map.GetFrom` | LibOS/shim/include/shim_checkpoint.h:264-268 | The offset of an address or 0; 0 means absent when all offsets lie past a header. |
| `CpMap.Map.AddTo` | LibOS/shim/include/shim_checkpoint.h:270-274 | The abstract map is updated at that address only; all older entries keep their addresses; fails exactly where the source would use a null pointer. |
| `CpMap.Map.AddAll` | LibOS/shim/src/shim_checkpoint.c:48-126 | Over every run the buckets stand for the abstract map, across all buffer extensions and as far as memory lasts, and every pointer handed out before leads to the entry of its address. |
| `CpMap.AddsLast` | LibOS/shim/include/shim_checkpoint.h:270-274 | That map gives each address the last offset it was added with. |
| `CpMap.AddsPastHeader` | LibOS/shim/include/shim_checkpoint.h:264-274 | A run of additions with offsets past a header keeps "0 means absent" unambiguous. |
| `CpMap.OnePerAddress` | LibOS/shim/src/shim_checkpoint.c:90-126 | No two entries in the buffers have the same address. |
| `CpShare.CopyOnce` | LibOS/shim/src/bookkeep/shim_handle.c:670-674 | It succeeds exactly if the address is known, or the store grants an entry header and then the payload and the map has a free entry or gets a new pool. An object whose address is known is not copied again; a new one gets one payload of its size, and the map leads to it; nothing that was there changes. |
| `CpShare.CopyAll` | LibOS/shim/src/bookkeep/shim_handle.c:670-674 | Over every run of copies, two references get the same offset if and only if they are to the same object; the store grows by exactly an entry header and a payload for the first occurrence of each new object. It succeeds whenever these together fit in the room of the store and the map can always get a pool. |
| `CpShare.MetIs` | LibOS/shim/src/bookkeep/shim_handle.c:670-674 | The addresses that are known after a number of copies are those known before and those of the copied objects. |
| `CpShare.SharedPastHeader` | LibOS/shim/include/shim_checkpoint.h:264-274 | Every offset in the map is that of the payload of an emitted item, so it lies past a header and 0 means absent. |
| `CpShare.SharedApart` | LibOS/shim/include/shim_checkpoint.h:264-274 | Different addresses have different offsets. |
| `CpStream.TransferEnds` | LibOS/shim/src/shim_checkpoint.c:295-331 | How many bytes a transfer moves and what it returns, from the schedule and the bytes that can be had: up to the last byte that can be had the first event that gives up decides, after it the first event that is not retried; an incomplete transfer reports success exactly if that event is the end of the schedule, a move or an error with number 0. |
| `CpStream.DryMeans` | LibOS/shim/src/shim_checkpoint.c:295-312 | The point from which on nothing is left to be had is the first at which the schedule has carried that many bytes. |
| `CpStream.SilentCut` | LibOS/shim/src/shim_init.c:81-81 | A stream that ends at once: nothing moved, success reported. |
| `CpStream.SteadyShort` | LibOS/shim/src/shim_checkpoint.c:295-312 | A peer that closes after too few bytes: exactly those are moved and success is reported, without any event that gives up. |
| `CpStream.OpenTransfer` | LibOS/shim/src/shim_checkpoint.c:314-331 | On a stream that does not end early, success of a write means that everything was written, whatever else the host does. |
| `CpStream.SteadyTransfer` | LibOS/shim/src/shim_checkpoint.c:295-331 | Any schedule of partial and interrupted calls without a premature end completes the transfer. |
| `CpStream.LiveIsScheduled` | LibOS/shim/src/shim_checkpoint.c:295-312 | Reading while the peer is still writing moves and returns what reading the complete stream does under another schedule, for every interleaving of the two. |
| `CpStream.LiveSteady` | LibOS/shim/src/shim_checkpoint.c:295-312 | If the calls wait for data, that schedule is steady and the transfer complete. |
| `CpStream.Host.Next` | Pal/src/db_streams.c:249-330 | One call moves at least a byte, is retried, or gives up; nothing moved is the end of the stream with error number 0. |
| `CpStream.Host.WriteExact` | LibOS/shim/src/shim_checkpoint.c:314-331 | The bytes moved are a prefix of the buffer, as many as the schedule allows; result and rest of the schedule. |
| `CpStream.Host.ReadExact` | LibOS/shim/src/shim_checkpoint.c:295-312 | The bytes got are those at the front of the stream, as many as the schedule and the stream allow. |
| `CpStream.Host.SendHandle` | Pal/src/db_streams.c:651-672 | A handle goes onto the stream exactly if it is not null and the host call succeeds; a null one is refused without a call. |
| `CpStream.Host.ReceiveHandle` | Pal/src/db_streams.c:685-707 | The handle at the front of the stream is taken off, if the host call succeeds and there is one; otherwise the result is null. |
| `CpLists.CpMemory` | LibOS/shim/src/shim_checkpoint.c:128-142 | A node with the region, writable protection and the old head as its link, which becomes the head; succeeds whenever the allocator grants the bytes. |
| `CpLists.CpPalHandle` | LibOS/shim/src/shim_checkpoint.c:144-161 | A node with the handle, linked to the one before, and its entry; succeeds whenever the allocator grants the bytes. |
| `CpLists.AddMemory` | LibOS/shim/src/bookkeep/shim_vma.c:1265-1270 | A region with its own protection is the new head of the list, which still holds the others; succeeds whenever the allocator grants the bytes. |
| `CpLists.AddHandle` | LibOS/shim/src/bookkeep/shim_handle.c:707-712 | The node is told the slot in an object copied before, and is the new end of the list; succeeds whenever the allocator grants the bytes. |
| `CpSend.SendMemory` | LibOS/shim/src/shim_checkpoint.c:333-367 | The contents of all regions go out, newest first. Whatever the host does, the stream gets a prefix of each region in turn; on a stream that does not end early success means all of them, and a failure leaves a prefix of the whole and is reported. Success means that both changes of protection were made for each region that cannot be read and is not empty, and that none failed; on a steady stream the result is the error of the last host call made. |
| `CpSend.SendRegion` | LibOS/shim/src/shim_checkpoint.c:338-360 | If the first change of protection fails, nothing is written and its error is returned; the second one is made whether or not the write succeeded, and its error is returned if the write did. |
| `CpSend.SendCheckpoint` | LibOS/shim/src/shim_checkpoint.c:369-377 | The same for the blob followed by the regions: a part of each in turn, all on success if the stream does not end early, and then without a failed host call. |
| `CpSend.CollectHandles` | LibOS/shim/src/shim_checkpoint.c:390-397 | The nodes in order of emission; both assertions hold. |
| `CpSend.SendHandles` | LibOS/shim/src/shim_checkpoint.c:379-412 | On every host: without handles nothing happens; if the array cannot be allocated the result is `-ENOMEM` and nothing is sent; otherwise the handles go out in order of emission up to the first one that is null or whose host call fails, and the result is `-EINVAL` exactly if there is one. Success means that all host calls due were made and none failed. |
| `CpReceive.Rebase` | LibOS/shim/include/shim_checkpoint.h:233-241 | One word is rebased unless it is null; nothing else changes. |
| `CpReceive.FilledStep` | LibOS/shim/src/shim_checkpoint.c:434-437 | Landing one more region keeps all landed ones equal to the parent's memory, even where they overlap. |
| `CpReceive.ReceiveMemory` | LibOS/shim/src/shim_checkpoint.c:414-447 | On a stream that does not end early success means that exactly the regions are consumed and each holds at its own address what the parent has there. On every host success means that one call was made per region, and one more per region that cannot be written, and that none failed; a failed call ends it and its error is returned, and if the stream is steady and complete nothing else is. Whatever the host does, all other memory is unchanged and in the checkpoint nothing but the links, which are rebased. |
| `CpReceive.ReceiveRegion` | LibOS/shim/src/shim_checkpoint.c:425-443 | If the pages cannot be allocated, nothing is read and the error is returned; if they cannot be protected after the read, that error is. |
| `CpHandles.RebaseHandles` | LibOS/shim/src/shim_checkpoint.c:491-500 | All links and slot pointers are rebased, and the nodes collected in order of emission; both assertions hold; nothing else in the checkpoint changes. |
| `CpHandles.ReceiveHandles` | LibOS/shim/src/shim_checkpoint.c:477-521 | Success means that the k-th handle on the stream is in the slot of the k-th emitted node and the stream is consumed, and on every host that one call was made per handle that is not null and none failed; if the handles are all on the stream only a failed call makes it fail. Whatever the host does, both lists are rebased and nothing but links, slot pointers and slots changes. |
| `CpOps.JobsApartInRun` | LibOS/shim/src/bookkeep/shim_handle.c:670-712 | In every run of emissions no two objects to be restored interfere, for any interleaving of objects, overflow strings, handles, vectors and regions. |
| `CpOps.RunReady` | LibOS/shim/src/shim_checkpoint.c:184-293 | Every item of every run is ready to be restored, and is restored by the function its type stands for. |
| `CpOps.RunClear` | LibOS/shim/src/shim_checkpoint.c:414-521 | List nodes and slots of a run lie apart from all that restoring reads or writes. |
| `CpParent.EmitAll` | LibOS/shim/src/shim_checkpoint.c:128-293 | For every run of emissions each operation lies in its place, both lists hold what was emitted in order, and the checkpoint is closed; it takes a known number of bytes and succeeds whenever the allocator grants them. |
| `CpArrive.StillReady` | LibOS/shim/src/shim_checkpoint.c:414-521 | Receiving memory and handles leaves everything as ready for restoring as the parent left it. |
| `CpArrive.StillListed` | LibOS/shim/src/shim_checkpoint.c:449-475 | Restoring leaves both lists as they are. |
| `CpArrive.StillStored` | LibOS/shim/src/shim_checkpoint.c:449-475 | Restoring leaves the handles in their slots. |
| `CpArrive.UntouchedByte` | LibOS/shim/src/shim_checkpoint.c:414-521 | A byte of an object that belongs to no `oflow` pointer and no handle is never written to in the child. |
| `CpArrive.OpArrives` | LibOS/shim/src/shim_checkpoint.c:414-521 | Every emission arrives: regions, entries, vectors, objects byte for byte, handles in their slots, and every `oflow` pointer leads to its text at the new address. |
| `CpArrive.LastMigrated` | LibOS/shim/src/shim_checkpoint.c:213-262 | The migrated pointers lead to the last argument list and the last environment that were emitted. |
| `CpHeader.MakeHdr` | LibOS/shim/src/shim_checkpoint.c:637-651 | The header describes the blob and both lists. |
| `CpHeader.RoundTrip` | LibOS/shim/include/shim_checkpoint.h:321-331 | The 56 bytes of a header give back its fields. |
| `CpHeader.ReadHdr` | LibOS/shim/src/shim_init.c:468-477 | The child goes on exactly if a single read delivers the whole header, and then has the parent's header. |
| `CpMigrate.SendAll` | LibOS/shim/src/shim_checkpoint.c:660-670 | On a stream that does not end early success means the whole message and failure a prefix of it; on every host success means that no host call failed; on a smooth host the result is an error exactly if a handle is null. |
| `CpMigrate.SendOff` | LibOS/shim/src/shim_checkpoint.c:637-670 | The same with the header in front, which leads to the blob and both lists. |
| `CpMigrate.ReceiveAll` | LibOS/shim/src/shim_checkpoint.c:767-786 | On a stream that does not end early success means that the whole message is consumed; memory, lists and slots are those of the parent, every entry and every other payload byte is as the parent sent it, and no host call failed. A host that does not fail makes it succeed; one that does leaves all memory outside the regions alone. |
| `CpMigrate.RestoreAll` | LibOS/shim/src/shim_checkpoint.c:449-475 | After all was received, restoring delivers every emission of the parent. |
| `CpMigrate.NullHandles` | LibOS/shim/src/shim_checkpoint.c:399-405 | The handle list has a null handle exactly if one was emitted. |
| `CpMigrate.Migrate` | LibOS/shim/src/shim_checkpoint.c:637-786 | From end to end, header included, for every run of emissions, pair of base addresses and schedule on which the stream does not end early and the host does not fail: the child arrives exactly if no handle is null, the checkpoint fits and its first read delivers the whole header; then it consumes exactly the message, its memory holds all regions, every emission arrives, and the argument and environment lists it reads are those emitted last. The checkpoint is made whenever the allocator grants its bytes; a null handle is an error. |
| `CpMigrate.MigrateStrings` | LibOS/shim/src/shim_checkpoint.c:184-262 | In particular, an argument list and an environment come back the same, for all lists and base addresses; it fails only if the store cannot grow, the checkpoint does not fit, or the header does not come in one piece. |
| `CpMigrate.AwaitVmid` | LibOS/shim/src/shim_checkpoint.c:682-687 | The result is that of reading four bytes under the schedule. On a steady stream the parent gets the VMID that the child wrote; if the child has gone without writing, it gets 0 and success. |
| `CpMigrate.CreateProcess` | LibOS/shim/src/shim_checkpoint.c:652-723 | The result is `-ENOMEM` if the checkpoint cannot be made, `-EINVAL` for a null handle, and otherwise that of reading the VMID. On a steady stream the parent has the VMID of a child that arrived and wrote it; for a child that never arrived it reports success with VMID 0. |
| `ElfHash.FoldsAgree` | Pal/src/db_rtld.c:656-669 | The two exclusive ors do what the conditional fold of the gABI does. |
| `ElfHash.Compute` | Pal/src/db_rtld.c:627-672 | The unrolled hash is the gABI hash computed in 64-bit words, for every byte string. |
| `ElfHash.Narrow` | Pal/src/db_rtld.c:627-670 | In 32-bit words the gABI hash has at most 28 bits. |
| `ElfHash.WideHash` | Pal/src/db_rtld.c:627-670 | The 64-bit hash is the 32-bit one, plus the carries of single characters above it. |
| `ElfHash.WidthsAgree` | Pal/src/db_rtld.c:627-670 | They agree if and only if none of the last eight characters carries. |
| `ElfHash.WidthsDiffer` | Pal/src/db_rtld.c:627-670 | A name for which they do not. |
| `ElfHash.FastCompute` | Pal/src/pal_rtld.h:141-146 | Masking once at the end equals wrapping to 32 bits at every step. |
| `ElfLookup.PrefixSuffices` | Pal/src/db_rtld.c:694-696 | The comparison accepts a symbol if and only if the wanted name is a prefix of its name. |
| `ElfLookup.WalkChain` | Pal/src/db_rtld.c:721-731 | The chain walk ends inside the bucket and gives the result of the plain scan. |
| `ElfLookup.LookupGnu` | Pal/src/db_rtld.c:712-737 | The lookup is the plain scan behind the Bloom filter. |
| `ElfLookup.NeverRejected` | Pal/src/db_rtld.c:713-718 | The filter never rejects the hash of a symbol in the table. The filter is built by the linker, so this is part of what a well-formed table means. |
| `ElfLookup.LookupIsScan` | Pal/src/db_rtld.c:702-750 | The lookup differs from the scan if and only if the filter rejects the hash, there is one bucket, and a symbol whose hash differs in the lowest bit only matches; so never with two or more buckets, nor for a hash that a symbol has. |
| `ElfLookup.FilterLoses` | Pal/src/db_rtld.c:712-737 | A well-formed table with one bucket for which it does not. |
| `ElfLookup.LookupSysv` | Pal/src/db_rtld.c:741-746 | The search along the chain of the bucket. |
| `ElfLookup.FirstInFound` | Pal/src/db_rtld.c:741-746 | That search finds a symbol of the chain which matches and has no match before it, or there is none. |
| `ElfLookup.SysvFinds` | Pal/src/db_rtld.c:741-746 | In a complete table, built with hashes of any word size, something is found if and only if a symbol of that remainder matches. |
| `ElfLookup.SysvFinds32` | Pal/src/db_rtld.c:741-746 | In a table built with 32-bit hashes a name is found through its 64-bit hash when both have the same remainder, and if only symbols of that name match, exactly then. |
| `ElfResolve.SetupGnu` | Pal/src/db_rtld.c:64-90 | The parts of every table in the `DT_GNU_HASH` layout are found again. |
| `ElfResolve.SetupSysv` | Pal/src/db_rtld.c:92-113 | The same for `DT_HASH`. |
| `ElfResolve.Loader.Append` | Pal/src/db_rtld.c:589-602 | The object is the new end of the doubly linked list. |
| `ElfResolve.Loader.DoLookup` | Pal/src/db_rtld.c:755-796 | In the numbers of the symbol tables: a found symbol is defined, its name begins with the wanted one unless it is the reference itself, and its binding is global (1), unique (10) or weak (2). If it is strong (1 or 10), no object before it leads to a strong symbol; if it is weak, no object leads to a strong one and none before it to a weak one; if nothing is found, none leads to either. If an object has one matching symbol, of that very name and entered in its table, the result is not empty when that symbol is strong or weak, and strong when it is strong. |
| `ElfResolve.ReachedIff` | Pal/src/db_rtld.c:702-750 | The symbol to which an object leads is the first match in the bucket of its GNU table, if the filter lets the hash pass, or along the chain of its System V table; the lookup in the object returns it. |
| `ElfResolve.StrongWins` | Pal/src/db_rtld.c:767-783 | A strong symbol that is the only match of its object and entered in its table is the result if no strong symbol of an earlier object matches, whatever weak ones do. |
| `ElfResolve.StrongPassedOver` | Pal/src/db_rtld.c:694-746 | A table in which a strong symbol of the wanted name is not found, because a weak one whose longer name begins with it comes first in the chain. |
| `ElfResolve.ResolveMeans` | Pal/src/db_rtld.c:755-796 | The resolution of a list of offers is the first strong one, else the first weak one, else none. |
| `ElfResolve.LoadedLater` | Pal/src/db_rtld.c:589-602 | Objects loaded later never change a name resolved strongly, and one resolved weakly only if one of them offers a strong definition. |
| `ElfResolve.OffersGrow` | Pal/src/db_rtld.c:589-602 | Loading adds offers at the end and leaves the others alone. |
| `InitStack.MoveUp` | LibOS/shim/src/shim_init.c:253-253 | Moving overlapping bytes up gives the original bytes at the new place. |
| `InitStack.CopyVector` | LibOS/shim/src/shim_init.c:214-222 | Pointers at the low end and strings at the high end, without touching the rest; fails exactly if the pointers do not fit. |
| `InitStack.SpreadMoved` | LibOS/shim/src/shim_init.c:247-263 | Move and clearing damage no string and no pointer. |
| `InitStack.Populate` | LibOS/shim/src/shim_init.c:155-273 | The initial frame of section 3.4.1 of the x86-64 psABI, 16-byte aligned and right below the strings, with everything below it cleared; `-ENOMEM` exactly if it does not fit. |
| `InitStack.Decode` | LibOS/shim/src/shim_init.c:174-194 | Following the frame gives back all arguments and the whole environment in order. |
| `InitStack.Adjacent` | LibOS/shim/src/shim_init.c:208-221 | The argument strings are adjacent, increasing, and end with the stack. |
| `WakeQueue.StepKeeps` | LibOS/shim/include/shim_thread.h:211-245 | Every atomic step of every owner keeps the invariant. |
| `WakeQueue.RunKeeps` | LibOS/shim/include/shim_thread.h:211-245 | On every interleaving a thread is on at most one queue, all queues end at the tail, and a link is null exactly off all queues. |
| `WakeQueue.Conservation` | LibOS/shim/include/shim_thread.h:233-245 | A drained owner woke and put every thread exactly as often as it added it; never more often before. |
| `WakeQueue.RefusedIsPending` | LibOS/shim/include/shim_thread.h:211-229 | A refused add leaves everything as it is and finds the thread on a queue whose owner has yet to wake it; in every continuation in which that owner drains its queue it has woken the thread once more. |
| `WakeQueue.AddIsWoken` | LibOS/shim/include/shim_thread.h:211-245 | In every reachable state an add on a thread whose link is null puts it on the queue of the adder, in front of what was first, and on no other queue, and counts it; in every continuation in which that owner drains its queue it has woken and put the thread once more. |
| `WakeQueue.DrainAdvances` | LibOS/shim/include/shim_thread.h:233-245 | An owner can always take its next step towards an empty queue, and a fixed number of them gets it there. |
| `WakeQueue.DrainRun` | LibOS/shim/include/shim_thread.h:233-245 | On every interleaving an owner that drains comes one step closer with each of its own steps, and only with those. |
| `WakeQueue.Drained` | LibOS/shim/include/shim_thread.h:211-245 | After that many steps of its own its queue is empty and every thread it added is woken and put exactly once per add, whatever the others do. |
| `Pool.Allocator.Malloc` | Pal/src/slab.c:43-66 | A block of the wanted size next to the mark of the end whose turn it is, exactly if the space between the marks suffices; then it is the turn of the other end. Without space nothing changes. |
| `Pool.EndsAlternate` | Pal/src/slab.c:48-60 | In every run from the empty pool, with frees and failed allocations anywhere in it, the successful allocations go in turn to the low and the high end, the first to the low one; so of any number of them half are at each end, the odd one at the low end. |
| `Pool.FirstOfTwoReclaimed` | Pal/src/slab.c:49-96 | After two successful allocations from any state, freeing the first one gives its space back. |
| `Pool.Allocator.Free` | Pal/src/slab.c:81-101 | The end and the last block are recognised by address; the last block is reclaimed, another one only marked. |
| `Pool.RunSplits` | Pal/src/slab.c:43-101 | After every run of allocations and frees, from the steps alone: all blocks of both ends are pairwise disjoint, below the low mark or above the high mark, and the marks do not cross. |
| `Pool.LifoLeavesNoHoles` | Pal/src/slab.c:81-101 | No block is left behind if and only if every free took the last block of its end. |
| `Pool.Recovery` | Pal/src/slab.c:43-101 | When nothing is live any more, the whole pool is free again if and only if each end was freed in reverse order. |

## Left out

- Sizes of a checkpoint store, of argument lists and of stacks are unbounded integers: overflow of `size_t` sums is not modelled, and requirements keep addresses inside 64 bits.
- CpMap.Map.GetEntry: `hash64` is an arbitrary function, and freeing the map is not modelled.
- CpStore.Store.Reserve: `room` is a number of bytes for which the allocator grants every extension; the emissions built on it are promised to succeed within that room, and are exact about success only up to single entries and payloads.
- CpStream.Host.ReadAll: says nothing when the stream ends early or fails; `ReadExact` does.
- CpMigrate.ReceiveAll: is stated for streams that do not end early; on a blob that is cut short the source goes on with incomplete data. The array of nodes is taken as allocated, because the source does not check it.
- CpMigrate.Migrate: the parent runs before the child; that a child reading meanwhile sees the same under another schedule is `CpStream.LiveIsScheduled`, for one transfer at a time. A base address at which the checkpoint does not fit leaves the child without one.
- CpParent.EmitAll: an operation is a region, an entry, a string vector, the copy of an object, or an overflow string or handle for an object copied before; which objects a process copies, and pointers between objects, are not modelled. An object has at most one handle.
- The child's memory is separate from the blob, so a region that overlaps the place of the blob is not captured; page rounding of the allocation is left out.
- CpSend.SendMemory: page protections appear only as host calls that may fail; on a stream that ends early the parts that are sent are not tied to the schedule.
- CpSend.SendCheckpoint: the same for a stream that ends early.
- CpReceive.ReceiveMemory: on a stream that ends early nothing is said about the contents of the regions, which the source then leaves incomplete.
- CpJobs.RestoreCheckpoint: restores string vectors and overflow strings; entries of other kinds are passed over, because their restore functions belong to threads, handles, VMAs and file systems, which are not modelled. Entry types depend on the link order and are parameters.
- `cp_migratable`, the checkpoint functions of threads, handles, VMAs and file systems, `GET_CP_ENTRY`, process creation and IPC are not modelled.
- ElfLookup.NeverRejected: how a linker builds the filter is not modelled; a well-formed table has the bits of its symbols set.
- CpMigrate.CreateProcess: what the parent does with the VMID, and the unmapping of its checkpoint, are not modelled.
- ElfLookup.LookupGnu: a comparison that would run past the end of the string table fails instead of reading on; shifts and masks are arithmetic on natural numbers.
- ElfLookup.LookupSysv: chains have to end, which the source takes for granted.
- ElfResolve.Loader.DoLookup: every object has one of the two hash tables, as the source assumes.
- ELF segment mapping, relocation and `lookup_symbol`, which only passes the result on, are not modelled.
- InitStack.Populate: the base of the stack is 16-byte aligned, as allocated; with another base the alignment could reach below the stack. `migrated_envp` is not modelled.
- WakeQueue.RunKeeps: sequential consistency, where the source uses relaxed atomics; the wakeup and the release of the thread are counted, not modelled.
- Pool.Allocator.Malloc: the fallback to other memory, locking and the slab manager above the pool are not modelled; sizes are positive.
- Aliasing of checkpoint buffers with other objects is not modelled: memories are byte sequences held by one object, except for the AVL tree, the list of loaded objects, the buffers of map entries, and the stack array.
