# HashLink runtime: a verified model

HashLink is a virtual machine with its own garbage collector, page allocator, just-in-time compiler and live patching.
This project models the parts of the runtime whose correctness spans many steps or many threads, and proves what they
promise, for every input, every run or every interleaving. `dafny verify dfyconfig.toml` checks all of it.

| module | what it models |
|---|---|
| `HeapModel`, `GcState`, `GcMark`, `GcMutator`, `GcTracking`, `GcCycle`, `GcReclaim`, `GcPrecise`, `GcEvents`, `GcOracle`, `IncrementalGc`, `GcRuns` | the incremental collector: sliced preparation, tracing, discovery of written pages, final remark, publication, deferred reclamation, mutators in between |
| `DirtyQueue` | the lock-free queue of written pages, at the granularity of its atomic operations |
| `PageModel`, `Allocator`, `SizeClasses`, `Allocation` | free runs over the blocks of a page, the lazy sweep, thread buffers, size classes and page layout |
| `ParallelMark` | parallel marking with work hand-off and termination detection |
| `StopWorld` | the handshake that stops the world: global lock, blocking sections, safepoints, exclusive sections |
| `RootTable` | the table of roots with its intrusive hash index |
| `Traps`, `TrapVerifier` | the verifier of try regions in patched bytecode, against a machine with an explicit trap stack |
| `PatchReclaim`, `PatchList` | reference counts, the published list, registered readers and the freeing of patch code |
| `Leb128`, `DwarfReader`, `LineProgram`, `LineTable` | the DWARF line table emitted for compiled code, against a reader of the standard that takes every parameter from the header |
| `Basics` | notions several components share |
| `BitStrings`, `LogicalImmediate`, `LoadImmediate` | loading constants on AArch64, against the architecture's semantics |

Conventions. Each clock reading, deadline, failure of a system call and environment variable is a nondeterministic
choice; whether a pause has a deadline, and whether calls may fail in it, is part of its event. Atomic operations are
sequentially consistent. The words of stacks and registers are a given set of root words. In a heap word, `held` says
that the program really holds the reference: the collector cannot see it, and follows every word that looks like a
pointer, but memory safety is about the held ones. A full collection looks only at the words types tell it to; in every
well-formed heap types are taken to cover the held references, and a registered root to hold the start of a block. A
store to a page of pointers sets the dirty bit of its page of the operating system, and the initialising writes of an
allocation are stores.

## Main results

- **Nothing reachable is freed.** Over every sequence of loads, stores, root changes, allocations (with a mark, or from a
  refilled buffer without one), new pages and pauses cut off at any deadline, across any number of cycles and fallbacks to
  full collections, every object the program can reach is still handed out, every event does exactly what it should to
  the heap, and a pause leaves what the program reaches as it was, word by word (`IncrementalGc.Collector.Run`). Its core:
  when a cycle completes, everything the program can reach is marked, and its oracle reports exactly the unmarked blocks
  that stray words lead to; it is silent if and only if there is no stray word (`CompleteCycle`,
  `GcMark.ReportedExactly`, `GcMark.SilentExactly`).
- **What is not reachable is freed.** A cycle marks no block but those that words led to when it began or since, and those
  handed out or on pages mapped since. Every block without a mark goes with its page or when its page is swept
  (`CompleteCycle`). Of the empty pages exactly those are kept whose sizes are counted against the budget
  (`EmptySweepSlice`). Whatever mutators do in between, one of two successive pauses without deadline finishes a
  collection, if no reclamation was pending (`GcEvents.TwoPausesCollect`).
- **Parallel marking** ends, under every schedule, with exactly the blocks marked that its types let it reach; no fatal
  assert is met, nothing the program can reach is left out, and from every point of every run marking can be finished
  (`ParallelMark.CanFinish`).
- **A stopped world is still**: no registered thread but the collecting one can touch the heap between stop and resume;
  and from every state a stop can be reached, and after it every thread gets back to its own code.
- **The trap verifier is exact**: it accepts a function if and only if its branches stay inside and every execution, throws
  at any instruction included, handles traps properly. It walks no state that no execution meets.
- **The sweep is exact**, no block is handed out twice between sweeps, and a new page is mapped only if no page searched
  can serve the request.
- **The queue of written pages** forgets no write, for every interleaving, and can always be emptied.
- **A commit frees exactly** the patch code that lost all its slots, that no other stack has and no reader was counted for;
  freed code is in no slot, on neither list and in no reader's hands, for every interleaving and wherever commits are
  called from, and on no stack of a thread that does not itself commit away the code it runs in.
- **Constants**: the emitted words load the requested value; the fast test for bitmask immediates accepts exactly the
  encodable values. **Line tables** decode to exactly the rows and file names they were built from, by a reader that knows
  only the standard and the header it reads.

## Where the code does not do what one would expect

- A thread that finds its allocation buffer empty looks whether a cycle is running before it waits for the lock. The block
  it then takes from the refilled buffer carries no mark although the cycle runs. Nothing the program holds is lost by
  it, but at the end of the cycle the marks can miss a block in use: one on a page mapped during the cycle at an address a
  stale word holds, handed out this way and dropped, and what it leads to. `GcRuns.CycleMissesALateBlock` is such a run;
  a block in use is missed if and only if a marked block the oracle reaches names one handed out this way
  (`GcMark.InUseExactly`).
- The collector's debug oracle can report a block that no object occupies: a free block of a page that was mapped during
  the cycle at an address some stale word holds. `GcRuns.OracleReportsAFreeBlock` is such a run from the empty heap. It
  reports something if and only if a marked block it reaches names an unmarked one on a page mapped during the cycle that
  is free or was handed out without a mark (`GcMark.SilentExactly`), and then exactly what those lead to.
- Loading a 32-bit constant emits nothing when the constant is not zero but its low 32 bits are. `LoadImmediate.Load`
  proves that this is the only failure.
- A constant most of whose halfwords are all ones is still built up from zero: the count that is to choose MOVN never does
  (`LoadImmediate.CountHalfwords`, with `LoadImmediate.OnesAreNotUsed` for a constant that takes twice the instructions).
- A file name that is empty or contains a zero byte makes the line table unreadable from there on. `LineTable.Build`
  proves that the table reads back if and only if there is no such name.
- A commit does not look at the stack of the thread that runs it (`PatchReclaim.CommitFreesExactly`), so a thread that runs
  in patch code whose slots it replaces can lose the code it runs in; `PatchReclaim.ACallerLosesItsCode` is such a run. Freed
  code is still in no slot, list or reader's hands (`PatchReclaim.FreedCodeIsUnreachable`), and only the thread that
  commits from inside such code can have it on its stack (`PatchReclaim.StacksKeepTheirCode`).
- The trap verifier accepts code that falls off the end of a function: a single operation is an example
  (`Traps.PlainFallsOff`). Accepted code does so if and only if its last instruction is reached and goes on to the next
  (`Traps.FallsOffExactly`), which the verifier's tables show.
- Taking all blocks of a later run of a variable-size page skips the current run if that still has blocks, and only then
  (`Allocator.CutConservesExactly`, with `Allocator.BlockZeroIsSkipped` for an example). The skipped blocks stay lost to
  the list while other objects are allocated, and the next sweep lists them again (`Allocator.SkippedIsLost`,
  `Allocator.LostStays`, `Allocator.SweepRecovers`).

## Model

| member | source | states |
|---|---|---|
| HeapModel.StrongIsSeen | src/gc.c:1512-1554 | whatever the program holds is reached through the words and roots a marker looks at, if its types cover the held words |
| GcMark.VisitKeeps | src/gc_incremental.c:120-143 | marking a word's target keeps the tri-colour invariant and the queued bits equal to stack membership, so nothing is stacked twice |
| GcMark.PopDirtyKeeps | src/gc_incremental.c:195-201 | taking a page from the batch to rescan keeps the tri-colour invariant |
| GcMark.RescanBlockKeeps | src/gc_incremental.c:202-217 | queueing the next marked block of a rescanned page keeps it, with a block in mid-scan restarted instead of stacked twice |
| GcMark.ScanWordKeeps | src/gc_incremental.c:223-265 | scanning the next word of the suspended block keeps it |
| GcMark.BlockDoneKeeps | src/gc_incremental.c:266-272 | a block may be left once all its words are settled |
| GcMark.ExhaustedCoversProgram | src/gc_incremental.c:560-567 | when nothing is left to look at and the roots are marked, everything the program can reach is marked |
| GcMark.OnlyStrays | src/gc_incremental.c:327-349 | a marked block the oracle reaches names an unmarked one only on a page mapped during the cycle, free or handed out without a mark, and never one the program holds |
| GcMark.ReportedExactly | src/gc_incremental.c:390-424 | the unmarked blocks the oracle reaches are exactly the unmarked ones that such stray words lead to |
| GcMark.SilentExactly | src/gc_incremental.c:390-424 | every block the oracle reaches is marked if and only if no word is stray |
| GcMark.InUseExactly | src/gc_incremental.c:390-424 | every block in use it reaches is marked if and only if no stray word names a block in use handed out without a mark |
| GcRuns.NextKeeps | src/gc_incremental.c:493-613 | every move of a run keeps the collector's invariant; tracing and discovery happen only in a pause, and a walk over several pauses ends, and the bits are cleared, only when every dirty page is queued |
| GcRuns.OracleReportsAFreeBlock | src/gc_incremental.c:390-424 | a run of these moves from the empty heap to a complete cycle in which the oracle reports a block: one that is free |
| GcRuns.CycleMissesALateBlock | src/gc.c:1150-1177 | a run of these moves to a complete cycle whose marks miss a block in use, handed out from a refilled buffer |
| GcMutator.PreparePageKeeps | src/gc_incremental.c:160-176 | a page gets its bitmaps after its earlier sweep ran, and pages not yet prepared stay ahead of the cursor |
| GcMutator.ReadyPageKeeps | src/gc_incremental.c:67-84 | an allocation sweeps and prepares its page first, in and between pauses |
| GcMutator.StoreKeeps | src/gc_write_tracking.c:74-91 | any store keeps the invariant: its page is dirty from then on |
| GcMutator.HandoutKeeps | src/gc_incremental.c:67-84 | a block allocated under the lock during a cycle is marked, and keeps the invariant |
| GcMutator.RefillKeeps | src/gc.c:1150-1177 | a block handed out without a mark from a refilled buffer keeps the invariant: what named it is loose or pending |
| GcMutator.FlushKeeps | src/allocator.c:292-343 | a refill may sweep its page during a cycle and leave it unprepared |
| GcMutator.MapKeeps | src/gc.c:779-784 | a page mapped during a cycle joins its list at the head, prepared, and saved cursors keep their meaning |
| GcMutator.PrependKeepsCursor | src/gc_incremental.c:178-191 | a cursor saved in a list denotes the same page after the list grew at its head |
| GcTracking.ReadChunkFinds | src/gc_write_tracking.c:198-206 | after a chunk is read, every dirty bit belongs to a queued page or lies ahead of the walk |
| GcTracking.WalkEnds | src/gc_write_tracking.c:208-219 | a walk to the end within one pause has queued every dirty page |
| GcTracking.RearmKeeps | src/gc_incremental.c:294-309 | if every dirty page is queued, clearing all kernel bits and freezing the queue keeps the tri-colour invariant |
| GcCycle.BeginKeeps | src/gc_incremental.c:523-546 | a new epoch makes every page unprepared and ahead of the cursor |
| GcCycle.PrepareEnds | src/gc_incremental.c:178-191 | when the cursor runs off the last list every page carries the current epoch |
| GcCycle.PublishKeeps | src/gc_incremental.c:426-429 | marks that cover what the program holds start a sound lazy sweep |
| GcCycle.FreePageKeeps | src/allocator.c:507-531 | giving back an empty page frees nothing reachable although mutators allocated since; the saved link stays in its list |
| GcReclaim.ShrunkSameView | src/gc_incremental.c:426-429 | if only blocks and pages have gone and none the program reaches, it reaches the same blocks and finds the same words in them |
| GcReclaim.AccountNext | src/allocator.c:515-528 | keeping an empty page counts its size, and every empty page is kept or still ahead of the saved link |
| GcReclaim.AccountFree | src/allocator.c:519-526 | giving a page back leaves the account of those kept right |
| GcReclaim.AccountMaps | src/gc.c:779-784 | a page mapped while reclamation waits changes neither what is kept nor what is ahead |
| GcPrecise.ScanWordMeets | src/gc_incremental.c:223-265 | scanning marks only what was met: no word of a block met leads out of the blocks met |
| GcPrecise.MeetsMore | src/gc_incremental.c:311-349 | after a mutator's step this holds again, with what words lead to now and the blocks of a page mapped added |
| GcEvents.StoreKept | src/gc_write_tracking.c:74-91 | a store changes the one word and makes its page dirty, and keeps the invariant of a run |
| GcEvents.AllocateKept | src/gc_incremental.c:67-84 | an allocation yields the words in a block in use, marked during a cycle on a prepared page, and keeps the invariant of a run |
| GcEvents.RefillKept | src/gc.c:1150-1177 | one from a refilled buffer yields them without a mark |
| GcEvents.MapKept | src/gc.c:779-784 | a page mapped heads its list, and its blocks are free |
| GcEvents.TwoPausesCollect | src/gc_incremental.c:493-613 | in every run, of two successive pauses without deadline one finishes a collection and its reclamation, unless one was pending |
| GcOracle.Validate | src/gc_incremental.c:390-424 | the oracle reports exactly the reachable blocks without a mark |
| GcOracle.FullMark | src/gc.c:1583-1641 | a full collection by one thread marks exactly what its types let it reach, and with it everything the program holds |
| IncrementalGc.Collector.PrepareSlice | src/gc_incremental.c:178-191 | prepares pages until done or cut off; done means the cursor has run off the last list; blocks go only with sweeps that were due |
| IncrementalGc.Collector.Roots | src/gc_incremental.c:145-158 | every root word's target is marked afterwards |
| IncrementalGc.Collector.RescanDirty | src/gc_incremental.c:193-221 | resumes the half-rescanned page; clean means the batch is used up |
| IncrementalGc.Collector.Drain | src/gc_incremental.c:223-274 | resumes the half-scanned block, marks only what was met; done means the stack is empty, and without a deadline it is |
| IncrementalGc.Collector.TraceSlice | src/gc_incremental.c:280-292 | done means roots, batch and stack were traced to the end in this pause |
| IncrementalGc.Collector.CaptureAll | src/gc_write_tracking.c:208-219 | one pass over every page queues every dirty page |
| IncrementalGc.Collector.CollectDirty | src/gc_write_tracking.c:221-252 | whenever it reports complete, every dirty page is queued, although the walk spanned pauses with writes and new pages; no other page is |
| IncrementalGc.Collector.CaptureSlice | src/gc_incremental.c:294-309 | only a complete discovery clears the kernel's bits; a partial one waits |
| IncrementalGc.Collector.EmptySweepSlice | src/allocator.c:507-531 | when done, every empty page left is one of those kept, whose sizes are what is counted as retained, within the budget; each page given back was empty, and large or too large for the rest of the budget |
| IncrementalGc.Collector.CompleteCycle | src/gc_incremental.c:559-585 | at completion everything the program can reach is marked, and nothing that was not met since the cycle began; these marks are published, every page awaits a sweep by them, every unmarked block goes with its page or its sweep and every marked one stays; the oracle reports exactly the unmarked blocks that stray words lead to, nothing if and only if there is none, and no block in use if and only if none names a block in use handed out without a mark |
| IncrementalGc.Collector.Major | src/gc.c:1647-1706 | a full collection from any point of a cycle: the partial marks reclaim nothing, the published marks are exactly what types let it reach in the heap before, every block in use among these stays and every other goes with its page or its sweep |
| IncrementalGc.Collector.Pause | src/gc_incremental.c:493-613 | one pause of any kind keeps the invariant and what the program reaches; the cycle is given up only for pressure, missing support or a failure; without a deadline it reclaims to the end, completes a collection, or has prepared the pages for the next pause to |
| IncrementalGc.Collector.Perform | src/gc_incremental.c:493-613 | every event keeps the invariant and does exactly what it should to the heap and the records of the collector, and a mutator only touches blocks in use |
| IncrementalGc.Collector.Run | src/gc_incremental.c:493-613 | over any schedule every event does what it should, and at no point has anything the program can reach been freed |
| DirtyQueue.PlacedClaim | src/gc_write_tracking.c:43-44 | exchanging the flag makes one thread the owner of the page's link |
| DirtyQueue.PushKeeps | src/gc_write_tracking.c:45-47 | the compare-and-swap that succeeds puts the page in front and nowhere else |
| DirtyQueue.CaptureKeeps | src/gc_write_tracking.c:53-56 | a capture never meets an unfinished batch |
| DirtyQueue.PopKeeps | src/gc_write_tracking.c:57-65 | popping takes one page out of the batch and lets later writes queue it again |
| DirtyQueue.NoWriteIsForgotten | src/gc_write_tracking.c:40-65 | with no push in flight: flag set exactly for queued pages, each queued once, count exact, no write since the last pop forgotten |
| DirtyQueue.PushEnds | src/gc_write_tracking.c:40-48 | a thread that is not disturbed finishes its push in at most five steps |
| DirtyQueue.CanDrain | src/gc_write_tracking.c:40-65 | from every state some schedule empties queue and batch, and then no page is flagged and no write is left to find |
| PageModel.FlushFreeList | src/allocator.c:200-286 | sorted, in-range, non-adjacent runs covering exactly the listed blocks and the extents of unmarked objects; sizes keep tiling the page |
| PageModel.RunStep | src/allocator.c:215-226 | passing a listed run, possibly empty, keeps what is swept exact |
| PageModel.HeadStep | src/allocator.c:227-242 | freeing an unmarked object adds its extent and nothing else |
| Allocator.Flush | src/allocator.c:200-286 | objects with a mark are untouched, those without are free afterwards |
| Allocator.CutTakes | src/allocator.c:363-374 | blocks cut off were listed and are not any more, and nothing else becomes listed |
| Allocator.CutConservesExactly | src/allocator.c:363-374 | the other listed blocks stay listed if and only if the run is not used up, is the current one, or the current one is empty |
| Allocator.BlockZeroIsSkipped | src/allocator.c:372 | a page, with the marks of a sweep, on which an allocation skips a free block |
| Allocator.SkippedIsLost | src/allocator.c:372 | a skipped block is free, covered by no object, and before all listed runs |
| Allocator.LostStays | src/allocator.c:350-416 | it stays so while objects are allocated on the page |
| Allocator.SweepRecovers | src/allocator.c:200-286 | the next sweep lists it again, since a page's marks are only on starts of objects |
| Allocator.ObjectMarks | src/allocator.c:682-704 | marks stay only on starts of objects when an object is allocated, marked, over listed blocks |
| Allocator.TakeRunKeeps | src/allocator.c:292-343 | a refill takes at least one and at most the wanted number of free blocks, disjoint from objects and other buffers |
| Allocator.TakeBlockKeeps | src/gc.c:1173-1177 | a block from a buffer belonged to no object, no other buffer and no list |
| Allocator.TakeObjectKeeps | src/allocator.c:350-416 | the blocks of a variable-size object were all free |
| Allocator.TakeVar | src/allocator.c:357-377 | finds the lowest place with room among the blocks the page can serve, if there is one |
| Allocator.PublishedKeeps | src/gc.c:673-680 | wiping the buffers of stopped threads before publishing marks keeps the page consistent |
| Allocator.PageList.AllocFixedRun | src/allocator.c:292-343 | takes the lowest free run, up to the wanted length, of the first page in the order of the search that has one, swept first; a new page only if none has |
| Allocator.PageList.TlabAlloc | src/gc.c:1150-1177 | hands out the next block of the buffer, which is refilled in that way once it is used up; the block was not handed out, and every other object is kept |
| Allocator.PageList.AllocVar | src/allocator.c:350-416 | takes the lowest place with room of the first page that has any, swept first; the front of a new page only if none has; every other object is kept |
| Allocator.FirstObjectKeeps | src/allocator.c:378-387 | a new page with an object in front, which may leave its run empty, is consistent |
| Allocator.PageList.Wipe | src/gc.c:673-680 | a stop that publishes no marks wipes the buffers and changes nothing else |
| Allocator.PageList.Collect | src/gc.c:659-691 | a collection wipes all buffers and leaves every page to be swept |
| SizeClasses.Classify | src/allocator.c:418-443 | no request is refused; exactly the small ones without a finalizer get a fixed-size class, and others the first variable-size class of at most 254 blocks; the size is at least the request |
| SizeClasses.FirstPageSize | src/allocator.c:379-381 | the smallest power of two of pages with 1 KB more than the object |
| SizeClasses.NewPageLayout | src/allocator.c:136-197 | at most 65536 blocks, room for the request behind the size table, and the size doubled as often as the list is long |
| Allocation.Allocate | src/allocator.c:418-443 | no request is refused: it gets an object on a page of the list of its class, whose blocks have the class's size, large enough and not handed out before; the other lists are untouched |
| Allocation.AllocateVar | src/allocator.c:350-416 | first page size and layout of a new page always have room for the object of the class |
| Allocation.AllocateFixed | src/gc.c:1150-1177 | a small request gets a block of its class, and a new page has room for a whole buffer |
| SizeClasses.BlockInterior | src/allocator.c:706-725 | finds the object that covers a block, and -1 exactly when none does |
| ParallelMark.EnlistConserves | src/gc.c:1444-1462 | a hand-off neither loses nor copies stacked blocks |
| ParallelMark.ShareLeft | src/gc.c:1438-1456 | the rounded-up shares of the remaining workers cover what is left of the roots |
| ParallelMark.RootsAreShared | src/gc.c:1428-1462 | no worker is woken with more than its fair share of the roots |
| ParallelMark.NonePending | src/gc.c:1473-1479 | when no worker is pending none is active and every stack is empty |
| ParallelMark.ScanKeeps | src/gc.c:1533-1554 | winning a mark bit and pushing the block keeps every traced mark waiting once or wholly scanned |
| ParallelMark.NonePendingExact | src/gc.c:1473-1479 | the marks are then exactly the blocks reached through the words types follow and the roots that count |
| ParallelMark.MarkingIsExact | src/gc.c:1483-1558 | under every schedule no fatal assert is met, pending counts the active bits, and marking ends with exactly the blocks types let it reach |
| ParallelMark.MarkingCoversProgram | src/gc.c:1583-1641 | with types that cover the held words, marking ends with everything the program can reach |
| ParallelMark.SomeoneCanStep | src/gc.c:1464-1479 | until marking is over some thread can take a step that brings it closer to its end |
| ParallelMark.CanFinish | src/gc.c:1807-1825 | from every state that keeps the invariant some schedule finishes marking |
| StopWorld.SelfKeeps | src/gc.c:398-421 | the blocking counter is the number of open locks and sections at every point of locking and unlocking |
| StopWorld.HaltedStays | src/gc.c:1942-1975 | a thread that blocks or is on its way to park stays so, and touches nothing, while the stop flag is up |
| StopWorld.OwnerActs | src/gc.c:659-691 | a stop completes only after the owner has looked at every registered thread; the owner alone changes the list, and gives up the lock only in a world that is not stopped |
| StopWorld.StoppedWorldIsStill | src/gc.c:659-691 | in every reachable stopped state no registered thread but the collecting one may touch the heap |
| StopWorld.OthersLeaveTheHeapAlone | src/gc.c:2802-2806 | however all other threads run on, a stopped world stays stopped with the same heap, also in exclusive sections |
| StopWorld.WorldStopsAndResumes | src/gc.c:659-691 | from every state, and for every thread that has not gone, some schedule stops the world for it to collect, and then some schedule brings every thread back to its own code |
| StopWorld.SomeoneNearer | src/gc.c:659-691 | until the world is settled the owner, the thread it waits for, or a waiter can step towards it |
| RootTable.LinkKeeps | src/gc.c:438-445 | linking puts an index on the chain of its bucket; the chains partition the linked indices |
| RootTable.UnlinkKeeps | src/gc.c:447-452 | unlinking takes an index off its chain and leaves the others as they are |
| RootTable.MoveKeeps | src/gc.c:496-504 | moving the last entry moves its place in its chain |
| RootTable.Roots.Grow | src/gc.c:456-473 | twice the room, the same entries, every one linked afresh |
| RootTable.Roots.Add | src/gc.c:454-479 | appends the address and its owner |
| RootTable.Roots.Find | src/gc.c:488-492 | the chain walk finds the highest index with the address |
| RootTable.Roots.Remove | src/gc.c:485-508 | deletes the highest-indexed equal address, with its owner, and moves the last entry there; otherwise changes nothing |
| RootTable.RemoveSwapLosesOne | src/gc.c:494-505 | exactly the removed entry is lost |
| RootTable.AddThenRemove | src/gc.c:454-508 | removing the address just added restores the table |
| Traps.WellTrappedExactly | src/hlpatch.c:798-854 | code is well trapped if and only if on every execution, throws included, the stack fits the regions, its height and kinds are those of the instruction, ends match, returns leave no trap and throws land inside |
| Traps.WellTrappedRunsSafely | src/hlpatch.c:798-854 | the half of it that protects the machine |
| Traps.ReachedIsMet | src/hlpatch.c:826-844 | every state the verifier walks is met by an execution |
| Traps.FallsOffExactly | src/hlpatch.c:845-846 | accepted code falls off its end if and only if its last instruction is reached and goes on to the next |
| Traps.PlainFallsOff | src/hlpatch.c:845-846 | accepted code that falls off |
| Traps.ExecutionFlows | src/hlpatch.c:826-844 | one instruction of the machine follows the flow the verifier walks |
| TrapVerifier.ComputeRegions | src/hlpatch.c:811-818 | the region table is the nesting in instruction order, or there are too many |
| TrapVerifier.Enter | src/hlpatch.c:845-850 | records a successor once, or finds it recorded in another state |
| TrapVerifier.PendingFits | src/hlpatch.c:805-820 | the worklist never outgrows its buffer of one entry per instruction |
| TrapVerifier.Explore | src/hlpatch.c:821-851 | rejects exactly an instruction that is wrong in its state or meets another state |
| TrapVerifier.ValidateTraps | src/hlpatch.c:804-854 | accepts if and only if the code runs safely; the tables hold depth, mask and region of exactly the instructions reached, and show whether it falls off its end |
| TrapVerifier.ValidateFunction | src/hlpatch.c:936-956 | accepts if and only if branches stay inside and the code runs safely |
| PatchReclaim.RedirectCounted | src/hlpatch.c:1647 | an owner's reference count is the number of its slots after every redirection |
| PatchReclaim.FreeKeeps | src/hlpatch.c:1652-1657 | freeing keeps the invariant: no reader, no other thread and not the caller has the code |
| PatchReclaim.PickKeeps | src/hlpatch.c:1652-1655 | reading a count of zero after publication means no reader holds, or can still get, the superseded code |
| PatchReclaim.FreedCodeIsUnreachable | src/hlpatch.c:85-125 | for every interleaving of readers, threads and commits freed code is in no slot, on neither list and in no reader's hands, and reference counts are numbers of slots |
| PatchReclaim.StacksKeepTheirCode | src/gc.c:2814-2829 | a thread never has freed code on its stack, whatever the others commit, if none of its own commits begins inside code that loses all its slots |
| PatchReclaim.PublishedList | src/hlpatch.c:128-142 | for every interleaving the published list is exactly the distinct owners, at most one longer than before |
| PatchReclaim.CommitFreesExactly | src/hlpatch.c:1647-1657 | however readers interleave, a commit frees exactly the code that lost all slots, that no stack but the caller's has, and for which no reader was counted |
| PatchReclaim.CommitEnds | src/hlpatch.c:1647-1657 | a commit waits for no reader: its own steps bring it to its end |
| PatchReclaim.ACallerLosesItsCode | src/gc.c:2819-2829 | a run in which a thread commits away the code it runs in |
| PatchList.Publish | src/hlpatch.c:134-142 | the distinct owners, sorted by code address |
| PatchList.Find | src/hlpatch.c:154-161 | bisection finds exactly the entry a scan would find |
| Leb128.UlebRoundTrip | src/jit_gdb.c:62-70 | an unsigned LEB128 number reads back, whatever follows |
| Leb128.UlebShortest | src/jit_gdb.c:62-70 | and no bytes that read as the number are fewer |
| Leb128.SlebRoundTrip | src/jit_gdb.c:72-83 | a signed LEB128 number reads back, whatever follows |
| Leb128.SlebShortest | src/jit_gdb.c:72-83 | and no bytes that read as the number are fewer |
| Leb128.ByteBuffer.AppendUleb | src/jit_gdb.c:62-70 | the loop appends the encoding |
| Leb128.ByteBuffer.AppendSleb | src/jit_gdb.c:72-83 | the loop appends the encoding |
| LineProgram.ProgramRoundTrip | src/jit_gdb.c:124-142 | a reader with the header's parameters and the standard's opcodes runs the bytes to exactly what the instructions mean |
| LineProgram.LineWriter.EmitRow | src/jit_gdb.c:123-137 | the state machine gains exactly the row of the opcode |
| LineProgram.LineWriter.EmitFunction | src/jit_gdb.c:111-143 | one row per listed opcode, in order, and an end of sequence not before the last |
| LineProgram.LineWriter.EmitAll | src/jit_gdb.c:110-144 | the rows of all functions with debug information |
| LineProgram.AddressesAscend | src/jit_gdb.c:117-138 | addresses increase within a sequence if the offsets are in order |
| LineTable.FilesRoundTrip | src/jit_gdb.c:103-107 | names without a zero byte that are not empty read back |
| LineTable.FilesReadAreProper | src/jit_gdb.c:103-107 | no other name can be read from a table |
| LineTable.HeaderRoundTrip | src/jit_gdb.c:100-102 | a reader takes from the header the parameters the program was written for |
| LineTable.Build | src/jit_gdb.c:89-148 | a reader that knows only the standard, and follows the lengths and parameters it reads, finds the names and exactly the rows, if and only if the names are proper |
| BitStrings.ClearsTrailingOnes | src/jit_aarch64_emit.c:692-696 | x & (x + 1) clears the trailing ones |
| LogicalImmediate.RotateRightRotates | src/jit_aarch64_emit.c:666-668 | the two shifts are a rotation |
| LogicalImmediate.RotationFindsRun | src/jit_aarch64_emit.c:692-697 | the normalized value starts with a run of ones and ends with a zero |
| LogicalImmediate.PeriodDivides | src/jit_aarch64_emit.c:699-707 | repeating when rotated by the size implies that the size divides the width |
| LogicalImmediate.Sound | src/jit_aarch64_emit.c:687-715 | accepted values are what DecodeBitMasks makes of the fields |
| LogicalImmediate.Complete | src/jit_aarch64_emit.c:687-715 | every value some fields decode to is accepted |
| LogicalImmediate.RecognisesExactly | src/jit_aarch64_emit.c:687-715 | a value is accepted if and only if it can be encoded |
| LogicalImmediate.Sound32 | src/jit_aarch64_emit.c:727-743 | accepted 32-bit values decode to themselves in 32 bits |
| LogicalImmediate.Recognises32Exactly | src/jit_aarch64_emit.c:727-743 | a 32-bit value is accepted if and only if it can be encoded without N |
| LoadImmediate.MoveRoundTrip | src/jit_aarch64_emit.c:181-185 | the fields of MOVZ, MOVN and MOVK words read back |
| LoadImmediate.LogicalImmediateRoundTrip | src/jit_aarch64_emit.c:137-141 | the fields of a logical immediate word read back |
| LoadImmediate.LogicalRegisterRoundTrip | src/jit_aarch64_emit.c:157-163 | the fields of a logical register word read back |
| LoadImmediate.SmallLoads | src/jit_aarch64_emit.c:765-787 | one MOVZ or MOVN loads a small constant |
| LoadImmediate.BitmaskLoads | src/jit_aarch64_emit.c:789-802 | one ORR loads a bitmask constant |
| LoadImmediate.EmitHalfwords | src/jit_aarch64_emit.c:831-863 | MOVZ or MOVN and MOVKs load the constant, one for each halfword that differs from the fill, and nothing is emitted exactly when none does |
| LoadImmediate.CountHalfwords | src/jit_aarch64_emit.c:804-829 | counts the halfwords that are not zero and those that are all ones; there are never more of these, so MOVN is never chosen |
| LoadImmediate.OnesAreNotUsed | src/jit_aarch64_emit.c:818-829 | a constant with two halfwords to set from ones and four from zero |
| LoadImmediate.Load | src/jit_aarch64_emit.c:755-864 | leaves the constant modulo 2^64, or modulo 2^32 if and only if it is zero or its low half is not; more than one instruction only if no ORR will do |

## Left out

- The test-only software backend of write tracking as a whole: its queue is modelled in `DirtyQueue`, its use in place of the kernel's dirty bits is not.
- Finalizers: objects on finalizer pages disappear when unmarked; the native code that runs then is not modelled.
- Scan profiles, retention reports, latency traces, statistics, pacing of cycles and frame budgets.
- `ParallelMark`, `StopWorld`, `DirtyQueue` and `PatchReclaim` are state machines on values, one step for each access to shared memory: the loops of the source appear as program counters, and operations on a thread's own variables are merged with the access before them.
- Aliasing between page headers: a page is a value in the list that holds it, and a saved page pointer is a position counted from the end of its list.
- Native threads' stacks and registers: they are a given set of root words, so saving a context is no step of `StopWorld`.
- Allocation owners and their retired classes, and the search of the free page lists across slots.
- Growth of mark stacks and free lists: stacks and lists are unbounded sequences.
- `GC_NO_THREADS`: `StopWorld` models the threaded configuration, and callers that balance their locks and sections.
- The hash of root addresses: the root table is proved for every hash function, with a remainder in place of the mask (they agree since the sizes are powers of two).
- Registers and types in `validate_function`: only branch bounds and traps are modelled.
- Staging and rollback of a patch, instance migration and the release of all patches with a module.
- LineTable.Build: failure to grow the buffer, and units of 4 GB or more, whose lengths would be truncated.
- Debugger, profiler transport, HLB and HLP parsing, ELF images and unwind tables.
