# Verified models of a Linux programming interface repository

A Dafny project beside the repository's C and Go programs. It models the parts whose correctness depends on
whole runs: a directory cache fed by inotify events, a heap allocator, notification and signal protocols, a
namespace forest, and a few in-place and block-wise algorithms. `dafny verify dfyconfig.toml` checks everything.

## What is proved

**The inotify directory cache** (`tlpi-dist/inotify/inotify_dtree.c`). `DirTree` is the directory tree (identity,
parent, name); `WatchModel` the kernel's watches and event queue, the cache as a map, and what handling an event
does to them; `TreeMonitor` the program itself with its slot table; `EventLoop` the chunked reading of events.
- `CacheInterleaving`: other processes create and remove directories at any moment. Whenever the queue is empty the
  cache is exact, and no event ever names an unknown descriptor, so nothing is rebuilt.
- `LoopInterleaving`: the running loop, with others acting before each of its turns and events read in chunks of any
  size, makes just such a run.
- `EventLoop`: the chunks do not change the sequence of steps. Every rename pair is taken as a pair unless a second read is
  interrupted while an event is queued; no more pairs are split than there are such interruptions.
- `CacheRenames`: a rename to a new name, within, out of, into or beside the monitored trees, handled before anything
  else happens. The cache agrees with the tree afterwards, also when the two events are handled one by one.
- `CacheReplacements`, `MaskedArrivals`, `ReplacementOutcomes`: a rename onto an existing empty directory, handled before
  anything else happens. The cache agrees afterwards exactly when the moved directory was monitored or its new parent is
  not, provided that the two events of the move are handled together. Handled one by one they lose the directory.
- `RenameRuns`, `MaskedRuns`: over whole runs with all of these, the cache agrees at every quiet moment exactly when no
  arrival is masked, that is, when no replacement of the failing kinds occurs.
- `CrossedMoves`: one directory leaves the trees and another arrives before either is handled. The two events look like
  the halves of one rename; only the cookies differ. The cache agrees afterwards, also in the running program.
- `MonitorAgreement`: the running program reaches an exact cache. A rename that is handled late is missed when its two
  events are taken together, and found when they are taken one by one.
- `MonitorRenames`: the running program after a rename. For a new name its slot table is exact once no event is left,
  whatever is interrupted; for a rename onto an empty directory exactly under the condition of `ReplacementOutcomes`.

**The allocator** (`ch07/malloc_and_free.c`). `HeapBlocks` says what one call does to the sequence of blocks and what
every run keeps; `HeapMemory` relates headers in memory to that sequence; `Allocator` is the pointer code. The code as
written omits two stores of a `prev` pointer. `relink == false` is that code, `relink == true` a deviation that adds the
two stores.
- As written, each call's effect on the back links is stated exactly (`HeapGrowth`, `StaleLinks`). `StaleLinks` gives the
  list that `my_free` leaves whatever the stale `prev` fields name, and exactly when it is the specified one.
- `PayloadWrites`: which calls store inside a block in use. `my_malloc` never does; `my_free` as written does exactly when
  it joins the freed block to a stale header there. `FreesSafelyIff` is the exact condition for a right `my_free`.
- `AllocatorRuns`: whole runs, with the caller writing anything inside its blocks between calls. The code as written
  follows a run up to the first `my_free` whose condition fails, and not further. Runs that free in last-in-first-out order
  never meet such a call. With the two stores added no run does, and no call stores inside a block in use.
- What my_malloc and my_free do is stated also for heaps with gaps between the blocks, as a call that went wrong leaves them.
- A run may contain failed calls of `sbrk`, except the one whose failure the code does not test.

**Protocols.** `NotifyByThread` and `NotifyBySignal` (one-shot `mq_notify`), `ChildReaper` (coalesced `SIGCHLD`),
`SemaphoreCounter`, `AppendRace` (`O_APPEND` against `lseek` and `write`) are step relations over all interleavings,
with safety, and where the program ends or drains a queue, progress. The meaning of signals, notifications, semaphores and
writes is that of POSIX.1-2017 (XSH section 2.4.1; XSH chapter 3, `mq_notify`, `sem_wait`, `write`).

**Namespaces.** `NamespaceForest` builds and walks the forest of `namespaces_of.go`, `NamespaceDisplay` is the order in
which it is displayed, `AncestorSearch` the descriptor bookkeeping of `ns_capable.c`, `WrapText` the greedy line wrapping.

**In-place and block-wise algorithms.** `Environ` holds two implementations of `unsetenv` and `setenv`, `Tail` the
backward search of `tail`.

## Where the code differs from what it says

- `my_free` relies on `prev` fields that `my_malloc` and `my_free` do not keep up to date. It may join the freed block
  to another across a live one (`AllocatorRuns.LostBlock`), leave two free blocks side by side
  (`AllocatorRuns.Uncoalesced`, the calls of the repository's own `check_malloc_free`), cut live blocks off the list
  when it gives the last block back (`AllocatorRuns.CutOff`), or store a size and a link inside a block in use
  (`AllocatorRuns.Overwritten`). `StaleLinks.FreesIffWell` is the exact condition for the list,
  `PayloadWrites.MergedInside` for the store, and `PayloadWrites.FreesSafelyIff` for both.
- Enlarging the last block does not test whether `sbrk` succeeded (`HeapBlocks.MallocKeepsHeap`,
  `AllocatorRuns.FailedGrowth`).
- A directory from outside the trees that replaces an empty monitored one is not watched: the old entry still has its
  path when the arrival is handled (`ReplacementOutcomes.ReplacementIsMissed`, `ReplacementOutcomes.ReplacementAgreesIff`).
- When the second read in `processInotifyEvents` is interrupted, its result -1 is added to the byte count, because the
  test is on `errno != -1`. This is harmless (`EventLoop.Counted`, `EventLoop.ProcessInotifyEvents`).
- If no root namespace is met, `rootNS` keeps its zero value, which is the key of the invisible entry, and everything is
  displayed twice (`NamespaceForest.DisplayVisits`). This happens on a kernel without user namespaces: there is no `user`
  link to open, and the ioctl fails with EPERM for every namespace (`NamespaceForest.ShownTwice`).
- `tail` prints one line too many for a file that does not end with a newline, unless n, the number of lines
  asked for, is larger than the number of newlines (`Tail.TailIsLastLines`, `Tail.OneLineTooMany`).
- `setenv` in `tlpi-dist/proc/setenv.c` removes the old definitions before it allocates, so that a failed allocation or
  `putenv` loses the variable (`Environ.Environment.SetEnv`).

## Assumptions

- Watch descriptors are not reused, one `nftw` walk is a single step, and paths are shorter than `PATH_MAX`.
- Monitored roots are not nested in each other, are written without a trailing slash, and are never moved or deleted.
- No process holds a removed directory open, which would delay its `IN_DELETE_SELF` past later events. That of a replaced
  directory comes after the events of the move.
- The break is moved only by the allocator, and sizes do not wrap. The caller writes only inside the blocks it holds: free
  memory, and the header in front of a payload, stay as the code left them.
- Reads of a regular file return what was asked for.
- The kernel's parent relation of namespaces is finite, without cycles, and has at most one root.
- Outcomes of `sbrk`, `malloc` and `putenv`, the chunks that are read, and interruptions are parameters or arbitrary choices.

## Model

| member | source | states |
|---|---|---|
| HeapBlocks.FirstFit | ch07/malloc_and_free.c:82-113 | the index is that of the first free block that is large enough; every earlier block is not |
| HeapBlocks.BlocksApart | ch07/malloc_and_free.c:18-22 | in a heap with or without gaps distinct blocks share no byte and lie inside [base, break) |
| HeapBlocks.MallocKeepsHeap | ch07/malloc_and_free.c:200-239 | one request keeps the heap coalesced; it stays tiled iff the last block is not enlarged after a failed sbrk; NULL leaves the heap unchanged and is returned iff a new block is needed and sbrk fails; otherwise exactly one block becomes live, disjoint from the others, its payload between the request and a header more; trailing free space stays below the limit if it was |
| HeapBlocks.PageRoundIsLeast | ch07/malloc_and_free.c:215 | the size asked of sbrk is the least whole number of pages that is more than the bytes missing |
| HeapBlocks.MallocMovesBreak | ch07/malloc_and_free.c:212-230 | the break stays where a block fits or sbrk fails, else it moves by the least whole number of pages that is more than the request, or than what the free last block lacks |
| HeapBlocks.MallocSpaced | ch07/malloc_and_free.c:200-239 | on a heap with gaps the blocks stay apart and below the break iff sbrk succeeds or no block is enlarged beyond the break |
| HeapBlocks.TrimKeepsHeap | ch07/malloc_and_free.c:171-198 | the last block is given back iff it is free and at least four pages; nothing live is lost |
| HeapBlocks.FreeKeepsHeap | ch07/malloc_and_free.c:148-250 | one free of a live block keeps the heap tiled and coalesced, removes exactly that block from the live ones, gives the last block back iff it is then free and at least four pages, and leaves less than four pages of trailing free space |
| HeapBlocks.EveryRunKeepsHeap | ch07/malloc_and_free.c:62-250 | after any sequence of requests and frees of live blocks in which no enlargement of the last block fails: tiled, coalesced, trimmed; less than four pages free at the end; live blocks disjoint; each call adds or removes only its own block, no other is moved or resized |
| HeapBlocks.StackRunKeepsLinks | ch07/malloc_and_free.c:116-167 | in a last-in-first-out run the list is the live blocks in allocation order and at most one free block after them, and no call loses a back link |
| HeapMemory.ResizedBackLinks | ch07/malloc_and_free.c:116-129 | when a block is split, a doubly linked list stays so iff the block is the last one or the omitted store is added |
| HeapMemory.MergedLinks | ch07/malloc_and_free.c:148-167 | where the freed block's own prev is right the forward list becomes the coalesced one; back links survive iff no next block is joined in front of a third, or the omitted store is added |
| HeapMemory.LastLinkIsRight | ch07/malloc_and_free.c:189-193 | after a free in a doubly linked list the trailing free block, the one that may be cut off, has the right prev even where that free has lost another link |
| StaleLinks.MergedList | ch07/malloc_and_free.c:148-167 | the list that free_and_merge as written leaves, whatever the prev of the freed block names: the right neighbour, another block, or no block at all |
| StaleLinks.MergedIffWell | ch07/malloc_and_free.c:152-166 | that list is the coalesced one iff the prev is right, or the block before is in use and either what prev names is in use, or it is no block and there is nothing to join in front |
| StaleLinks.CutsIffRight | ch07/malloc_and_free.c:185-195 | release_resource_if_need cuts off just the last block iff that block's prev is right or is not read |
| StaleLinks.FreesIffWell | ch07/malloc_and_free.c:241-250 | my_free as written of a live block leaves the specified heap iff the two prev fields it reads are right or do not matter |
| StaleLinks.BackLinkedFreesWell | ch07/malloc_and_free.c:241-250 | in a doubly linked heap that condition always holds |
| StaleLinks.LinkedFrees | ch07/malloc_and_free.c:241-250 | from a doubly linked heap my_free leaves the specified one, with or without the added store; it stays doubly linked iff no next block is joined in front of a third, or the omitted store is added |
| StaleLinks.FreesSpaced | ch07/malloc_and_free.c:171-250 | on a heap with gaps the blocks stay apart and below the break unless a last block whose prev names no block is given back |
| HeapGrowth.HandedOutDown | ch07/malloc_and_free.c:116-129 | a stale prev always names a lower address: kept by every split |
| HeapGrowth.MallocDown | ch07/malloc_and_free.c:200-239 | so does my_malloc as a whole, with or without gaps and whether or not sbrk succeeds |
| HeapGrowth.MallocBackLinks | ch07/malloc_and_free.c:200-239 | my_malloc keeps a doubly linked list so iff it splits no block that has a successor, or the omitted store is added |
| HeapGrowth.MallocPrev | ch07/malloc_and_free.c:116-129 | as written no prev of a block already in the list changes, right or stale |
| StaleLinks.MergesDown | ch07/malloc_and_free.c:148-167 | links that point down stay so in every merge, also one that goes wrong |
| PayloadWrites.MergedInside | ch07/malloc_and_free.c:152-159 | free_and_merge as written stores strictly inside a block iff the freed block's prev names an address there whose header says free |
| PayloadWrites.FreesSafelyIff | ch07/malloc_and_free.c:241-250 | my_free as written leaves the specified heap and stores nothing inside a block in use iff FreesIffWell's condition holds and prev names no free header inside a block in use |
| PayloadWrites.LinkedFreeKeeps | ch07/malloc_and_free.c:241-250 | in a doubly linked heap my_free, with or without the added store, stores nothing inside a block in use |
| PayloadWrites.MallocKeepsPayloads | ch07/malloc_and_free.c:200-239 | my_malloc stores nothing inside a block in use, on any heap whose blocks do not overlap |
| PayloadWrites.OwnWritesKeep | ch07/malloc_and_free.c:18-22 | whatever the caller writes inside its blocks, the list and its links stay as they are |
| Allocator.Allocator.AddBlock | ch07/malloc_and_free.c:62-78 | the block is appended to the list with the right prev; no other link changes |
| Allocator.Allocator.Scan | ch07/malloc_and_free.c:82-113 | the first fit, else the last block if it is free, with the flag set exactly then |
| Allocator.Allocator.ResizeBlock | ch07/malloc_and_free.c:116-129 | the list becomes the one with the block cut and the rest inserted as a free block |
| Allocator.Allocator.Allocate | ch07/malloc_and_free.c:131-145 | the break moves by the size and a header is written there, or nothing changes and NULL is returned |
| Allocator.Allocator.GrowByBlock | ch07/malloc_and_free.c:213-221 | the list gains a block of PageRound bytes (PageRoundIsLeast) at the old break; on failure nothing changes |
| Allocator.Allocator.GrowLast | ch07/malloc_and_free.c:222-230 | the last block grows by PageRound of the bytes it lacks (PageRoundIsLeast), whether or not sbrk succeeded |
| Allocator.Allocator.Malloc | ch07/malloc_and_free.c:200-239 | on any heap whose blocks do not overlap the pointer code computes HeapBlocks.Malloc and the memory of HeapGrowth.MallocMemory, leaves the forward list intact, stores nothing inside a block in use, moves the break by the least whole number of pages that is enough, and leaves blocks that do not overlap under an exact condition |
| Allocator.Allocator.FreeAndMerge | ch07/malloc_and_free.c:148-167 | the stores made, for any memory, with or without the added store |
| Allocator.Allocator.ReleaseIfNeeded | ch07/malloc_and_free.c:171-198 | one pass over the list; iff four pages or more are free at its end, the list is cut after what the last block's prev names and the break goes back to the last block; for every list with links that point down |
| Allocator.Allocator.FreeBlock | ch07/malloc_and_free.c:246-249 | the list and the memory after the merge and the cut, for every list whose links point down, as an earlier call that went wrong may have left it |
| Allocator.Allocator.Free | ch07/malloc_and_free.c:241-250 | the list and memory after the call, on any heap whose blocks do not overlap; as written on a valid heap: it computes HeapBlocks.Free and stores nothing inside a block in use iff FreesSafely; the blocks still do not overlap iff no block that was given back stays in the list |
| Allocator.Allocator.Write | ch07/malloc_and_free.c:241-250 | the caller's own writes inside its blocks keep the list, the back links, and links that point down |
| AllocatorRuns.Replay | ch07/malloc_and_free.c:62-250 | with the added stores every legal run, the caller writing what it likes inside its blocks between calls, leaves the doubly linked list of the specified heap, and no call stores inside a block in use; as written the same holds of every run that loses no link |
| AllocatorRuns.Perform | ch07/malloc_and_free.c:200-250 | one operation of the code as written leaves the specified heap and every block in use as it was iff its guard holds |
| AllocatorRuns.ReplayAsWritten | ch07/malloc_and_free.c:62-250 | the code as written follows every run, whatever the caller writes inside its blocks between calls, up to the first release whose guard fails, and not further |
| AllocatorRuns.ReplayStack | ch07/malloc_and_free.c:62-250 | every last-in-first-out run of the code as written keeps the list doubly linked, and no call stores inside a block in use |
| AllocatorRuns.KeptSpace | ch07/malloc_and_free.c:171-198 | a run after which two pages are free at the end of the heap and the break has not moved |
| AllocatorRuns.LostBlock | ch07/malloc_and_free.c:121-166 | a run of the code as written after which a live block is outside the list and inside a free block of it |
| AllocatorRuns.Uncoalesced | ch07/malloc_and_free.c:253-270 | the calls of check_malloc_free up to its second my_free leave two free blocks side by side |
| AllocatorRuns.CutOff | ch07/malloc_and_free.c:189-195 | a run after which a live block below the break is not in the list, because the cut followed a stale prev |
| AllocatorRuns.Overwritten | ch07/malloc_and_free.c:152-159 | a run in which my_free leaves the specified list but stores a size and a next inside a block in use |
| AllocatorRuns.FailedGrowth | ch07/malloc_and_free.c:222-230 | a run in which sbrk fails and a block that reaches beyond the break is handed out |
| PathStrings.UnderJoin | tlpi-dist/inotify/inotify_dtree.c:606-608 | the prefix test on dir/name holds of that path itself and of what is above dir, and of nothing else |
| PathStrings.JoinInjective | tlpi-dist/inotify/inotify_dtree.c:599-600 | a joined path determines directory and name |
| DirTree.PathInjective | tlpi-dist/inotify/inotify_dtree.c:323-331 | monitored directories with the same path are the same |
| DirTree.UnderIsAbove | tlpi-dist/inotify/inotify_dtree.c:645-647 | the string test on two cached paths is the ancestor relation; a shared name prefix is not enough |
| DirTree.RenameAt | tlpi-dist/inotify/inotify_dtree.c:593-621 | after a rename the paths of the directory and its descendants have the new prefix, all others are as before |
| WatchModel.InSyncIsExact | tlpi-dist/inotify/inotify_dtree.c:15-28 | agreement: an entry is cached iff it is the descriptor and path of a live directory |
| WatchModel.WalkExtends | tlpi-dist/inotify/inotify_dtree.c:497-573 | a walk in any order adds watches for exactly the directories visited, gives new ones new descriptors, keeps every entry, and makes no entry stale or fresh |
| WatchModel.RebuildAgrees | tlpi-dist/inotify/inotify_dtree.c:684-722 | rebuilding leaves the cache in agreement with the tree |
| TreeMonitor.FillAdds | tlpi-dist/inotify/inotify_dtree.c:309-318 | filling an unused slot adds one entry to the map and disturbs no other |
| TreeMonitor.EmptyRemoves | tlpi-dist/inotify/inotify_dtree.c:270-279 | emptying a slot removes one entry of the map |
| TreeMonitor.RewriteIsMap | tlpi-dist/inotify/inotify_dtree.c:605-620 | slot-wise rewriting is rewriting of the map; unused slots never match |
| TreeMonitor.Monitor.constructor | tlpi-dist/inotify/inotify_dtree.c:684-722 | the initial build agrees with the tree |
| TreeMonitor.Monitor.FindWatch | tlpi-dist/inotify/inotify_dtree.c:230-238 | -1 iff the descriptor is not in the map, otherwise its slot, which holds its path |
| TreeMonitor.Monitor.MarkSlotEmpty | tlpi-dist/inotify/inotify_dtree.c:270-279 | the map loses that slot's descriptor and nothing else |
| TreeMonitor.Monitor.FindEmptySlot | tlpi-dist/inotify/inotify_dtree.c:283-305 | an unused slot; growth keeps the map |
| TreeMonitor.Monitor.AddWatchToCache | tlpi-dist/inotify/inotify_dtree.c:309-318 | the map gains the entry |
| TreeMonitor.Monitor.PathnameToSlot | tlpi-dist/inotify/inotify_dtree.c:323-331 | -1 iff no entry has the path |
| TreeMonitor.Monitor.RewriteCachedPaths | tlpi-dist/inotify/inotify_dtree.c:593-621 | every path under the old name gets the new prefix, no other changes |
| TreeMonitor.Monitor.ZapSubtree | tlpi-dist/inotify/inotify_dtree.c:627-674 | all entries under the path and their watches are removed and counted; a failed removal is reported iff some entry had no watch |
| TreeMonitor.Monitor.TraverseTree | tlpi-dist/inotify/inotify_dtree.c:497-548 | one visit: a watch, and an entry unless the descriptor has one |
| TreeMonitor.Monitor.WatchDir | tlpi-dist/inotify/inotify_dtree.c:555-573 | the subtree now at the path is watched, or nothing if the path is gone; the result is the number of entries added |
| TreeMonitor.Monitor.Reinitialize | tlpi-dist/inotify/inotify_dtree.c:684-722 | everything is dropped and all monitored directories are walked |
| TreeMonitor.Monitor.ProcessNextEvent | tlpi-dist/inotify/inotify_dtree.c:731-1023 | the slot-table code makes exactly the step of the map-level relation; takes two events iff they are IN_MOVED_FROM and IN_MOVED_TO with equal cookies; rebuilds, and then the cache is exact, iff the queue has overflowed, a watch descriptor is unknown, or an entry to be removed has no watch; and asks for more input, changing nothing, iff an IN_MOVED_FROM with a known descriptor is last in the buffer at the first try |
| TreeMonitor.Monitor.ProcessMovedFrom | tlpi-dist/inotify/inotify_dtree.c:820-956 | the same for IN_MOVED_FROM alone: paired with the next event iff that is an IN_MOVED_TO with the same cookie, zapped, or kept for a second try |
| EventLoop.HandledIsConsume | tlpi-dist/inotify/inotify_dtree.c:1072-1078 | handling the head of the buffer is the step on buffer and queue put together |
| EventLoop.HandledIsStep | tlpi-dist/inotify/inotify_dtree.c:820-956 | the same for an IN_MOVED_FROM that is handled by itself although more is queued |
| EventLoop.ReadMore | tlpi-dist/inotify/inotify_dtree.c:1094-1140 | the second read, which takes at least one more event, or is interrupted at any moment and takes none, with the byte count it leaves |
| EventLoop.Turn | tlpi-dist/inotify/inotify_dtree.c:1072-1141 | one turn of the loop is one step, a rebuild, or a request for more; the step takes a rename pair as a pair unless the second read was interrupted while an event was queued |
| EventLoop.ProcessInotifyEvents | tlpi-dist/inotify/inotify_dtree.c:1036-1143 | for every chunking the call makes consecutive steps on the undivided stream, at least one unless it rebuilds, and a rebuild, which leaves an exact cache and an empty queue, only where the step relation asks for it; no more pairs are split than second reads are interrupted while an event is queued, none if there is no such interruption; there are at most as many second reads as steps, plus one |
| LoopInterleaving.ProcessAmid | tlpi-dist/inotify/inotify_dtree.c:1036-1143 | while other processes create and remove directories before each turn of the loop, program and others together make a trace of the interleaving model |
| LoopInterleaving.Run | tlpi-dist/inotify/inotify_dtree.c:1036-1143 | from the initial build on, any number of calls amid other processes is a run to which EveryInterleavingAgrees applies; the slot table is exact whenever no event is left |
| CacheInterleaving.MakeDirKeepsInv | tlpi-dist/inotify/inotify_dtree.c:777-801 | a creation at any moment keeps the invariant: each live child of a watched directory is watched, or its creation is queued behind the removal of every stale entry with the same path |
| CacheInterleaving.RemoveDirKeepsInv | tlpi-dist/inotify/inotify_dtree.c:806-818 | so does a removal |
| CacheInterleaving.ConsumeKeepsInv | tlpi-dist/inotify/inotify_dtree.c:741-817 | handling the next event keeps the invariant, removes just that event, and never asks for a rebuild |
| CacheInterleaving.EveryInterleavingAgrees | tlpi-dist/inotify/inotify_dtree.c:497-573 | in every interleaving of creations, removals, file events and handling: exact cache whenever the queue is empty, no unknown descriptor ever |
| CacheInterleaving.PauseBringsAgreement | tlpi-dist/inotify/inotify_dtree.c:1072-1078 | once the other processes pause, handling the queued events brings agreement |
| CacheRenames.InsideAgrees | tlpi-dist/inotify/inotify_dtree.c:895-927 | a rename within the trees: the paired events restore agreement by rewriting |
| CacheRenames.SplitAgrees | tlpi-dist/inotify/inotify_dtree.c:862-874 | a rename within the trees whose two events are handled one by one: zapped and walked again, the cache agrees |
| CacheRenames.OutsideAgrees | tlpi-dist/inotify/inotify_dtree.c:929-952 | a rename out of the trees: zapping removes exactly the subtree |
| CacheRenames.InwardAgrees | tlpi-dist/inotify/inotify_dtree.c:765-804 | a rename into the trees: the moved subtree is watched |
| CacheRenames.BesideAgrees | tlpi-dist/inotify/inotify_dtree.c:765-952 | a rename outside the trees is not seen and changes nothing |
| CacheReplacements.ReplacementIsFollowed | tlpi-dist/inotify/inotify_dtree.c:895-952 | a rename onto an empty directory where the moved one was monitored or the new parent is not: handling it keeps the invariant |
| ReplacementOutcomes.ReplacementAgreesIff | tlpi-dist/inotify/inotify_dtree.c:803-818 | when all its events have been handled, the two of the move together, the cache agrees iff the moved directory was monitored or the new parent is not; no rebuild in either case |
| MaskedArrivals.ReplacementIsLost | tlpi-dist/inotify/inotify_dtree.c:803-818 | a directory from outside that replaces a monitored one ends up live and not watched, whatever the tree |
| MaskedArrivals.SplitReplacementIsLost | tlpi-dist/inotify/inotify_dtree.c:803-818 | if the two events of the move are handled one by one, the moved directory ends up live and not watched |
| ReplacementOutcomes.ReplacementIsMissed | tlpi-dist/inotify/inotify_dtree.c:803-818 | an input: a directory from outside is renamed onto the empty r/a, and all ends with it live and not watched |
| RenameRuns.EveryRunWithRenamesAgrees | tlpi-dist/inotify/inotify_dtree.c:731-1023 | in every run with renames of all kinds, as long as no arrival is masked: exact cache whenever the queue is empty, no rebuild |
| MaskedRuns.MaskingShows | tlpi-dist/inotify/inotify_dtree.c:803-818 | once the events of the first masked arrival have been handled the cache is not exact |
| MaskedRuns.RunAgreesIff | tlpi-dist/inotify/inotify_dtree.c:731-1023 | if the events of masked arrivals are handled at once, the cache is exact at every quiet moment of the run iff no arrival is masked |
| CrossedMoves.CrossedMovesAgree | tlpi-dist/inotify/inotify_dtree.c:895-952 | one directory leaves the trees and another arrives, with different cookies, before either is handled: when the events have been handled the cache agrees, without a rebuild |
| CrossedMoves.CrossedMovesRebuild | tlpi-dist/inotify/inotify_dtree.c:741-758 | after the first event a rebuild follows iff the one that arrives came from below the one that left |
| CrossedMoves.FollowCrossedMoves | tlpi-dist/inotify/inotify_dtree.c:1036-1143 | the running program, called until no event is left, has an exact slot table in all of these cases, whatever second reads are interrupted |
| MonitorAgreement.CatchUp | tlpi-dist/inotify/inotify_dtree.c:1036-1143 | from any state that creations and removals lead to, the running program makes one step for each queued event, no rebuild, and leaves an exact slot table |
| MonitorAgreement.LateRenameIsMissed | tlpi-dist/inotify/inotify_dtree.c:895-927 | a directory created and renamed before its creation is handled: if the two events of the rename are taken together, the queue is empty at the end, nothing was rebuilt, and the live directory is not watched |
| MonitorAgreement.LateRenameIsFound | tlpi-dist/inotify/inotify_dtree.c:862-874 | if they are taken one by one, the directory is watched at the end and the cache is exact |
| MonitorAgreement.LateIsLegal | tlpi-dist/inotify/inotify_dtree.c:862-874 | that run consists of legal operations from an exact cache |
| MonitorRenames.FollowRename | tlpi-dist/inotify/inotify_dtree.c:1036-1143 | after a rename to a new name the running program, called until no event is left, has an exact slot table, whatever second reads are interrupted |
| MonitorRenames.FollowReplacement | tlpi-dist/inotify/inotify_dtree.c:1036-1143 | after a rename onto an empty directory, when no second read is interrupted while an event is queued, it has an exact slot table iff the moved directory was watched or the new parent is not |
| NotifyByThread.RegisterKeepsInv | tlpi-dist/pmsg/mq_notify_via_thread.c:68-81 | a thread about to register finds the process not registered |
| NotifyByThread.EveryRunIsSafe | tlpi-dist/pmsg/mq_notify_via_thread.c:29-98 | in every interleaving exactly one of registered / one thread yet to register holds, mq_notify never finds the queue busy, a nonempty queue has a thread that has not seen EAGAIN, and messages are conserved |
| NotifyByThread.FuelMeansStep | tlpi-dist/pmsg/mq_notify_via_thread.c:57-66 | while any thread has work left some thread can take a step |
| NotifyByThread.PauseEmptiesQueue | tlpi-dist/pmsg/mq_notify_via_thread.c:29-98 | without senders the threads take a bounded number of steps in any order and end with everything received and the process registered |
| NotifyBySignal.StepKeepsInv | tlpi-dist/pmsg/mq_notify_via_signal.c:29-37 | the right to register stays in exactly one place |
| NotifyBySignal.EveryRunIsSafe | tlpi-dist/pmsg/mq_notify_via_signal.c:72-104 | registration never fails as busy; at each test of gotSig a nonempty queue means that it is set or its signal is in flight, messages queued before the start included |
| NotifyBySignal.LoopEmptiesQueue | tlpi-dist/pmsg/mq_notify_via_signal.c:77-104 | with no signal in flight and no sender the loop empties the queue in a bounded number of steps |
| ChildReaper.EveryRunIsSafe | tlpi-dist/procexec/multi_SIGCHLD.c:28-116 | numLiveChildren counts the children not yet reaped; the parent is never suspended on a zombie with nothing pending; it ends only when all are reaped; sigCnt is at most the number of children |
| ChildReaper.EverySignalIsCounted | tlpi-dist/procexec/multi_SIGCHLD.c:109-113 | at every moment sigCnt is the number of signals caught, but for one whose handler is still at work |
| ChildReaper.PrintedCount | tlpi-dist/procexec/multi_SIGCHLD.c:115-116 | the count printed at the end is the number of signals caught, at least one if there are children and at most their number |
| ChildReaper.NeverStuck | tlpi-dist/procexec/multi_SIGCHLD.c:109-113 | until the end some step is always possible |
| ChildReaper.EveryRunEnds | tlpi-dist/procexec/multi_SIGCHLD.c:71-116 | a run with n children has at most 7n + 2 steps and can stop only with all children reaped |
| SemaphoreCounter.EveryRunCounts | tlpi-dist/psem/thread_incr_psem.c:28-46 | at most one thread is between sem_wait and sem_post; when both have finished glob is twice the loop count |
| SemaphoreCounter.StuckMeansFinished | tlpi-dist/psem/thread_incr_psem.c:33-43 | the semaphore never blocks both threads: a state in which neither can go on has counted to the end |
| SemaphoreCounter.EveryRunEnds | tlpi-dist/psem/thread_incr_psem.c:54-79 | a run can go on exactly until it has taken ten steps per loop, and then it has counted to the end |
| AppendRace.EveryRunIsBounded | tlpi-dist/fileio/atomic_append.c:46-60 | in any mix of modes the file grows by at most the sum of the counts, and by at least the sum of the O_APPEND counts and the largest count of a process that seeks; all O_APPEND: by exactly the sum |
| AppendRace.BoundsAreMet | tlpi-dist/fileio/atomic_append.c:20-31 | in every mix some interleaving keeps every byte, and some interleaving leaves just the lower bound |
| Environ.WithoutIsFilter | tlpi-dist/proc/setenv.c:36-49 | exactly the entries of the form name=value are removed; the others keep their order |
| Environ.WithoutLooksUp | tlpi-dist/proc/setenv.c:24-51 | after removal the name has no definition and every other lookup is unchanged |
| Environ.ShiftDown | tlpi-dist/proc/setenv.c:41-42 | one entry goes, the following ones move down one place, nothing else changes |
| Environ.UnsetEnv | tlpi-dist/proc/setenv.c:24-51 | -1 and no change for a bad name, otherwise the order-preserving filter of the entries |
| Environ.IsValidEnvName | ch06/3_env.c:8-24 | true iff the name is an identifier |
| Environ.NamesThatAreValid | ch06/3_env.c:8-24 | letters, digits and underscores make a name, a digit in front or another character does not |
| Environ.MyUnsetEnv | ch06/3_env.c:48-66 | -1 and no change for a bad name, otherwise the same filter |
| Environ.UnsetsAgree | ch06/3_env.c:48-66 | on a name that both accept the two implementations leave the same environment |
| Environ.PutLooksUp | tlpi-dist/proc/setenv.c:76 | after putenv the name has its new value and every other name its old one |
| Environ.SetsAgree | ch06/3_env.c:26-46 | the two setenv implementations answer every lookup alike; one leaves a single definition, the other as many as there were |
| Environ.Environment.SetEnv | tlpi-dist/proc/setenv.c:53-77 | all five outcomes, including a failed allocation or putenv after the removal |
| Environ.Environment.MySetEnv | ch06/3_env.c:26-46 | all five outcomes; a failed allocation or putenv changes nothing |
| Tail.ScanBlock | ch13/5_tail.c:47-57 | within a block: the newline that is one too many, or the newlines counted so far |
| Tail.FindStart | ch13/5_tail.c:26-58 | for every block size the position just after the (n+1)-th newline from the end, or 0; the end of the file for a negative n |
| Tail.TailStartIsUnique | ch13/5_tail.c:26-58 | that position is unique |
| Tail.Tail | ch13/5_tail.c:13-73 | the output is the file from that position on |
| Tail.TailIsLastLines | ch13/5_tail.c:29-72 | the output is the last n lines iff the file ends with a newline or has fewer than n complete lines; otherwise it is the last n + 1 |
| Tail.OneLineTooMany | ch13/5_tail.c:26-73 | an input: one line of "a\nb" is asked for and both are printed |
| NamespaceForest.NamespaceInfo.AddNamespace | tlpi-dist/namespaces/namespaces_of.go:603-622 | the keys grow by exactly the namespace and those above it, the forest stays complete, a new namespace becomes the last child of its parent and other children keep their places, PIDs are kept and the new one appended |
| NamespaceForest.NamespaceInfo.AddNamespaceToList | tlpi-dist/namespaces/namespaces_of.go:642-729 | the same for a namespace not yet listed, through the recursion on its parent |
| NamespaceForest.AddAll | tlpi-dist/namespaces/namespaces_of.go:603-729 | any sequence of additions leaves a complete forest on the namespaces added and those above them |
| NamespaceForest.EdgesFromKeys | tlpi-dist/namespaces/namespaces_of.go:709-725 | the children of an entry are exactly the listed namespaces with that parent, each once |
| NamespaceForest.OrderDoesNotMatter | tlpi-dist/namespaces/namespaces_of.go:603-729 | additions in another order give the same keys, edges and root |
| NamespaceForest.WalkVisits | tlpi-dist/namespaces/namespaces_of.go:1193-1210 | the walk from an entry shows each entry below it of a type asked for once, and no other |
| NamespaceForest.WalkLevels | tlpi-dist/namespaces/namespaces_of.go:1205-1209 | the level at which an entry is shown is its distance from the start |
| NamespaceDisplay.ParentComesFirst | tlpi-dist/namespaces/namespaces_of.go:1199-1209 | an entry is displayed before everything below it |
| NamespaceDisplay.ChildrenInOrder | tlpi-dist/namespaces/namespaces_of.go:1207-1209 | what is below an earlier child of an entry is displayed before what is below a later one |
| NamespaceDisplay.SubtreeIsContiguous | tlpi-dist/namespaces/namespaces_of.go:1193-1210 | the entries below any entry are displayed together |
| NamespaceDisplay.PrecedesOneWay | tlpi-dist/namespaces/namespaces_of.go:1193-1210 | this order is one: of two different entries at most one precedes the other, so it determines the display |
| NamespaceDisplay.RootTreeComesFirst | tlpi-dist/namespaces/namespaces_of.go:1143-1155 | the tree of the root is displayed before that of the invisible entry |
| NamespaceForest.RootIsParentless | tlpi-dist/namespaces/namespaces_of.go:660-690 | in the PID hierarchy the root is a namespace without a parent; otherwise it is a user namespace without an owner, or none is listed and rootNS is zero |
| NamespaceForest.RootIsListed | tlpi-dist/namespaces/namespaces_of.go:1148 | the display starts at an entry of the list, a root or the invisible one |
| NamespaceForest.DisplayVisits | tlpi-dist/namespaces/namespaces_of.go:1143-1155 | every entry of a type asked for is displayed exactly once if a root was met, twice otherwise; no other entry is displayed |
| NamespaceForest.ShownTwice | tlpi-dist/namespaces/namespaces_of.go:418-427 | an input: a kernel without user namespaces, on which the one namespace is displayed twice |
| AncestorSearch.StepBelowIsUnique | tlpi-dist/namespaces/ns_capable.c:166-176 | there is at most one child of the source on the chain to the target |
| AncestorSearch.StepBelowExists | tlpi-dist/namespaces/ns_capable.c:166-176 | there is one iff the source is a proper ancestor of the target |
| AncestorSearch.Process.IsAncestorUserns | tlpi-dist/namespaces/ns_capable.c:178-232 | -1 iff the source is not a proper ancestor, else a descriptor of that child; no other descriptor is left open or closed |
| WrapText.Fields | tlpi-dist/namespaces/namespaces_of.go:1438 | the fields of a text are words: not empty and without white space |
| WrapText.FieldsOfParts | tlpi-dist/namespaces/namespaces_of.go:1438 | the empty text has no field, a word is its own field, and a white-space character separates fields; this determines them |
| WrapText.JoinOfConcat | tlpi-dist/namespaces/namespaces_of.go:1452-1455 | the words of a line are printed with one blank between them |
| WrapText.GreedyIsTight | tlpi-dist/namespaces/namespaces_of.go:1447-1456 | no line but the last could take the first word of the next line as well |
| WrapText.LineLengthIsPrinted | tlpi-dist/namespaces/namespaces_of.go:1447-1456 | the column that is counted is the length of what is printed after the indent |
| WrapText.LinesOfRender | tlpi-dist/namespaces/namespaces_of.go:1447-1456 | split at its newlines, the text is the lines of the layout, each after the indent |
| WrapText.Wrap | tlpi-dist/namespaces/namespaces_of.go:1434-1459 | each line of the result is the indent and at most width characters or a single word; no layout of the words has fewer lines than the result |
| WrapText.GreedyIsLayout | tlpi-dist/namespaces/namespaces_of.go:1447-1456 | the words are kept in order and every line fits the width or is a single word |
| WrapText.GreedyIsShortest | tlpi-dist/namespaces/namespaces_of.go:1447-1456 | no such layout has fewer lines |
| WrapText.WrapKeepsWords | tlpi-dist/namespaces/namespaces_of.go:1429-1459 | with a blank indent the wrapped text has the same words, and wrapping again changes nothing |

## Left out

- Logging, command parsing, usage text, colours and option handling: user interface.
- `checkCacheConsistency`, `checkAllCachedPathnamesExist`, `executeCommand`, moves and removals of root directories, and unmounts in `inotify_dtree.c`.
- Renames that are handled after other events, apart from `CrossedMoves`: the source calls that case heuristic. `MonitorAgreement.LateRenameIsMissed` shows that it can fail.
- Renames that exchange two directories, queue overflow other than as a rebuild, and the length of the alarm.
- TreeMonitor.Monitor.constructor: requires roots that are not nested, because a directory would have two pathnames and which of them is cached depends on the order of the walks.
- LoopInterleaving.ProcessAmid: has no renames by other processes, which is the delayed case above.
- LoopInterleaving.Run: has no renames between the turns of one call, for the same reason.
- MonitorRenames.FollowReplacement: has no second read that is interrupted while an event is queued; `MaskedArrivals.SplitReplacementIsLost` is the result for that case on the map level.
- Allocator.Allocator.Malloc: requires blocks that do not overlap and lie below the break, which a failed enlargement or a kept cut block no longer gives.
- Allocator.Allocator.Free: requires the same; with the added stores it also requires a valid, doubly linked heap, the only kind they lead to.
- Memory alignment and machine-word wrap-around in the allocator. Memory is a map from addresses to whole headers: the bytes of a payload count only as headers that the code may find there, and headers that overlap in part are not modelled.
- The blocking of senders on a full message queue, and message priorities.
- SemaphoreCounter.EveryRunCounts: does not model overflow of the C `int` for loop counts of 2^30 or more.
- The bodies of `putenv`, `getenv` and `malloc`: only what they promise.
- UID and GID maps, and the `--subtree` option of `namespaces_of.go`.
- White space other than ASCII, and multi-byte characters, in `wrapText`.
- The remaining programs of the repository: thin wrappers over system calls, finite tables, or single branches.
