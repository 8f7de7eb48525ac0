# netmalloc: a verified model

netmalloc is a heap allocator for user programs whose pages live in remote storage. It keeps *areas*, one VMA
each, tiled by *regions*; at most two pages of a pid are mapped at a time, the others are kept by a storage
back end (a list in the kernel, or a server behind a TCP connection), and a list records which pages are
stored. This project models the allocator, the paging, the removal of pages, both back ends, the wire protocol
and the lock order, and proves what they promise. Nothing is executed; Dafny's verifier checks the proofs
(`dafny verify dfyconfig.toml`).

The main results:

* **Flat heap.** Over every run of malloc, free, faults, reads, writes and changes to the processes' own VMAs,
  by any number of threads and with saves, loads and insertions failing, the allocator refines, for each process, a
  heap of disjoint blocks: the blocks of all its threads are apart (`Runs.BlocksStayApart`), a read by any of them
  returns the last value written since the block was allocated (`Runs.ReadReturnsLastWrite`, `Runs.RunRefines`), and
  every byte of a block stays accessible to its thread (`Runs.LiveStaysAccessible`). All threads of the process are
  asked to make allocations that fit, to fault only on their own blocks, and their pages to be found by
  get_user_pages; other processes make no difference.
* **Where the code falls short of it, exactly.** The code tests the count of free bytes, not room, and an exact
  fit is not subtracted from that count (src/area.c:105-107, 173), so an allocation can run past the end of its
  VMA. `Invariant.CreateRegionContainedIff` gives the condition, which can be read off the area the allocation is
  made in, extended if need be: a hole is large enough, or the last region ends early enough. While a block starts
  past the end it is not released (`Overrun.PastEndNotFreed`), and its bytes are out of reach or in the VMA of another
  area of the process (`Overrun.DeliveredIffInProcess`). Runs of ordinary calls get there by an exact fit or by a hole
  too small (`Overrun.ExactFitOverrun`, `Overrun.OverrunNeverFreed`, `Overrun.HoleOverrunRun`); in
  `Threads.TwoThreadsOverlap` a thread ends up on a block of another whose own allocations all fitted. Programs that
  release in stack order never do this (`StackRuns.StackRunsFit`).
* **What the calls do, in full.** `Runs.MallocReturns`, `Effects.ContainerExactly` and `Effects.FreeExactly` tell from
  the lists before a call what they are after it: which area takes a request, by how many pages its VMA grows, which
  block is handed out or given back. `Accounting.RunAccounts` is the accounting law over whole runs, with what the
  count of free bytes forgets summed up from the run. After failed evictions pages are not replaced in order
  (`Paging.FailuresReverse`).
* **Other failures, as exactly.** A thread that faults on a page of another thread's block reads its own copy of it
  (`Threads.FaultReadsOwn`). A page that get_user_pages does not find is lost if storage has other contents
  (`Paging.UnmapBothLoses`, `Paging.GetPageLoses`). A release can close a VMA that a slot still refers to
  (`Dangling.FreeDanglesIff`, `Dangling.DanglingRun`). Every page a pid has stored or mapped holds one of its blocks,
  over every run, until `can_remove_page` keeps the first page of a region behind a lone free one, which leaves a
  page behind in a run of five ordinary operations (`Leaks.FreeTidyIff`, `Leaks.RunTidy`, `Leaks.LeakRun`).
* **The region list is canonical.** `Regions.Canonical`: coalescing is so complete that the list is determined
  by the blocks in use; release therefore undoes allocation and releases commute.
* **Storage.** The calls of a run, replayed on the kernel's list or sent to the server in packets of any size, end
  with the pages the allocator takes to be stored and load the contents it expects (`Replay.KernelServesRun`,
  `Replay.ServerServesRun`). The kernel's list does so below 2^32 only; `BackEnds.KernelIsNarrowMap` says what it is
  at all addresses.
* **No deadlock.** The lock order of the code never deadlocks and every operation finishes; the first scheme of
  the repository's README does deadlock, whatever other threads there are.

## How it is built

Each C or Python component is a class whose methods edit lists, maps and fields in place, with the loops of the
original; each method is proved against a function of the state, and the properties are lemmas about these
functions. `NetMalloc.dfy` is the allocator as programmed; its three entry points are proved to be the steps
`OpMalloc`, `OpFree` and `OpFault` of `Runs.dfy`.

A pid is a thread. Areas, slots and stored pages belong to pids; VMA lists and page tables belong to processes. The
kernel delivers a fault by process and address, with whatever area's VMA holds the address, and an access goes to the
page that is in the process's page tables, whichever thread it was put there for.

| file | what it holds |
|---|---|
| Kutils.dfy | page rounding, wrapping arithmetic on machine words |
| Regions.dfy | region lists as values: invariant, allocation, release, canonical form |
| Area.dfy | one area: accounting law, containment, the class `Area` |
| Vma.dfy | VMA lists: first gap, insertion, widening, removal |
| StoredPage.dfy | pages, keys, the index of stored pages |
| PageRemoval.dfy | which stored pages go with a region or an area |
| MappedBuffer.dfy, Paging.dfy | the two slots of a pid; eviction, mapping, replacement order |
| GenericMalloc.dfy | malloc, free, fault and close as functions of the whole state |
| Invariant.dfy | the invariant of the whole state, kept by every operation |
| Effects.dfy | what malloc and free do to areas, VMAs, buffers and storage, from the lists before the call |
| FlatHeap.dfy, Runs.dfy, StackRuns.dfy | the flat heap, one-step refinement, whole runs; runs in stack order |
| Accounting.dfy | the accounting law over runs |
| Threads.dfy | what threads of one process read, and an overrun into another thread's VMA |
| Closing.dfy, Leaks.dfy | storage after release and close, refused pages; which pages outlive their blocks |
| Overrun.dfy, Dangling.dfy, Concrete.dfy | allocations that do not fit; slots left on closed VMAs; the states of the runs |
| NetMalloc.dfy | the allocator as an object with its lists |
| KernelStorage.dfy, Protocol.dfy, Server.dfy, BackEnds.dfy | the storage back ends and the protocol |
| Replay.dfy | the storage calls of a run, on either back end |
| Locks.dfy | the lock order |

Two choices matter for reading the statements. An area has a history variable `surplus` that the C structure
lacks: the bytes counted free although they are not, because an exact fit did not subtract them or a second
release of the same region added them again; so the accounting law needs no assumption on which pointers are
freed. `Accounting.RunAccounts` proves that it is the sum of these over the run. And a pointer to a VMA is the
pair of its process and its start address; the area and the process's list each hold the VMA's bounds, and the
invariant keeps the two equal.

Where the code and what is written about it disagree, the model follows the code:

* The comment on `can_remove_page` (src/generic_malloc.c:38-40) says a page can go when the region is alone on
  it. The code also keeps the first page of the region when only one free region on that page precedes it
  (lines 54-61); `PageRemoval.CanRemoveExactly` states both, and `Leaks.LeakRun` shows what comes of it.
* The subtraction at src/area.c:49 can wrap below zero while a region is being split, since a list that has
  outgrown its VMA can have a hole larger than the free bytes; line 119 makes up for it. Both are modelled as
  operations on 64-bit words (`Areas.Area.SplitRegion`).
* `copy_page_from_user` reports success when get_user_pages does not return the page (src/generic_malloc.c:147-162),
  and the page is then dropped unsaved.
* A request for 0 bytes is accepted and puts an empty region into the list, which breaks the list's invariant
  (`Regions.PlaceOkIff`, `Invariant.MallocInv`).
* In server/server.py:80-83 the length of the page is taken before it is tested for None, so a stream that ends
  inside a PUT kills the handler with an exception instead of leaving the loop. A reset connection is caught
  only while a header is read (lines 66-72).
* `get_kernel_buffer` searches for a 32-bit address (src/storage.c:133) although addresses have 64. A save at a
  wider address takes over the node of the truncated one and loses its page (`BackEnds.SavesThatLast`).
* The list head's `free` field, which `merge_neighbors_region` may read (src/area.c:81), is never set; it is
  taken as not free.

## Model

| member | source | states |
|---|---|---|
| Kutils.AlignFloorGreatest | src/kutils.h:41-44 | for every shift, align_floor gives the greatest multiple of the unit not above its argument |
| Kutils.AlignCeilLeast | src/kutils.h:46-49 | for every shift, align_ceil gives the least multiple of the unit not below its argument |
| Kutils.PageRounding | src/kutils.h:41-49 | the page rounding used everywhere else is align_floor and align_ceil at PAGE_SHIFT, and a page has 4096 bytes |
| Kutils.VmaRounding | src/area.c:180 | the rounding of new VMA sizes is align_ceil at VMA_SHIFT, to multiples of 8192 |
| Regions.PlaceOk | src/area.c:97-143 | allocation keeps the list invariant: positive sizes, end to end from the base, no two free neighbours, last region used |
| Regions.PlaceOkIff | src/area.c:97-143 | the list invariant survives an allocation if and only if it is for at least one byte |
| Regions.PlaceAddsOneBlock | src/area.c:97-143 | allocation adds exactly one block, disjoint from every block in use, at the lowest hole that fits, at the end only if none does |
| Regions.PlaceSums | src/area.c:97-143 | used bytes grow by the request; holes shrink by it when a hole is reused and stay as they are otherwise |
| Regions.ReleaseOk | src/area.c:61-94 | release keeps the list invariant |
| Regions.ReleaseDropsOneBlock | src/area.c:208-229 | release removes exactly the released block from those in use |
| Regions.ReleaseSums | src/area.c:61-94 | used bytes drop by the block; they become a hole unless they are at the end |
| Regions.EndIsTotal | src/area.c:53-57 | the list ends at its base plus everything in it |
| Regions.Canonical | src/area.c:61-94 | two lists with the invariant, the same base and the same blocks in use are the same list |
| Regions.ReleaseUndoesPlace | src/area.c:64-143 | releasing the block just allocated restores the list |
| Regions.ReleasesCommute | src/area.c:208-229 | two releases give the same list in either order |
| Areas.AllocInOk | src/area.c:97-143 | allocation keeps the area invariant; it takes the request off the count of free bytes unless the lowest free region with room has just its size, and then books it as surplus |
| Areas.FreeInOk | src/area.c:208-221 | release of any listed region keeps the area invariant; it adds the region's size to the count of free bytes once, whatever it merges with, and books it as surplus exactly if the region was free already |
| Areas.GrowOk | src/area.c:147-161 | extension keeps the area invariant and containment |
| Areas.ExtraIsLeast | src/area.c:151 | the VMA grows by the least whole number of pages that makes the request count as free |
| Areas.ContainmentBound | src/area.c:128-190 | the list never runs past its VMA by more than its holes and its surplus, and lies inside exactly when these do not exceed the free space |
| Areas.AllocContainedIff | src/area.c:128-190 | an allocation stays inside the VMA if and only if a hole fits or the last region ends early enough; the count of free bytes tells so only when it covers request, holes and surplus together |
| Areas.HoleOverrun | src/area.c:173 | a state in which a hole makes a request counted as fitting run past the VMA; Overrun.HoleOverrunRun is a run that reaches it |
| Areas.SurplusOverrun | src/area.c:105-107 | a state without holes in which an earlier exact fit does the same |
| Areas.FreeUndoesAllocIff | src/area.c:105-119 | malloc then free restores the area if and only if the block was not an exact fit |
| Areas.Area.AddRegionAfter | src/area.c:38-59 | where the region goes in the list, its start, and the wrapping subtraction from the free space |
| Areas.Area.MergeNeighborsRegion | src/area.c:64-94 | the in-place merge with either neighbour, or the cut at the end, gives the released list |
| Areas.Area.SplitRegion | src/area.c:109-122 | splitting in place gives the list and free space of an allocation although the count may wrap in between, and the remainder is neither merged nor dropped |
| Areas.Area.GetFreeRegion | src/area.c:97-125 | the search takes the first region that fits and changes nothing when none does |
| Areas.Area.AddRegion | src/area.c:128-143 | the area becomes that of an allocation and the position returned is the new block's: of the size asked for, the one block added, apart from all others; the count of free bytes drops by the request unless it is an exact fit |
| Areas.Area.ExtendVma | src/area.c:147-161 | extends exactly when the next VMA leaves room, end, size and free bytes by the same amount, so that the request counts as free, and otherwise changes nothing |
| Areas.Area.FreeRegion | src/area.c:218-221 | the area becomes that of a release, and the count of free bytes grows by the size of the region released and by no more |
| Vmas.FirstGapLowest | src/vma.c:20-34 | the place found is the lowest at or above the start with a free gap of the size |
| Vmas.GetFreeSpace | src/vma.c:20-34 | the loop returns the lowest address from the first page on where no VMA meets the requested range |
| Vmas.InsertOk | src/vma.c:82-107 | inserting a VMA into a gap keeps the list sorted and disjoint and adds exactly that VMA |
| Vmas.WidenOk | src/area.c:151-156 | growing a VMA under the test of extend_vma keeps the list sorted and disjoint and changes that VMA only |
| Vmas.RemoveOk | src/vma.c:71-80 | removing a VMA keeps the list sorted and disjoint and removes exactly that VMA |
| StoredPages.WithoutIsRemoval | src/stored_page.c:46-58 | in an index without duplicates, deleting the first match deletes the key |
| StoredPages.StoredPageList.IsStoredPage | src/stored_page.c:34-43 | finds a key exactly when it is listed |
| StoredPages.StoredPageList.RemoveStoredPage | src/stored_page.c:46-58 | deletes the first match in place and nothing else |
| PageRemoval.CanRemovePage | src/generic_malloc.c:41-79 | the two walks along the list compute the removability of a page |
| PageRemoval.RemovableNotShared | src/generic_malloc.c:41-79 | a page that may be removed holds no other used region of the area |
| PageRemoval.CanRemoveExactly | src/generic_malloc.c:38-79 | a page of the region can be removed if and only if no other used region lies on it, save the first page after a lone free region |
| PageRemoval.IsValidInRegions | src/area.c:259-268 | the loop accepts an address exactly when a used region, widened to pages, contains it |
| PageRemoval.ValidIsOnPage | src/area.c:250-272 | a page is accepted exactly when a block in use lies on it |
| PageRemoval.DroppedIsInvalid | src/generic_malloc.c:101-108 | a page that goes with a region is not accepted once the region is released |
| PageRemoval.DropPagesExactly | src/generic_malloc.c:101-108 | the loop over pages removes exactly the removable keys in range and keeps index and storage in step |
| PageRemoval.DropRegionExactly | src/generic_malloc.c:82-109 | which stored pages a release removes, both directions, and that all others keep their contents |
| PageRemoval.InnerPagesDropped | src/generic_malloc.c:82-109 | every page lying wholly inside the released region leaves storage |
| PageRemoval.DropAllComplete | src/generic_malloc.c:111-136 | deleting all regions front to back leaves no stored page on which any of them lay |
| PageRemoval.DropAllSpares | src/generic_malloc.c:111-136 | and it leaves all other pages |
| MappedBuffers.MappedBuffer.SwapBufferCache | src/mapped_buffer.c:27-44 | the six fields are exchanged |
| Paging.UnmapOldestKeeps | src/generic_malloc.c:180-214 | eviction for a fault keeps all contents even when the save fails, as long as get_user_pages finds the page; it fails exactly if there is a page in the cache slot and it cannot be saved, and then leaves the slots exchanged; on success the front slot is free and the cache slot holds the former front page |
| Paging.UnmapBothKeeps | src/generic_malloc.c:180-225 | evicting both pages keeps all contents even when a save fails, as long as get_user_pages finds the pages, and other pids' contents and buffers in any case |
| Paging.UnmapBothFrees | src/generic_malloc.c:180-225 | when it succeeds no page of the pid stays mapped; it fails exactly if one of the two pages cannot be saved, and leaves everything as it was if that is the front page and the other page in front if it is the other |
| Paging.UnmapBothSaves | src/generic_malloc.c:139-225 | storage gains exactly the pages copied out, as their slots have them |
| Paging.UnmapBothLoses | src/generic_malloc.c:139-225 | a page's contents change in an eviction if and only if get_user_pages does not find it and storage has others |
| Paging.MapPageKeeps | src/generic_malloc.c:228-262 | mapping into a free front slot keeps all contents even when load or insertion fails |
| Paging.GetPageKeeps | src/generic_malloc.c:265-281 | handling a fault keeps every page's contents whatever save, load and insertion do, as long as get_user_pages finds the page evicted, and other pids' contents and buffers in any case |
| Paging.GetPageLoses | src/generic_malloc.c:139-281 | a page's contents change in a fault if and only if it is the page in the cache slot, get_user_pages does not find it and storage has others |
| Paging.GetPageSlots | src/generic_malloc.c:265-281 | after a success the front slot is the faulting page with its contents and the cache the former front; after a failure no new page is mapped |
| Paging.GetPageFails | src/generic_malloc.c:197-281 | a fault fails exactly if the page to be evicted cannot be saved, or the page faulted is stored and cannot be loaded, or it cannot be inserted; the slots end up exchanged in the first case, with the front slot free and the former front page in the cache slot in the others |
| Paging.GetPageSaves | src/generic_malloc.c:139-281 | a fault adds exactly the page evicted to storage, as the cache slot had it |
| Paging.ReplacementIsFifo | src/generic_malloc.c:197-281 | after any run of faults the two slots hold the last two pages faulted, and no contents have changed |
| Paging.FailuresExchange | src/generic_malloc.c:206-210 | each fault whose eviction fails exchanges the two slots once more and changes nothing else, over any number of them |
| Paging.FailuresReverse | src/generic_malloc.c:197-281 | so after an odd number of such failures the next fault that succeeds evicts the page that was in front before them and keeps the other one in the cache slot; after an even number it evicts the older page |
| GenericMalloc.RemoveVmaOfEmpty | src/generic_malloc.c:111-136 | closing the VMA of an emptied area removes area and VMA, and the buffer only when the pid has no other area |
| Invariant.InitialInv | src/generic_malloc.c:419-436 | the invariant holds when the module is loaded |
| Invariant.ContainerKeeps | src/area.c:164-190 | finding, extending or creating the area keeps VMAs sorted, disjoint and matched with areas, and changes no region |
| Invariant.CreateRegionContainedIff | src/area.c:194-206 | a process's regions stay inside their VMAs across an allocation by one of its threads if and only if the area it is made in has room, and across allocations of other processes always |
| Invariant.MallocInv | src/generic_malloc.c:380-417 | malloc keeps the invariant, whether it fits and whatever fails, if and only if it is for at least one byte |
| Invariant.FaultInv | src/generic_malloc.c:307-345 | handling any fault the kernel delivers, on whatever thread's area, keeps the invariant, whatever fails |
| Invariant.FreeInv | src/generic_malloc.c:355-378 | free of any pointer keeps the invariant, whatever saves fail, if and only if it does not close a VMA that a slot still refers to |
| Invariant.FreeContained | src/area.c:208-229 | free of any pointer puts no region of any process outside its VMA |
| FlatHeap.NewBlockApart | src/area.c:194-206 | a block handed out shares no address with any block in use in the process, of whatever thread, provided the process's regions lie inside their VMAs after the allocation |
| FlatHeap.MallocRefines | src/generic_malloc.c:380-417 | malloc is the allocation of a disjoint block in the flat heap of the process, if the allocation fits and the process's regions lay inside their VMAs; it is nothing in the heaps of other processes |
| FlatHeap.OthersKept | src/generic_malloc.c:82-109 | while the regions of the process lie inside their VMAs, removing a region's pages keeps every page on which another live block of a thread lies, in its area or another |
| FlatHeap.FreeKeepsOthers | src/generic_malloc.c:355-378 | while the regions of a process lie inside their VMAs, free of any pointer by any thread leaves every byte of all other live blocks of the process unchanged, whichever saves fail, as long as get_user_pages finds the pages of the thread that frees |
| FlatHeap.FreeRefines | src/generic_malloc.c:355-378 | under the same conditions free is the flat heap's release, also for a pointer that is not live or of another thread |
| FlatHeap.HolderOwns | src/generic_malloc.c:227-262 | while threads have only pages of their own areas in slots and regions lie inside their VMAs, a live block's page is in the page tables for the block's own thread |
| FlatHeap.WriteRefines | src/generic_malloc.c:227-262 | under the same conditions a write by any thread, through whatever slot, is that write in the heap of its process and nothing in others |
| FlatHeap.StoreChangesOneByte | src/generic_malloc.c:227-262 | a store to a mapped page changes the byte addressed and no other byte of any pid |
| FlatHeap.FaultRefines | src/generic_malloc.c:307-345 | a fault of any thread changes nothing in any flat heap, as long as get_user_pages finds the page evicted |
| Effects.ContainerExactly | src/area.c:146-190 | room is made in the first area of the pid that counts the request free or whose VMA can grow by the least number of pages that makes it count free, and no other area changes; only if there is none is an area appended, on a VMA of align_ceil(size, VMA_SHIFT) bytes in the lowest gap of the process above its first page |
| Effects.CreateHands | src/area.c:97-206 | that area hands out one block more, of the size asked for, where no block in use starts and which none overlaps, at the lowest free region with room or else at the end; the count of free bytes drops by the request unless it is an exact fit |
| Effects.FreeExactly | src/generic_malloc.c:355-378 | free of any pointer: the region it names, if any, goes out of use and its size is counted free; the area closes if it has no other block in use, its VMA and no other leaves the process's list, and the pid's buffer goes with its last area; from storage go exactly the pages of the region that can be removed with it; nothing else changes |
| Runs.RunInv | src/area.c:38-229 | over every run, whatever fits and whichever thread touches what, the invariant and the containment bound hold, and no page is in the page tables of a process twice; what the surplus in the accounting law is over a run, `Accounting.RunAccounts` says |
| Runs.StepRefines | src/generic_malloc.c:307-417 | every operation in any process is one operation of the flat heap of a process whose regions lie inside their VMAs and whose threads have only pages of their own in slots, if the process's own allocation fits, its pages are found, and its faults are on blocks of the faulting thread |
| Runs.RunRefines | src/generic_malloc.c:307-417 | the same over every run in which the allocations of the process's threads fit, its pages are found and its threads fault only on their own blocks, whatever other processes do |
| Runs.BlocksStayApart | src/area.c:194-206 | over such runs from the start no two blocks in use in a process, of whatever threads, share an address |
| Runs.OwnBlockOwnVma | src/area.c:250-272 | while regions lie inside their VMAs, the VMA the kernel finds for a page of a thread's block is that of an area of the thread |
| Runs.ReadReturnsLastWrite | src/generic_malloc.c:41-417 | a read by any thread of the process returns the last value that any of them wrote, whatever was evicted, reloaded, split, merged or freed in between, in every run in which the process's allocations fit, its pages are found and its threads fault only on their own blocks |
| Runs.LiveIsAccessible | src/generic_malloc.c:307-345 | while the process's regions lie inside their VMAs, a fault on a page of a live block by its thread is accepted and, if no call fails, maps the page |
| Runs.InsideIsAccessible | src/generic_malloc.c:307-345 | the same for every byte of a live block that lies in its own VMA, wherever other regions lie |
| Runs.LiveStaysAccessible | src/generic_malloc.c:307-417 | the same over every run from the start in which the process's allocations fit and its threads behave as above |
| Runs.MallocReturns | src/generic_malloc.c:394-416 | for a request of at least one byte: which area hands out which block (as in `Effects.CreateHands`), that the blocks in use are those before and this one, and that it meets none of the process if its regions lie inside their VMAs; malloc returns NULL exactly when one of the pid's pages cannot be saved, and otherwise the address of this block, with no page of the pid left mapped |
| Accounting.MallocForgets | src/area.c:102-122 | what an allocation adds to the surplus of an area: the request, if it goes to that area and the lowest free region with room has just its size |
| Accounting.FreeForgets | src/area.c:208-221 | what a release adds to it: the size of the region named, if that is free already |
| Accounting.RunAccounts | src/area.c:38-221 | over every run from the start, an area counts free the bytes of its VMA that are not in use and, besides, the sizes of its exact-fit allocations and of its releases of regions already free, summed over the run from its operations and the lists they met |
| StackRuns.StackRunsFit | src/area.c:128-190 | a process whose threads' releases take the last region of their area makes only allocations that fit, whatever other processes do |
| Overrun.FitsIffInside | src/area.c:128-143 | the test for room is exact: it holds if and only if the block handed out ends inside the VMA of its area |
| Overrun.DeliveredIffInProcess | src/area.c:250-272 | by the process's list the kernel finds a VMA with the handler for an address if and only if the page is not in the process's page tables and the VMA of some area of the process, of whatever thread, holds the address |
| Overrun.PastEndNotFreed | src/area.c:208-229 | free of a block that starts past the end of its VMA at the time leaves it in use, so it refines the release of no flat heap |
| Overrun.ExactFitOverrun | src/area.c:105-107 | a run from the start in which nothing fails and a block is handed out past the end of its VMA, where no fault can be delivered |
| Overrun.OverrunNeverFreed | src/area.c:208-229 | the same run with that block released ends in a state that refines no flat heap in which the release took effect |
| Overrun.HoleOverrunRun | src/area.c:173 | a run from the start with no exact fit that hands out a block past the end because of a hole too small for it |
| Threads.WriteIsShared | src/generic_malloc.c:227-262 | what a thread writes every thread of the process reads, whichever thread the page was mapped for |
| Threads.FaultReadsOwn | src/generic_malloc.c:227-345 | after a fault that succeeds the process reads the faulting thread's copy of the page, whoever's block lies on it |
| Threads.TwoThreadsOverlap | src/area.c:105-107 | a run from the start in which two threads come to hold blocks at one address although the second made one allocation that fitted; the first thread's fault there is delivered and let through on the second's VMA |
| Dangling.FreeDanglesIff | src/generic_malloc.c:355-378 | told before the call: a release closes a VMA that a slot still refers to if and only if the slot is another thread's, or the pid has another area and the eviction leaves its page |
| Dangling.SavedNoneDangles | src/generic_malloc.c:366-368 | when no save fails and threads have only their own pages in slots, no release leaves such a slot or drops a buffer in use |
| Dangling.DanglingRun | src/generic_malloc.c:366-368 | a run from the start after which a release with a failing save leaves a slot on a VMA that is gone |
| Closing.AcceptedIffUsed | src/area.c:250-272 | a fault is accepted exactly when a block in use of that VMA's area lies on the page |
| Closing.FaultFailsIff | src/generic_malloc.c:307-345 | a fault delivered is answered with SIGBUS exactly if no block in use lies on the page, the page to be evicted cannot be saved, or the page faulted is stored and cannot be loaded, or cannot be inserted |
| Closing.FreeDropsInnerPages | src/generic_malloc.c:355-378 | after free of a region that starts inside its VMA no page lying wholly inside it is stored |
| Closing.FreeUnmaps | src/generic_malloc.c:366 | after a free whose saves succeed no page of the pid is mapped |
| Closing.DroppedPagesRefused | src/generic_malloc.c:366-368 | a page that free dropped from storage is refused by the fault handler when free is done |
| Closing.RefusedUntilPutOn | src/area.c:250-272 | a page that is refused stays refused over any run of operations until an allocation of its process puts a block on it |
| Closing.DroppedStaysRefused | src/generic_malloc.c:82-109 | so a page that free dropped from storage is refused over any run until it is allocated again |
| Closing.CloseRegionsFinds | src/generic_malloc.c:121-128 | the lookups by address inside close_vma find each region in turn, also when the VMA has left its process's list, so the loop removes the pages of all regions front to back |
| Closing.CloseVmaComplete | src/generic_malloc.c:111-136 | closing an area with regions still listed, each starting inside the VMA, un-stores exactly the pages on which one of them lay, and drops the pid's buffer exactly if the pid has no other area; the VMA may have left its process's list |
| Closing.RemoveVmaComplete | src/vma.c:71-80 | the same from any state with the invariant for do_munmap, which unlists that VMA and no other and then closes it |
| Leaks.FreeTidyIff | src/generic_malloc.c:41-109 | if every page a pid has stored or mapped holds one of its blocks, this holds after a release whose saves succeed if and only if the release does not take a second region behind a free one whose first page they share, is stored and holds no other block of the pid |
| Leaks.RunTidy | src/generic_malloc.c:82-417 | every page a pid has stored or mapped holds one of its blocks, over every run in which its releases save, none is such a release, and it faults only on its own blocks |
| Leaks.NothingLeft | src/generic_malloc.c:82-136 | over such runs from the start a pid without areas has nothing stored and nothing mapped |
| Leaks.LeakRun | src/generic_malloc.c:41-61 | a run from the start in which nothing fails and everything is released, and a page stays stored and listed |
| NetMallocs.NetMalloc.constructor | src/generic_malloc.c:419-436 | the initial state of the model |
| NetMallocs.NetMalloc.GetArea | src/area.c:287-298 | the first area of the pid whose VMA contains the address |
| NetMallocs.NetMalloc.IsValidAddress | src/area.c:250-272 | accepts exactly the valid addresses of the model |
| NetMallocs.NetMalloc.GetBuffer | src/mapped_buffer.c:17-25 | the pid's buffer, NULL exactly when it has none |
| NetMallocs.NetMalloc.AddBuffer | src/mapped_buffer.c:63-87 | appends an empty buffer for the pid |
| NetMallocs.NetMalloc.RemoveBuffer | src/mapped_buffer.c:47-60 | removes the pid's buffer and no other |
| NetMallocs.NetMalloc.CopyPageFromUser | src/generic_malloc.c:139-163 | a successful save stores the page and lists it once; a failed one changes nothing; a page not found changes nothing and is reported as saved |
| NetMallocs.NetMalloc.UnmapPage | src/generic_malloc.c:199-225 | both modes of unmap_page on the list of buffers; when the eviction for a fault fails, the buffer's slots are exchanged |
| NetMallocs.NetMalloc.MapPageFor | src/generic_malloc.c:228-262 | map_page on the list of buffers, with a failed load or insertion |
| NetMallocs.NetMalloc.GenericMallocVmFault | src/generic_malloc.c:307-345 | the fault handler is the model's step and reports SIGBUS exactly in the cases of `Closing.FaultFailsIff` |
| NetMallocs.NetMalloc.GetAreaContainer | src/area.c:164-190 | the first area that counts enough free bytes or can be extended, by the pages it takes, else a new one in the lowest gap: `Effects.RoomMade` |
| NetMallocs.NetMalloc.CreateRegionFor | src/area.c:194-206 | the lists after an allocation and the address of the new block |
| NetMallocs.NetMalloc.GenericMalloc | src/generic_malloc.c:380-417 | for a request of at least one byte malloc is the model's step; it returns NULL exactly when one of the pid's pages cannot be saved, and otherwise the address of the one block that comes into use, which was not in use and meets no block of the process if its regions lie inside their VMAs |
| NetMallocs.NetMalloc.DropPagesOf | src/generic_malloc.c:96-108 | the loop over pages leaves index and storage as the model says |
| NetMallocs.NetMalloc.RemoveStoragePagesAt | src/generic_malloc.c:82-109 | remove_storage_pages with its lookups |
| NetMallocs.NetMalloc.CloseVmaAt | src/generic_malloc.c:113-136 | close_vma finds the area on the VMA, deletes its regions, the area, and the last area's buffer |
| NetMallocs.NetMalloc.RemoveRegionAt | src/area.c:208-229 | remove_region, closing the VMA when the area is empty |
| NetMallocs.NetMalloc.GenericFree | src/generic_malloc.c:355-378 | free is the model's step for any pointer, whatever fails, with the effect on areas, VMAs and buffers of `Effects.FreeExactly`, and keeps the object's invariant if and only if it leaves no slot referring to a VMA it closes |
| KernelStorages.SavedIsUpdate | src/storage.c:133-185 | a save at any address: below 2^32 it updates the map, above it deletes the page at the truncated address |
| KernelStorages.LoadedIsLookup | src/storage.c:187-202 | a load at any address is a lookup at the truncated address with zeros as default |
| KernelStorages.RemovedIsRemoval | src/storage.c:204-219 | removal at any address takes that key out of the map |
| KernelStorages.LoadAfterSaveIff | src/storage.c:133-202 | whatever was saved before at whatever addresses, a saved page is loaded again if and only if its address fits 32 bits or it is all zeros |
| KernelStorages.LoadAfterSave | src/storage.c:133-202 | what any load returns after a save: loads at addresses equal in their lower 32 bits get the page if the address saved at fits and zeros if not, all others what they got before |
| KernelStorages.LoadAfterRemoval | src/storage.c:133-219 | what any load returns after a removal, which compares whole addresses |
| KernelStorages.TruncatedMisses | src/storage.c:133-169 | a save at a wider address is lost and loses the page at the truncated address |
| KernelStorages.AliasLoads | src/storage.c:133-202 | a load at a wider address returns the page saved at the truncated one |
| KernelStorages.KernelStorage.KernelSave | src/storage.c:164-185 | the list after a save |
| KernelStorages.KernelStorage.KernelLoad | src/storage.c:187-202 | the page loaded, the list unchanged |
| KernelStorages.KernelStorage.KernelRemove | src/storage.c:204-219 | the loop deletes every matching node |
| Protocol.HeaderRoundTrip | src/protocol.h:21-25 | decoding the 16 bytes of a header gives back command, signed pid and address |
| Protocol.EncodeOnWire | src/protocol.h:14-25 | every command that can be sent is, byte by byte: 1, 2, 3 or 4 for PUT, GET, RM and RELEASE and three zeros, four bytes of the pid's two's complement, eight of the address, each the least significant first, and for PUT the page from byte 16 on |
| Protocol.OnWireOnce | src/protocol.h:14-25 | no other bytes are that command |
| Protocol.Client.NetworkSave | src/storage.c:72-86 | writes exactly the encoding of a PUT: its bytes as in `Protocol.EncodeOnWire` |
| Protocol.Client.NetworkLoad | src/storage.c:56-70 | writes exactly the encoding of a GET, as bytes |
| Protocol.Client.NetworkRemove | src/storage.c:88-97 | writes exactly the encoding of an RM, as bytes |
| Protocol.Client.NetworkRelease | src/storage.c:99-111 | writes exactly the encoding of a RELEASE, as bytes |
| Server.Connection.RecvAll | server/server.py:50-57 | returns the next bytes of the stream whatever packets they come in; when the stream is too short, None if it was closed and otherwise the socket's exception |
| Server.PageServer.Handle | server/server.py:59-114 | in whatever packets the encodings of some commands arrive, the handler ends with the pages and replies of the map after these commands; for any other bytes the outcome does not depend on the packets either, and a reset or a failing socket ends it as the code does |
| Server.HandledIsApply | server/server.py:78-106 | the nested dictionaries change as the finite map of pages does |
| Server.ServeDecodes | server/server.py:59-112 | from any stream that starts with encoded commands the server handles exactly these, replies as the map and goes on from its contents |
| Server.ServesBytes | server/server.py:20-112 | the bytes of a command at the front of the stream have its effect on what the server holds, page by page, and its answer: PUT sets one page, RM deletes one, RELEASE deletes all, and GET is answered with the page held or with 4096 zeros |
| Server.UnknownIgnored | server/server.py:107-110 | a header with another command is skipped and changes nothing |
| Server.ServeCutStream | server/server.py:67-83 | from any contents, a stream cut anywhere has the effect of the commands before the cut, and raises an exception exactly when cut inside the page of a PUT or when the socket fails other than by a reset |
| BackEnds.KernelIsMap | src/storage.c:133-219 | over any sequence of operations at addresses below 2^32 the kernel list behaves as the map |
| BackEnds.BackEndsAgree | src/storage.c:56-219 | over any sequence of operations at addresses below 2^32 server and kernel list give the same loads and end with the same pages |
| BackEnds.KernelIsNarrowMap | src/storage.c:133-219 | what the kernel list holds and loads after any operations at any addresses |
| BackEnds.SavesThatLast | src/storage.c:133-202 | after any operations: a saved page is loaded again if and only if its address fits or it is zeros; a save at a wider address loses the page at the truncated one, and a load there returns it |
| BackEnds.BackEndsDiffer | src/storage.c:133-202 | of a page saved at a wider address the server returns the page and the kernel list zeros |
| Replay.RunLeads | src/generic_malloc.c:82-281 | the storage calls of any run lead to the pages the allocator takes to be stored, and each load returns the contents of the page faulted |
| Replay.CallsExactly | src/generic_malloc.c:82-281 | which storage calls an operation makes, each once: malloc and free save the pages they copy out, free removes the stored pages that go with the region, and a fault that is accepted saves the page it evicts and loads the page faulted if that is stored |
| Replay.KernelServesRun | src/storage.c:133-219 | replayed on the kernel list, the calls of a run at addresses below 2^32 end in that map with these loads |
| Replay.ServerServesRun | server/server.py:50-112 | sent to the server, the calls of a run end in that map with these replies, if pids and addresses fit 32 and 64 bits |
| Locks.MutualExclusion | src/generic_malloc.c:361-412 | over any schedule from before the first locks at most one thread is in the critical section, and a writer of mmap_sem excludes all others of its process |
| Locks.FirstLocksOverlap | src/generic_malloc.c:316-412 | with no writer preferred, one thread's first lock keeps another from its own exactly if both are of one process and one of them allocates |
| Locks.SomeThreadSteps | src/generic_malloc.c:316-412 | while a thread is active some thread can step, also if the semaphore prefers writers |
| Locks.AllFinish | src/generic_malloc.c:316-412 | a schedule takes exactly the steps there are and can go on until all are taken |
| Locks.FirstSchemeDeadlocks | README.md:154-205 | in the first scheme any allocating and any faulting thread of one process, among any others, can each take their first lock and then neither steps again whatever the others do |

## Left out

- Runs.RunRefines: asks that the allocations of the process's threads fit their areas, since the code does not see to
  it; the condition is exact (`Invariant.CreateRegionContainedIff`). It also asks that get_user_pages find the pages
  (otherwise: `Paging.UnmapBothLoses`, `Paging.GetPageLoses`) and that threads fault only on their own blocks
  (otherwise: `Threads.FaultReadsOwn`).
- FlatHeap.OthersKept: asks that the process's regions lie inside their VMAs, as do FlatHeap.NewBlockApart,
  FlatHeap.MallocRefines, FlatHeap.FreeKeepsOthers, FlatHeap.FreeRefines, Runs.StepRefines and
  Runs.LiveIsAccessible; over runs that is what fitting allocations see to.
- Runs.MallocReturns: not stated for requests of 0 bytes, which break the invariant (`Invariant.MallocInv`).
- NetMallocs.NetMalloc.GenericMalloc: asks for at least one byte, and that the counters of the area fit in 64 bits;
  addresses and sizes are otherwise unbounded numbers.
- NetMallocs.NetMalloc.GenericFree: asks that adding the region back does not overflow the free space. A slot left
  referring to a closed VMA makes the C code read a VMA that has been deallocated, which the model cannot express, so
  no run goes on from there; nor from a release that drops a buffer with a page of another thread's area in it, which
  the page tables would keep.
- NetMallocs.NetMalloc.CopyPageFromUser: a failing kmap is a failing save; add_stored_page does not fail.
- BackEnds.KernelIsMap: asks for addresses below 2^32, which is where the back end is the server's map; the other
  addresses are in `BackEnds.KernelIsNarrowMap`.
- BackEnds.BackEndsAgree: asks the same, and pids that fit an int; above 2^32 it is false (`BackEnds.BackEndsDiffer`).
- Closing.CloseVmaComplete: asks that the regions start inside the VMA, as those past its end are not found.
- Server.PageServer.Handle: exceptions of `send` are not modelled.
- Kernel calls (vm_insert_page, zap_page_range, do_munmap, insert_vm_struct) are a page table and a sorted list;
  zap_page_range and do_munmap do not fail.
- A failed call to storage leaves it as it was; partial transfers on the client's socket, and the reply being sent
  in parts, are not modelled. Fragmentation of what the server receives is.
- Failure of kmalloc and vmalloc, of add_vma after the area is listed, and interrupted semaphore waits.
- A process that ends or unmaps an area's VMA on its own: the close handler then runs outside the global semaphore.
- Regions are entries of a list rather than objects of their own, so a position stands for a region pointer and
  aliasing between region pointers is not captured. VMAs are values, held by the area and by the process's list.
- The storage a NetMalloc object works on is a finite map; Replay shows that the back ends serve it.
- Several connections served at once by the server's threads; the kernel module opens one.
- The first locking scheme is modelled up to its first write lock, which is where it deadlocks.
- Socket set-up, address parsing, syscall-table patching, module loading, debug dumps and the test programs.
