# Two kernel memory allocators and a seat server

A Dafny model of two parts of the repository.

**The allocators** (`kma/`). A pool of 4096 aligned pages keeps its free pages in a
LIFO chain threaded through the pages themselves. On it stand a resource map (one
address-sorted free list over all pages, first fit, merging of neighbours, return of
empty pages) and a buddy system (nine free lists a page, splitting, recursive
merging, a chain of pages with counts). Each allocator comes twice: as functions on
values, about which the theorems are stated for every run of requests and returns,
and as a class that relinks headers in memory as the C code does, every method of
which is proved to do to its abstract value what those functions say. The main results are the
invariants of all runs, what exactly each call hands out, keeps and loses, and that
the live blocks of the resource map settle its free list.

**The seat server** (`server/`). A ring queue, a lock with a condition variable, a
semaphore built from both, per-seat mutexes, and the seat operations with their
standby list. The threads are a step machine: one producer, any number of workers,
every shared read, write, lock, wait and wakeup a step of its own, in any order. The
main results are that every interleaving refines a sequential run over the tasks, in
order, and that the threads, left alone, always finish all tasks.

| file | content |
|---|---|
| `Wrappers.dfy` | `Option` |
| `PagePool.dfy` | page pool: values, lemmas, class |
| `ResourceMapModel.dfy`, `ResourceMapProof.dfy`, `ResourceMapRuns.dfy` | resource map: functions and invariant, what each step keeps, whole runs |
| `ResourceMapCalls.dfy`, `ResourceMap.dfy` | resource map: what one call does and what settles the free list, class |
| `BuddyArithmetic.dfy`, `BuddyModel.dfy`, `BuddyProof.dfy`, `BuddyRuns.dfy`, `BuddyConservation.dfy`, `BuddyJoins.dfy` | buddy system: rounding and buddies, functions and invariant, splitting and merging on one page, whole runs, which bytes are lost, which buddies stay apart |
| `BuddyCalls.dfy` | buddy system: what one call of kma_malloc or kma_free does, over all pages |
| `BuddyMemory.dfy`, `Buddy.dfy` | buddy system: headers in memory, class |
| `SeatModel.dfy`, `SeatTable.dfy` | seats and standby list: functions and runs, class |
| `TaskRing.dfy`, `Semaphore.dfy`, `SeatHandler.dfy`, `SeatServer.dfy`, `SeatGuards.dfy` | queue, semaphore, seat operations in single steps, the pool, what guards the shared fields |

Conventions. Sizes are those of 32-bit pointers, which the program needs
(`kma/DOC:18`): block header 8 and link word 4 in the resource map, block header 12
and page header 84 in the buddy system. An address is an integer; memory is a map
from addresses to headers. What the client holds (live blocks, requests) is a ghost
set. What `posix_memalign` returns is a parameter.

Where the code departs from its documentation, the model follows the code:

* Resource map: `new_page` stores through a NULL pointer when the new block lies
  below every listed one, and writes a header across the end of the page for sizes
  from 8181 to 8184. `OutcomeOfRequest` says exactly when; `FaultExample` is a run of
  three calls that leads to the first.
* Resource map: the other granted sizes are served well if and only if both parts of
  a new page can hold a header, 8 to 8176 bytes. `MallocKeepsInv` and `RunKeepsInv`
  say that any other size loses the invariant, `UnservableExample` shows it for 8180.
* Resource map: a first request that is refused for its size still takes a page.
  `EmptyPageHeld` says exactly when a page is held with nothing live,
  `RefusedExample` is a run of one call.
* Buddy system: "freeing the page when that number reaches 0" fails for the first
  page when the last request lies behind it. `AllPagesComeBack` is the exact
  condition, `LeakExample` a run.
* Buddy system: "if both are free, they are joined" is skipped after a block becomes
  the head of its list. `FreeKeepsJoined` is the exact condition (`Joins` follows the
  chain of merges), `SkippedMergeExample` an input.
* Buddy system: free bytes get lost in three places. A block may have no slot, and
  blocks before a merged pair are dropped (`FreeConserves`, `LinkConserves`,
  `MergeConserves`, `LostAboveExample`, `LostBeforePairExample`). A freed block is
  classed by its size without the header, which halves it when the header made the
  difference (`HeaderCosts`, `HalfLostExample`). `FreeListsItsClass` says exactly
  which bytes a free lists, `FreeGivesBack` when these are all the request held.
* Queue: there is no test for a full array. `RefinesUnbounded` says over whole runs, and
  `RefinesSequentialRun` over all interleavings, that tasks are lost exactly when one
  fills the array; `FillExample` shows the loss.
* `server/thread_pool.h:7` declares the two counts of `pool_create` in the other
  order than `server/thread_pool.c:53` defines and its caller uses them; the model
  takes them as defined.

## Model

| member | source | states |
|---|---|---|
| PagePools.SlotsAreThePool | kma/kma_page.c:157-181 | the chain built at first use lists each of the MAXPAGES aligned slots once |
| PagePools.GetKeepsPool | kma/kma_page.c:75-93 | a page handed out is aligned and was not in use; chain and pages in use stay disjoint and together are exactly the slots; requested = freed + in use |
| PagePools.ReleaseKeepsPool | kma/kma_page.c:95-107 | a return keeps the same, and the pool is dropped exactly when the last page in use comes back |
| PagePools.ExhaustedMeansAllOut | kma/kma_page.c:117-139 | the program stops for want of pages exactly when all MAXPAGES are in use |
| PagePools.ReleasedPageComesNext | kma/kma_page.c:141-155 | the page returned last is the next one handed out, and the pool is then as before but for the counters |
| PagePools.PagesAscend | kma/kma_page.c:117-181 | a new pool hands out its MAXPAGES pages in ascending order |
| PagePools.PagePool.GetPage | kma/kma_page.c:75-139 | the linked chain and the counters follow the pool value; words of pages in use are untouched |
| PagePools.PagePool.FreePage | kma/kma_page.c:95-155 | the page is linked at the front, or the pool dropped; no other page's word changes |
| PagePools.PagePool.InitPages | kma/kma_page.c:157-181 | the loop links every slot to the one above it, and the highest to NULL |
| ResourceMapProof.CarveKeepsShares | kma/kma_rm.c:210-227 | giving up the front of a block keeps the tiling of all pages, the order of the list and a free block at the end of each page |
| ResourceMapProof.NewPageKeepsShares | kma/kma_rm.c:170-208 | a page added in address order keeps them too |
| ResourceMapProof.ReturnFindsItsPage | kma/kma_rm.c:107-131 | the search of kma_free always ends at a listed block on the page of the returned block |
| ResourceMapProof.ReturnKeepsShares | kma/kma_rm.c:107-131 | so no returned block is lost: tiling and order stand |
| ResourceMapProof.CoalesceKeepsShares | kma/kma_rm.c:229-248 | merging keeps the tiling page by page and the order, and leaves no two adjacent free blocks on a page |
| ResourceMapProof.WholeMeansNoLive | kma/kma_rm.c:250-260 | on a merged list, a block of REAL_PAGE_SIZE bytes exists on a page exactly when nothing on it is live |
| ResourceMapRuns.OutcomeOfRequest | kma/kma_rm.c:83-208 | for every int size: when a request is refused, stops the program, writes a header over the end of a page, or stores through NULL; four exact conditions on the size, the free blocks and the next page |
| ResourceMapRuns.MallocKeepsInv | kma/kma_rm.c:83-100 | for every int size: a granted block was not live before, and the invariant stands if and only if both parts of a new page would hold a header; a refusal keeps it |
| ResourceMapRuns.UnservableExample | kma/kma_rm.c:83-182 | a first request of 8180 bytes is granted and the invariant is lost |
| ResourceMapRuns.ClearKeepsInv | kma/kma_rm.c:250-297 | at most one page is released, and only an empty one |
| ResourceMapRuns.FreeKeepsInv | kma/kma_rm.c:107-135 | after a return the pages in use are exactly those that hold a live block |
| ResourceMapRuns.RunKeepsInv | kma/kma_rm.c:83-297 | over requests of any int size and returns of what is held, the state reached satisfies the invariant if and only if every live block has a size that both parts of a page can hold |
| ResourceMapRuns.EveryByteHasOneOwner | kma/kma_rm.c:83-297 | in each such state every usable byte lies in exactly one block, free or live |
| ResourceMapRuns.AllPagesComeBack | kma/kma_rm.c:250-297 | when everything is returned every page is back, the counters agree and first_page is NULL |
| ResourceMapRuns.EmptyPageHeld | kma/kma_rm.c:83-100 | with nothing live at most the first page is in use, and it is if and only if the last call was a refused request |
| ResourceMapRuns.RefusedExample | kma/kma_rm.c:85-97 | one request of 8185 bytes is refused and leaves a page in use |
| ResourceMapRuns.FaultExample | kma/kma_rm.c:187-194 | a run of three calls after which a request stores through NULL although pages are left |
| ResourceMapCalls.MallocTakesLowestFit | kma/kma_rm.c:137-168 | while a block has room for the request and a header, kma_malloc hands out the front of the one with the lowest address; its rest stays listed, all other blocks and the pages are as before |
| ResourceMapCalls.MallocTakesNewPage | kma/kma_rm.c:170-208 | when none has, it hands out the front of the pool's next page, and the rest of that page joins the list in order |
| ResourceMapCalls.MallocStartsList | kma/kma_rm.c:85-92 | the first request is served as if a first page, one free block, had been there |
| ResourceMapCalls.FreeReleasesPage | kma/kma_rm.c:250-297 | kma_free gives back the page of the block if nothing else on it is live, and no page otherwise |
| ResourceMapCalls.FreeListIsSettled | kma/kma_rm.c:107-297 | the live blocks settle the pages in use, the first page and the whole free list, whatever calls led there |
| ResourceMapCalls.RunsMeet | kma/kma_rm.c:83-297 | two runs that leave the same blocks live leave the same free list on the same pages |
| ResourceMaps.ResourceMap.Malloc | kma/kma_rm.c:83-100 | for every int size the relinking in memory does what the model's Malloc says, in each of its five outcomes |
| ResourceMaps.ResourceMap.FindFirstFit | kma/kma_rm.c:140-168 | the walk over the headers finds the model's first fit or asks for a page |
| ResourceMaps.ResourceMap.UpdateMallocHeaders | kma/kma_rm.c:212-227 | the list in memory becomes the list with the block's front given up |
| ResourceMaps.ResourceMap.NewPage | kma/kma_rm.c:174-208 | the new page's rest is linked in order, or the write over the page end or the NULL store is reached, as the model says |
| ResourceMaps.ResourceMap.Free | kma/kma_rm.c:107-135 | a return in memory is the model's Free, for every block the client holds |
| ResourceMaps.ResourceMap.LinkFreed | kma/kma_rm.c:109-131 | the returned block is linked before the first block above it |
| ResourceMaps.ResourceMap.Coalesce | kma/kma_rm.c:231-248 | the in-place merging terminates with the model's merged list |
| ResourceMaps.ResourceMap.ClearEmptyPages | kma/kma_rm.c:252-297 | the walk unlinks and returns what the model's ClearEmptyPages does, whichever of its four cases applies |
| BuddyArithmetic.RoundUpIsLeastPower | kma/kma_bud.c:531-543 | for arguments up to 2^30 the bit operations give the least power of two not below the argument and 32 |
| BuddyArithmetic.RoundUpIsClass | kma/kma_bud.c:422-448 | for every int up to a page, negative ones too, rounding and the choice of the list agree |
| BuddyArithmetic.HalvesAreBuddies | kma/kma_bud.c:459-466 | the halves of an aligned block are aligned, on its page, and each other's buddies |
| BuddyArithmetic.BuddyIsInvolution | kma/kma_bud.c:488-496 | the buddy of an aligned block is aligned and on its page, and its buddy is the block again |
| BuddyArithmetic.MergeRestoresParent | kma/kma_bud.c:488-519 | a block and its buddy are exactly the halves of one block of the next class, aligned to its own size |
| BuddyModel.Find | kma/kma_bud.c:325-369 | the search over classes and pages finds the smallest class that has a block, on the first page that has one, or there is none |
| BuddyProof.SplitKeeps | kma/kma_bud.c:453-483 | a split into an empty list leaves all listed blocks aligned, disjoint and in order, none where nothing was free, and lists a block and its buddy |
| BuddyProof.TakeKeeps | kma/kma_bud.c:346-368 | the block handed out after any number of splits is in place, clear of all listed blocks, and was free |
| BuddyProof.MergeMakesBlock | kma/kma_bud.c:505-520 | what a merge frees is an aligned block of the next class, clear of the blocks left, made of two listed ones; the number of listed blocks drops |
| BuddyProof.FreeBlockKeeps | kma/kma_bud.c:186-229 | whatever chain of merges a free sets off, the listed blocks stay aligned, disjoint and ascending and reach into no byte that was neither free nor freed |
| BuddyProof.CoalescedKeeps | kma/kma_bud.c:501-527 | the same for coalesce, with strictly fewer listed blocks after a merge, which is why the mutual recursion ends |
| BuddyConservation.TakeConserves | kma/kma_bud.c:453-483 | splitting loses no byte |
| BuddyConservation.FreshConserves | kma/kma_bud.c:378-398 | a new page lists all its bytes but those of its header block |
| BuddyConservation.LinkConserves | kma/kma_bud.c:201-223 | a freed block is listed if and only if its list is empty or holds a block above it; no other block is lost |
| BuddyConservation.MergeConserves | kma/kma_bud.c:510-520 | a merge loses exactly the blocks listed before the merged pair |
| BuddyConservation.FreeConserves | kma/kma_bud.c:186-229 | freeing a block lists at most its bytes, and all of them if and only if it meets neither of these two losses |
| BuddyConservation.FreeGivesBack | kma/kma_bud.c:186-229 | on a page that stays, a free lists one block of the class of the size, or fewer bytes if and only if it meets a loss; these are all the bytes the request held if and only if, besides, the header costs no class |
| BuddyConservation.HalfLostExample | kma/kma_bud.c:189-195 | a request of 32 bytes held 64 and gives back 32 |
| BuddyConservation.LostAboveExample | kma/kma_bud.c:213-223 | a block freed above the only listed one is lost |
| BuddyConservation.LostBeforePairExample | kma/kma_bud.c:505-517 | a block listed before a merged pair is lost |
| BuddyJoins.FreeJoinsBuddies | kma/kma_bud.c:197-229 | on lists without a pair of adjacent buddies, a free leaves none if and only if no free in its chain of merges puts a block right before its buddy at the head of a list |
| BuddyJoins.NoPairMeansJoined | kma/kma_bud.c:488-519 | on ordered lists, no pair of adjacent buddies means that no block is free together with its buddy |
| BuddyJoins.FreeKeepsJoined | kma/DOC:20 | where no two buddies are free together, they stay joined after a free if and only if that condition holds |
| BuddyJoins.MallocKeepsJoined | kma/kma_bud.c:346-368 | cutting a block never leaves two buddies free |
| BuddyJoins.SkippedMergeExample | kma/kma_bud.c:201-208 | a block freed right before its only listed buddy: both stay listed |
| BuddyRuns.FreshListsAre | kma/kma_bud.c:378-398 | splitting a new page down to its header block leaves one free block of each class from 128 to 4096 bytes, all behind the header |
| BuddyRuns.FreshIsOk | kma/kma_bud.c:266-303 | such a page, with nobody on it, satisfies the invariant of a page |
| BuddyRuns.AgainFinds | kma/kma_bud.c:371-418 | the recursive call after a page was added finds a block on that page, so one page and one call are enough |
| BuddyRuns.ServedFromSmallest | kma/kma_bud.c:315-376 | a page is asked for only when no page lists a block that fits, and then exactly one |
| BuddyRuns.MallocKeepsInv | kma/kma_bud.c:165-179 | for every int size, refused exactly when the unsigned sum of header, page header and size exceeds a page; a granted request keeps the invariant and was not live before |
| BuddyRuns.FreeKeepsInv | kma/kma_bud.c:186-261 | every other request keeps its block, the count drops by one and is the number of live requests, and the page goes back exactly when its last request does |
| BuddyRuns.AllPagesComeBack | kma/kma_bud.c:231-260 | freeing the last request brings every page back if and only if it lies on the first page |
| BuddyRuns.LeakExample | kma/kma_bud.c:170-178 | a run that returns all it requested and keeps a page |
| BuddyCalls.MallocTakesSmallest | kma/kma_bud.c:315-369 | while a page lists a block that fits, kma_malloc hands out the first block of the smallest such class, on the first page that has one; of that block all but one of the request's class stays listed, one block a class; nothing else changes |
| BuddyCalls.MallocAddsPage | kma/kma_bud.c:371-418 | when none does, the pool's next page goes behind the others and serves the request from its smallest block that fits, or whole; no other page changes |
| BuddyCalls.MallocStartsChain | kma/kma_bud.c:165-178 | the first request is served as if a first page with its header had been there |
| BuddyCalls.MallocConserves | kma/kma_bud.c:315-483 | over all pages the free bytes drop by exactly one block of the request's class; each page added brings all but its header block |
| BuddyCalls.FreeTouchesOnePage | kma/kma_bud.c:186-261 | kma_free changes only the page of the request, and takes it out of the chain exactly when it holds no other |
| BuddyCalls.FreeListsItsClass | kma/kma_bud.c:186-229 | over all pages the free bytes grow by one block of the class of the size, or by less if and only if the free meets a loss |
| BuddyCalls.FreedIsListed | kma/kma_bud.c:189-224 | a freed block that meets no merge is listed at its own address in the class of its size if and only if it has a slot, and no other block joins or leaves the lists |
| BuddyCalls.FreeIsChain | kma/kma_bud.c:197-229 | otherwise the first pair of the smallest class leaves the lists with the blocks before it, and the block it makes up is freed in its turn |
| BuddyCalls.FreeJoins | kma/DOC:20 | on a page without two free buddies, kma_free leaves none if and only if its chain of merges skips no merge |
| BuddyRuns.RunKeepsInv | kma/kma_bud.c:165-527 | every state reachable by requests of any size, the negative ones that pass the test included, and by frees satisfies the invariant: only the first page may serve nobody |
| BuddyRuns.RequestsKeepApart | kma/kma_bud.c:165-527 | in each of them no two requests overlap, and each lies inside its page behind the block of the page header |
| BuddyRuns.FreeBlocksKeepApart | kma/kma_bud.c:165-527 | and no listed block overlaps a request or leaves its place |
| Buddies.Buddy.Malloc | kma/kma_bud.c:165-179 | for every int size the class does to memory what the model's Malloc says |
| Buddies.Buddy.GetFreeBuffer | kma/kma_bud.c:315-419 | search, splits, new page, whole-page case and recursive call have the model's outcome |
| Buddies.Buddy.Search | kma/kma_bud.c:317-345 | the nested loops stop where Find says |
| Buddies.Buddy.SplitBuffer | kma/kma_bud.c:453-483 | the headers written thread the split lists; the walk to the end of a non-empty list is unreachable |
| Buddies.Buddy.InitPage | kma/kma_bud.c:266-303 | a new page holds one block, itself |
| Buddies.Buddy.Coalesce | kma/kma_bud.c:501-527 | the search, the unlinking and the nested free leave the lists of Coalesced, the count as it was, and no page released |
| Buddies.Buddy.KmaFree | kma/kma_bud.c:186-261 | the lists become those of FreeBlock and the count drops by exactly one; at zero the page is unlinked and released once |
| Buddies.Buddy.ReleasePage | kma/kma_bud.c:231-260 | in each of the three cases the chain is the old one without the page |
| Buddies.Buddy.Free | kma/kma_bud.c:186-261 | a free in memory is the model's Free, for every request the client holds |
| SeatModel.SeatRules | server/seats.c:48-191 | a view of an available seat, a confirm and a cancel by its holder each change it in the one way they should, a cancel by seating the head of the standby list if there is one; no other task changes a seat |
| SeatModel.StandbyIsFifo | server/seats.c:64-91 | over any run those who viewed a seat another customer has, while there was room, are those seated from standby, in order, followed by those waiting, never more than eight |
| SeatModel.OccupiedForEver | server/seats.c:103-191 | an occupied seat keeps state and customer for the rest of any run |
| SeatModel.PendingUntilHolderActs | server/seats.c:48-191 | a pending seat is its holder's until a confirm or cancel of the holder for it |
| SeatModel.ViewedThenConfirmed | server/seats.c:48-137 | who views an available seat and later confirms it, with no cancel of his in between, has it in the end, whatever all others do |
| SeatModel.OccupiedBecause | server/seats.c:103-191 | over any run a seat is occupied by a customer if and only if its holder confirmed it, or cancelled it while that customer was first on standby |
| SeatTables.SeatTable.constructor | server/seats.c:195-224 | the list built has the seats 0 to n - 1, available, with customer -1 |
| SeatTables.SeatTable.ViewSeat | server/seats.c:48-101 | the linked structures change as Apply says for a view |
| SeatTables.SeatTable.ConfirmSeat | server/seats.c:103-137 | the same for a confirm |
| SeatTables.SeatTable.CancelSeat | server/seats.c:139-191 | the same for a cancel, which seats the head of the standby list |
| TaskRings.ContentsAt | server/thread_pool.c:38-42 | the task k places behind the first is at q_start + k modulo the limit |
| TaskRings.PutAppends | server/thread_pool.c:83-93 | a task is appended if and only if it does not fill the array; the one that does makes the queue look empty |
| TaskRings.TakenIsFirst | server/thread_pool.c:142-145 | the queue is empty exactly when it looks so, and what is taken is its first task |
| TaskRings.DoKeepsFifo | server/thread_pool.c:83-147 | one operation keeps the queue first-in, first-out exactly when it does not fill the array |
| TaskRings.RunKeepsFifo | server/thread_pool.c:83-147 | over every run what was taken and what is queued are the tasks added, in order, if and only if no task filled the array; otherwise tasks are missing |
| TaskRings.RefinesUnbounded | server/thread_pool.c:83-147 | over every run the array holds and gives out what an unbounded queue would, if and only if no task filled it |
| TaskRings.FillExample | server/thread_pool.c:87-88 | two tasks added to an array of two are lost |
| TaskRings.TaskRing.AddTask | server/thread_pool.c:83-93 | the array update is Put |
| TaskRings.TaskRing.TakeTask | server/thread_pool.c:142-145 | the first task comes out, the rest stays |
| Semaphores.RunKeepsInv | server/semaphore.c:22-65 | for any number of threads and any run the count is not negative and count plus holders is 1 |
| Semaphores.MutualExclusion | server/semaphore.c:40-65 | at most one thread is between wait and post, under broadcast and spurious wakeups |
| Semaphores.StepRefines | server/semaphore.c:40-65 | every step is a stutter, the P of a thread while nobody holds the semaphore, or the V of its holder |
| Semaphores.NeverStuck | server/semaphore.c:40-65 | while a thread waits, works or posts, some such thread can step: no wakeup is lost |
| SeatHandlers.HandlerIsApply | server/seats.c:48-191 | a handler run step by step, through the semaphore's own steps, on clean shared state never blocks or follows NULL, does what Apply says, and gives every lock and the semaphore back |
| SeatServers.StepKeepsInv | server/thread_pool.c:83-150 | every step of every thread keeps lock, queue, seats and wakeups in order |
| SeatServers.QueueKept | server/thread_pool.c:83-147 | a step that fills the array loses the whole queue, and no other step loses, adds or reorders a task |
| SeatServers.RunKeepsInv | server/thread_pool.c:53-150 | every reachable state of n seats and m workers satisfies the invariant |
| SeatServers.AcceptedAreAdded | server/thread_pool.c:83-93 | in every run the tasks accepted are those put on the queue, in order, followed by the one the producer still holds |
| SeatServers.FilledIfSomeFills | server/thread_pool.c:87-88 | a run is marked as having filled the array if and only if one of its steps did |
| SeatServers.RefinesSequentialRun | server/thread_pool.c:83-150 | whenever the pool lock is free, the seats are those of the tasks taken, applied in order; tasks taken, queued and in the producer's hands are the tasks accepted, in order, if and only if none filled the array |
| SeatServers.NeverStuck | server/thread_pool.c:131-149 | unless the pool is at rest some thread can step, with no spurious wakeup and no new task |
| SeatServers.SomebodyAttends | server/thread_pool.c:90-136 | while a task is queued a worker is awake or the producer is about to signal |
| SeatServers.QuietRunsEnd | server/thread_pool.c:125-150 | under no schedule can the threads go on for ever without a new task or a spurious wakeup |
| SeatServers.EveryTaskGetsDone | server/thread_pool.c:83-150 | left alone, the threads stop after a bounded number of steps; where they stop, the queue is empty, the workers sleep, any new task is accepted, and the seats are those of the tasks taken, which are all tasks accepted, in order, if and only if none filled the array |
| SeatServers.OccupiedForEverInThePool | server/seats.c:103-191 | once a seat is found occupied, it is found so at every later moment at which the lock is free, whatever the threads do |
| SeatGuards.WritesAreGuarded | server/seats.c:48-191 | in every interleaving the standby list is written only inside the semaphore, by one thread at a time, and confirm and cancel write only their own seat, while they hold its mutex |

## Left out

- ResourceMapRuns.RunKeepsInv: a run stops with the request that leaves an unservable block live, because later headers then share bytes with other headers, which header-per-address memory does not show; it also stops at the store through NULL and at the header written over the end of a page.
- BuddyRuns.RunKeepsInv: a request is freed with the size it was requested with.
- SeatServers.EveryTaskGetsDone: a spurious wakeup counts as an outside event, as a new task does.
- Headers and pages are named by address: `kma_page_t` structures are identified with the page they describe, and the bytes of a header are not overlaid with the client's data; the first word of each page in use belongs to the allocator.
- Pointer widths other than 32 bits and failure of `malloc` or `posix_memalign`.
- The infinite loop of a worker as a method: it is the step machine of `SeatServer.dfy`.
- Shutdown and `pool_destroy`, including the exit that keeps the lock (`server/thread_pool.c:139-140`).
- Reply texts, `list_seats`, `unload_seats`, sockets and HTTP: a task is a seat operation.
- `page_stats`, page ids, and the trace-driven harness of `kma/kma.c`.
- The other allocators of `kma/` are stubs or take one page a request.
- `tinyshell/` and `filesystem/`.
