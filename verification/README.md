# Petmem in Dafny

Petmem is a Linux module that takes memory away from the kernel and pages a process with it: a buddy
allocator over memory pools, a list of virtual regions, and a page-fault handler with a clock and a swap
file. This project models those parts and proves what they are for: the allocator never hands out
memory twice and never fragments what nobody holds, and the process sees a plain memory of pages however
its pages are moved between frames and swap slots.

`dafny verify dfyconfig.toml` checks everything.

| part | files |
|---|---|
| optional values; power-of-two blocks, shifts, exclusive-or | `Options.dfy`, `Dyadic.dfy` |
| the buddy allocator as values, the steps that keep its invariant, what the invariant means | `BuddySpec.dfy`, `BuddySteps.dfy`, `BuddyTheorems.dfy` |
| the buddy allocator as it runs: tag bits, threaded lists, order fields in the blocks | `IntrusiveList.dfy`, `BuddyImage.dfy`, `BuddyMempool.dfy` |
| the list of pools, page allocation and freeing, one-page frames | `PoolList.dfy`, `Petmem.dfy`, `Frames.dfy` |
| single bits of bytes; the swap file | `Bits.dfy`, `Swap.dfy` |
| index macros and entry layout | `PgTables.dfy` |
| the list of virtual regions | `Regions.dfy` |
| an address space as values and every step a fault takes on it | `AddressSpace.dfy`, `PagingSteps.dfy`, `PagingTrace.dfy`, `Clock.dfy`, `FaultSpec.dfy`, `FaultSteps.dfy` |
| the course of a fault: how it ends, and which pages go on the way | `FaultCourse.dfy` |
| the fault handler as it runs | `Paging.dfy` |
| whole runs of the steps; when there is room for a page | `PagingRuns.dfy`, `Room.dfy` |
| everything put together, and a program that runs on it | `Machine.dfy` |
| the search for memory blocks to take offline | `OfflineSearch.dfy` |

How the pieces fit:

* A `BuddySpec.Pool` is a partition of the pool into pieces, plus the free lists. `Mempool` keeps a tag
  array, a map of link fields and a map of order fields; `BuddyImage.Reflects` says which of them mean
  anything: the tag bit at the start of each piece, and the link and order fields of free pieces. Tag bits
  inside pieces and everything in live memory are arbitrary, and `Mempool.Scribble` lets the holder of a
  block overwrite it. Each method is proved to compute a function on `Pool`, and the theorems are about
  that function.
* An `AddressSpace.Vm` is physical memory, the tree of table entries reached from CR3, the frames handed
  out and the swap store. `VmOk` says: an entry is present exactly if the tree has its child, and then
  points at the child's frame; no two positions of the tree share a frame; every frame handed out is in
  the tree; every swapped-out page has a used slot of its own. Its `flight` argument names the page whose
  slot has been given back in the middle of a swap-in. `Paging.Process` runs the handler on memory words,
  on the real allocator (`Frames.FrameSource` over `Petmem.PageAllocator` over `Mempool`) and on the
  bit-packed swap map.
* `FaultSpec.Handled` is what a fault does: the page is resident with its old bytes, or zeros if it was
  never touched; every other page keeps its bytes and either stays where it was or goes from memory to
  swap; tables stay where they are; nothing but the page and the tables on its path becomes reachable; no
  slot is lost. `FaultCourse.Course` says how the fault ends and which pages go: a function of the positions
  of the tree, the accessed bits, the clock's hand, the number of free frames and the swap map. The handler
  is proved to follow it, frame by frame. A fault that cannot get a frame ends in a state on the way that
  has all frames in use and no victim, or no slot for one (`FaultSteps.MayStick`).
* `PagingTrace` has the steps a fault and the process are made of - flags, a new table, a zeroed page, an
  eviction, a slot given back, a page put back, a store - and runs of them, in any order in which each can
  be taken. `PagingRuns` shows by induction that every state of every run is sound and shows a plain map
  from pages to bytes. `PagingTrace.Leads` says that such a run leads from one address space to another: it
  is part of `Handled`, and of what every method of `Paging.Process` that changes pages promises, so that
  what is proved of runs holds of the handler and of whole programs, at every point on their way.
* `Machine.Boot` makes an allocator from a range of memory and starts a process on it, whether or not its
  PML4 already leads to a table over the region. `Machine.Execute` runs a program of loads, stores and
  requests for regions on such a process. The processor checks presence and rights on every level; a page
  that is missing is a fault with code 1, a right that is missing a fault with code 2, as the signal handler
  of user/harness.c reports them. Every load returns what was last stored, and every request the lowest
  hole. With enough frames, or with room for the pages the program touches (`Room.Ample`), it runs to its
  end if and only if the PML4's entry allows its accesses.

Where the code falls short of its purpose, it is modelled as it is and a lemma says exactly when: the
double-free check looks at one tag bit, so that it stops a free for certain exactly where a free block starts
(`CatchesExactly`), misses a second free of a block that was merged into a lower one (`StaysHeadExactly`,
`UpperFreedTwice`), and never looks at the order, while a free leaves the pool sound exactly if it is of a live
block with its order (`FreeSoundExactly`); a pool of 2^31 bytes never takes a block back (`RoutingExact`), pages
at physical address 0 are handed out and reported as a failure (`AllocPages`), an empty region request breaks
the region list (`EmptyRequestBreaks`), eviction with a full swap map loses the victim unless slot 0 held the
same bytes (`EvictWhenFull`), a region start carried over between search passes is harmless only under a
condition the loop happens to keep (`CarryOverExact`), the clock never stops if no region's first page is
resident (`VictimExistsExactly`), the PML4's entry is not opened to the process, so that a page brought in below
a closed entry cannot be used (`FaultSpec.Usable`, `Machine.Execute`), and freeing a kernel virtual address frees
nothing (`VirtualFreeIgnored`).

The notes of the repository say that `swap_out_page` returns -1 when the swap space is full (README.md:18);
the code returns -1 always (swap.c:87), and the model follows the code: the result says nothing.

## Model

| member | source | states |
|---|---|---|
| Dyadic.ShiftIsDivision | buddy.c:19-20 | shifting right is division by a power of two, and the low bits are zero exactly for its multiples |
| Dyadic.BuddyIsXor | buddy.c:71 | flipping bit `order` of an offset is the exclusive-or with 2^order |
| Dyadic.BuddyFacts | buddy.c:65-74 | the buddy of an aligned block below the pool top is in the pool, aligned, one block away by parity, an involution, and the two make the aligned parent at the lower address |
| Dyadic.Nested | buddy.c:175-194 | two aligned power-of-two blocks that meet are nested |
| Dyadic.ShrInjective | buddy.c:19-22 | aligned blocks with the same block id are the same block |
| Dyadic.ShrBound | buddy.c:21 | block ids of blocks in the pool are below the number of tag bits |
| BuddySpec.BuddyIsHead | buddy.c:231-236 | the buddy address computed for any piece is the start of a piece of no larger order, never the middle of one |
| BuddySpec.FirstOrder | buddy.c:177-182 | the search stops at the lowest non-empty list at or above the order asked for |
| BuddySpec.Fixup | buddy.c:173-175 | an order is raised to the smallest one supported, and no further |
| BuddySpec.FreshInv | buddy.c:123-136 | a new pool is one block in the caller's hands and satisfies the invariant |
| BuddySteps.TakeInv | buddy.c:180-185 | unlinking the first block of a list keeps tiling, lists and full merging |
| BuddySteps.SplitInv | buddy.c:188-194 | splitting the block in hand keeps tiling, lists and full merging |
| BuddySteps.MergeInv | buddy.c:239-244 | absorbing the free buddy keeps tiling, lists and full merging, and the merged block is in hand |
| BuddySteps.InsertInv | buddy.c:248-250 | putting a block whose buddy cannot be absorbed on its list keeps the invariant |
| BuddySteps.AllocInv | buddy.c:163-200 | allocation keeps the invariant, also when it fails |
| BuddySteps.AllocLive | buddy.c:163-200 | allocation adds exactly one live block of the order asked for, raised to the minimum, not live before; failure changes nothing |
| BuddySteps.ReleaseInv | buddy.c:229-250 | freeing a live block keeps the invariant through the whole coalescing loop |
| BuddySteps.ReleaseLive | buddy.c:229-250 | freeing takes exactly that block out of the live ones |
| BuddyTheorems.ClearInOnePiece | buddy.c:229-245 | an aligned block of memory nobody holds lies inside a single free block |
| BuddyTheorems.Canonical | buddy.c:163-251 | the free blocks are exactly the maximal legal blocks disjoint from every live block |
| BuddyTheorems.LiveDeterminesPool | buddy.c:163-251 | two pools with the same live blocks have the same pieces and the same blocks on every free list |
| BuddyTheorems.AllFree | buddy.c:229-250 | with nothing live the pool is one free block |
| BuddyTheorems.TakesSmallest | buddy.c:177-196 | a successful allocation returns a legal block clear of all live ones, cut from a free block of the smallest sufficient order |
| BuddyTheorems.FailsExactly | buddy.c:174-199 | allocation fails if and only if no aligned block of the order lies wholly in memory nobody holds |
| BuddyTheorems.ReleaseUndoesTrim | buddy.c:188-194 | coalescing undoes the split chain step for step |
| BuddyTheorems.ReleaseUndoesAlloc | buddy.c:163-251 | freeing a block just allocated restores the pool exactly, every list in its old order |
| BuddyTheorems.FreeSoundExactly | buddy.c:206-251 | a free leaves a sound pool sound if and only if it is of a live block with that block's order, raised to the minimum |
| BuddyTheorems.LegalExactly | buddy.c:163-251 | a call with an order within the pool keeps it sound if and only if it is an allocation or frees what the caller holds, with its order |
| BuddyTheorems.RunInv | buddy.c:163-251 | every run in which callers free what they hold, with its order, takes a sound pool to a sound pool |
| BuddyTheorems.StaysHeadExactly | buddy.c:229-250 | a freed block still starts a block afterwards if and only if no legal block of memory nobody else holds reaches over its start from below |
| BuddyTheorems.LastFreedTwice | buddy.c:226-250 | after the last live block is freed its address starts a block only if it is that of the pool |
| BuddyTheorems.UpperFreedTwice | buddy.c:226-250 | a run that shows it: of two blocks handed out and freed, the upper one no longer starts a block |
| BuddyTheorems.RunsConverge | buddy.c:163-251 | any two runs on an initialised pool that leave the same blocks live leave the same pieces, the free ones maximal |
| BuddyTheorems.EverythingFreed | buddy.c:229-250 | after any run that frees everything one block of the pool's order is left, alone on the top list |
| BuddyTheorems.Conservation | buddy.c:163-251 | free and live bytes always add up to the pool |
| IntrusiveList.AddRing | buddy.c:193 | list_add puts a block, whatever its link field held, at the front of its circular list |
| IntrusiveList.DelRing | buddy.c:184 | list_del takes exactly one block out of its circular list and keeps the order of the rest |
| IntrusiveList.AddFrame | buddy.c:250 | list_add on one list leaves every other list |
| IntrusiveList.DelFrame | buddy.c:240 | list_del on one list leaves every other list |
| BuddyImage.BuddyReadable | buddy.c:233-237 | the tag bit read for the buddy is that of a piece and says whether it is free; the order field is needed only of a free piece; together they decide merging |
| BuddyImage.TakeReflects | buddy.c:183-185 | after list_del and mark_allocated the memory shows the pool with that block taken |
| BuddyImage.SplitReflects | buddy.c:190-193 | after writing order, tag and links of the upper half the memory shows the split pool |
| BuddyImage.MergeReflects | buddy.c:240-244 | after list_del and the order write, with the absorbed tag bit left stale, the memory shows the merged pool |
| BuddyImage.InsertReflects | buddy.c:248-250 | after the final order, tag and link writes the memory shows the pool with the block free |
| BuddyImage.ScribbleReflects | buddy.c:225 | whatever is written into live memory, the memory still shows the same pool |
| BuddyImage.CatchesExactly | buddy.c:226 | the double-free check stops an address in every memory that shows the pool if and only if a free block starts there, and passes it in every one if and only if a live block does |
| BuddyImage.SecondFreeCaught | buddy.c:226 | right after a free, the check stops the same free again if and only if no lower buddy absorbed the block |
| BuddyImage.TakeSpares | buddy.c:183-185 | list_del and mark_allocated write nothing inside live blocks |
| BuddyImage.PutSpares | buddy.c:190-193 | order, tag and list_add write nothing inside live blocks other than the one in hand |
| BuddyImage.MergeSpares | buddy.c:240-244 | a merge writes nothing inside live blocks other than the one in hand |
| BuddyMempool.MinOrderFixupExact | buddy.c:107-108 | the raised minimum is the smallest order that holds a block structure |
| BuddyMempool.BuddyInit | buddy.c:96-139 | fails exactly when the smallest block exceeds the pool; else a pool wholly in the caller's hands |
| BuddyMempool.Mempool.constructor | buddy.c:114-136 | empty lists and cleared tag bits show a pool wholly handed out |
| BuddyMempool.Mempool.TakeBlock | buddy.c:180-185 | takes the first block of list j, unlinked and marked allocated |
| BuddyMempool.Mempool.Trim | buddy.c:187-194 | the loop gives back the upper halves down to the order asked for |
| BuddyMempool.Mempool.Alloc | buddy.c:162-200 | computes Alloc, fails exactly without room, adds one live block not live before, and writes nothing inside blocks that were live |
| BuddyMempool.Mempool.HeldBlock | buddy.c:226 | the double-free check passes for every live block, whatever order it is freed with |
| BuddyMempool.Mempool.ReadsHead | buddy.c:231-237 | every buddy the loop looks at is the head of a piece within the bounds of the tag array |
| BuddyMempool.Mempool.Absorb | buddy.c:239-244 | one round of coalescing, in place |
| BuddyMempool.Mempool.Coalesce | buddy.c:228-245 | the loop ends where no free buddy of the same size is left, changes no tag bit, and nothing inside blocks that stay live |
| BuddyMempool.Mempool.Free | buddy.c:206-251 | computes Release, takes exactly that block out of the live ones, sets the tag bit of the block it ends in and no other, and writes nothing inside blocks that stay live; the same free again would be stopped exactly if the block still starts one |
| BuddyMempool.Mempool.Scribble | buddy.c:185-193 | a holder may write anything into its block without changing the pool |
| PoolList.GetOrder | main.c:30 | the smallest order that holds the pages |
| PoolList.PageOrderExact | main.c:30 | a request is for the smallest block of at least a page that holds its pages |
| PoolList.FlsIsHighBit | main.c:93-95 | fls is one more than the number of the highest set bit |
| PoolList.CutDescends | main.c:93-117 | pool sizes strictly descend |
| PoolList.CutSum | main.c:93-117 | the pools hold exactly the pages given |
| PoolList.CutIsBits | main.c:93-117 | one pool for each set bit of the page count and no other |
| PoolList.AddRangesTile | main.c:113-116 | the i-th pool starts where the ones before it end, last pool first in the list |
| PoolList.AddRangesKeeps | main.c:113 | pools added earlier stay in the list |
| PoolList.PoolsPush | main.c:103-113 | a new pool over unused memory keeps pools disjoint and the ledger of live blocks exact |
| PoolList.RoutingExact | main.c:56-57 | the range check accepts exactly the pool's addresses if and only if the pool order is at most 30 |
| PoolList.RoutesHome | main.c:55-62 | a freed block is accepted by the pool it came from and no other, for orders up to 30 |
| PoolList.FullMeansAllLive | main.c:33-41 | when no pool has room for a page, every page of every pool is handed out |
| PoolList.OneOwner | main.c:27-66 | a block handed out was handed out by exactly one pool |
| PoolList.LiveApart | main.c:27-66 | blocks handed out never overlap, across pools |
| PoolList.ListConservation | main.c:27-66 | free and live bytes of all pools add up to their sizes |
| PoolList.VirtualFreeIgnored | on_demand.c:295-296 | the kernel virtual address of any physical address below 120 TiB, beyond which it would not fit a word, is accepted by no pool of order at most 31 when given to petmem_free_pages, so the free path returns no frame |
| Petmem.PageAllocator.AddLargest | main.c:93-117 | one round makes the largest pool that fits and leaves exactly the rest of the range to cut |
| Petmem.PageAllocator.CutUp | main.c:93-117 | the loop ends with nothing left of the range and exactly the planned list of pools |
| Petmem.PageAllocator.AddMemory | main.c:77-120 | adds exactly the pools of the cut, back to back, and touches no live block and no earlier pool |
| Petmem.PageAllocator.NewPool | main.c:103-111 | a pool with nothing live, in which the double-free check passes every page but the first |
| Petmem.PageAllocator.AllocPages | main.c:27-45 | when no pool has room, 0 and nothing changes; else a new block from the first pool with room, which is lost to the caller if it is at address 0 |
| Petmem.PageAllocator.FreePages | main.c:48-66 | takes exactly that block back if its pool has order at most 30, and nothing if it has order 31 |
| Petmem.HandOut | main.c:33-44 | a block new in its pool is new in the whole list |
| Frames.FrameSource.Alloc | main.c:27-45 | one page: 0 exactly when every managed frame is in use, else a frame not in use |
| Frames.FrameSource.Free | main.c:48-66 | one page: the frame is free again and nothing else changes |
| Bits.TestBitByValue | swap.c:45-49 | bit k of a byte is the one worth 2^k |
| Bits.TestPutSame | swap.c:61-62 | a bit written is the bit read |
| Bits.TestPutOther | swap.c:61-62 | writing one bit leaves the other seven of its byte |
| Bits.PutBitOf | swap.c:54-65 | writing bit i of the map changes bit i and no other |
| Swap.LeastFree | swap.c:78-86 | the lowest unused slot, if any |
| Swap.UsedSlotKept | swap.c:76-98 | a used slot keeps its page through any run that does not swap it in |
| Swap.SwapRoundTrip | swap.c:76-98 | what is swapped out to a slot is what is swapped in from it, whatever happens on other slots, and exactly that slot is freed |
| Swap.SwapSpace.CheckBitmap | swap.c:42-52 | the slot's bit, or -1 outside the map |
| Swap.SwapSpace.PutValue | swap.c:54-65 | exactly the slot's bit changes, nothing outside the map |
| Swap.SwapSpace.SwapOutPage | swap.c:76-88 | the page goes to the lowest unused slot; with none the number is left alone |
| Swap.SwapSpace.SwapInPage | swap.c:93-98 | the slot's page, and the slot is unused |
| PgTables.MacrosAreShifts | pgtables.h:27-30 | each macro shifts by its number of bits and keeps nine |
| PgTables.IndicesDetermineAddress | pgtables.h:27-30 | the four indices and the offset determine a 48-bit address |
| PgTables.AddressDeterminesIndices | pgtables.h:27-30 | every choice of four indices and an offset is an address with those indices |
| PgTables.UnpackPack | pgtables.h:302-316 | the fields of an entry survive writing and reading the word |
| PgTables.PackUnpack | pgtables.h:302-316 | every 64-bit word is the image of the entry read from it |
| PgTables.FlagsByBits | pgtables.h:302-311 | which bit of the word each flag is |
| PgTables.FieldsByBits | pgtables.h:312-315 | which bits of the word each wider field is, and the top bit |
| PgTables.ZeroWord | pgtables.h:302-316 | the entry the model calls zero is the one whose word is zero |
| Regions.AllocateKeeps | on_demand.c:369-400 | allocation keeps regions in order, gap-free, with no two free neighbours |
| Regions.AllocateLive | on_demand.c:369-400 | allocation adds exactly the region it returns |
| Regions.HoleInRegion | on_demand.c:373-378 | a hole of unallocated pages never spans two list nodes |
| Regions.FirstFitExact | on_demand.c:369-400 | returns the lowest hole that is large enough, and fails if and only if there is none |
| Regions.EmptyRequestBreaks | on_demand.c:384-399 | the list stays sound exactly if the request is not empty or nothing is free |
| Regions.CoalesceLive | on_demand.c:343-364 | freeing takes exactly that region out |
| Regions.FreeKeeps | on_demand.c:326-366 | freeing keeps the list sound and removes exactly the live region that starts at the address |
| Regions.AllocateMaps | on_demand.c:369-419 | after a request the addresses in use are those in use before and exactly the pages returned |
| Regions.FreeUnmaps | on_demand.c:326-419 | after a free the addresses in use are those in use before but for exactly the pages of the region at the address |
| Regions.InitialIsFree | on_demand.c:26-28 | at first no address is in use; a request that fits is met at the start of the range, a larger one returns -1 |
| Regions.LiveDeterminesList | on_demand.c:326-400 | the list is determined by its live regions |
| Regions.FreeUndoesAllocate | on_demand.c:326-400 | freeing what was just allocated restores the list |
| Regions.RunKeeps | on_demand.c:326-400 | every run of allocations and frees keeps the list sound |
| Regions.RunsConverge | on_demand.c:326-400 | runs that leave the same regions live leave the same list |
| Regions.RegionList.constructor | on_demand.c:26-34 | one region over the whole range, and no address in use |
| Regions.RegionList.AllocateRegion | on_demand.c:369-400 | computes Allocate |
| Regions.RegionList.FreeRegion | on_demand.c:326-366 | computes FreeAt |
| Regions.RegionList.FindLast | on_demand.c:330-334 | the last region that starts at the address |
| Regions.RegionList.CheckAddressRange | on_demand.c:410-419 | accepts exactly the addresses in use, from the first byte of a region to its last |
| AddressSpace.ZeroFrameIsZero | on_demand.c:90 | a cleared frame is the one whose 512 words are all zero |
| AddressSpace.StateByWord | on_demand.c:199-203 | a page is in memory, in the swap file or untouched, and where, by bits 0, 6 and 12 to 51 of its word |
| AddressSpace.MacrosFollowTree | on_demand.c:99-113 | the macros pick, level by level, the entry on the way to the page |
| AddressSpace.WriteEntryOthers | on_demand.c:91-92 | in a tree of unshared tables, writing one entry changes no other |
| PagingSteps.FlagsKeep | on_demand.c:180-182 | changing flags of an entry keeps the address space sound and every page |
| PagingSteps.AttachKeeps | on_demand.c:87-92 | a fresh zeroed table or a page with given bytes keeps the address space sound and every other page |
| PagingSteps.AttachSlots | on_demand.c:208-225 | a page put back into memory leaves no used slot without a page |
| PagingSteps.EvictSlots | on_demand.c:155-157 | the slot an eviction takes belongs to the victim; no slot is lost |
| PagingSteps.EvictKeeps | on_demand.c:153-157 | with a free slot, eviction keeps the address space sound and the bytes of every page |
| PagingSteps.EvictWhenFull | on_demand.c:155-157 | with a full swap map the victim survives exactly if slot 0 held its bytes; all others survive |
| PagingSteps.ReleaseKeeps | on_demand.c:208 | giving the slot back early leaves a free slot, and every other page as it was |
| PagingSteps.WritePageKeeps | on_demand.c:217 | writing a page changes no other |
| Clock.WalkStep | on_demand.c:126 | following the list from the hand visits the nodes in circular order and ends at the hand |
| Clock.SweepForward | on_demand.c:126 | a sweep comes to the regions behind the hand's in list order, then past the list head to those before it |
| Clock.HandBehind | on_demand.c:135-139 | moved behind a page's node, the hand is on the next region, or on the list head behind the last |
| Clock.AccessedByWord | on_demand.c:131 | the bit the clock looks at is bit 5 of the word |
| Clock.SweepCovers | on_demand.c:126 | a sweep comes to the first page of every region whose node is not the hand's own |
| Clock.VictimExistsExactly | on_demand.c:125-143 | the clock finds a victim exactly if some node it comes to has its first page resident |
| Clock.Victim | on_demand.c:125-143 | the first idle page in the order of the sweep; if none is idle the first resident one |
| Clock.PassedOverExactly | on_demand.c:131-134 | the pages that lose their bit are those resident before the first idle one, all if none is |
| Clock.SweepIsOnePass | on_demand.c:126-130 | a sweep comes to no page twice, and only to pages of the region |
| Clock.SweepStop | on_demand.c:135-139 | the page stopped at is the first idle one, or the first resident one if none is idle |
| Clock.SweepClear | on_demand.c:131-133 | passing over an accessed page clears its bit and nothing else |
| Clock.SweepDone | on_demand.c:125-143 | two sweeps without a victim mean that nothing swept is resident |
| FaultSpec.ClearedKept | on_demand.c:131-134 | clearing accessed bits moves no page, table or right |
| FaultSpec.EvictKept | on_demand.c:153-157 | eviction moves one page to swap and nothing else |
| FaultSpec.AttachKept | on_demand.c:87-92 | attaching a frame moves no other page, table or right |
| FaultSpec.OpenKept | on_demand.c:180-182 | opening an entry changes no translation |
| FaultSpec.ResidentIsPermitted | on_demand.c:172-202 | the process can load from or store to a resident page exactly as the PML4's entry allows |
| FaultSpec.PassesByWord | pgtables.h:302-316 | a level lets an access through by bits 0, 2 and, to write, 1 of its word |
| FaultSpec.PermittedByLevels | on_demand.c:99-113 | the levels are the four from the page up to the PML4 |
| FaultCourse.SweptHand | on_demand.c:135-139 | the hand ends behind the victim, or stays if there is none |
| FaultCourse.MakeSpaceExactly | on_demand.c:147-159 | making room never ends exactly if no region the clock comes to has its first page in memory, and else works exactly if a slot is free |
| FaultCourse.CourseSpent | on_demand.c:160-227 | a fault that ends well leaves the page and its tables in the tree, writes out exactly as many pages as frames were short and no table, and loses no frame |
| FaultCourse.EnoughFree | on_demand.c:82-92 | with a free frame for everything that is missing a fault ends well and writes nothing out |
| FaultCourse.SwapInHasSlot | on_demand.c:203-213 | a page coming back from the swap file is never short of a slot |
| FaultSteps.NothingEvicted | on_demand.c:82-86 | if no position of the tree is lost, no other page has moved |
| FaultSteps.RegionPages | petmem.h:55-56 | the pages the handler serves are exactly those of the range of the region list |
| Paging.Process.GetValidPageEntry | on_demand.c:96-118 | finds the leaf entry exactly if the page is resident |
| Paging.Process.PageReplacementClock | on_demand.c:120-145 | picks the victim of the second-chance rule, clears exactly the bits of pages passed over, and leaves the hand on the region behind the victim's |
| Paging.Process.SweepTwice | on_demand.c:125-143 | finds a victim within two sweeps if there is one |
| Paging.Process.EvictFound | on_demand.c:153-157 | the victim's bytes go to the lowest free slot, its frame is free, its entry names the slot and keeps its rights, by a step of a run; with no slot it names slot 0 and only the victim's bytes are lost |
| Paging.Process.ClearUpMemory | on_demand.c:147-159 | evicts exactly the clock's choice; fails exactly without a victim or without a slot, and says what is lost without a slot |
| Paging.Process.ObtainFrame | on_demand.c:82-86 | a frame exactly when one is free, or when the clock finds a victim and the swap map has room; nothing is evicted while a frame is free, and else the clock's choice |
| Paging.Process.MakeRoom | on_demand.c:84-85 | after eviction the second try never fails |
| Paging.Process.HandleTableMemory | on_demand.c:78-94 | a zeroed frame nobody else uses becomes the child, all other pages keep their bytes |
| Paging.Process.OpenEntry | on_demand.c:179-183 | present, writable and user are set in that entry, no other bit and no other entry changes, and no translation does |
| Paging.Process.EnsureTable | on_demand.c:172-192 | a missing table is allocated, a present one left alone, and the next table found |
| Paging.Process.TakeFromSwap | on_demand.c:203-208 | the page's exact bytes, its slot free again, nothing else changed |
| Paging.Process.SwapIn | on_demand.c:203-226 | the page is resident with its exact bytes; never short of a slot, even with a full swap map |
| Paging.Process.WalkDown | on_demand.c:172-194 | reaches the page table by the course of its tables, and stops only in a state without victim or slot |
| Paging.Process.FaultIn | on_demand.c:196-227 | zero-fills an untouched page, swaps in a swapped-out one, leaves a resident one alone |
| Paging.Process.HandlePageFault | on_demand.c:160-263 | refuses exactly addresses outside live regions and permission errors, unchanged; else ends as the course of the fault says, with exactly the pages it evicts gone, the slots it takes taken and the hand where it leaves it; brings in the page, its entry clean, and keeps all others, by steps of a run that leave caching, no-execute and spare bits of every entry alone; gets stuck only where all frames are in use and there is no victim or slot; with a free frame for each missing level it succeeds and evicts nothing |
| Paging.Process.Translate | pgtables.h:302-316 | the processor's walk: missing exactly if the page is not resident, granted exactly if every entry on the way allows the access |
| Paging.Process.Load | pgtables.h:302-316 | a permitted read returns the page's bytes, sets its accessed bit and no other, and changes no page, place or right, by a step of a run |
| Paging.Process.Store | pgtables.h:302-316 | a permitted write changes that page's bytes, sets its accessed and dirty bits, and changes no other page, place or right, by steps of a run |
| Paging.Process.FrameOwned | main.c:27-66 | in a valid process every resident page and module-made table has a frame of its own, a one-page block handed out by exactly one pool |
| Paging.Process.AllocVspace | on_demand.c:58-61 | allocates a region; pages do not move and the hand stays with its node |
| PagingRuns.NextKeeps | on_demand.c:78-227 | each step of a fault or of the process, whenever it can be taken, keeps the address space sound and loses no slot |
| PagingRuns.RunRefinesMemory | on_demand.c:160-263 | any run of these steps from a sound state is a run of a plain map from pages to bytes, ends sound, and loses no slot |
| PagingRuns.PagesKept | on_demand.c:147-227 | at any point of any run a touched page has the bytes last stored in it, or zeros, in memory, in the swap file or on its way back |
| PagingRuns.NothingShared | on_demand.c:82-92 | at any point of any run from a sound state resident pages have live frames of their own and swapped-out pages used slots of their own |
| PagingRuns.LedSoundly | on_demand.c:160-263 | whatever leads from a sound address space to another - a fault, an access, a whole program - is a run of steps that is sound at every point |
| PagingRuns.FaultShows | on_demand.c:160-263 | a handled fault leaves the plain memory as it was, or with one page of zeros more |
| PagingRuns.StartSound | on_demand.c:21-35 | a process with nothing in the region is a sound start, with or without a table over it, whatever memory and the swap map hold; the rights are those of its PML4's entry |
| Room.NoFrameLeaks | on_demand.c:82-92 | the frames handed out are exactly those of the tree, one each |
| Room.FreeSlot | swap.c:78-86 | with fewer orphaned slots and swapped-out pages than slots, a slot is free |
| Room.AmpleKept | on_demand.c:78-227 | no step towards a page that starts a region uses up the room for the pages the process touches |
| Room.AmpleHasVictim | on_demand.c:125-143 | with room and all frames in use, the clock has a victim wherever its hand is |
| Room.AmpleHasSlot | swap.c:78-86 | with room and all frames in use, the swap map has a free slot |
| Room.GivenStarts | on_demand.c:384-399 | the first page of a region just given is one the clock looks at |
| Room.AmpleNeverSticks | on_demand.c:147-159 | with room, no fault on a page that starts a region gets stuck |
| Machine.FramesOfRange | main.c:93-117 | the pools of a range make every page of it a frame, and nothing else |
| Machine.Boot | main.c:77-120 | the allocator over a range and a new process, its PML4's entry present or not, satisfy everything the parts require, with one frame for each page, nothing in use and the hand on the list head |
| Machine.EnoughAtStart | main.c:77-120 | at the start there is room for any pages, given three frames and two for each page and an unused slot for each page |
| Machine.GivenExactly | on_demand.c:369-419 | the addresses in use are those of the regions the program was given, besides those in use before |
| Machine.OpenByWord | pgtables.h:302-316 | what the PML4 allows is bits 2 and 1 of its word |
| Machine.PreparedExactly | on_demand.c:410-419 | a program is prepared if each access is to an address in use by then, and, where frames are scarce, to the first page of a region |
| Machine.Serve | user/harness.c:48-76 | one access, with its faults: it goes through only if the page can be reached and the PML4 allows it, and then as on plain memory; with room it is otherwise refused |
| Machine.Turn | user/test.c:19-41 | one load, store or request: the right reply, the plain memory and the region list it should leave, and with room it goes through exactly if the PML4 allows it |
| Machine.Execute | on_demand.c:160-263 | for every program of loads, stores and requests for regions, each load returns what was last stored in that page, or zeros, and each request what first fit gives; all of it is a run of steps; with frames or room enough and its pages in regions in use by then, the program runs to its end if and only if the PML4's entry allows its accesses, and else is killed at the first access it does not allow |
| OfflineSearch.Scan | user/petmem.c:166-198 | reports a run exactly if there is one; the leftmost starts where it says, or at the carried-over start if it begins the map |
| OfflineSearch.CarryOverExact | user/petmem.c:163-198 | a carried-over start gives the leftmost run exactly if it is 0 or no run begins the map |
| OfflineSearch.CarryOverSafe | user/petmem.c:163-272 | striking blocks off keeps that condition from pass to pass |
| OfflineSearch.CountDrops | user/petmem.c:272 | clearing a set bit leaves one set bit less |
| OfflineSearch.Check | user/petmem.c:233-306 | the region is accepted if and only if every block went offline, else the first that did not is struck off |
| OfflineSearch.Settle | user/petmem.c:163-307 | taking the leftmost run and striking off the first block that refuses, pass by pass, ends with the leftmost run of what is left, all offline, or with none |
| OfflineSearch.SettleStrikes | user/petmem.c:272 | only blocks that refused are struck off, one in each failed pass |
| OfflineSearch.Search | user/petmem.c:163-307 | finds exactly what Settle says, so that the answer and the map left are determined by the replies; the passes are at most one more than the blocks to begin with |

## Left out

- Kernel and device plumbing: ioctl dispatch, copies to and from user space, module start and stop, file I/O and its errors, logging, kmalloc failure and invlpg. The swap file is an array of pages; `__va` and `__pa` add and subtract a constant.
- Freeing of virtual regions is proved on the region list only and is no step of the paging machine: the free path passes kernel virtual addresses to petmem_free_pages (on_demand.c:296, on_demand.c:306), so no frame is ever returned, and it leaves the dirty bit of the cleared entry set. Table pruning (attempt_free_physical_address, is_entire_page_free) is therefore not modelled.
- Paging.Process.ClearUpMemory: when nothing the clock sweeps is resident the source loops for ever and the model answers Spins; when the swap map is full the source carries on after losing the victim, and the model stops there with SwapFull.
- Paging.Process.HandlePageFault: which of the free frames the buddy allocator hands out is not said here; nothing else depends on it.
- Frames.FrameSource.Alloc: requires pools of order at most 30 and page-aligned pools, none of them at physical address 0, and serves one page at a time, as all callers do; on an order-31 pool the range check of main.c:57 never accepts.
- Machine.Execute: programs ask for at least one page at a time (an empty request breaks the list, `EmptyRequestBreaks`) and free no region.
- Petmem.PageAllocator.AddMemory: pages below 2^31, beyond which the 32-bit shifts of main.c:115-116 are undefined in C. The added range must not overlap a pool, which the source does not check.
- Petmem.PageAllocator.FreePages: pools of order at most 31, beyond which the 32-bit shift of main.c:57 is undefined in C.
- Petmem.PageAllocator.AllocPages: requires the request's order to be within every pool's order, since buddy_alloc stops the kernel otherwise (buddy.c:171), and at least one page.
- BuddyMempool.Mempool.Free: the link and order fields of blocks are kept apart from the bytes of frames in Paging.Process, so that the allocator writes nothing into live blocks is stated here and not there. What a free that is not of a live block with its order does to memory is not modelled; that the pool is then no longer sound is stated on its value (`FreeSoundExactly`).
- Regions.RegionList.AllocateRegion: the list nodes are a sequence, so aliasing of nodes is not captured; the list head is neither free nor resident, where the source reads it as a region (on_demand.c:351-359, on_demand.c:126-130).
- Paging.Process.PageReplacementClock: the hand is a position in the list; a hand whose node is freed is not modelled. Only the first page of each region is a candidate, as in the source.
- Paging.Process.Load: of what the processor does, only the accessed and dirty bits of the page's own entry are modelled, not those of the tables above it. A page is read or written as a whole. The TLB is not modelled: eviction clears present without invlpg (on_demand.c:153-157), so all statements about page contents assume that no stale translation is used.
- Machine.Serve: an access below a closed PML4 entry is taken to be reported with code 2 and refused; if the kernel reports it with code 1 instead, the process faults for ever. Addresses outside the region are taken to be unmapped.
- Swap.SwapSpace.constructor: requires a bit map of at least one bit per slot; swap_init rounds by 3 where 8 is meant (swap.c:25-28). At most 2^19 slots, so that byte offsets fit the source's `int`.
- Several processes sharing one swap file, each with its own copy of the map.
- 32-bit, PAE and large-page structures of pgtables.h, which nothing uses.
- The report of a failed region request: allocate returns -1 (on_demand.c:380) and its caller tests for 0 (main.c:144).
- In the offline search, putting already offlined blocks back online, and reading which blocks are removable in the first place.
