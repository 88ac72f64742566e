# Allocators, tables and small algorithms, modelled in Dafny

This project models and proves properties of three memory engines and a few smaller cores of the
repository:

- **dmalloc's chunk manager** (`cpp/dmalloc-5.5.2/chunk.c`): a debugging heap over two multi-level skip
  lists, one of used slots by address and one of free slots by size, with a waiting list that delays
  reuse, power-of-two chunks and whole blocks, fence posts, blank bytes, realloc in place and by moving,
  and running counters.
- **dmalloc's memory table** (`cpp/dmalloc-5.5.2/dmalloc_tab.c`): an open-addressing hash table with an
  overflow bucket, sorted in place for the log by a quicksort with its own stack and put back afterwards.
- **STLport's node allocators** (`cpp/STLport-5.2.1/src/allocators.cpp`): the lock-protected one, and the
  per-thread one under every interleaving of its critical sections.
- **The options string** of dmalloc (`env.c`), its **random numbers** (`dmalloc_rand.c`), and
  **rotation, shell sort and heap sort** of `pyn/algorithm_utils.py`.

## How the chunk manager is laid out

| file | what it holds |
|---|---|
| `SkipList.dfy` | slot records with rows of next pointers, and the skip list class: searches, insertion, removal |
| `SlotLists.dfy` | the used list, the free list and the waiting list together |
| `ChunkModel.dfy` | what every operation does, as functions on the heap's state |
| `ChunkInvariant.dfy` | the invariant (disjoint memory, well-kept lists, untouched guards, exact counters) and that getting memory keeps it |
| `ChunkContents.dfy` | what is written around a user area, and what the checks can tell from it |
| `ChunkOperations.dfy` | malloc, free and realloc keep the invariant and do what a client is promised |
| `ChunkRuns.dfy` | runs of arbitrary clients: safety, delayed reuse, conservation |
| `ChunkRefusals.dfy` | why requests are refused |
| `ChunkPlaces.dfy` | where slots are: one place each, none lost, freed ones out of reach, a second free refused |
| `ChunkOutcomes.dfy` | what a caller is told: refusals of free and realloc, overwrites detected, memory used again |
| `ChunkChecks.dfy` | the byte loops of the checks |
| `ChunkHeap.dfy` | the manager as a class over the skip lists, each method equal to its function |
| `ChunkClient.dfy` | a client's run carried out on that class |

`ChunkModel.Heap` has two tapes: what the system will answer to requests for memory, and the random
levels still to be drawn. They are arbitrary, within what the invariant asks: granted regions are
block-aligned, disjoint and inside the address space, and levels are at most 30. A sticky `corrupt`
flag is set in every branch that the original marks with ERROR_ADDRESS_LIST, and it is part of the
invariant that it is never set.

The memory table is `TableModel.dfy` (the map it stands for and whole runs of it), `TableSort.dfy` (the
sort) and `MemTable.dfy` (the array). The node allocators are `NodePool.dfy` (blocks, lists and buffer),
`NodeAlloc.dfy` (the lock-protected class), `PerThreadAlloc.dfy` (the interleaved one) and
`PerThreadSteps.dfy` (what each of its steps delivers). The options are `EnvText.dfy`, `EnvOptions.dfy`,
`EnvReading.dfy`, `EnvExact.dfy` and `EnvBuffers.dfy`. `Basics.dfy`, `Arithmetic.dfy`,
`Sums.dfy` and `Permutations.dfy` are shared.

## Where the code and its documentation differ

- `_dmalloc_table_log_info` is documented to log `log_n` entries; it logs one fewer (`dmalloc_tab.c:794`).
- `rotate_left` is not a rotation for every offset. `Rotate.RightExactlyWhen` gives the exact condition,
  and `Rotate.OtherwiseWrong` a list that comes out wrong otherwise.
- The second look at the free list in `get_memory` (`chunk.c:1546-1561`) can never find anything.
- A second free of a fenced valloc pointer is reported as not found instead of already free, because the
  flag that places its user area is cleared (`chunk.c:2624-2633`).
- realloc does not ask for the start of an area. A pointer inside one that has to move comes back as NULL
  with the new slot live and lost (`ChunkOutcomes.ReallocOfInside`).
- The generator stays on one value when it is seeded with its own prime or its negative, and of all 32-bit
  seeds only then (`Rand.EntersExactlyWhen`).
- Not every configuration that can be printed is read back. `EnvOptions.Printable` is the exact condition
  (`EnvExact.RoundTripExactly`): a path that ends in a backslash, for one, swallows the setting after it.
- The empty list makes `heap_sort` fail, where `shell_sort` returns it.

## Model

| member | source | states |
|---|---|---|
| SkipLists.SkipList.FindAddress | cpp/dmalloc-5.5.2/chunk.c:237-303 | The search of the used list returns what a linear scan of the bottom row returns, for the exact and the loose question, and the update path is the last slot before the cut on every row; it ends by (row, slots remaining). |
| SkipLists.SkipList.FindFreeSize | cpp/dmalloc-5.5.2/chunk.c:328-383 | The search of the free list returns the first slot of exactly the size, as a linear scan would, with the update path of every row. |
| SkipLists.SearchStep | cpp/dmalloc-5.5.2/chunk.c:259-300 | One move of either search, right or down, keeps the path of the finished rows and the cut between slots before and after the question. |
| SkipLists.ScanAtCut | cpp/dmalloc-5.5.2/chunk.c:237-303 | In a sorted list the first match of a linear scan is the slot at the cut, so skipping rows loses no match. |
| SkipLists.RandomLevel | cpp/dmalloc-5.5.2/chunk.c:183-206 | The level is between 0 and the maximum, whatever numbers are drawn. |
| SkipLists.SkipList.InsertSlot | cpp/dmalloc-5.5.2/chunk.c:405-444 | A new slot goes in at its place: the list is the old one with the slot inserted at the cut, sorted on every row, every row the sub-list of slots tall enough; an address already there is refused and nothing changes. |
| SkipLists.LinkBeforeInsert | cpp/dmalloc-5.5.2/chunk.c:430-441 | After the insertion the next pointer of each earlier slot on each row is the old one, except of the last slot reaching a row of the new slot, where it is the new slot. |
| SkipLists.LinkOfInserted | cpp/dmalloc-5.5.2/chunk.c:430-441 | The new slot takes over the old next pointer of the last slot before it, on each of its rows. |
| SkipLists.SplicedDone | cpp/dmalloc-5.5.2/chunk.c:405-444 | When all rows of a new slot are spliced, row l again holds exactly the slots of level at least l, in bottom-row order. |
| SkipLists.SkipList.RemoveSlot | cpp/dmalloc-5.5.2/chunk.c:543-587 | With the path of a search, the slot found leaves every row it is on; the other slots, their order and the row property stay. |
| SkipLists.RemovalStopsInPath | cpp/dmalloc-5.5.2/chunk.c:557-579 | The loop of the removal stops one row above the top row of the slot, where the path does not lead to it, before the path is used up. |
| SkipLists.BypassedDone | cpp/dmalloc-5.5.2/chunk.c:543-587 | When all rows bypass a slot, row l again holds exactly the remaining slots of level at least l. |
| SlotLists.Lists.AddUsed | cpp/dmalloc-5.5.2/chunk.c:405-444 | A record joins the used list only if no used slot starts at its address; the free and the waiting list stay. |
| SlotLists.Lists.DropUsed | cpp/dmalloc-5.5.2/chunk.c:2620-2623 | A used slot found by the loose search can always be removed from the list, and is then on no list. |
| SlotLists.Lists.TakeFree | cpp/dmalloc-5.5.2/chunk.c:1405-1423 | The slot found on the free list by size leaves it; the used and the waiting list stay. |
| SlotLists.Lists.PushWaiting | cpp/dmalloc-5.5.2/chunk.c:2688-2697 | A freed slot joins the end of the waiting list, through the next pointer of its bottom row. |
| SlotLists.Lists.PromoteHead | cpp/dmalloc-5.5.2/chunk.c:1381-1402 | The head of the waiting list moves to its place on the free list and the rest of the waiting list stays in order. |
| ChunkInvariant.HeapAllocKeeps | cpp/dmalloc-5.5.2/chunk.c:467-521 | Memory granted by the system overlaps no slot and no memory still to be granted. |
| ChunkInvariant.RecordsFit | cpp/dmalloc-5.5.2/chunk.c:467-521 | Every block of records holds at least two records at any level, so the branches for one record and for none are dead. |
| ChunkInvariant.NewRecordsKeeps | cpp/dmalloc-5.5.2/chunk.c:467-691 | Getting a block of slot records keeps the invariant; the block itself becomes a slot disjoint from all others. |
| ChunkInvariant.GetSlotKeeps | cpp/dmalloc-5.5.2/chunk.c:608-691 | Getting a record keeps the invariant and the free list, whether from the spare ones or from a new block. |
| ChunkInvariant.InsertFreeLists | cpp/dmalloc-5.5.2/chunk.c:405-444 | A slot inserted in front of those of its size leaves the free list sorted by size, without repetition, all free and rested. |
| ChunkInvariant.InsertAddressKeeps | cpp/dmalloc-5.5.2/chunk.c:716-743 | Giving memory a slot keeps the invariant, and the rest of that memory stays fresh. |
| ChunkInvariant.ChunksFillBlock | cpp/dmalloc-5.5.2/chunk.c:1337-1345 | Chunks of any of the power-of-two sizes fill a block exactly. |
| ChunkInvariant.MakeChunksKeeps | cpp/dmalloc-5.5.2/chunk.c:1318-1348 | Cutting a block into chunks keeps the invariant; when no record is refused the free bytes grow by the whole block. |
| ChunkInvariant.CreateDividedKeeps | cpp/dmalloc-5.5.2/chunk.c:1318-1348 | After a block was cut there is a free slot of the size cut, and no byte of the block is unaccounted for. |
| ChunkInvariant.PromoteKeeps | cpp/dmalloc-5.5.2/chunk.c:1376-1403 | The waiting list is emptied from the front only, of exactly the slots whose delay is over, and everything on the free list has rested. |
| ChunkInvariant.TakeFreeKeeps | cpp/dmalloc-5.5.2/chunk.c:1405-1436 | A free slot is handed over exactly when one of that size is listed; it has rested, and it leaves the free list. |
| ChunkInvariant.UseFreeKeeps | cpp/dmalloc-5.5.2/chunk.c:1371-1436 | Reuse keeps the invariant and returns a slot of exactly the size asked for, or none when none is listed. |
| ChunkInvariant.GetDividedKeeps | cpp/dmalloc-5.5.2/chunk.c:1455-1490 | A small request is served with a slot of the smallest power of two that holds it. |
| ChunkInvariant.SecondSearchFinds | cpp/dmalloc-5.5.2/chunk.c:1476-1487 | After a failed search and a new block cut up, the second search finds a chunk, so the branch marked as wrong is dead. |
| ChunkInvariant.NoRetry | cpp/dmalloc-5.5.2/chunk.c:1546-1561 | The second look at the free list for large requests never finds anything: the slot left of the search is too small. |
| ChunkInvariant.GetMemoryKeeps | cpp/dmalloc-5.5.2/chunk.c:1509-1579 | Getting memory keeps the invariant: the slot is new or rested and was listed as free, has the right size, and is disjoint from every other slot. |
| ChunkOperations.TotalIsSmallest | cpp/dmalloc-5.5.2/chunk.c:1455-1536 | The slot for a request is the smallest power of two, from 16 to half a block, or the fewest blocks that hold it. |
| ChunkOperations.PointerAligned | cpp/dmalloc-5.5.2/chunk.c:847-885 | User pointers are 8-aligned, valloc pointers block-aligned, and the user area lies inside the slot. |
| ChunkOperations.SetUpFits | cpp/dmalloc-5.5.2/chunk.c:2385-2430 | User area and fences fit in the slot got for any request, any fence setting, valloc or not. |
| ChunkContents.DetectorExact | cpp/dmalloc-5.5.2/chunk.c:1667-1705 | The overwrite check passes if and only if every guarded byte is what was written there; in a fenced and blanked slot every byte outside the user area is guarded. |
| ChunkContents.ClearedIsIntact | cpp/dmalloc-5.5.2/chunk.c:1221-1297 | After clear_alloc the slot passes the check, the kept user bytes are unchanged, the other user bytes are zero if asked for, and no byte outside the slot changed. |
| ChunkContents.UserWritesKeepIntact | cpp/dmalloc-5.5.2/chunk.c:1667-1705 | Writing inside a live user area makes no check of any slot fail. |
| ChunkOperations.MallocKeeps | cpp/dmalloc-5.5.2/chunk.c:2336-2498 | malloc keeps the invariant; a request served gets a slot of the smallest size that holds area, fences and alignment, new or rested, stamped and counted; the area begins where fences and alignment put it, on a block for every aligned request but calloc, and its bytes are zero for calloc and recalloc, else the blank if a blank bit is on, else untouched; a refused request changes no client counter and no memory but that of a new block of records. |
| ChunkOperations.LivePointerPasses | cpp/dmalloc-5.5.2/chunk.c:1607-1783 | The pointer of a live area passes every check made before it is freed. |
| ChunkOperations.FindUsedIs | cpp/dmalloc-5.5.2/chunk.c:2571-2573 | The loose search finds the one used slot that holds an address. |
| ChunkOperations.ReleaseKeeps | cpp/dmalloc-5.5.2/chunk.c:2620-2705 | Releasing a slot keeps the invariant; the slot turns free, stamped, without its alignment mark; its bytes are the free blank if either blank bit is on and untouched otherwise; it waits behind all others unless reuse is forbidden; the counters follow, and nothing else changes. |
| ChunkOperations.FreeKeeps | cpp/dmalloc-5.5.2/chunk.c:2523-2708 | free releases the slot of exactly that live pointer, or changes nothing but the error number; it keeps the invariant for any pointer but the start of one of the manager's own blocks. |
| ChunkOperations.ResizedKeeps | cpp/dmalloc-5.5.2/chunk.c:2818-2885 | realloc in place keeps the invariant and the first min(old, new) bytes; the slot has the new size and is blanked once it was or a blank bit is on, and the count of bytes follows; the bytes beyond the old size are zero for recalloc, else the blank in a blanked slot, else untouched; no byte outside the slot changes. |
| ChunkOperations.CopyAndReleaseMoves | cpp/dmalloc-5.5.2/chunk.c:2787-2817 | A realloc that moved: the new slot is set up as malloc does and has the kept bytes and new ones behind them, the old slot is let go as free does and is last on the waiting list unless reuse is forbidden, the counters follow, and every byte outside the two slots is as it was. |
| ChunkOperations.MovedRealloc | cpp/dmalloc-5.5.2/chunk.c:2787-2817 | realloc of a live pointer into a new slot is malloc, copy, free; its free never fails, and a refused malloc is all that happens. |
| ChunkOperations.ReallocKeeps | cpp/dmalloc-5.5.2/chunk.c:2735-2885 | realloc keeps the invariant for every pointer outside the manager's own blocks, also one into the middle of an area. |
| ChunkRuns.StartIsSound | cpp/dmalloc-5.5.2/chunk.c:1855-1898 | An unused heap is in order. |
| ChunkRuns.StepKeeps | cpp/dmalloc-5.5.2/malloc.c:519 | Every call of a client that stays inside its areas keeps the heap in order, whatever the debug flags of that call; a slot is never seen more often than twice per iteration. |
| ChunkRuns.RunKeeps | cpp/dmalloc-5.5.2/chunk.c:2336-2885 | So does every run of such calls, flags changing from call to call. |
| ChunkRuns.SoundHeapReportsNothing | cpp/dmalloc-5.5.2/chunk.c:1607-1834 | In every such state live areas are disjoint, no branch for a broken list was ever taken, and the checks report no slot, used or free. |
| ChunkRuns.FreedMemoryRests | cpp/dmalloc-5.5.2/chunk.c:1376-1403 | Memory freed at iteration t is not handed out, nor a byte of it changed, by any run ending before iteration t + 20. |
| ChunkRuns.NeverReusedMemoryRests | cpp/dmalloc-5.5.2/chunk.c:2688-2705 | Memory freed under never-reuse is not handed out and not changed by any run. |
| ChunkRuns.StepSlack | cpp/dmalloc-5.5.2/chunk.c:1318-1579 | A call loses no byte from the balance of given, free and obtained unless a request of it to the system failed; being refused for any other reason loses none. |
| ChunkRuns.RunSlack | cpp/dmalloc-5.5.2/chunk.c:1318-1579 | Bytes given out, bytes free and bytes of the blocks obtained keep their balance over every run in which no request to the system failed, and are never over-counted in any run. |
| ChunkRuns.BytesAreConserved | cpp/dmalloc-5.5.2/chunk.c:2422-2495 | From an unused heap, bytes given plus bytes free equal the user blocks when no request to the system failed, whatever else was refused, and never exceed them; the client counters are the sums over the live slots. |
| ChunkRuns.RunWithinLimit | cpp/dmalloc-5.5.2/chunk.c:1520-1528 | With a memory limit, the bytes given out stay below the limit plus one block in every run. |
| ChunkRuns.FreeOfWaiting | cpp/dmalloc-5.5.2/chunk.c:2575-2609 | Freeing into a waiting slot is refused and changes only the error number: already free at the start of its user area, not found elsewhere. |
| ChunkPlaces.EverySlotInOnePlace | cpp/dmalloc-5.5.2/chunk.c:608-743 | Every slot but the manager's own blocks is live, on the free list, waiting or retired, in one of these only and once, and no two slots share a byte. |
| ChunkPlaces.NoSlotIsLost | cpp/dmalloc-5.5.2/chunk.c:1376-1579 | In a run that never forbids reuse no slot is lost: each stays live, listed as free, waiting, or the manager's own. |
| ChunkPlaces.RetiredOnlyByFree | cpp/dmalloc-5.5.2/chunk.c:2688-2705 | A slot is retired only by a free or realloc under never-reuse, and only the slot that its pointer is in. |
| ChunkPlaces.FreedPointerRests | cpp/dmalloc-5.5.2/chunk.c:2336-2708 | After a free of a live pointer, in any run that ends before 20 more iterations, and in every run if reuse was forbidden, the slot keeps the bytes that the free left (the blank, or what was there), no live area reaches into it, and it waits, or is on no list. |
| ChunkPlaces.StaysWaiting | cpp/dmalloc-5.5.2/chunk.c:1376-1403 | A slot that was freed waits on, through every run, until the reuse delay is over. |
| ChunkPlaces.SecondFree | cpp/dmalloc-5.5.2/chunk.c:2575-2609 | Freeing a pointer a second time, under any flags and after any run that ends while it waits, is refused as already free, except a fenced valloc, which is not found, and changes nothing but the error number. |
| ChunkRefusals.RefusedMalloc | cpp/dmalloc-5.5.2/chunk.c:2336-2445 | malloc refuses a request for three reasons only, told apart by the error number: too big, over the limit (both always refused), or no memory from the system. |
| ChunkRefusals.RefusedAtOnce | cpp/dmalloc-5.5.2/chunk.c:1520-1528 | A request that is too big or over the limit changes nothing but the error number. |
| ChunkOutcomes.FreeOfNull | cpp/dmalloc-5.5.2/chunk.c:2542-2568 | free(NULL) changes nothing, or only the error number if that is asked for. |
| ChunkOutcomes.FreeOfInside | cpp/dmalloc-5.5.2/chunk.c:2611-2618 | A pointer into a live slot that is not the start of its area is refused: would overwrite in front of it, not the start behind it; only the error number changes. |
| ChunkOutcomes.FreeOfUnused | cpp/dmalloc-5.5.2/chunk.c:2573-2609 | A pointer that no slot in use holds is refused: in a waiting slot as already free where the area would begin, else not found; elsewhere by what the search of the free list says; only the error number changes. |
| ChunkOutcomes.FreeDetects | cpp/dmalloc-5.5.2/chunk.c:1667-1705 | Whatever was written over memory, the free of a live pointer goes through if and only if every guarded byte of its slot is what clear_alloc wrote there; otherwise only the error number changes, to one of the three for overwrites. |
| ChunkOutcomes.OverwritesTold | cpp/dmalloc-5.5.2/chunk.c:1645-1705 | Which overwrite is told first: the blanked block in front of a fenced valloc, the bottom fence, the top fence, the blanked bytes behind. |
| ChunkOutcomes.UsedSlotPasses | cpp/dmalloc-5.5.2/chunk.c:1607-1783 | check_used_slot passes if and only if kind, start, size, total, alignment, guards and seen count are all in order. |
| ChunkOutcomes.FreeSlotPasses | cpp/dmalloc-5.5.2/chunk.c:1800-1834 | check_free_slot passes if and only if the slot is free, blank if blanked, and not seen more than twice an iteration. |
| ChunkOutcomes.ReallocOfNothing | cpp/dmalloc-5.5.2/chunk.c:2757-2775 | realloc of NULL and of a pointer that no slot in use holds is refused with its own error number, which is all that changes. |
| ChunkOutcomes.ReallocOfInside | cpp/dmalloc-5.5.2/chunk.c:2770-2817 | realloc of a pointer inside a live slot works in place as if it were the start; if it has to move it returns NULL, the old slot stays, and the new one is live for good. |
| ChunkOutcomes.MallocReuses | cpp/dmalloc-5.5.2/chunk.c:1371-1436 | A slot of the size needed that is listed as free, or has waited 20 iterations, is handed out without asking the system. |
| ChunkOutcomes.RecordIsTaken | cpp/dmalloc-5.5.2/chunk.c:608-690 | A slot record is an unused one of the level drawn, or one of a new block of records, which is a slot of the manager and leaves the others unused. |
| ChunkRuns.ReallocOfLive | cpp/dmalloc-5.5.2/chunk.c:2735-2885 | realloc of any live pointer moves exactly when the new area and top fence do not fit behind the start of the old one or a debug bit asks for it; on both paths sizes, bytes and counters are as promised, and a refused move leaves the old slot as it was. |
| ChunkChecks.CheckOverwritten | cpp/dmalloc-5.5.2/chunk.c:1667-1705 | The byte loops of check_used_slot report exactly the specified overwrite error. |
| ChunkChecks.CheckUsedSlot | cpp/dmalloc-5.5.2/chunk.c:1607-1783 | check_used_slot reports the first of its errors in its order, each exactly when its condition holds. |
| ChunkChecks.CheckFreeSlot | cpp/dmalloc-5.5.2/chunk.c:1800-1834 | check_free_slot passes exactly when the slot is free and, if blanked, every byte is the free blank. |
| ChunkChecks.ReadFences | cpp/dmalloc-5.5.2/chunk.c:1177-1192 | fence_read reports the bottom fence before the top one, each exactly when one of its bytes differs. |
| ChunkHeaps.ChunkHeap.GetRecords | cpp/dmalloc-5.5.2/chunk.c:467-691 | The imperative block-of-records step does what the functional one says; its sanity branches are never taken. |
| ChunkHeaps.ChunkHeap.CutUp | cpp/dmalloc-5.5.2/chunk.c:1337-1345 | The loop that cuts a block into listed chunks ends in the state the recursive function gives. |
| ChunkHeaps.ChunkHeap.PromoteRipe | cpp/dmalloc-5.5.2/chunk.c:1376-1403 | The loop along the waiting list promotes exactly the slots the function promotes. |
| ChunkHeaps.ChunkHeap.TakeExact | cpp/dmalloc-5.5.2/chunk.c:1405-1436 | Search, removal and insertion on the skip lists amount to the functional hand-over, and the slot taken is always a free one. |
| ChunkHeaps.ChunkHeap.GetDividedMemory | cpp/dmalloc-5.5.2/chunk.c:1455-1490 | The search of the bit sizes, reuse and cutting of a block refine the function. |
| ChunkHeaps.ChunkHeap.GetMemoryFor | cpp/dmalloc-5.5.2/chunk.c:1509-1579 | get_memory on skip lists refines the function, its second look at the free list included. |
| ChunkHeaps.ChunkHeap.ClearAlloc | cpp/dmalloc-5.5.2/chunk.c:1221-1297 | The successive memsets and memcpys of clear_alloc leave exactly the bytes the byte-wise specification gives. |
| ChunkHeaps.ChunkHeap.Malloc | cpp/dmalloc-5.5.2/chunk.c:2336-2498 | malloc on pointer structures, memory and counters equals the function on the abstract state. |
| ChunkHeaps.ChunkHeap.FindHolder | cpp/dmalloc-5.5.2/chunk.c:2571-2573 | The skip-list search finds the used slot that holds an address if and only if there is one. |
| ChunkHeaps.ChunkHeap.SearchWaiting | cpp/dmalloc-5.5.2/chunk.c:2577-2592 | Following the next pointers from the head finds the oldest waiting slot that holds the address. |
| ChunkHeaps.ChunkHeap.Free | cpp/dmalloc-5.5.2/chunk.c:2523-2708 | free on pointer structures, memory and counters equals the function on the abstract state. |
| ChunkHeaps.ChunkHeap.Realloc | cpp/dmalloc-5.5.2/chunk.c:2735-2885 | realloc on pointer structures, memory and counters equals the function on the abstract state. |
| ChunkClients.Execute | cpp/dmalloc-5.5.2/malloc.c:519 | A whole run carried out on the skip lists ends in the state the run function gives, so every theorem about runs holds of it. |
| TableSort.InsertSort | cpp/dmalloc-5.5.2/dmalloc_tab.c:297-325 | The range ends sorted by entry_cmp and is a permutation of what it was; nothing outside it moves. |
| TableSort.Scan | cpp/dmalloc-5.5.2/dmalloc_tab.c:388-397 | The two scans have no bound of their own and stop inside the range, at entries on the wrong side of the pivot. |
| TableSort.Partition | cpp/dmalloc-5.5.2/dmalloc_tab.c:359-415 | The range is permuted so that everything before the right part is no lighter than everything after the left part; both parts are non-empty and meet or leave one entry between them. |
| TableSort.SplitOutcome | cpp/dmalloc-5.5.2/dmalloc_tab.c:417-485 | After a split, exactly the ranges in hand and on the stack are unsorted, they are apart, and less remains to be done. |
| TableSort.BothParts | cpp/dmalloc-5.5.2/dmalloc_tab.c:458-485 | Pushing the larger part keeps stack entry i within n / 2^i entries. |
| TableSort.StackSuffices | cpp/dmalloc-5.5.2/dmalloc_tab.c:463-466 | With fewer than 2^128 entries the stack is never full when a range is pushed: the abort is unreachable. |
| TableSort.Split | cpp/dmalloc-5.5.2/dmalloc_tab.c:347-487 | The range ends sorted by entry_cmp and a permutation of what it was, for any range of at least three entries. |
| TableSort.SortedIsHeaviestFirst | cpp/dmalloc-5.5.2/dmalloc_tab.c:209-240 | Sorted by entry_cmp means heaviest first, a blank entry weighing nothing. |
| TableModel.TotalsAreExact | cpp/dmalloc-5.5.2/dmalloc_tab.c:603-659 | For every run, each entry holds exactly the bytes and the number of allocations of its place, and the overflow bucket those of all places not in the table. |
| TableModel.InUseIsExact | cpp/dmalloc-5.5.2/dmalloc_tab.c:685-730 | For every run whose releases match allocations, the in-use numbers are exactly what is allocated and not released, entry by entry and in the overflow bucket. |
| TableModel.TableIsConserved | cpp/dmalloc-5.5.2/dmalloc_tab.c:603-730 | The sums over the table equal all that was allocated, and, with matched releases, all that is not released. |
| TableModel.RunKnows | cpp/dmalloc-5.5.2/dmalloc_tab.c:638-650 | The table never exceeds MEMORY_TABLE_SIZE places, and as long as it is smaller every place that allocated is in it. |
| TableModel.AnyRelease | cpp/dmalloc-5.5.2/dmalloc_tab.c:726-729 | A release takes its bytes and one block off the in-use numbers of its entry if both can be taken, else it changes nothing; all else stays. |
| TableModel.InUseWithinTotals | cpp/dmalloc-5.5.2/dmalloc_tab.c:645-729 | In every run, releases matched or not, no entry has more in use than it ever allocated. |
| MemTables.BlankRemains | cpp/dmalloc-5.5.2/dmalloc_tab.c:621-636 | A blank bucket always remains, so every search ends. |
| MemTables.NotThere | cpp/dmalloc-5.5.2/dmalloc_tab.c:621-636 | A search that meets a blank bucket has missed no entry of its key. |
| MemTables.MemTable.Probe | cpp/dmalloc-5.5.2/dmalloc_tab.c:607-636 | The search ends at the entry of the key, or at a blank bucket reached from the home bucket over entries in use when the key has none. |
| MemTables.MemTable.Search | cpp/dmalloc-5.5.2/dmalloc_tab.c:690-716 | The search of a delete finds the entry of the key if and only if there is one. |
| MemTables.MemTable.Insert | cpp/dmalloc-5.5.2/dmalloc_tab.c:603-659 | The array after an insert stands for the map after the insert, overflow included; keys stay distinct and reachable from their home bucket. |
| MemTables.MemTable.Delete | cpp/dmalloc-5.5.2/dmalloc_tab.c:685-730 | The array after a delete stands for the map after the delete. |
| MemTables.Replay | cpp/dmalloc-5.5.2/dmalloc_tab.c:603-730 | After any sequence of inserts and deletes the array stands for what the map model says. |
| MemTables.AfterSort | cpp/dmalloc-5.5.2/dmalloc_tab.c:770-773 | After sorting, each entry of the table is there exactly once. |
| MemTables.SwapSettles | cpp/dmalloc-5.5.2/dmalloc_tab.c:819-836 | Each swap of the unsort loop puts one entry where it belongs and moves none that was. |
| MemTables.MemTable.Unsort | cpp/dmalloc-5.5.2/dmalloc_tab.c:819-836 | The unsort loop ends, and turns any arrangement of the entries back into the exact original. |
| MemTables.MemTable.Report | cpp/dmalloc-5.5.2/dmalloc_tab.c:783-812 | The totals logged are the sums over the array; the lines are entries in use, heaviest first, none lighter than an entry left out, one fewer than the number asked for. |
| MemTables.MemTable.LogInfo | cpp/dmalloc-5.5.2/dmalloc_tab.c:756-837 | Logging leaves the table exactly as it was; the totals logged are the sums over the map it stands for, and the lines are its heaviest entries, each once and heaviest first, one fewer than asked for. |
| NodePools.ClassOf | cpp/STLport-5.2.1/src/allocators.cpp:120 | A rounded size has exactly one size class. |
| NodePools.RoundUp | cpp/STLport-5.2.1/src/allocators.cpp:247-248 | Rounding up gives the least multiple of the alignment that is not smaller. |
| NodePools.LiveBlocksApart | cpp/STLport-5.2.1/src/allocators.cpp:318-455 | In a sound pool live blocks are disjoint from each other and from the buffer and are on no list; list i holds only blocks of its size. |
| NodePools.BytesConserved | cpp/STLport-5.2.1/src/allocators.cpp:363-431 | The bytes obtained are the live bytes, the listed bytes and the buffer. |
| NodePools.CarveKeeps | cpp/STLport-5.2.1/src/allocators.cpp:434-455 | Making a block of memory in flight keeps the pool sound, wherever the block goes. |
| NodePools.LeftOverKeeps | cpp/STLport-5.2.1/src/allocators.cpp:382-388 | The piece left in the buffer has exactly the size of a class, and listing it keeps the pool sound. |
| NodePools.RecycleKeeps | cpp/STLport-5.2.1/src/allocators.cpp:402-414 | A listed block can become the buffer without losing or doubling a byte. |
| NodePools.CutIsTaken | cpp/STLport-5.2.1/src/allocators.cpp:434-455 | Cutting a refill off the buffer: the first block is the caller's, the ones behind it are the list in order, twenty in all or as many as there is room for. |
| NodeAllocs.NodeAlloc.ChunkAlloc | cpp/STLport-5.2.1/src/allocators.cpp:365-431 | The chunk allocation, recursion included, ends: as many of the wanted blocks as fit come off the buffer; else the rest of it is listed and the system is asked for twice the request and a sixteenth of all it gave; it fails leaving the pool sound and only when no free block and no buffer could serve the request. |
| NodeAllocs.NodeAlloc.RecycleBlock | cpp/STLport-5.2.1/src/allocators.cpp:402-414 | After a failed request the first block of the first list with large enough ones becomes the buffer, if there is one. |
| NodeAllocs.NodeAlloc.BuildList | cpp/STLport-5.2.1/src/allocators.cpp:443-453 | The loop links the blocks of the chunk into a list that was empty. |
| NodeAllocs.NodeAlloc.Refill | cpp/STLport-5.2.1/src/allocators.cpp:434-455 | The first of the blocks cut goes to the caller and the others, in order, are the list, which was empty; from the buffer if it has room, else from what the system gives. |
| NodeAllocs.NodeAlloc.Allocate | cpp/STLport-5.2.1/src/allocators.cpp:318-338 | The head of the list of the rounded size if there is one, else a refill; a new live block of that size, disjoint from all live ones, or a failure that changes no block in use and happens only when nothing large enough is left. |
| NodeAllocs.NodeAlloc.Deallocate | cpp/STLport-5.2.1/src/allocators.cpp:340-354 | The block returns to the front of the list of its size and is no longer live; nothing else changes. |
| PerThreadAllocs.TakeKeeps | cpp/STLport-5.2.1/src/allocators.cpp:990-1011 | Allocating from the own list keeps every block in one place. |
| PerThreadAllocs.GiveKeeps | cpp/STLport-5.2.1/src/allocators.cpp:1014-1031 | Deallocating by any thread keeps every block in one place. |
| PerThreadAllocs.ServedKeeps | cpp/STLport-5.2.1/src/allocators.cpp:935-955 | The critical section that finds room cuts whole blocks off the shared buffer for the one thread. |
| PerThreadAllocs.SupplyKeeps | cpp/STLport-5.2.1/src/allocators.cpp:956-986 | The critical section that finds too little lists the rest on the thread's own list of exactly its size and replaces the buffer. |
| PerThreadAllocs.FinishKeeps | cpp/STLport-5.2.1/src/allocators.cpp:853-882 | The list that the refill assigns was empty, so no block is lost. |
| PerThreadAllocs.LinkChunk | cpp/STLport-5.2.1/src/allocators.cpp:870-881 | The loop of the refill gives the caller the first block of the chunk and links the others, in order, from the head of the list to a last one that leads nowhere. |
| PerThreadAllocs.AttachKeeps | cpp/STLport-5.2.1/src/allocators.cpp:891-930 | A thread gets a parked state or a new one, never one that another thread has. |
| PerThreadAllocs.DetachKeeps | cpp/STLport-5.2.1/src/allocators.cpp:884-889 | The state of a finished thread is parked with the blocks on its lists. |
| PerThreadAllocs.RunKeeps | cpp/STLport-5.2.1/src/allocators.cpp:853-1031 | Every interleaving of these steps keeps the invariant. |
| PerThreadAllocs.WhatInterleavingsKeep | cpp/STLport-5.2.1/src/allocators.cpp:853-1031 | In every reachable state each block is in exactly one place and there once, blocks overlap neither each other nor the shared buffer, a state serves at most one thread or is parked once, a refill in progress holds exactly its thread's blocks in flight and has an empty list to assign, and no byte is lost. |
| PerThreadSteps.TakeDelivers | cpp/STLport-5.2.1/src/allocators.cpp:990-1011 | Allocating from the own list gives its head, which is held then, and changes nothing but that list. |
| PerThreadSteps.GiveDelivers | cpp/STLport-5.2.1/src/allocators.cpp:1014-1031 | A deallocated block is first on the list of its size of the thread that gives it back, whoever had it. |
| PerThreadSteps.AskDelivers | cpp/STLport-5.2.1/src/allocators.cpp:1004-1008 | A list found empty makes the thread go for a chunk and changes nothing else. |
| PerThreadSteps.ServedDelivers | cpp/STLport-5.2.1/src/allocators.cpp:935-955 | The critical section that finds room cuts blocks one behind the other from the start of the buffer, as many as fit, at most 128, into the hands of the thread. |
| PerThreadSteps.SupplyDelivers | cpp/STLport-5.2.1/src/allocators.cpp:956-986 | The one that finds too little puts the rest first on the thread's list of its size and makes memory for twice the request and a sixteenth of all obtained the buffer. |
| PerThreadSteps.FinishDelivers | cpp/STLport-5.2.1/src/allocators.cpp:853-882 | At the end of a refill the first block is held and the others, in order, are the list. |
| PerThreadSteps.AttachDelivers | cpp/STLport-5.2.1/src/allocators.cpp:891-902 | A thread that starts gets the state parked last with its lists, or a new one with empty lists. |
| PerThreadSteps.DetachDelivers | cpp/STLport-5.2.1/src/allocators.cpp:884-889 | A thread that ends parks its state in front of the others. |
| PerThreadSteps.AllocateDelivers | cpp/STLport-5.2.1/src/allocators.cpp:990-1011 | Run undisturbed, an allocation ends within four steps with one more block of its size held, and all held before held still. |
| Rotate.RotateLeft | pyn/algorithm_utils.py:238-256 | The list ends as the specified result; a zero offset and an empty list with a positive offset fail as in the original and change nothing; whenever the condition on length and offset holds, the result is the rotation. |
| Rotate.RotateChain | pyn/algorithm_utils.py:242-249 | One chain of the strided case moves each element one offset to the left, around the end. |
| Rotate.ChainCloses | pyn/algorithm_utils.py:242-249 | Closing a chain with the saved element completes the rotation of that chain. |
| Rotate.WalkInjective | pyn/algorithm_utils.py:251-256 | With a coprime offset the walk meets every place at most once in n steps. |
| Rotate.Reaches | pyn/algorithm_utils.py:251-256 | With a coprime offset the walk reaches every place. |
| Rotate.CoprimeIsRight | pyn/algorithm_utils.py:250-256 | With a coprime offset the walk rotates every list. |
| Rotate.OtherwiseWrong | pyn/algorithm_utils.py:238-256 | For every other offset a concrete list is rotated wrongly. |
| Rotate.RightExactlyWhen | pyn/algorithm_utils.py:238-256 | All lists of a length are rotated by an offset if and only if the offset is a positive divisor of the length, its negative, coprime to it, or a multiple of it. |
| ShellSort.FindPlace | pyn/algorithm_utils.py:74-78 | Larger elements of the column move down a step until the place of the element taken out is found. |
| ShellSort.Sink | pyn/algorithm_utils.py:72-79 | One element sinks in its column until the columns up to it are sorted; each column keeps its elements. |
| ShellSort.Pass | pyn/algorithm_utils.py:71-79 | A pass leaves the array step-sorted, each column a permutation of what it was. |
| ShellSort.SortedStayOrdered | pyn/algorithm_utils.py:67-81 | Two sequences ordered against each other stay so when each is sorted. |
| ShellSort.EarlierOrderSurvives | pyn/algorithm_utils.py:67-81 | Sorting the columns of one step keeps the order of every earlier step. |
| ShellSort.Sort | pyn/algorithm_utils.py:67-81 | The steps halve down to 1, the result is step-sorted for all of them, and a sorted permutation. |
| HeapSort.MoveUp | pyn/algorithm_utils.py:44-53 | Moving the larger child up keeps the heap, but for the place it left. |
| HeapSort.Shift | pyn/algorithm_utils.py:39-53 | Sinking an element makes a heap of a heap with one bad node, permuting only the heap. |
| HeapSort.RootToTail | pyn/algorithm_utils.py:61-63 | The largest element takes its final place in front of the sorted tail. |
| HeapSort.MoveRoot | pyn/algorithm_utils.py:61-63 | Each round keeps a heap in front of a sorted tail that is no smaller. |
| HeapSort.Sort | pyn/algorithm_utils.py:37-64 | The result is a sorted permutation; the empty list fails at the first read. |
| EnvText.HexToLong | cpp/dmalloc-5.5.2/env.c:75-104 | The loop reads the number the recursive reading gives, after blanks and an optional 0x. |
| EnvText.ReadDecimal | cpp/dmalloc-5.5.2/compat.c:118-133 | The loop reads the number the recursive reading gives, after blanks. |
| EnvText.HexRoundTrip | cpp/dmalloc-5.5.2/env.c:339-358 | A number printed in hexadecimal is read back, whatever non-digit follows. |
| EnvText.DecimalRoundTrip | cpp/dmalloc-5.5.2/env.c:349-386 | A number printed in decimal is read back. |
| EnvReading.HexDigitValues | cpp/dmalloc-5.5.2/env.c:88-101 | 0 to 9, a to f and A to F have the values 0 to 15, and no other character is a hexadecimal digit. |
| EnvReading.HexIsRead | cpp/dmalloc-5.5.2/env.c:75-104 | Digits in either case or mixed, after blanks and 0x, 0X or nothing, are read as the sum of their values by position, up to the first other character. |
| EnvReading.DecimalIsRead | cpp/dmalloc-5.5.2/compat.c:118-133 | Decimal digits after blanks are read as the sum of their values by position, up to the first other character. |
| EnvReading.SignedIsRead | cpp/dmalloc-5.5.2/env.c:246-252 | A lock count is read the same way with an optional sign. |
| EnvReading.NothingToRead | cpp/dmalloc-5.5.2/env.c:75-104 | Where no number stands 0 is read. |
| EnvReading.AddressIsSplit | cpp/dmalloc-5.5.2/env.c:111-123 | The first colon splits an address from its count; without one the count stays as it was. |
| EnvReading.StartIsRead | cpp/dmalloc-5.5.2/env.c:146-161 | A start without colon is a size behind s, a count behind c or a count alone, and undoes any other start. |
| EnvReading.StartFileIsRead | cpp/dmalloc-5.5.2/env.c:134-145 | A start with a colon is a file and a line, split at the first one. |
| EnvReading.TokenIsRead | cpp/dmalloc-5.5.2/env.c:287-297 | A token without label sets the bit the table gives it, and is ignored if the table does not have it. |
| EnvReading.BitsAreAdded | cpp/dmalloc-5.5.2/env.c:299-308 | The debug setting ends with its own bits and those of the tokens, and no others. |
| EnvReading.LastOneCounts | cpp/dmalloc-5.5.2/env.c:220-298 | Of several settings with one label the last one counts. |
| EnvReading.EmptyTokensAreSkipped | cpp/dmalloc-5.5.2/env.c:201-218 | The texts between commas are the tokens, empty ones left out. |
| EnvReading.PrintedDigits | cpp/dmalloc-5.5.2/env.c:340-372 | Numbers are printed in lower case and without a zero in front. |
| EnvReading.PrintedInFull | cpp/dmalloc-5.5.2/env.c:326-395 | A configuration with everything set is printed as its seven settings in this order with commas between them. |
| EnvReading.PrintedStart | cpp/dmalloc-5.5.2/env.c:383-395 | A start count is printed behind a c and a start size behind an s. |
| EnvOptions.SplitsBack | cpp/dmalloc-5.5.2/env.c:200-216 | Texts whose commas are behind backslashes and that do not end in one, joined by commas, are split into the same texts. |
| EnvOptions.AppliesSetting | cpp/dmalloc-5.5.2/env.c:222-285 | A setting is handed to the branch of its own label and to no other. |
| EnvOptions.TokensSetBits | cpp/dmalloc-5.5.2/env.c:287-297 | Reading the printed debug tokens sets exactly the bits of the value that have a token. |
| EnvOptions.AddressRoundTrip | cpp/dmalloc-5.5.2/env.c:111-123 | Address and count are read back. |
| EnvOptions.StartFileRoundTrip | cpp/dmalloc-5.5.2/env.c:128-145 | A start file without colon and a positive line are read back. |
| EnvOptions.StartRoundTrip | cpp/dmalloc-5.5.2/env.c:146-161 | A start count and a start size are read back, each from its own letter. |
| EnvOptions.ItemsRoundTrip | cpp/dmalloc-5.5.2/env.c:168-399 | Reading the printed items one after the other gives the configuration. |
| EnvOptions.RoundTrip | cpp/dmalloc-5.5.2/env.c:168-399 | Parsing the printed text returns the same configuration, in hexadecimal and in long form. |
| EnvExact.WhatIsReadIsReadable | cpp/dmalloc-5.5.2/env.c:196-308 | Whatever the text, what is read from it has no path or file with a bare comma, no file with a colon, nothing longer than its buffer, and one kind of start at most. |
| EnvExact.ReadsMerged | cpp/dmalloc-5.5.2/env.c:226-243 | Reading printed items applies them with each item that ends in a backslash run together with the next. |
| EnvExact.PathTakesNext | cpp/dmalloc-5.5.2/env.c:236-238 | A path that ends in a backslash loses the setting printed after it. |
| EnvExact.FileTakenForCount | cpp/dmalloc-5.5.2/env.c:128-161 | A start file printed without a line is not read back as a file. |
| EnvExact.LongFileIsCut | cpp/dmalloc-5.5.2/env.c:131-139 | A file and line longer than the buffer come back with another file or a smaller line. |
| EnvExact.RoundTripExactly | cpp/dmalloc-5.5.2/env.c:168-399 | For text that fits the buffers, parsing what was printed returns the same configuration if and only if the configuration is printable, in hexadecimal and in long form. |
| EnvBuffers.AttributesAreOk | cpp/dmalloc-5.5.2/debug_tok.h:88-152 | Every debug token has its own name, without comma, backslash or equals sign. |
| EnvBuffers.EnvironSet | cpp/dmalloc-5.5.2/env.c:314-399 | The buffer ends holding the printed text without its last comma, cut off where the buffer ends. |
| EnvBuffers.TokenEnd | cpp/dmalloc-5.5.2/env.c:203-211 | The scan stops at the first comma not behind a backslash, or at the end. |
| EnvBuffers.EnvironProcess | cpp/dmalloc-5.5.2/env.c:168-308 | Parsing the copy in place, writing NULs over its commas, gives the specified configuration. |
| EnvBuffers.PrintAndParse | cpp/dmalloc-5.5.2/env.c:168-399 | Printing into a buffer and parsing what it holds returns the configuration. |
| Rand.StepIsProduct | cpp/dmalloc-5.5.2/dmalloc_rand.c:103-118 | On 1 .. 2^31 - 2 the step is multiplication by 16807 modulo 2^31 - 1 and stays there, and everything computed fits a signed 32-bit word. |
| Rand.StepIsBijection | cpp/dmalloc-5.5.2/dmalloc_rand.c:103-118 | The step is a bijection there, with the inverse given. |
| Rand.AutoSeedEnters | cpp/dmalloc-5.5.2/dmalloc_rand.c:62-66 | The constant seed lies outside that range and one step brings it in, to 1624420127. |
| Rand.RunStaysOnCycle | cpp/dmalloc-5.5.2/dmalloc_rand.c:103-118 | n draws multiply by the n-th power of 16807 modulo the prime and never meet 0. |
| Rand.UnseededRun | cpp/dmalloc-5.5.2/dmalloc_rand.c:103-118 | An unseeded generator seeds itself exactly once. |
| Rand.PrimeIsStuck | cpp/dmalloc-5.5.2/dmalloc_rand.c:83-118 | Seeded with the prime or its negative the generator draws the prime for ever. |
| Rand.EntersExactlyWhen | cpp/dmalloc-5.5.2/dmalloc_rand.c:103-118 | For a seed of 32 bits, the first draw enters the range of the generator if and only if the seed is neither the prime nor its negative. |
| Rand.EverySeed | cpp/dmalloc-5.5.2/dmalloc_rand.c:103-118 | For a seed of 32 bits, draw n + 1 is the n-th power of 16807 times the first draw, modulo the prime, or for those two seeds the prime. |
| Rand.Settles | cpp/dmalloc-5.5.2/dmalloc_rand.c:103-118 | A seed of any width ends up, after some draws, in the range of the generator, or else on the prime, and the latter only if it is a multiple of the prime. |
| Rand.Generator.Draw | cpp/dmalloc-5.5.2/dmalloc_rand.c:103-118 | One draw replaces the stored value by the specified one and returns it. |

## Left out

- ChunkRuns.StepKeeps: the client must keep the starts of the manager's own blocks from free and all their addresses from realloc, because the original checks neither; sizes passed to realloc are at most LARGEST_ALLOCATION, which it does not check either.
- SkipLists.SkipList.InsertSlot: slots of level 32, which the original can draw, are not modelled; its rows are 0 to 31.
- SkipLists.SkipList.RemoveSlot: levels above 30 are not modelled, because the removal looks one row above the slot's top row and the path has 32 rows; the original can draw 31 and 32.
- ChunkInvariant.NewRecordsKeeps: the zeroing of a new block of records and its magic words (`chunk.c:484`) are not written to the modelled memory; what is said of unchanged memory, in MallocKeeps too, is said of all memory but these blocks.
- ChunkOperations.ReallocKeeps: sizes above LARGEST_ALLOCATION and pointers into the manager's own blocks are excluded, because the original checks neither.
- ChunkOperations.FreeKeeps: the answer of the address search on the free list is a parameter, because that list is sorted by size and the search finds nothing dependable there; it only picks one of two error numbers.
- MemTables.MemTable.Insert: keys without a file name are not modelled, here or in Probe, Search and Delete; the original would count a new entry that still looks blank.
- TableSort.Split: ranges of one or two entries are not modelled; the only caller sorts the whole table.
- EnvExact.RoundTripExactly: text that does not fit the printer's buffer or the parser's copy is not covered.
- EnvBuffers.EnvironProcess: a start file longer than its buffer is clipped here, where the original writes past the buffer; the numbers read are unbounded.
- NodeAllocs.NodeAlloc.Allocate: requests above 256 bytes, which go to malloc directly, and the option that frees all chunks at the end are not modelled.
- PerThreadAllocs.RunKeeps: requests to the system succeed, only one of the two allocate interfaces is used, and the thread-key bookkeeping is reduced to attaching and detaching a state; the steps are interleaved as values, since a lock has no counterpart here; only the loop that links a chunk (LinkChunk) is a method.
- Integers are unbounded: counters, sizes and sums do not wrap around. Only the random step is checked against 32-bit words.
- ChunkModel fixes a 64-bit little-endian machine: slot records of 56 + 8 * level bytes, fences as stored there.
- heap.c and the growth of the heap by mmap or sbrk; the model takes arbitrary disjoint, aligned grants instead.
- The whole-heap walks of _dmalloc_chunk_heap_check and _dmalloc_chunk_count_changed, and the log of changed pointers; the checks of single slots are modelled.
- File names and line numbers of slots, time stamps, thread identities, log messages, maxima and all-time totals, which influence no other behaviour.
- The hash function of the memory table; the home bucket of a key is an arbitrary function.
- The lock-free node allocator, and alignment by memalign.
- The other sorts and searches of algorithm_utils.py, and the command-line programs of dmalloc.
