# MyShell core in Dafny

A model of the core of MyShell, a small teaching shell written in C. Each part
of the core is one Dafny module in one file:

- `wrappers.dfy` — `Wrappers`: `Option`, which stands for a C pointer that may
  be NULL.
- `contiguous_memory.dfy` — `ContiguousMemory`: the A1 script store
  (`A1-2024/starter-code/scriptsmemory.c`). It has MEM_SIZE = 1000 line slots.
  A first-fit allocator works over a list of free blocks sorted by start.
  - `Allocate` and `AddAvail` are the specification functions for
    `allocateMemoryScript` and `addMemoryAvailability`.
  - The class `ScriptsMemory` holds the store as an array and the free list as
    a `seq` field. Its while loops walk an index down that list.
- `ready_queue.dfy` — `ReadyQueue`: the ready queue of the A1 scheduler
  (`A1-2024/starter-code/scheduler.c`), a doubly linked list of PCBs with head
  and tail pointers.
  - PCBs live in an arena. A pointer is a handle, NULL is `NIL`, and the maps
    `pcbs`, `next` and `prev` give each handle its record and its links.
  - The ghost sequence `Contents` is the list from head to tail. `Valid()`
    requires the links to thread exactly `Contents`.
  - Every structural primitive of the C file is a method that rewires the
    links in place. Each is proved against `Contents` and against `View()`,
    the records in queue order.
- `scheduler.dfy` — `Scheduler`: `mem_load_script`, `deallocateMemoryScript`,
  the three policy loops and `selectSchedule` of the A1 scheduler.
  - Running a line of a script is modelled as appending the line's store index
    to `trace`.
  - Each policy loop is proved against a function on the queued records:
    `RunToEnd` for FCFS and SJF, `RoundRobin` for RR and RR30, and `AgingRun`
    for AGING. Each function gives the lines run, in order, and the PCBs freed,
    in order.
  - Lemmas about these functions state that every line runs and every PCB is
    freed.
  - The invariant `Owns` states that the free list and every live PCB's lines
    never overlap.
- `paged_memory.dfy` — `PagedMemory`: the paged store of the later iteration
  (`MyShell/code/scriptsmemory.c`).
  - The store has FRAME_STORE_SIZE slots in frames of PAGE_SIZE = 3. Each frame
    carries its owner page and an LRU rank.
  - Page-table records (`struct scriptFrames`) live in an arena of handles.
  - `Coherent` is the invariant that `pageAssignment` and the other operations
    keep. It requires that the ranks are a permutation, that frames and page
    tables point at each other, and that frame counts agree.
- `shell_memory.dfy` — `ShellMemory`: the variable store. It models both
  `A1-2024/starter-code/shellmemory.c` and `MyShell/code/shellmemory.c`.
  - Their store operations work the same way.
  - The slot count differs (MEM_SIZE in the A1 file, VAR_MEMSIZE in the other)
    and is the constructor's parameter.
  - Only the A1 file defines `match`.
  - Only the MyShell file takes a mutex around the store. Locks are left out
    (see "## Left out").
- `interpreter.dfy` — `Interpreter`: from `interpreter.c`, the argument-count
  checks, the trimming of line endings, the keyword dispatch, the decoding of
  `exec`'s policy and flags, `exec`'s checks and its `execOnlyLoading` flag,
  `policy_parser`, `is_alphanumeric(_list)`, `custom_sort` and `badcommand`.
- `shell.dfy` — `Shell`: from `shell.c`, `countChar`, `wordEnding`,
  `convertInputToOneLiners`, which splits a line at `;`, and `parseInput`,
  which splits a one-liner into tokens. The interpreter is a function
  parameter from a token list to a return code.

## Model

| member | source | states |
|---|---|---|
| ContiguousMemory.FirstFit | A1-2024/starter-code/scriptsmemory.c:55-81 | The index of the first block, in list order, with room for n slots, or the list length; every earlier block is too small. |
| ContiguousMemory.AllocateIsFirstFit | A1-2024/starter-code/scriptsmemory.c:55-85 | Allocation gives -1 exactly when no block has room. Otherwise it gives the start of the first block that has room. |
| ContiguousMemory.AllocateTotal | A1-2024/starter-code/scriptsmemory.c:59-61 | A successful allocation removes exactly n slots from the free total. |
| ContiguousMemory.AllocateStaysWellFormed | A1-2024/starter-code/scriptsmemory.c:63-77 | After allocation the list stays inside the store and sorted, with blocks apart. This covers the emptied head that is kept when it has no successor. |
| ContiguousMemory.AllocateKeepsApart | A1-2024/starter-code/scriptsmemory.c:57-77 | The allocated range lies inside the store, and no free block overlaps it afterwards. A range that was clear of the free list stays clear. |
| ContiguousMemory.WellFormedIsSorted | A1-2024/starter-code/scriptsmemory.c:103-104 | The free-list invariant implies the list is sorted by start, which the scan for the first later block relies on. |
| ContiguousMemory.FirstAfter | A1-2024/starter-code/scriptsmemory.c:103-104 | The index of the first block whose start exceeds the freed start, or the list length. |
| ContiguousMemory.AddAvailTotal | A1-2024/starter-code/scriptsmemory.c:103-145 | When some block starts after the freed range, the free total grows by its length. When none does, the list is left unchanged. |
| ContiguousMemory.AddAvailKeepsApart | A1-2024/starter-code/scriptsmemory.c:104-140 | Freeing a range that is clear of the list keeps the list well formed, whether it is merged forward, linked in or merged backward. Other clear ranges stay clear. |
| ContiguousMemory.AddAvailCoversRange | A1-2024/starter-code/scriptsmemory.c:107-140 | When some block starts after the freed range, one free block afterwards covers the whole range. |
| ContiguousMemory.AddAvailDropsTrailingRange | A1-2024/starter-code/scriptsmemory.c:103-145 | A range freed behind the last free block is lost: freeing [995, 1000) into [[0, 3)] leaves the free total at 3. |
| ContiguousMemory.ScriptsMemory.constructor | A1-2024/starter-code/scriptsmemory.c:22-38 | Every slot is NULL, and the free list is the single block [0, MEM_SIZE). |
| ContiguousMemory.ScriptsMemory.AllocateMemoryScript | A1-2024/starter-code/scriptsmemory.c:49-86 | The walk returns the start and leaves the free list that `Allocate` gives, and the list invariant holds. |
| ContiguousMemory.ScriptsMemory.AddMemoryAvailability | A1-2024/starter-code/scriptsmemory.c:98-146 | The walk leaves the free list that `AddAvail` gives, and the list invariant holds. |
| ContiguousMemory.ScriptsMemory.LinkFreed | A1-2024/starter-code/scriptsmemory.c:104-141 | Relinking at the first block that starts after the freed range gives the `AddAvail` list. |
| ContiguousMemory.ScriptsMemory.FetchInstruction | A1-2024/starter-code/scriptsmemory.c:152-154 | Returns the slot's contents. |
| ContiguousMemory.ScriptsMemory.UpdateInstruction | A1-2024/starter-code/scriptsmemory.c:158-160 | The slot holds the new line and every other slot is unchanged. |
| ContiguousMemory.UpdateThenFetch | A1-2024/starter-code/scriptsmemory.c:152-160 | An update followed by a fetch of the same slot returns the written line, and no other slot changes. |
| ReadyQueue.InsertPos | A1-2024/starter-code/scheduler.c:485-502 | Where the SJF scan from the tail links a PCB: every record from that point on scores strictly more, and the record just before it scores at most as much. |
| ReadyQueue.InsertPosSplits | A1-2024/starter-code/scheduler.c:486-500 | In a sorted queue the insertion point splits it: scores at most the new one before it, strictly more after it. So equal scores keep arrival order. |
| ReadyQueue.SjfInsertSorted | A1-2024/starter-code/scheduler.c:469-513 | SJF insertion keeps a score-sorted queue sorted and adds exactly the new PCB, as a multiset. |
| ReadyQueue.SjfInsertBehindSmallerHead | A1-2024/starter-code/scheduler.c:486-502 | A PCB scoring more than the head of a non-empty queue is linked behind it, so the head stays the head. |
| ReadyQueue.SjfInsertEmpty | A1-2024/starter-code/scheduler.c:474-480 | Inserting into an empty queue gives the one-PCB queue. |
| ReadyQueue.AgeAll | A1-2024/starter-code/scheduler.c:255-261 | Every queued record is aged once, and the queue keeps its length and order. |
| ReadyQueue.AgeAllKeepsOrder | A1-2024/starter-code/scheduler.c:255-261 | Aging keeps a score-sorted queue sorted. |
| ReadyQueue.AgeNonNegative | A1-2024/starter-code/scheduler.c:257-259 | Aging lowers a score by one unless it is 0, so a score never goes negative. Nothing but the score changes. |
| ReadyQueue.AgedAll | A1-2024/starter-code/scheduler.c:253-261 | Once the walk has aged every queued handle, each queued record is aged exactly once and no other record changes. The queue view becomes `AgeAll` of the old view. |
| ReadyQueue.RemoveAtDrops | A1-2024/starter-code/scheduler.c:525-551 | Unlinking a position of a queue whose handles are distinct removes that handle and no other. |
| ReadyQueue.LinkedAfter | A1-2024/starter-code/scheduler.c:487-497 | The link writes of the SJF insertion, after a queued PCB at the tail or in the middle, thread the queue with the new PCB just behind it. |
| ReadyQueue.PlacedFirst | A1-2024/starter-code/scheduler.c:726-746 | The link writes of placePCBAtStartOfDLL, into an empty queue or before the head, thread the queue with the PCB in front. |
| ReadyQueue.PlacedLast | A1-2024/starter-code/scheduler.c:695-715 | The link writes of placePCBAtEndOfDLL, into an empty queue or after the tail, thread the queue with the PCB at the back. |
| ReadyQueue.RotatedHead | A1-2024/starter-code/scheduler.c:673-683 | On a queue of two or more, the link writes of placePCBHeadAtEndOfDLL thread the queue rotated by one. |
| ReadyQueue.SwapAllExchanges | A1-2024/starter-code/scheduler.c:597-655 | Trading two queued PCBs exchanges their two positions and leaves every other position alone. |
| ReadyQueue.LinkedSwap | A1-2024/starter-code/scheduler.c:601-652 | Links that give each node the image of its old links under the trade thread the list with the two PCBs exchanged. Head and tail follow the same trade. |
| ReadyQueue.SwitchComposed | A1-2024/starter-code/scheduler.c:601-639 | The neighbour updates for p1, then for p2, then the exchange of p1's and p2's own links, together give each node its traded links. This includes adjacent p1 and p2. |
| ReadyQueue.Switched | A1-2024/starter-code/scheduler.c:597-655 | switchPCBs' links and ends satisfy the queue invariant for the queue with p1 and p2 exchanged. |
| ReadyQueue.ReadyQueue.constructor | A1-2024/starter-code/scheduler.c:62-65 | An empty queue with no PCBs. |
| ReadyQueue.ReadyQueue.NewPCB | A1-2024/starter-code/scheduler.c:141-148 | A fresh handle for an unlinked PCB. The queue and the view are unchanged. |
| ReadyQueue.ReadyQueue.FreePCB | A1-2024/starter-code/scheduler.c:100 | An unlinked PCB is freed. The queue and the view are unchanged. |
| ReadyQueue.ReadyQueue.SetPCB | A1-2024/starter-code/scheduler.c:250 | Rewrites one PCB's counters. The order is unchanged, and so is the view when the PCB is not queued. |
| ReadyQueue.ReadyQueue.PlaceAtEnd | A1-2024/starter-code/scheduler.c:695-715 | The PCB is appended: contents and records gain it at the back and nothing else changes. |
| ReadyQueue.ReadyQueue.PlaceAtStart | A1-2024/starter-code/scheduler.c:726-746 | The PCB is prepended: contents and records gain it at the front and nothing else changes. |
| ReadyQueue.ReadyQueue.Detach | A1-2024/starter-code/scheduler.c:525-551 | Exactly the given PCB leaves the queue, the others keep their order, and its links are cleared. |
| ReadyQueue.ReadyQueue.DetachHead | A1-2024/starter-code/scheduler.c:527-535 | The head branch: the queue loses its first PCB, and that PCB's links are cleared. |
| ReadyQueue.ReadyQueue.DetachTail | A1-2024/starter-code/scheduler.c:536-541 | The tail branch: the queue loses its last PCB, and that PCB's links are cleared. |
| ReadyQueue.ReadyQueue.DetachMiddle | A1-2024/starter-code/scheduler.c:543-545 | The middle branch: position i is unlinked, and its links are cleared. |
| ReadyQueue.ReadyQueue.PopHead | A1-2024/starter-code/scheduler.c:560-573 | Returns NIL on an empty queue. Otherwise it returns the head, with both its links cleared, and the queue becomes the rest, in order. |
| ReadyQueue.ReadyQueue.PlaceHeadAtEnd | A1-2024/starter-code/scheduler.c:666-684 | Does nothing with fewer than two PCBs. Otherwise the head moves behind the tail and the rest keep their order. |
| ReadyQueue.ReadyQueue.SwitchPCBs | A1-2024/starter-code/scheduler.c:597-655 | Both PCBs are queued; afterwards they have traded places and every other PCB keeps its place. The queue invariant holds. |
| ReadyQueue.ReadyQueue.Relink | A1-2024/starter-code/scheduler.c:601-639 | The pointer rewiring of switchPCBs produces the traded links described by `SwitchedLinks`. |
| ReadyQueue.ReadyQueue.PointNeighboursAt | A1-2024/starter-code/scheduler.c:601-607 | The neighbours of p are pointed at q, except where the neighbour is q itself. |
| ReadyQueue.ReadyQueue.ExchangeLinks | A1-2024/starter-code/scheduler.c:616-639 | p1 and p2 take each other's links, and a link between the two is turned round. |
| ReadyQueue.ReadyQueue.SwapEnds | A1-2024/starter-code/scheduler.c:641-652 | Head and tail follow the PCB that moved into their place. |
| ReadyQueue.ReadyQueue.LinkAfter | A1-2024/starter-code/scheduler.c:487-497 | The PCB is linked in just behind queued position j-1. |
| ReadyQueue.ReadyQueue.FindFromTail | A1-2024/starter-code/scheduler.c:485-502 | The backward scan stops at the insertion point `InsertPos` of the records. |
| ReadyQueue.ReadyQueue.InsertFromTailSJF | A1-2024/starter-code/scheduler.c:469-513 | The records become `SjfInsert` of the old records: the new PCB sits behind every PCB scoring at most as much, and nothing else changes. |
| ReadyQueue.ReadyQueue.Head | A1-2024/starter-code/scheduler.c:272-273 | The first queued PCB, or NIL. |
| ReadyQueue.ReadyQueue.AgeQueue | A1-2024/starter-code/scheduler.c:253-261 | Every queued PCB ages once and no other PCB changes. The view becomes `AgeAll` of the old view. |
| Scheduler.RunToEndRunsEverything | A1-2024/starter-code/scheduler.c:187-200 | FCFS runs every remaining line once and frees every PCB, in queue order, at its end. |
| Scheduler.RoundRobinUnfold | A1-2024/starter-code/scheduler.c:217-233 | A turn runs min(n, lines left). Then the PCB is freed if it is at its end, or goes to the back. |
| Scheduler.RoundRobinRunsEverything | A1-2024/starter-code/scheduler.c:212-234 | Round robin runs as many lines as are left and frees every PCB, each at its end. |
| Scheduler.LongTurnsAreFcfs | A1-2024/starter-code/scheduler.c:212-234 | With turns at least as long as every script, round robin is exactly FCFS. |
| Scheduler.AgingAlone | A1-2024/starter-code/scheduler.c:246-283 | A lone script under aging runs to its end without interruption. |
| Scheduler.AgingRunEnds | A1-2024/starter-code/scheduler.c:265-268 | A slice that ends the running PCB frees it, and the aged queue starts over. |
| Scheduler.AgingRunPreempts | A1-2024/starter-code/scheduler.c:269-281 | When the aged head scores strictly less, the running PCB goes back in by score and the new head runs on. The remaining work drops by the line just run. |
| Scheduler.AgingRunKeeps | A1-2024/starter-code/scheduler.c:269-281 | Otherwise the running PCB runs on, without being aged, while the queue is aged. |
| Scheduler.AgingRunsEverything | A1-2024/starter-code/scheduler.c:242-284 | Aging runs as many lines as are left and frees every PCB, each at its end. |
| Scheduler.AgingStartRunsEverything | A1-2024/starter-code/scheduler.c:246-247 | The same, from the first pop of a whole queue. |
| Scheduler.PreemptRunsOldHead | A1-2024/starter-code/scheduler.c:272-280 | On preemption the PCB that runs next is the old head, aged once, and the preempted PCB waits behind it. |
| Scheduler.EnqueueAddsOne | A1-2024/starter-code/scheduler.c:150-174 | Adds exactly the new PCB: at the back for FCFS, RR and RR30; at the front for INVALID_POLICY; and for SJF and AGING in a position that keeps a sorted queue sorted. |
| Scheduler.LoadAsWritten | A1-2024/starter-code/scheduler.c:134-148 | As written, the new PCB starts at whatever the allocator returned, -1 included. Its counter starts at its start and its length is the script's. |
| Scheduler.LoadAsWrittenStartsOutside | A1-2024/starter-code/scheduler.c:134 | A five-line script loaded when three slots are free gives a PCB whose lines start at -1, outside the store. |
| Scheduler.OwnsRelease | A1-2024/starter-code/scheduler.c:90-101 | Freeing one PCB's lines keeps the free list well formed and clear of every other live PCB's lines. |
| Scheduler.OwnsAcquire | A1-2024/starter-code/scheduler.c:134-148 | A successful allocation for a new PCB keeps the free list clear of every PCB's lines, the new one's included. |
| Scheduler.Scheduler.constructor | A1-2024/starter-code/scheduler.c:62-79 | Empty queue, empty trace, all slots NULL and a single free block. |
| Scheduler.Scheduler.MemLoadScript | A1-2024/starter-code/scheduler.c:112-177 | Returns -1 for a NULL file or a failed allocation, with nothing changed. Otherwise it returns 0: the lines are stored from the allocated start, the free list is `Allocate`'s, and the queued records are `Enqueue` of the new PCB. |
| Scheduler.Scheduler.StoreLines | A1-2024/starter-code/scheduler.c:136-138 | The script's lines fill consecutive slots from the start, and no other slot changes. |
| Scheduler.Scheduler.Admit | A1-2024/starter-code/scheduler.c:141-174 | The new PCB, whose lines it owns, joins the queue by the policy's rule. |
| Scheduler.Scheduler.LinkByPolicy | A1-2024/starter-code/scheduler.c:150-174 | The records become `Enqueue(policy, old records, new PCB)`. |
| Scheduler.Scheduler.DeallocateMemoryScript | A1-2024/starter-code/scheduler.c:90-101 | The PCB is freed and its lines go back through `AddAvail`. The queue is unchanged. |
| Scheduler.Scheduler.RemovePCBFromQueue | A1-2024/starter-code/scheduler.c:583-586 | The PCB is detached, freed and its lines returned. |
| Scheduler.Scheduler.RunLines | A1-2024/starter-code/scheduler.c:193-197 | Runs the lines from the counter up to the stop or the end, whichever comes first, and moves the counter there. |
| Scheduler.Scheduler.Pop | A1-2024/starter-code/scheduler.c:191 | The head becomes the running PCB, and the rest stay pending. |
| Scheduler.Scheduler.RunTurn | A1-2024/starter-code/scheduler.c:219-225 | One runRR turn's lines are appended to the trace. |
| Scheduler.Scheduler.Requeue | A1-2024/starter-code/scheduler.c:230-231 | An unfinished PCB goes to the back before the next pop. |
| Scheduler.Scheduler.FcfsStep | A1-2024/starter-code/scheduler.c:191-199 | Runs the running PCB to its end, frees it, and pops the next. |
| Scheduler.Scheduler.FcfsPass | A1-2024/starter-code/scheduler.c:191-199 | One pass keeps the run so far plus the rest equal to the whole `RunToEnd` run, and the queue shrinks. |
| Scheduler.Scheduler.ExecuteReadyQueuePCBs | A1-2024/starter-code/scheduler.c:187-200 | The trace gains `RunToEnd` of the queued records, the free list gets their lines back in order, and the queue ends empty. |
| Scheduler.Scheduler.RoundRobinStep | A1-2024/starter-code/scheduler.c:217-233 | One turn, then free or requeue, then pop. |
| Scheduler.Scheduler.EndTurn | A1-2024/starter-code/scheduler.c:226-232 | A PCB at its end is freed; any other goes to the back. |
| Scheduler.Scheduler.RoundRobinPass | A1-2024/starter-code/scheduler.c:217-233 | One pass keeps the run so far plus the rest equal to the whole `RoundRobin` run, and the work left shrinks. |
| Scheduler.Scheduler.RunRR | A1-2024/starter-code/scheduler.c:212-234 | The trace gains `RoundRobin(records, n)`, the free list gets the finished lines back, and the queue ends empty. |
| Scheduler.Scheduler.RunSlice | A1-2024/starter-code/scheduler.c:249-250 | The running PCB runs the line at its counter, and the counter moves on by one. |
| Scheduler.Scheduler.AgeWaiting | A1-2024/starter-code/scheduler.c:253-262 | Every waiting PCB ages and the running one does not. |
| Scheduler.Scheduler.FinishRunning | A1-2024/starter-code/scheduler.c:265-268 | A PCB at its end is freed and the next one popped. |
| Scheduler.Scheduler.MaybePreempt | A1-2024/starter-code/scheduler.c:271-281 | Preempts only when the head scores strictly less than the running PCB. |
| Scheduler.Scheduler.Preempt | A1-2024/starter-code/scheduler.c:272-280 | The running PCB goes back in by score (`SjfInsert`), and the head is popped. |
| Scheduler.Scheduler.AgingStep | A1-2024/starter-code/scheduler.c:248-282 | One aging pass: the slice, the aging, then free, preempt or keep. |
| Scheduler.Scheduler.EndSlice | A1-2024/starter-code/scheduler.c:264-282 | The end of a pass: free at the end, otherwise preempt or keep. |
| Scheduler.Scheduler.AgingPass | A1-2024/starter-code/scheduler.c:247-283 | One pass keeps the run so far plus the rest equal to the whole `AgingRun`, and the work left shrinks by one line. |
| Scheduler.Scheduler.RunAging | A1-2024/starter-code/scheduler.c:242-284 | The trace gains `AgingStart` of the queued records, the free list gets the finished lines back, and the queue ends empty. |
| Scheduler.Scheduler.SelectSchedule | A1-2024/starter-code/scheduler.c:295-313 | FCFS and SJF drain the queue through `RunToEnd`, RR through `RoundRobin(2)`, RR30 through `RoundRobin(30)` and AGING through `AgingStart`; INVALID_POLICY runs nothing. |
| PagedMemory.PromoteKeepsRanksDense | MyShell/code/scriptsmemory.c:284-301 | Promotion gives f rank 0 and moves every more recently used frame down one, leaving the others alone. The ranks stay a permutation, and the owners and pages are unchanged. |
| PagedMemory.PromoteFront | MyShell/code/scriptsmemory.c:293-299 | Promoting the frame already at rank 0 changes nothing. |
| PagedMemory.InitialFramesDense | MyShell/code/scriptsmemory.c:43-46 | The initial ranks (frame i at FRAME_NUMBER-i-1) are a permutation and every frame is unowned. |
| PagedMemory.LruFrameUnique | MyShell/code/scriptsmemory.c:105-116 | Under dense ranks, exactly one frame holds the last rank. |
| PagedMemory.VirtualToPhysical | MyShell/code/scriptsmemory.c:262-274 | Returns -1 exactly when the page has no frame. Otherwise it returns the slot of the same offset inside that frame. |
| PagedMemory.TranslationInjective | MyShell/code/scriptsmemory.c:262-274 | Two mapped addresses of live scripts share a slot only when they are the same address of the same script. |
| PagedMemory.AfterEviction | MyShell/code/scriptsmemory.c:175-186 | The victim's page-table entry is invalidated and its frame count decremented. Its record is dropped once neither a PCB nor a frame uses it, and every other record is unchanged. |
| PagedMemory.Installed | MyShell/code/scriptsmemory.c:193-199 | sh's table maps page p to frame L and its frame count rises by one. No other entry or record changes. |
| PagedMemory.ReassignConsistent | MyShell/code/scriptsmemory.c:165-199 | Handing the LRU frame to page p of sh keeps frames and page tables consistent: counts right, mappings both ways. |
| PagedMemory.ReassignKeepsCounts | MyShell/code/scriptsmemory.c:175-195 | After the reassignment every record's frame count equals the number of frames it owns. |
| PagedMemory.ReassignKeepsMappings | MyShell/code/scriptsmemory.c:176-199 | After the reassignment every valid page-table entry names a frame that holds that page, and back. |
| PagedMemory.ReassignKeepsOwners | MyShell/code/scriptsmemory.c:181-194 | After the reassignment every owned frame's owner is a live record. |
| PagedMemory.PageLines | MyShell/code/scriptsmemory.c:204-218 | The page's PAGE_SIZE slots, with the slots past the script's end empty. |
| PagedMemory.VictimReport | MyShell/code/scriptsmemory.c:132-146 | The dump starts with the victim header and ends with the footer. |
| PagedMemory.CoherentPromote | MyShell/code/scriptsmemory.c:284-301 | Promoting a frame keeps the store coherent. |
| PagedMemory.CoherentAfterAssignment | MyShell/code/scriptsmemory.c:159-220 | The reassignment, with slots outside frame L unchanged, keeps the whole store coherent. |
| PagedMemory.FrameStore.Init | MyShell/code/scriptsmemory.c:32-47 | Every slot is empty and every frame unowned; frame i has rank FRAME_NUMBER-i-1; the store is coherent. |
| PagedMemory.FrameStore.Register | MyShell/code/scriptsmemory.h:10-16 | A new record with no page resident and no frames; nothing else changes. |
| PagedMemory.FrameStore.UpdateLRURanking | MyShell/code/scriptsmemory.c:284-301 | The frames become `Promote` of the old frames. |
| PagedMemory.FrameStore.FindLRUFrame | MyShell/code/scriptsmemory.c:105-116 | Returns the one frame at the last rank. |
| PagedMemory.FrameStore.FindExistingScript | MyShell/code/scriptsmemory.c:232-247 | Returns None exactly when no frame holds a script of that name. Otherwise it returns a record of that name that owns the lowest-index frame holding such a script. |
| PagedMemory.FrameStore.FetchInstructionVirtual | MyShell/code/scriptsmemory.c:60-73 | On a miss it returns None and leaves the ranks unchanged. On a hit it returns the slot and promotes its frame. |
| PagedMemory.FrameStore.UpdateInstructionVirtual | MyShell/code/scriptsmemory.c:90-98 | The mapped slot holds the new line and no other slot changes. |
| PagedMemory.FrameStore.DeclareVictimSlot | MyShell/code/scriptsmemory.c:135-144 | A held line is printed and its slot emptied, and the frame is promoted. An empty slot prints nothing. |
| PagedMemory.FrameStore.DeclareVictimLines | MyShell/code/scriptsmemory.c:134-145 | After the loop, every line of the page has been printed in order and the page is emptied. |
| PagedMemory.FrameStore.DeclareVictimePage | MyShell/code/scriptsmemory.c:127-147 | Prints the header, the page's remaining lines and the footer, empties the page, and promotes its frame. |
| PagedMemory.FrameStore.EvictVictim | MyShell/code/scriptsmemory.c:170-186 | The victim page is dumped and emptied, and the records follow `AfterEviction`. |
| PagedMemory.FrameStore.DropVictimRecord | MyShell/code/scriptsmemory.c:175-186 | The records follow `AfterEviction`, and the frame is left unowned when its record is dropped. |
| PagedMemory.FrameStore.ReleaseFrame | MyShell/code/scriptsmemory.c:169-191 | An owned frame is evicted, and the frame is emptied either way. The output gains the dump, or "Page fault!" when the frame was unowned and this is not the setup load. |
| PagedMemory.FrameStore.InstallPage | MyShell/code/scriptsmemory.c:193-199 | Frame L records page p of sh, and the records follow `Installed`. |
| PagedMemory.FrameStore.LoadPage | MyShell/code/scriptsmemory.c:201-219 | The page's lines are spliced into the frame's empty slots. |
| PagedMemory.FrameStore.ReassignFrame | MyShell/code/scriptsmemory.c:169-219 | Eviction, installation and load on the already-promoted frame. |
| PagedMemory.FrameStore.PageAssignment | MyShell/code/scriptsmemory.c:159-220 | The former LRU frame gets rank 0 and holds page p of sh, and the records follow eviction, then installation. The output gains the victim report when the frame was owned; otherwise it gains "Page fault!", unless this is the setup load. The frame's slots hold the page's lines, and the store stays coherent. |
| ShellMemory.PrefixLen | A1-2024/starter-code/shellmemory.c:85-91 | The length of the leading run of values, which is where the clearing loop stops. |
| ShellMemory.ValuesFilled | A1-2024/starter-code/shellmemory.c:126-129 | A row written by set holds exactly the given values, packed at the front. |
| ShellMemory.ClearPrefix | MyShell/code/shellmemory.c:163-170 | mem_clear_value empties the leading run of values and nothing else. |
| ShellMemory.ClearPacked | A1-2024/starter-code/shellmemory.c:120-129 | Clearing a packed row leaves no stale value, so a re-set row holds only the new values. |
| ShellMemory.JoinStep | MyShell/code/shellmemory.c:140-148 | Each value is appended after a single space, except the first. |
| ShellMemory.LookupFrom | A1-2024/starter-code/shellmemory.c:148-161 | Finds the first slot named v, or -1 once an unnamed slot or the end comes first. |
| ShellMemory.SetTargetFrom | A1-2024/starter-code/shellmemory.c:109-135 | Finds the first slot unnamed or named v, or -1 exactly when every slot holds another name. |
| ShellMemory.LookupAbsent | MyShell/code/shellmemory.c:98-116 | Under the store invariant the lookup is at least 0 exactly when v is stored, and then it gives v's slot. |
| ShellMemory.SetKeepsInv | MyShell/code/shellmemory.c:60-85 | Set keeps names a duplicate-free prefix, with unnamed slots empty and rows packed. |
| ShellMemory.SetThenLookup | A1-2024/starter-code/shellmemory.c:105-191 | After a set, v is found in its slot with exactly the new values. Every other variable is found where it was, with its old row. |
| ShellMemory.Match | A1-2024/starter-code/shellmemory.c:35-45 | Returns 1 exactly when model agrees with var on all of var's characters, and 0 otherwise. |
| ShellMemory.Store.Init | MyShell/code/shellmemory.c:31-42 | Every slot is unnamed and without values. |
| ShellMemory.Store.ClearValue | A1-2024/starter-code/shellmemory.c:83-92 | The slot's row becomes `ClearPrefix` of the old row, and the other slots are unchanged. |
| ShellMemory.Store.WriteSlot | MyShell/code/shellmemory.c:65-80 | The slot gets the name and exactly the new values, with the old ones cleared. |
| ShellMemory.Store.SetValue | A1-2024/starter-code/shellmemory.c:105-136 | Names and rows become `SetNames`/`SetRows`, and the invariant holds. |
| ShellMemory.Store.GetVariableIndex | MyShell/code/shellmemory.c:98-116 | Returns the lookup `Lookup` of the name. |
| ShellMemory.Store.GetValue | A1-2024/starter-code/shellmemory.c:172-195 | Returns "Variable does not exist" for an absent name. Otherwise it returns the values joined with single spaces. |
| Interpreter.BadCommandReport | A1-2024/starter-code/interpreter.c:619-644 | Returns the error's own nonzero code. Different errors have different codes. Only the scandir, file-open and non-alphanumeric errors print nothing. |
| Interpreter.PolicyParserExact | A1-2024/starter-code/interpreter.c:593-608 | A string parses to a real policy exactly when it is that policy's keyword. |
| Interpreter.IsAlphanumeric | A1-2024/starter-code/interpreter.c:483-494 | True exactly when every character is a letter or digit ("" included). |
| Interpreter.IsAlphanumericList | A1-2024/starter-code/interpreter.c:505-514 | True exactly when each of the first len strings is alphanumeric. |
| Interpreter.CharOrder | A1-2024/starter-code/interpreter.c:550-570 | The per-character order gives -1, 0 or 1, and 0 exactly for equal characters. |
| Interpreter.DigitBeforeLetter | A1-2024/starter-code/interpreter.c:550-554 | A digit sorts before a letter, and a letter after a digit. |
| Interpreter.CustomSort | A1-2024/starter-code/interpreter.c:541-582 | The loop's answer is `NameOrder`. |
| Interpreter.NameOrderZero | A1-2024/starter-code/interpreter.c:576-581 | The order answers 0 exactly for identical names. |
| Interpreter.NameOrderAntisymmetric | A1-2024/starter-code/interpreter.c:541-582 | Swapping the names negates the answer. |
| Interpreter.NameOrderTransitive | A1-2024/starter-code/interpreter.c:548-580 | The order is transitive. |
| Interpreter.NameOrderAtDifference | A1-2024/starter-code/interpreter.c:550-580 | A proper prefix sorts first. At the first difference, a digit comes before a letter and an upper-case letter before its lower case. |
| Interpreter.LineEnd | A1-2024/starter-code/interpreter.c:75 | The first '\r' or '\n', or the length. |
| Interpreter.TrimLine | A1-2024/starter-code/interpreter.c:74-76 | A prefix of the argument with no line ending; an argument without one is unchanged. |
| Interpreter.ExecTokens | A1-2024/starter-code/interpreter.c:120-137 | An accepted exec line is exactly the command, at most five scripts, the policy keyword, then an optional "#" and an optional "MT". |
| Interpreter.ExecLineDecodes | A1-2024/starter-code/interpreter.c:122-137 | Every exec line whose scripts and flags number one to five together decodes back to those scripts, that policy and those flags, whatever the names are. |
| Interpreter.SetValuesFit | A1-2024/starter-code/interpreter.c:86-90 | set hands the store between 1 and MAX_VALUE_SIZE values. |
| Interpreter.Interpret | A1-2024/starter-code/interpreter.c:63-141 | Fewer than one argument is a bad command and more than 7 too many tokens, with nothing touched. Otherwise every argument is cut at its line ending in place, and the command is dispatched. |
| Interpreter.AsWrittenCheckUpToThree | A1-2024/starter-code/interpreter.c:432-442 | For up to three scripts, the check as written rejects exactly the batches with a repeated name. |
| Interpreter.AsWrittenCheckMissesDuplicate | A1-2024/starter-code/interpreter.c:432-442 | `exec a b c a FCFS` decodes, repeats a name, and passes the check as written. |
| Interpreter.ExecRejectsDuplicates | A1-2024/starter-code/interpreter.c:432-442 | The corrected check rejects exactly the batches with a repeated name. |
| Interpreter.ExecState.constructor | A1-2024/starter-code/interpreter.c:32 | `execOnlyLoading` starts false. |
| Interpreter.ExecState.Exec | A1-2024/starter-code/interpreter.c:424-473 | Any repeated name, by the corrected pairwise check, is rejected before loading; for four or five names this is stricter than the code (see Findings). A script that does not open or does not load stops the batch with its code, and the scripts before it stay loaded. A background exec whose shell input fails to load fails with the load error. Otherwise a background exec sets the flag. The scheduler runs when this exec is in the background or no earlier background exec set the flag. |
| Shell.CountChar | A1-2024/starter-code/shell.c:58-66 | The number of occurrences of the character. |
| Shell.SkipFrom | A1-2024/starter-code/shell.c:101 | The skip stops at the first non-space character, or at MAX_USER_INPUT. |
| Shell.WordEndFrom | A1-2024/starter-code/shell.c:104-108 | A token runs to a word ending, a space, newline or NUL, or to its cap. |
| Shell.WordEnd | A1-2024/starter-code/shell.c:104-108 | A token has at most MAX_TOKEN_SIZE-1 characters. |
| Shell.ScanShape | A1-2024/starter-code/shell.c:102-114 | Every token is at most MAX_TOKEN_SIZE-1 long and holds no word-ending character. |
| Shell.ReadWord | A1-2024/starter-code/shell.c:104-109 | The copy loop reads exactly the characters up to `WordEnd`. |
| Shell.SkipSpaces | A1-2024/starter-code/shell.c:101 | The skip loop stops where `SkipFrom` says. |
| Shell.StoreWord | A1-2024/starter-code/shell.c:110 | The token goes into the next entry and the earlier entries are kept. |
| Shell.ReadWords | A1-2024/starter-code/shell.c:102-114 | The token loop fills the words array with `ParsedTokens`. |
| Shell.ParseInput | A1-2024/starter-code/shell.c:96-123 | The tokens handed on are `ParsedTokens`, at most MAX_WORDS, and the result is the interpreter's answer for them. |
| Shell.TokensOfWords | A1-2024/starter-code/shell.c:101-114 | Words free of word endings and shorter than MAX_TOKEN_SIZE, joined by single spaces in a line under MAX_USER_INPUT, tokenise back to exactly those words. |
| Shell.TooManyWords | A1-2024/starter-code/shell.c:97-111 | A line of 101 one-letter words, well under MAX_USER_INPUT, has more tokens than `words[100]` holds. |
| Shell.SeparatorAt | A1-2024/starter-code/shell.c:83-85 | The first ';', or the length. |
| Shell.SegmentsCount | A1-2024/starter-code/shell.c:83-91 | A line has one more one-liner than ';'. |
| Shell.SegmentsJoin | A1-2024/starter-code/shell.c:83-91 | Joining the one-liners with ';' gives the line back. |
| Shell.RunSegmentsCalls | A1-2024/starter-code/shell.c:83-92 | The k-th parse is of the k-th one-liner. |
| Shell.RunSegmentsExit | A1-2024/starter-code/shell.c:87-92 | The shell exits exactly when some one-liner's answer is -1. Otherwise every one-liner is parsed. |
| Shell.ConvertInputToOneLiners | A1-2024/starter-code/shell.c:68-94 | Returns 1 for a line over MAX_USER_INPUT and 2 for more than 9 ';', in both cases without parsing. Otherwise every one-liner is parsed in order, with exit status 99 on -1 and 0 returned otherwise. |
| Shell.EverySegmentParsed | A1-2024/starter-code/shell.c:83-93 | With an interpreter that never answers -1, there are count(';')+1 parses and no exit. |

## Left out

- Threads, locks and condition variables are left out: `workerThread`, the concurrent branch of `schedulerRun`, `joinAllThreads`, `isMainThread`, and the worker side of `quit`. Lock calls are no-ops, because the model is sequential. This includes the MyShell variable store's `memoryVariableArrayLock` (MyShell/code/shellmemory.c:61-149).
- `schedulerRun` is not modelled. Its sequential branch is `selectSchedule`, which is modelled.
- File and console I/O are left out, for these reasons:
  - The `fgets` loop of `mem_load_script` is replaced by the script's lines, given as a value; a NULL file is `None`.
  - The `fopen`/`fgets` page load of `pageAssignment` is replaced by the script's lines as a given sequence. Its behaviour at `feof` on an empty last line is not distinguished.
  - A printed line is appended to an `output` log.
  - The `main` loop is not modelled.
- `malloc`, `free` and `strdup` are replaced by arenas of handles, and heap lifetimes are not modelled.
- `rand()` for a PCB's pid is a parameter.
- The scheduler of the paged iteration is not part of this model, so nothing connects PCBs to the paged store.
- PagedMemory.FrameStore.Register stands in for the loader, which is not part of this model, creating a `scriptFrames` record.
- The commands `help`, `quit`, `set`, `print`, `echo`, `run`, `my_ls`, `my_touch`, `my_mkdir` and `my_cd` are left out, because they only call into the variable store, the file system, the console or the scheduler. The interpreter returns the dispatched command as a value. Only `custom_sort` and the alphanumeric checks among their helpers are modelled.
- `filterOutParentAndCurrentDirectory` is left out as part of `my_ls`.
- The build-time sizes `FRAME_STORE_SIZE` and `VAR_MEMSIZE` are constructor parameters.
- `MAX_USER_INPUT` is taken as 1000, from the comment at `shell.c:74`, because `shell.h` is not part of this model.
- Strings are sequences of characters, without a terminator. Reading at or past the end gives '\0'. Characters are compared as code points, so the signedness of C `char` is not modelled.
- The A1 free list is a sequence field. Its `prev`/`next` pointer linkage is not, because the order of the blocks is the state that matters.
- ContiguousMemory.ScriptsMemory.AddMemoryAvailability requires that the freed range lies inside the store and is clear of the free list. The C code trusts its callers for this. `deallocateMemoryScript` meets it through the `Owns` invariant.
- PagedMemory.FrameStore.PageAssignment requires that the page is not already resident. The C code demands this of its callers. It also requires `KeepsRecord`: when the LRU frame's record is freed, it must not be `sh`'s own record. Otherwise the C code writes through a freed pointer. The model does not cover that case.
- PagedMemory.FrameStore.UpdateInstructionVirtual requires a mapped address, as the doc comment at MyShell/code/scriptsmemory.c:76-79 states.
- The literal `3` at scriptsmemory.c:213 and 270 is modelled as PAGE_SIZE. The two are equal.
- ReadyQueue.ReadyQueue.SwitchPCBs states its new order through `SwapAll`. The records in queue order are not stated in its contract. They follow from the order through `ViewOfSwap`, and the position-exchange form is `SwapAllExchanges`. The source never calls `switchPCBs`.
- Scheduler.RoundRobinRunsEverything does not count turns. The per-turn count, min(n, lines left), is in `RoundRobinUnfold`, and the number of turns, ceil(L/n), is not stated.
- Scheduler.Scheduler.MemLoadScript requires a script of 1 to MEM_SIZE lines. The `fgets` loop always stores at least one line, and `scriptLines` holds MEM_SIZE.
- Interpreter.ExecState.Exec takes as parameters whether each file opens and loads, and whether the shell's own input loads. Then it stops; the scheduler run is in `Scheduler.Scheduler.SelectSchedule`.
- Interpreter.ExecState.Exec uses the corrected duplicate check, `ExecRejectsDuplicates`. The comment at interpreter.c:431 says the check makes sure script names are different. The code compares only the first two names, and the third only when there are exactly three. So on `exec a b c a FCFS`, the code loads all four scripts and runs the scheduler, while the model rejects the batch. The as-written check is `ExecRejectsDuplicatesAsWritten`, and `AsWrittenCheckMissesDuplicate` exhibits the difference; see Findings.
- Scheduler.Scheduler.RunLines, RunSlice, ExecuteReadyQueuePCBs, RunRR and RunAging model running a line only as appending its store index to `trace`. In the code, a line that a policy loop runs goes through `convertInputToOneLiners` to the interpreter, and that line can change the ready queue while the loop runs:
  - In background mode, the shell's remaining input is queued as the INVALID_POLICY PCB. An `exec` line in it only loads its scripts, because `execOnlyLoading` is set (interpreter.c:460-472), so PCBs join the queue during `runRR`, `runAging` or `executeReadyQueuePCBs`.
  - `run s` inside a script loads `s` and calls `schedulerRun(FCFS, 0, 0)` again on the same queue (interpreter.c:393-400).
  - In the model, a running line cannot load or run scripts. The loop contracts (`trace == old(trace) + RunToEnd(old(queue.View())).trace` and its round-robin and aging counterparts) hold because the queue is fixed when the loop starts. They do not describe runs in which a line adds PCBs.
- Two behaviours of the code that a reader might not expect are kept as written:
  - A script that fails to open or load makes exec return at once (interpreter.c:445-458). The scripts loaded before it stay in the ready queue, because nothing unloads them.
  - Aging preempts only when the queue head scores strictly less than the running PCB (scheduler.c:272-273), and the running PCB is never aged.

## Findings

| source | as written | input that shows it | evidently intended | confidence | as-written member | corrected member |
|---|---|---|---|---|---|---|
| A1-2024/starter-code/scheduler.c:134-148 | `mem_load_script` uses the start from `allocateMemoryScript` without checking it for -1, and copies the lines and sets the PCB from there | a store with the free list [[0, 3)] and a 5-line script: the PCB's lines start at -1, outside the store | return a negative value, as the `@return` doc comment at scheduler.c:109-110 says for a failure, and load nothing | not executed | Scheduler.LoadAsWrittenStartsOutside | Scheduler.Scheduler.MemLoadScript |
| A1-2024/starter-code/interpreter.c:432-442 | the duplicate-name check compares scripts[0] with scripts[1], and the third name only when there are exactly three | `exec a b c a FCFS`: decoded with four scripts, and the repeated "a" passes the check | reject any batch in which some name repeats, as the comment at interpreter.c:431 says ("script filenames are different"); the pairwise check is `Interpreter.ExecRejectsDuplicates` | not executed | Interpreter.AsWrittenCheckMissesDuplicate | Interpreter.ExecState.Exec |
| A1-2024/starter-code/shell.c:97-111 | `words` has 100 entries and the token loop stores into `words[w]` with no bound on `w` | a line of 101 one-letter words separated by single spaces (201 characters) | stop taking tokens once `words` is full | not executed | Shell.TooManyWords | Shell.ParseInput |
