# ucore process lifecycle, buddy allocator and schedulers in Dafny

This project models four sequential parts of the ucore teaching kernel and
proves what they promise:

- **The process table and lifecycle** of lab 5. It covers:
  - the records as an arena addressed by index, and `proc_list`;
  - the pid index (`hash_proc`, `unhash_proc`, `find_proc`) and `nr_process`;
  - the family tree, a doubly linked sibling chain per parent with the youngest child first;
  - the pid allocator `get_pid`, with its cached window `last_pid` / `next_safe`;
  - `alloc_proc`, `set_links`, `remove_links`, `do_fork` (with its ordered rollback), `do_exit` (zombie, wake-ups, re-parenting to init), one pass of `do_wait`, `do_kill`, `do_yield`, `proc_run`'s bookkeeping, and the `proc_init` bootstrap of idle (pid 0) and init (pid 1).

  The kernel's globals are the fields of class `Process.Kernel`, whose methods
  follow the C step by step. Module `ProcTable` states on values what each
  operation does (`ForkOutcome`, `ExitOutcome`, `WaitOutcome`, `KillOutcome`).
  It also states the invariant the operations keep (`CoreOf`, `InitOk`) and
  proves every step against it. Module `Family` proves the pointer surgery of
  `set_links`, `remove_links` and do_exit's loop against a ghost map from each
  process to its children, youngest first. Module `PidAlloc` proves get_pid's
  rescan.
- **The buddy page allocator** of lab 2 (`buddy_pmm.c`). It covers `buddy_get_order`,
  `buddy_get_buddy_index`, `buddy_init`, `buddy_init_memmap`,
  `buddy_nr_free_pages`, `buddy_alloc_pages` and `split`. Class
  `Buddy.BuddyPmm` holds the free lists and counters as sequences, and the page map as an
  array. Its invariant `AreaOk` says four things:
  - each counter equals its list's length;
  - every listed page heads a free block of that list's order;
  - no page is listed twice;
  - listed blocks do not overlap.
- **The round-robin scheduler** of lab 6 (`default_sched.c`). It is a FIFO run queue of
  process objects with time-slice bookkeeping, and a proof that
  pick / dequeue / enqueue rotates the queue.
- **The stride scheduler** of lab 6 (`default_sched_stride.c`). Strides are 32-bit
  words compared through the signed reading of their difference. `pick_next`
  takes the first least stride and advances it by `BIG_STRIDE / priority`.
  The proof shows that the comparator is right inside a window of `BIG_STRIDE`,
  and that every pick keeps all strides inside such a window.

Modules: `Common` (options, powers of two, 32-bit words, list helpers),
`Buddy`, `RunQueues`, `RoundRobin`, `Stride`, `Family`, `PidAlloc`,
`ProcTable`, `Process`.

Allocation results are boolean inputs of the operations: kmalloc, `alloc_pages` for the kernel stack, `copy_mm` and
`user_mem_check`. Constants the lab headers define outside the files modelled
are parameters of the `Kernel` constructor: `MAX_PID`, `MAX_PROCESS`,
`WT_CHILD`, `WT_INTERRUPTED` and `PF_EXITING`. `MAX_ORDER` is 11 and `BIG_STRIDE` is
0x7FFFFFFF, as in the source.

## Model

| member | source | states |
|---|---|---|
| `Common.Remove` | lab6/kern/schedule/default_sched.c:132-135 | list_del of one element: the multiset loses exactly that element |
| `Common.RemoveDistinct` | lab5/kern/process/proc.c:217 | removing a member of a list without repetition drops exactly it, keeps the list without repetition and shortens it by one |
| `Common.DistinctWithin` | lab5/kern/process/proc.c:237 | a list without repetition inside another is no longer than it (the counting behind get_pid's static_assert) |
| `Buddy.OrderForIsLeast` | lab2/kern/mm/buddy_pmm.c:30-46 | the order of n is the least k with 2^k >= n |
| `Buddy.LeastOrderUnique` | lab2/kern/mm/buddy_pmm.c:30-46 | only one order is the least one holding n pages |
| `Buddy.GetOrder` | lab2/kern/mm/buddy_pmm.c:47-58 | buddy_get_order's doubling loop returns the least order with 2^order >= n |
| `Buddy.BuddyIndex` | lab2/kern/mm/buddy_pmm.c:78-80 | the buddy of a page index is a different index |
| `Buddy.BuddyIndexPairs` | lab2/kern/mm/buddy_pmm.c:60-80 | buddies pair up: applying it twice gives the index back, and buddies differ in bit `order` and in no other bit |
| `Buddy.BuddyIndexExamples` | lab2/kern/mm/buddy_pmm.c:73-76 | the documented pairs 0 and 2, 4 and 6 at order 1 |
| `Buddy.ListedDisjoint` | lab2/kern/mm/buddy_pmm.c:7-18 | two different free-list entries head disjoint blocks |
| `Buddy.AppendBlockOk` | lab2/kern/mm/buddy_pmm.c:160-169 | appending a detached block to free_list(k) and counting it keeps the free area consistent |
| `Buddy.PushBlockOk` | lab2/kern/mm/buddy_pmm.c:337-340 | pushing a detached block at the front of free_list(k) and counting it keeps the free area consistent |
| `Buddy.RemoveFirstOk` | lab2/kern/mm/buddy_pmm.c:258-268 | taking the first block off a list leaves it detached and the rest consistent |
| `Buddy.DetachedHalves` | lab2/kern/mm/buddy_pmm.c:333-336 | both halves of a detached block are detached |
| `Buddy.LeftHalfDetached` | lab2/kern/mm/buddy_pmm.c:336-343 | after the right half is listed, the retagged left half is still detached |
| `Buddy.LayoutCovers` | lab2/kern/mm/buddy_pmm.c:146-178 | the greedy blocks of init_memmap add up to exactly n pages |
| `Buddy.LayoutContiguous` | lab2/kern/mm/buddy_pmm.c:146-178 | the blocks follow each other from `base` without overlap, all inside [base, base + n) |
| `Buddy.LayoutOrders` | lab2/kern/mm/buddy_pmm.c:149-178 | orders never rise and never exceed MAX_ORDER - 1, and each lower order receives at most one block |
| `Buddy.LayoutOfThirteen` | lab2/kern/mm/buddy_pmm.c:115-116 | 13 pages become 8 + 4 + 1 |
| `Buddy.FirstNonEmpty` | lab2/kern/mm/buddy_pmm.c:256-273 | the first non-empty list at or above an order: every list in between is empty |
| `Buddy.BuddyPmm.constructor` | lab2/kern/mm/buddy_pmm.c:129-136 | a page map of reserved pages and an empty, consistent free area |
| `Buddy.BuddyPmm.Init` | lab2/kern/mm/buddy_pmm.c:95-103 | buddy_init: every list is empty, every counter is 0, and no page is free |
| `Buddy.BuddyPmm.NrFreePages` | lab2/kern/mm/buddy_pmm.c:199-209 | the sum of nr_free(i) * 2^i |
| `Buddy.BuddyPmm.ClearRegion` | lab2/kern/mm/buddy_pmm.c:134-143 | the reserved pages are cleared, no listed block meets them, and other pages are unchanged |
| `Buddy.BuddyPmm.AppendFreeBlock` | lab2/kern/mm/buddy_pmm.c:157-173 | one block is laid down: its head is flagged with its order and appended to its list, and the free total grows by 2^k |
| `Buddy.BuddyPmm.FillOrder` | lab2/kern/mm/buddy_pmm.c:154-177 | the inner loop takes blocks of one order while they fit, following the greedy layout |
| `Buddy.BuddyPmm.LayOrder` | lab2/kern/mm/buddy_pmm.c:151-179 | one pass of the outer loop lays down the layout's blocks of one order, keeping the area consistent, the rest of the region handed over and untouched, and the total grown by the pages laid so far |
| `Buddy.BuddyPmm.InitMemmap` | lab2/kern/mm/buddy_pmm.c:129-188 | each list gains the heads of the greedy layout's blocks of its order, the free total grows by n, and the area stays consistent |
| `Buddy.BuddyPmm.TakeFirst` | lab2/kern/mm/buddy_pmm.c:258-268 | list_del of the first block, nr_free(k) - 1, PG_property cleared; the block is detached and the total drops by 2^k |
| `Buddy.BuddyPmm.Split` | lab2/kern/mm/buddy_pmm.c:326-348 | the right half at page + 2^(o-1) is pushed onto free_list(o-1) with order o-1, the left half is returned with order o-1, and nothing else changes |
| `Buddy.BuddyPmm.SplitDown` | lab2/kern/mm/buddy_pmm.c:281-284 | splitting down from order c to order k pushes a right half onto each list k .. c-1; in the page map the head gets order k, each right half head + 2^j (k <= j < c) becomes a free head of order j, and no other page changes; the remaining block stays detached, and the total grows by 2^c - 2^k |
| `Buddy.BuddyPmm.SplitOnce` | lab2/kern/mm/buddy_pmm.c:282-284 | one pass of the splitting loop takes it from the block at order c to the block at order c - 1, keeping lists, pages and total as the loop says |
| `Buddy.BuddyPmm.AllocPages` | lab2/kern/mm/buddy_pmm.c:243-290 | NULL with no change exactly when the order is >= MAX_ORDER or every list from it up is empty; otherwise the head of the first non-empty list, split down to the order: the lists and the page map change exactly as the split says, the returned block lies outside every free block and holds no free head or reserved page, and the total drops by exactly 2^order |
| `Buddy.BuddyPmm.FindList` | lab2/kern/mm/buddy_pmm.c:256-271 | the search stops at the first non-empty list at or above the order, or at MAX_ORDER when there is none |
| `Buddy.BuddyPmm.TakeAndSplit` | lab2/kern/mm/buddy_pmm.c:258-284 | taking the first block of list c and splitting it down to the order: the block is detached, lists c-1 down to the order gain one right half each, the page map changes only at the head and the right halves, and the total drops by 2^order |
| `Buddy.SplitPagesStep` | lab2/kern/mm/buddy_pmm.c:326-348 | one more split extends the page-map description from order c down to c - 1: the new right half was untouched until then, and no other page changes |
| `Buddy.AllocatedOf` | lab2/kern/mm/buddy_pmm.c:258-284 | taking the head of list c and splitting it down gives the allocation result: the lists as AllocLists says, the page map changed only at the head and the right halves, and the handed-out block detached from the free area |
| `Buddy.AllocLists` | lab2/kern/mm/buddy_pmm.c:257-284 | the free lists after a successful allocation: list c lost its head, each list between the order and c gained one right half, and the others are unchanged |
| `Buddy.AppendAllHeads` | lab2/kern/mm/buddy_pmm.c:166 | appending blocks in layout order adds to list k exactly the heads of order k |
| `Buddy.FreePagesAfterInit` | lab2/kern/mm/buddy_pmm.c:95-209 | after buddy_init and init_memmap(base, n), buddy_nr_free_pages reports n |
| `RunQueues.Proc.constructor` | lab6/kern/schedule/default_sched.c:66-74 | a process record that is in no queue |
| `RunQueues.RunQueue.constructor` | lab6/kern/schedule/default_sched.c:37-49 | an empty, consistent queue |
| `RunQueues.RefilledInRange` | lab6/kern/schedule/default_sched.c:84-90 | after enqueue the slice is in (0, max], and it is the maximum exactly when it was 0 or above the maximum |
| `RunQueues.SliceAfter` | lab6/kern/schedule/default_sched.c:207-213 | ticks never take a slice below 0 or above its start |
| `RunQueues.SliceRunsOut` | lab6/kern/schedule/default_sched.c:202-229 | a slice of s is exhausted exactly from the s-th tick on |
| `RoundRobin.Init` | lab6/kern/schedule/default_sched.c:37-49 | RR_init: an empty queue and proc_num 0 |
| `RoundRobin.Enqueue` | lab6/kern/schedule/default_sched.c:66-98 | RR_enqueue of an unlinked process: appended at the tail, rq set, proc_num + 1, slice refilled exactly when 0 or above the maximum |
| `RoundRobin.Dequeue` | lab6/kern/schedule/default_sched.c:114-136 | RR_dequeue of a queued process: exactly it leaves, the others keep their order, its link is free again and proc_num - 1 |
| `RoundRobin.PickNext` | lab6/kern/schedule/default_sched.c:155-183 | the head, left in place; null exactly for an empty queue |
| `RoundRobin.ProcTick` | lab6/kern/schedule/default_sched.c:202-229 | the slice is decremented only while positive, and need_resched is set once it is 0 |
| `RoundRobin.Rotate` | lab6/kern/schedule/default_sched.c:114-183 | pick, dequeue and enqueue of the head: the head moves to the tail, stays on this queue with its slice refilled as RR_enqueue does (0 or above the maximum becomes the maximum), its other fields are kept, and no other process changes |
| `RoundRobin.Rotated` | lab6/kern/schedule/default_sched.c:82 | a rotated queue is a permutation of the queue |
| `RoundRobin.RoundsVisitInOrder` | lab6/kern/schedule/default_sched.c:155-183 | after k rounds the queue starts k places on, so heads come out A, B, C, ... |
| `RoundRobin.FullCycle` | lab6/kern/schedule/default_sched.c:155-183 | as many rounds as processes give the queue back |
| `Stride.Sub` | lab6/kern/schedule/default_sched_stride.c:83 | unsigned 32-bit subtraction: the true difference modulo 2^32 |
| `Stride.ToSigned` | lab6/kern/schedule/default_sched_stride.c:83 | the int32_t reading of a word: in range and congruent to it |
| `Stride.Compare` | lab6/kern/schedule/default_sched_stride.c:70-92 | proc_stride_comp_f: 0 exactly for equal strides, -1 exactly when the signed difference is negative, and 1 otherwise |
| `Stride.CompareAcrossWrap` | lab6/kern/schedule/default_sched_stride.c:34-50 | within BIG_STRIDE of a common base the comparator orders strides by their true distance, wrapped or not |
| `Stride.CompareAtHalfCircle` | lab6/kern/schedule/default_sched_stride.c:46-49 | at distance 2^31 each stride comes before the other, which is why BIG_STRIDE stays below 2^31 |
| `Stride.WrapExample` | lab6/kern/schedule/default_sched_stride.c:83-91 | a stride that has wrapped past 2^32 still comes after one just below the wrap |
| `Stride.Pass` | lab6/kern/schedule/default_sched_stride.c:304-313 | the pass is BIG_STRIDE for priority 0 or 1, otherwise the floor of BIG_STRIDE / priority, and never above BIG_STRIDE |
| `Stride.PassDecreasing` | lab6/kern/schedule/default_sched_stride.c:304-313 | a higher priority never gets a longer pass |
| `Stride.Advance` | lab6/kern/schedule/default_sched_stride.c:307-312 | `stride += pass` in uint32_t moves the stride forward by exactly the pass |
| `Stride.PickUpTo` | lab6/kern/schedule/default_sched_stride.c:284-296 | the scan keeps the first position and moves only to a later one that is Less |
| `Stride.PickFirstMinimum` | lab6/kern/schedule/default_sched_stride.c:277-296 | inside a window the scan chooses a least stride, and the first of equal least ones |
| `Stride.PickKeepsWindow` | lab6/kern/schedule/default_sched_stride.c:36-50 | after a pick advances the chosen stride, every stride lies within BIG_STRIDE of the chosen one's old value |
| `Stride.Init` | lab6/kern/schedule/default_sched_stride.c:108-125 | stride_init: an empty pool and proc_num 0 |
| `Stride.Enqueue` | lab6/kern/schedule/default_sched_stride.c:142-183 | the process joins the pool, rq set, proc_num + 1, slice refilled exactly when 0 or above the maximum |
| `Stride.Dequeue` | lab6/kern/schedule/default_sched_stride.c:199-231 | exactly that process leaves the pool, and proc_num - 1 |
| `Stride.Scan` | lab6/kern/schedule/default_sched_stride.c:277-296 | the scanning loop returns the position PickIndex names |
| `Stride.PickNext` | lab6/kern/schedule/default_sched_stride.c:254-316 | null exactly for an empty pool; otherwise the scan's choice stays in the pool with its stride advanced by its pass, and no other field changes |
| `Stride.ProcTick` | lab6/kern/schedule/default_sched_stride.c:336-352 | the same countdown and need_resched rule as RR_proc_tick |
| `Family.Head` | lab5/kern/process/proc.c:42-46 | cptr as the head of a chain: null exactly for an empty chain |
| `Family.ChainAt` | lab5/kern/process/proc.c:42-46 | a chain element has the parent, its predecessor as yptr and its successor as optr |
| `Family.LinkIn` | lab5/kern/process/proc.c:204-209 | set_links' pointer writes touch no record outside the arena |
| `Family.LinkInOk` | lab5/kern/process/proc.c:200-211 | set_links makes p the parent's first child, in front of the children already there, and keeps the tree consistent |
| `Family.LinkOut` | lab5/kern/process/proc.c:218-229 | remove_links' pointer writes touch no record outside the arena |
| `Family.LinkOutOk` | lab5/kern/process/proc.c:214-231 | remove_links splices a childless p out of its parent's chain, promoting optr to cptr when p was first, and keeps the tree consistent |
| `Family.LinkInParents` | lab5/kern/process/proc.c:200-211 | set_links changes no parent pointer |
| `Family.LinkOutParents` | lab5/kern/process/proc.c:214-231 | remove_links changes no parent pointer |
| `Family.LinkInOutUndo` | lab5/kern/process/proc.c:200-231 | remove_links after set_links gives every other record its links back |
| `Family.MoveChild` | lab5/kern/process/proc.c:709-719 | one iteration of do_exit's loop touches no record outside the arena |
| `Family.MoveChildOk` | lab5/kern/process/proc.c:707-720 | one iteration moves cur's first child to the front of init's chain and keeps the tree consistent, but for a stale yptr |
| `Family.MoveChildParents` | lab5/kern/process/proc.c:718 | only the moved child gets a new parent, init |
| `Family.Reversed` | lab5/kern/process/proc.c:707-720 | init's chain gains the children in reverse order |
| `Family.Reparented` | lab5/kern/process/proc.c:707-729 | the links after n iterations keep the arena's domain |
| `Family.ReparentedOk` | lab5/kern/process/proc.c:707-729 | after n iterations the first n children hang under init in reverse, the tree is consistent but for one stale yptr, and only they have a new parent |
| `Family.ReparentedNext` | lab5/kern/process/proc.c:707-710 | after n iterations cur's cptr is its n-th child, if any |
| `Family.ReparentedMove` | lab5/kern/process/proc.c:707-719 | iteration n + 1 is MoveChild, and cptr moves to the next child |
| `Family.FamilyOutside` | lab5/kern/process/proc.c:564-574 | a record outside the tree may change without touching the tree |
| `PidAlloc.CycleStart` | lab5/kern/process/proc.c:241-245 | ++last_pid, wrapping to 1 at MAX_PID, lies in [1, MAX_PID) |
| `PidAlloc.CandClosedForm` | lab5/kern/process/proc.c:255-264 | within one turn the candidates are s, s + 1, ... up to MAX_PID - 1, then 1, 2, ... |
| `PidAlloc.CandDistinct` | lab5/kern/process/proc.c:255-264 | no candidate comes up twice within one turn |
| `PidAlloc.Pigeonhole` | lab5/kern/process/proc.c:237 | the candidates found in use cannot outnumber the pids in use, so the rescan ends when fewer than MAX_PID - 1 pids are in use |
| `PidAlloc.FirstFreeUnique` | lab5/kern/process/proc.c:234-274 | the first free candidate is unique |
| `PidAlloc.Rescan` | lab5/kern/process/proc.c:248-272 | the rescan returns the first free candidate from the start, in [1, MAX_PID), with no used pid strictly between it and next_safe |
| `ProcTable.Wakeup` | lab5/kern/process/proc.c:507 | wakeup_proc makes a record runnable and changes nothing else, except perhaps wait_state |
| `ProcTable.WakeupTwice` | lab5/kern/process/proc.c:700-727 | waking a record twice is waking it once |
| `ProcTable.PidsOf` | lab5/kern/process/proc.c:252-255 | the pids of the listed processes in list order |
| `ProcTable.PidsOfFrame` | lab5/kern/process/proc.c:252-255 | records that keep their pids keep the pid list |
| `ProcTable.SpareChanged` | lab5/kern/process/proc.c:564-591 | allocating, changing or freeing a record outside the list and tree keeps the table consistent and the pids the same |
| `ProcTable.RecordChanged` | lab5/kern/process/proc.c:695-727 | changing a record but for its pid keeps the table consistent, unless it turns into a zombie while it has children |
| `ProcTable.Spawned` | lab5/kern/process/proc.c:564-575 | alloc_proc's cleared record at a fresh index, with the caller as parent and wait_state 0 |
| `ProcTable.ForkedProc` | lab5/kern/process/proc.c:583-623 | the published child is runnable, has a kernel stack, the pid get_pid gave and wait_state 0 |
| `ProcTable.ForkOutcomeOf` | lab5/kern/process/proc.c:564-636 | alloc_proc followed by the rest of do_fork gives ForkOutcome |
| `ProcTable.ForkKeeps` | lab5/kern/process/proc.c:484-636 | do_fork by a caller that is not a zombie keeps the table and initproc consistent, and current and idle unchanged |
| `ProcTable.Published` | lab5/kern/process/proc.c:600-623 | the child joins the front of proc_list, the count rises by one and it is indexed under its pid |
| `ProcTable.ForkPublished` | lab5/kern/process/proc.c:600-623 | publishing the child under a free pid keeps the table consistent |
| `ProcTable.ForkWindow` | lab5/kern/process/proc.c:240-273 | the pid handed out is last_pid, so the window above it stays free with the child listed |
| `ProcTable.InitWoken` | lab5/kern/process/proc.c:722-727 | the loop's wake-ups touch only init, which is woken or unchanged |
| `ProcTable.WakeInit` | lab5/kern/process/proc.c:722-727 | one iteration's wake-up leaves every record other than init unchanged |
| `ProcTable.InitWokenStep` | lab5/kern/process/proc.c:722-727 | the k-th iteration's check, made against the records as they are by then, extends the wake-ups by one |
| `ProcTable.ExitLoopNext` | lab5/kern/process/proc.c:707-729 | one more iteration of do_exit's loop from where it stands after k |
| `ProcTable.ExitLoopDone` | lab5/kern/process/proc.c:707 | when cur's cptr is null, every child has been moved and the wake-ups are all done |
| `ProcTable.ExitReadyOf` | lab5/kern/process/proc.c:655-662 | a consistent table gives do_exit a caller with a parent, and init is not idle |
| `ProcTable.ExitParent` | lab5/kern/process/proc.c:699-704 | the caller's parent is another process and not a zombie, and neither idle nor init is among the caller's children |
| `ProcTable.ExitProcs` | lab5/kern/process/proc.c:695-727 | the caller becomes a zombie with the code, the parent is woken exactly when it waits for a child, init also when a moved child is a zombie, and no other record changes |
| `ProcTable.ExitRecords` | lab5/kern/process/proc.c:695-727 | only the caller becomes a zombie, init does not, and every pid stays |
| `ProcTable.ExitFamily` | lab5/kern/process/proc.c:707-729 | after do_exit the tree is consistent and only the former children have a new parent, init |
| `ProcTable.MovedAll` | lab5/kern/process/proc.c:707-729 | all iterations together give cur an empty chain and put its children in front of init's, in reverse |
| `ProcTable.ExitKeeps` | lab5/kern/process/proc.c:652-738 | do_exit keeps the table and initproc consistent |
| `ProcTable.ExitDone` | lab5/kern/process/proc.c:652-738 | after do_exit: the caller is a zombie with the code and no child; every former child has init as parent and is in init's chain; parent and init are woken as the source says; no other record changes; proc_list, nr_process and the index are unchanged |
| `ProcTable.FirstZombie` | lab5/kern/process/proc.c:1116-1125 | the first zombie in chain order, none exactly when no child is a zombie |
| `ProcTable.WaitTarget` | lab5/kern/process/proc.c:1099-1126 | the child do_wait reaps is a record whose parent is the caller |
| `ProcTable.WaitReadyOf` | lab5/kern/process/proc.c:1076-1098 | a consistent table has what do_wait reads |
| `ProcTable.TargetIsChild` | lab5/kern/process/proc.c:1152-1157 | the child found is a zombie child of the caller and is neither idle nor init, so the panic branch is never taken |
| `ProcTable.ReapKeeps` | lab5/kern/process/proc.c:1166-1175 | reaping a zombie child keeps the table and initproc consistent |
| `ProcTable.WaitKeeps` | lab5/kern/process/proc.c:1076-1178 | one pass of do_wait keeps the table and initproc consistent and never stops the kernel |
| `ProcTable.WaitNoChild` | lab5/kern/process/proc.c:1129-1150 | -E_BAD_PROC, with no change, exactly when pid 0 finds cptr null or no listed child has the pid |
| `ProcTable.HasKidOf` | lab5/kern/process/proc.c:1092-1126 | haskid in terms of the pointers and the listed processes |
| `ProcTable.ReapDone` | lab5/kern/process/proc.c:1166-1175 | the reaped child leaves the list, the index, the arena and its parent's chain, and the count drops by one; every other listed process keeps its record and parent |
| `ProcTable.UnusedPid` | lab5/kern/process/proc.c:311-341 | a pid no listed process holds is not in the index |
| `ProcTable.ForkReapUndo` | lab5/kern/process/proc.c:200-231 | reaping the child a successful do_fork published gives the table back, but for the spent index and the window |
| `ProcTable.PublishReapUndo` | lab5/kern/process/proc.c:200-231 | publishing a fresh record and reaping it again gives the table back |
| `ProcTable.ChildrenUndo` | lab5/kern/process/proc.c:200-231 | adding a youngest child and removing it gives the chains back |
| `ProcTable.LinksUndo` | lab5/kern/process/proc.c:200-231 | remove_links undoes set_links on the pointers |
| `ProcTable.OnlyInit` | lab5/kern/process/proc.c:1273-1276 | once init is the only listed process it has no children and no siblings, and nr_process is 2 |
| `ProcTable.Killing` | lab5/kern/process/proc.c:1188-1192 | flags gain PF_EXITING and nothing else; the target is woken (RUNNABLE, wait_state cleared when wakeup_proc clears it) exactly when its wait_state has WT_INTERRUPTED; every other field is kept |
| `ProcTable.KillKeeps` | lab5/kern/process/proc.c:1181-1198 | do_kill keeps the table and initproc consistent |
| `ProcTable.KillFound` | lab5/kern/process/proc.c:1184-1197 | -E_INVAL exactly when no listed process holds the pid |
| `ProcTable.KillTwice` | lab5/kern/process/proc.c:1186-1195 | a second do_kill of a pid gives -E_KILLED and changes nothing |
| `ProcTable.RunKeeps` | lab5/kern/process/proc.c:278-299 | making idle or a listed process current keeps the table consistent |
| `ProcTable.BootOk` | lab5/kern/process/proc.c:1284-1306 | the table with idle alone is consistent |
| `ProcTable.BootForkFailed` | lab5/kern/process/proc.c:1308-1312 | a failed allocation makes do_fork return -E_NO_MEM at boot and leaves the boot table as it was but for the spent arena index |
| `ProcTable.BootForked` | lab5/kern/process/proc.c:1308-1314 | forking from the boot table gives pid 1 to record 1, idle's only child |
| `ProcTable.InitNamed` | lab5/kern/process/proc.c:1314-1318 | naming record 1 "init" leaves a consistent table in which it is initproc |
| `ProcTable.FirstFreeOfNone` | lab5/kern/process/proc.c:1318 | with no pid in use and last_pid at MAX_PID, the first pid is 1 |
| `Process.Kernel.constructor` | lab5/kern/process/proc.c:1284-1306 | idle gets pid 0, is runnable with the boot stack and need_resched, counts as a process, and is current |
| `Process.Kernel.ForkInit` | lab5/kern/process/proc.c:1308-1319 | kernel_thread fails, and proc_init panics with nothing published, exactly when one of do_fork's allocations fails; otherwise init has pid 1, is runnable, named "init" and indexed under pid 1, it is idle's only child and the only listed process, and nr_process is 2 |
| `Process.Kernel.NameInit` | lab5/kern/process/proc.c:1314-1319 | after a successful fork from the boot table, find_proc(pid) is record 1 with pid 1, which is named "init" and is initproc of a consistent table |
| `Process.Kernel.FindProc` | lab5/kern/process/proc.c:325-341 | some result exactly when a listed process holds the pid; it holds that pid and is never idle |
| `Process.Kernel.HashProc` | lab5/kern/process/proc.c:311-315 | the record is indexed under its pid |
| `Process.Kernel.UnhashProc` | lab5/kern/process/proc.c:318-322 | the record's pid leaves the index |
| `Process.Kernel.GetPid` | lab5/kern/process/proc.c:234-274 | a pid in [1, MAX_PID) that no listed process holds, the first free one after last_pid, with the window above it free |
| `Process.Kernel.AllocProc` | lab5/kern/process/proc.c:86-180 | nothing when kmalloc fails; otherwise a fresh cleared record with null links at a new index |
| `Process.Kernel.SetupKstack` | lab5/kern/process/proc.c:358-368 | the record gets a kernel stack exactly when the allocation succeeds |
| `Process.Kernel.PutKstack` | lab5/kern/process/proc.c:371-375 | the kernel stack is released |
| `Process.Kernel.Kfree` | lab5/kern/process/proc.c:634 | the record leaves the arena |
| `Process.Kernel.Unwind` | lab5/kern/process/proc.c:631-635 | the rollback releases the stack, if any, and then the record |
| `Process.Kernel.SetLinks` | lab5/kern/process/proc.c:200-211 | p joins the front of proc_list, becomes its parent's first child and is counted |
| `Process.Kernel.Fork` | lab5/kern/process/proc.c:484-636 | do_fork does what ForkOutcome says: -E_NO_FREE_PROC at MAX_PROCESS and -E_NO_MEM on kmalloc failure, both without change; a panic on nonzero wait_state; -E_NO_MEM with the record released on stack or mm failure; otherwise the first free pid with the child runnable, indexed and linked; the table stays consistent |
| `Process.Kernel.ForkSteps` | lab5/kern/process/proc.c:486-636 | the steps of do_fork in source order give ForkOutcome |
| `Process.Kernel.ForkChild` | lab5/kern/process/proc.c:574-626 | from the parent link on: the wait_state assertion, the rollbacks and the publication |
| `Process.Kernel.ForkSetup` | lab5/kern/process/proc.c:583-626 | setup_kstack and copy_mm with their rollback in reverse order, then the publication |
| `Process.Kernel.Publish` | lab5/kern/process/proc.c:600-626 | get_pid, hash_proc, set_links and wakeup_proc: the child is published under the first free pid |
| `Process.Kernel.Exit` | lab5/kern/process/proc.c:652-738 | do_exit panics for idle and init; otherwise it leaves the table Exited, consistent, with init unchanged |
| `Process.Kernel.ExitLive` | lab5/kern/process/proc.c:664-731 | do_exit for a process that is neither idle nor init leaves the table Exited and consistent |
| `Process.Kernel.ExitSteps` | lab5/kern/process/proc.c:695-729 | the records become ExitedProcs, and every child moves to the front of init's chain |
| `Process.Kernel.ZombieSteps` | lab5/kern/process/proc.c:695-704 | the caller is a zombie with the code, and its parent is woken exactly when it waits for a child |
| `Process.Kernel.ReparentChildren` | lab5/kern/process/proc.c:707-729 | the loop moves every child to init and wakes init as InitWoken says |
| `Process.Kernel.NextIteration` | lab5/kern/process/proc.c:708-728 | one pass of the loop body, moving cur's first child to init, takes the loop from where it stands after k children to where it stands after k + 1 |
| `Process.Kernel.MoveOne` | lab5/kern/process/proc.c:709-727 | one iteration: MoveChild and the wake-up of init |
| `Process.Kernel.MoveFirstChild` | lab5/kern/process/proc.c:709-719 | the pointer writes of one iteration, in source order |
| `Process.Kernel.Wait` | lab5/kern/process/proc.c:1076-1178 | one pass of do_wait does what WaitOutcome says and keeps the table consistent: -E_INVAL for a rejected code_store; a zombie child reaped with 0 and its exit code; sleep with WT_CHILD when a matching child lives; otherwise -E_BAD_PROC |
| `Process.Kernel.WaitSteps` | lab5/kern/process/proc.c:1078-1177 | the code_store check, the search, then the reap, the sleep or -E_BAD_PROC |
| `Process.Kernel.SearchChild` | lab5/kern/process/proc.c:1092-1126 | the zombie child to reap, if any, and haskid |
| `Process.Kernel.ScanChildren` | lab5/kern/process/proc.c:1116-1125 | the walk along optr finds the first zombie in the caller's chain, and haskid is whether the chain is not empty |
| `Process.Kernel.Reaping` | lab5/kern/process/proc.c:1166-1175 | reaping the child leaves the table as Reap says |
| `Process.Kernel.ReapChild` | lab5/kern/process/proc.c:1166-1175 | unhash_proc, remove_links, put_kstack and kfree: the child leaves the index, the list, its parent's chain and the arena, and is no longer counted |
| `Process.Kernel.RemoveLinks` | lab5/kern/process/proc.c:214-231 | p leaves proc_list and its parent's chain, and is no longer counted |
| `Process.Kernel.Unlink` | lab5/kern/process/proc.c:1168-1169 | unhash_proc then remove_links: p's pid leaves the index, p leaves proc_list and its parent's chain, is no longer counted, and its record stays in the arena |
| `Process.Kernel.Kill` | lab5/kern/process/proc.c:1181-1198 | do_kill does what KillOutcome says and keeps the table consistent |
| `Process.Kernel.KillSteps` | lab5/kern/process/proc.c:1183-1197 | -E_INVAL when find_proc fails and -E_KILLED when PF_EXITING is already set, both without change; otherwise the target becomes Killing of it and 0 is returned |
| `Process.Kernel.Yield` | lab5/kern/process/proc.c:1056-1060 | need_resched is set on the caller, 0 is returned, and nothing else changes |
| `Process.Kernel.ProcRun` | lab5/kern/process/proc.c:278-299 | the process becomes current; nothing else changes and the table stays consistent |

## Left out

- Context switching: `switch_to`, `forkret`, `copy_thread`, the trapframe set up by `kernel_thread`, and `lsatp`. `ProcRun` only makes the process current.
- Address spaces: `copy_mm`, `setup_pgdir`, `exit_mmap` and the mm reference count in do_exit. copy_mm is a success flag. do_exit's release of the mm is not modelled.
- ELF loading (`load_icode`, `do_execve`, `kernel_execve`, `user_main`) is page-table and copy work over binaries.
- `schedule()` and the interrupt-disable sections. Each protected block is one atomic step, and there are no interleavings.
- `wakeup_proc` lives in sched.c, which is not part of this model. It makes the record runnable. Whether it also clears wait_state is the constructor parameter `wakeupClears`, and every property holds either way.
- `Process.Kernel.Wait`: one pass of do_wait. The `goto repeat` after `schedule()`, and the `do_exit(-E_KILLED)` when PF_EXITING is set on wake-up, are not modelled. The exit code is returned in the result instead of being stored through `code_store`.
- `Process.Kernel.Exit`: the final `schedule()` and the panic after it are not modelled. The operation ends when the critical section ends.
- `Process.Kernel.constructor`: alloc_proc for idle always succeeds. The "cannot alloc idleproc" panic of proc_init is not modelled, because the kernel stops there and there is no later state to describe. The "create init_main failed" panic is modelled: `ForkInit` returns `booted` false.
- `Process.Kernel.Fork`: `clone_flags`, the stack and the trapframe only feed copy_mm and copy_thread, so they are not parameters. An index used by a failed fork is not reused.
- The pid index is a map from pid to record. The hash function and bucket lists of `hash_list` (from `hash32`) are not modelled.
- Error codes are named (`NoFreeProc`, `NoMem`, `Inval`, `BadProc`, `Killed`). Their numbers are in error.h, which is not part of this model.
- `ProcTable.OnlyInit` takes as a premise that init is the only listed process. It does not prove that `init_main`'s wait loop reaches that state, since that depends on the user processes.
- `set_proc_name`/`get_proc_name` are modelled only as the name set on idle and init.
- `buddy_free_pages` and `buddy_check` are unimplemented stubs in the source, so no merge algorithm is modelled. All `cprintf` output is left out.
- `Buddy.TotalFree` and `Buddy.BuddyPmm.NrFreePages`: the counters and the sum are unbounded. In the source, `nr_free(i)` is an `unsigned int` and `nr_free(i) * (1 << i)` is 32-bit arithmetic before it is added to a `size_t`. The difference only shows above 2^32 free pages, which no real memory reaches.
- `Buddy.GetOrder`: requires n <= 2^63. Above that, the 64-bit `size <<= 1` of buddy_get_order overflows to 0 and the loop never ends.
- `Buddy.BuddyIndex`: requires order < 31, because `1 << order` is an `int` shift in the source.
- `Stride.PickNext`: models the list variant of stride_pick_next (the scan along `run_list`). The compiled skew-heap variant depends on `skew_heap.h`, which is not part of this model. Its pool is the run list, so the minimum is the first least stride in list order, where the heap could return any of several tied minima.
- `Stride.Enqueue`, `Stride.Dequeue`: the pool is the run list, as in the list variant. The heap's insert and remove are not modelled.
- Scheduling classes are called directly. `sched_class` tables and `sched.c` are not part of this model.
