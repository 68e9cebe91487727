# RustyCore kernel: a verified model

RustyCore is a small x86-64 kernel written in Rust. This project models the four parts of it that carry
state across many operations, and proves what they promise over every input, every run and every
interleaving. `dafny verify dfyconfig.toml` checks all of it.

**Physical frames** (`dyadic.dfy`, `freelists.dfy`, `bootmap.dfy`, `carve.dfy`, `buddyruns.dfy`,
`allocators.dfy`, `memoryinit.dfy`). The allocator starts as a cursor over the firmware map; `activate`
carves the rest into thirteen lists of aligned power-of-two blocks, which are split on allocation and merged
with the XOR buddy on free. The specification is a set of frame numbers. The theory in `Dyadic` shows that a
fully merged set of blocks is a canonical form of the frames it covers. From it follow: every run refines the
plain set, the count is conserved from boot on, splitting finds every aligned run there is, and the free
lists depend only on which frames are out, whatever the history. The promise that "fragmentation heals" holds
exactly when no aligned run of frames is left straddling two regions of the map: `BuddyRuns.BootHealsIff` proves
both directions and `BuddyRuns.TouchingDoesNotHeal` gives a two-region map on which it fails.

**Schedulers** (`sched.dfy`, `roundrobin.dfy`, `cfs.dfy`, `starvation.dfy`, `refinement.dfy`, `driver.dfy`). Round robin and the
completely fair scheduler (CFS) are two policies over one queue; a task's step is an oracle saying whether it
stays alive, and the tick counter is any nondecreasing clock, which may advance in the middle of a pass.
Proved over whole runs: bounded waiting and lag of at most one for round robin; for CFS, fairness between any two
awake tasks from any state, in vruntime, in runs and in weights; CFS with equal weights being round robin; and
completion of the driver loop exactly when the budgets fit its guard. That CFS never starves an awake task is
false: a task of weight above 102400 accrues nothing per run. The wait of an awake task is bounded if and only if
no history that leaves it waiting leads to such a task awake below it (`Starvation.StarvationIff`). Where no heavy task
below it is asleep, that is if and only if every task below it weighs at most 102400
(`Starvation.NeverStarvesIffLight`); heavy tasks level with it or above do no harm. A heavy sleeper is raised on
its first run to the least vruntime queued, so it blocks the waiting task if and only if another task is still below
that one then (`Starvation.HeavySleeperLands`); `Starvation.NeverStarvesIffHarmless` turns that into a condition on
the queue.

**Preemption protocol** (`preempt.dfy`, `protocol.dfy`). Driver, trampoline and timer interrupt form one
state machine whose steps are single stores and flag changes, with the interrupt enabled wherever IF is set.
An inductive invariant over all interleavings gives fence safety, slot identity and the scheduler's two
post-switch assertions.

**Assembly** (`machine.dfy`, `contextswitch.dfy`, `stub.dfy`, `interrupts.dfy`). A word-memory machine runs the
instructions of `context_switch` and of the timer stub. Any number of coroutines may compute and switch in any
order and still find their frames, from boot on; the stub is transparent under both hardware-frame models; interrupts
between any instructions of any code, stack switches included, are invisible to it; and the stub, executed
instruction by instruction, does to memory exactly what the protocol's timer event does to its state.

`common.dfy` holds the option type and the 64-bit limit they share.

## Where the code and its documentation disagree

The model follows the code.

- `docs/preemption.md:10-15` lists rflags at +0x78 and rip at +0x88; the stub reads rip at +0x78 and rflags
  at +0x88 (`kernel/src/preempt.rs:465-467`).
- The comment on `init_task_context` (`kernel/src/task.rs:156-166`) says the first `ret` leaves rsp at
  `saved + 64`; the code's own assertion, and six pops and a `ret`, give `saved + 56`, which is `top - 8`
  (`ContextSwitch.FirstSwitchEnters`).
- `slot_bounds` is documented as `None` for a free slot (`kernel/src/preempt.rs:311`); releasing a slot leaves
  its window behind. It is `None` exactly until the slot first has an owner (`Protocol.NoBoundsIffNeverOwned`,
  `Protocol.FreeSlotWithBounds`).
- Registration is documented to run with IF=0 (`kernel/src/preempt.rs:274-276`), but `main` spawns with interrupts on.
  The model lets the timer fire between any two of its stores.
- The stub assumes the CPU pushes three words at ring 0 (`kernel/src/preempt.rs:13-16`). Section 6.14.2 of the
  Intel SDM, volume 3A, has SS:RSP pushed unconditionally in 64-bit mode after aligning the stack to 16
  bytes. Both are modelled: the interrupted code resumes exactly under either, and the recorded rsp is the interrupted one
  only under the first (`Preempt.SavedRspExact`).
- The CFS comment says a woken task is clamped to at most the current minimum (`kernel/src/task.rs:938-940`); the
  code raises it to at least the minimum.
- The module comment promises that fragmentation heals (`kernel/src/memory/buddy.rs:5-6`); see `BuddyRuns.BootHealsIff`
  for when it does.
- The comment on `activate` says regions at or below the cursor are skipped wholesale
  (`kernel/src/memory/buddy.rs:81-83`); the cursor's own region is carved from the cursor on.

## Model

| member | source | states |
|---|---|---|
| `Dyadic.Laminar` | kernel/src/memory/buddy.rs:3-6 | Two blocks that share a frame are nested, the smaller inside the larger. |
| `Dyadic.OverlapParent` | kernel/src/memory/buddy.rs:220-225 | Whatever overlaps a merged block overlapped one of the two buddies. |
| `Dyadic.ParkHigh` | kernel/src/memory/buddy.rs:182-187 | Parking the high half of a removed block keeps the set disjoint and fully merged and leaves the low half clear. |
| `Dyadic.MergeUp` | kernel/src/memory/buddy.rs:220-225 | Absorbing a listed buddy covers the same frames with the parent block clear of everything listed. |
| `Dyadic.CoalescedAbsorbs` | kernel/src/memory/buddy.rs:5-6 | In a fully merged set, an aligned run wholly covered lies inside a single block. |
| `Dyadic.Canonical` | kernel/src/memory/buddy.rs:5-6 | Two fully merged disjoint block sets that cover the same frames are equal. |
| `FreeLists.FlipFindsBuddy` | kernel/src/memory/buddy.rs:221-224 | Flipping bit order+12 of a block's address gives its buddy's address, and the smaller of the two is the parent's. |
| `FreeLists.FlipBitIsXor` | kernel/src/memory/buddy.rs:221-221 | The arithmetic flip changes exactly the one bit that XOR with a power of two changes. |
| `FreeLists.SwapRemoveContents` | kernel/src/memory/buddy.rs:222-223 | `swap_remove` takes out exactly the found address and keeps the list duplicate-free. |
| `FreeLists.TakeSpec` | kernel/src/memory/buddy.rs:175-188 | Taking a block of order n either removes exactly the frames of one aligned block, keeping lists aligned, disjoint, merged and off the zero page, or fails with the lists untouched because no block of order n or more is listed. |
| `FreeLists.TakeSplitsDown` | kernel/src/memory/buddy.rs:175-188 | Taking in closed form: the last block of the smallest order that has one leaves, its low end is the answer, and every order on the way down holds the one high half split off, 4096 * 2^i bytes up. |
| `FreeLists.TakeComplete` | kernel/src/memory/buddy.rs:175-188 | In a fully merged state, taking order n succeeds exactly when n is at most 12 and some aligned run of 2^n frames is wholly free; a refusal changes nothing. |
| `FreeLists.TakeFrame` | kernel/src/memory/buddy.rs:192-202 | Taking a frame removes exactly one member of the free set, and fails only when the set is empty. |
| `FreeLists.MergeSpec` | kernel/src/memory/buddy.rs:214-230 | The merge loop adds exactly the freed block's frames and keeps the lists aligned, disjoint, duplicate-free, off the zero page and, if they were, fully merged. |
| `FreeLists.MergeFrame` | kernel/src/memory/buddy.rs:206-232 | Freeing a frame adds exactly that member to the free set. |
| `FreeLists.MergeTwice` | kernel/src/memory/buddy.rs:214-230 | Freeing a block that a listed block already covers leaves lists that are no longer sound, however far it merges. |
| `FreeLists.MergeReturns` | kernel/src/memory/buddy.rs:206-232 | Returning a frame keeps sound lists sound if and only if the frame was not free; then exactly that frame joins the free set and merged lists stay merged. |
| `FreeLists.LastFreedFirstOut` | kernel/src/memory/buddy.rs:179-230 | A frame freed without a merge is the next one handed out, and the lists are then as before. |
| `FreeLists.CountIsFree` | kernel/src/memory/buddy.rs:161-167 | The weighted list lengths add up to the number of free frames. |
| `BootMap.BumpSpec` | kernel/src/memory/buddy.rs:130-156 | The cursor hands out the first of the remaining whole usable frames and leaves the rest, or reports that none is left. |
| `BootMap.RemainingMembers` | kernel/src/memory/buddy.rs:131-155 | The remaining sequence holds exactly the whole usable frames at or past the cursor, from 0x1000 on. |
| `BootMap.RemainingInBytes` | kernel/src/memory/buddy.rs:131-155 | In bytes: a frame f remains if and only if some usable region at or past the cursor has start <= 4096 f and 4096 (f + 1) <= end, f being past the zero page and, in the cursor's region, at or past the cursor. |
| `BootMap.RemainingDistinct` | kernel/src/memory/buddy.rs:131-155 | With disjoint usable regions no frame is handed out twice, and the zero page never is. |
| `BootMap.BumpRunSpec` | kernel/src/memory/buddy.rs:130-156 | Any number of bump allocations hands out a prefix of the remaining frames, in map order. |
| `Carve.PickMaximal` | kernel/src/memory/buddy.rs:105-117 | The order chosen is the largest whose block is aligned at the address and fits. |
| `Carve.CarveSpec` | kernel/src/memory/buddy.rs:103-120 | Carving a span lists exactly its whole frames, in blocks that could not have been larger. |
| `Carve.ActivateSpec` | kernel/src/memory/buddy.rs:86-126 | After any bump prefix, `activate` lists exactly the frames not yet handed out, each once, every block inside one region. |
| `Carve.ActivateCoalescedIff` | kernel/src/memory/buddy.rs:86-126 | The carved lists are fully merged if and only if no aligned run left over straddles two regions. |
| `Carve.NotTouchingNoStraddle` | kernel/src/memory/buddy.rs:88-121 | If no two usable regions touch after rounding, no run straddles. |
| `BuddyRuns.StepRefines` | kernel/src/memory/buddy.rs:175-232 | One allocate or free of an owned frame is one step of the plain set, keeps the partition into free and owned, and keeps the lists merged. |
| `BuddyRuns.RunRefines` | kernel/src/memory/buddy.rs:175-232 | So does every run. |
| `BuddyRuns.Conservation` | kernel/src/memory/buddy.rs:161-232 | `free_frames` plus `allocated` is the same in every reachable state. |
| `BuddyRuns.HistoryIndependent` | kernel/src/memory/buddy.rs:175-232 | Two runs from one merged state that end owning the same frames end with the same blocks listed. |
| `BuddyRuns.HealsIff` | kernel/src/memory/buddy.rs:5-6 | Every run that gives back what it took restores the block sets it started from, if and only if the start was fully merged. |
| `BuddyRuns.BootHealsIff` | kernel/src/memory/buddy.rs:86-232 | After boot this holds if and only if no aligned run left over straddles two regions; so it holds when no usable regions touch. |
| `BuddyRuns.BootConservation` | kernel/src/memory/buddy.rs:86-232 | After any bump prefix, `activate` and any run, free plus allocated is the number of usable frames. |
| `BuddyRuns.TouchingDoesNotHeal` | kernel/src/memory/buddy.rs:88-121 | Two touching one-frame regions: healing fails, and an order-1 request is refused with an aligned pair free. |
| `Allocators.BuddyFrameAllocator.constructor` | kernel/src/memory/buddy.rs:66-75 | Starts in bump mode at the first region with nothing handed out. |
| `Allocators.BuddyFrameAllocator.Activate` | kernel/src/memory/buddy.rs:86-126 | Builds exactly the carved lists, keeps the set of available frames, and retires the cursor. |
| `Allocators.BuddyFrameAllocator.CarveLoop` | kernel/src/memory/buddy.rs:104-120 | The two nested loops compute the carve of the span. |
| `Allocators.BuddyFrameAllocator.BumpOne` | kernel/src/memory/buddy.rs:130-156 | The loop computes the next bump step, overflow branches included. |
| `Allocators.BuddyFrameAllocator.FreeFrames` | kernel/src/memory/buddy.rs:161-167 | The loop counts the free frames. |
| `Allocators.BuddyFrameAllocator.TakeBlock` | kernel/src/memory/buddy.rs:175-188 | The in-place recursion computes the take of the specification. |
| `Allocators.BuddyFrameAllocator.AllocateFrame` | kernel/src/memory/buddy.rs:192-202 | In either mode exactly one available frame leaves, or none was available; the ledger follows and merged lists stay merged. |
| `Allocators.BuddyFrameAllocator.DeallocateFrame` | kernel/src/memory/buddy.rs:206-232 | For every frame the assertions admit: the merge of the specification, sound lists staying sound exactly when the frame was not free already, and a ledger that saturates at zero. |
| `Allocators.BuddyFrameAllocator.MergeBlock` | kernel/src/memory/buddy.rs:214-230 | The merge loop computes the merge of the specification. |
| `Allocators.BootFrameAllocator.constructor` | kernel/src/memory/bump.rs:30-36 | Starts at the first region. |
| `Allocators.BootFrameAllocator.Advance` | kernel/src/memory/bump.rs:38-41 | Moves to the start of the next region. |
| `Allocators.BootFrameAllocator.AllocateFrame` | kernel/src/memory/bump.rs:45-69 | Yields the same frame and cursor as the buddy allocator's bump mode, from every cursor. |
| `Allocators.TakeLeaves` | kernel/src/memory/buddy.rs:192-202 | Active mode hands out a member of the free set, aligned and off the zero page. |
| `Allocators.BumpLeaves` | kernel/src/memory/buddy.rs:130-156 | Bump mode hands out a member of the remaining set and only it. |
| `MemoryInit.Draw` | kernel/src/memory.rs:305-307 | A bring-up draw takes the next remaining frame, or none remains. |
| `MemoryInit.MapTo` | kernel/src/memory.rs:312-321 | Adds the one entry or none at all, each of the three failures exactly in its own case; page-table frames come from the cursor in order. |
| `MemoryInit.MapPage` | kernel/src/memory.rs:304-322 | Maps the page to the first frame drawn for it; how many frames were drawn tells each failure from the others. |
| `MemoryInit.MapPages` | kernel/src/memory.rs:304-323 | The loop maps every page to its own distinct frame and changes no other entry. |
| `MemoryInit.MappedIsBacked` | kernel/src/memory.rs:302-304 | Mapping the pages from that of the first byte to that of the last backs exactly the bytes asked for. |
| `MemoryInit.MapHeap` | kernel/src/memory.rs:288-324 | On success every byte of the range lies in a mapped page, the pages added are exactly those that hold one, on pairwise distinct frames, and no other entry changed; otherwise some page of the range stopped it, those before it mapped, for the reason the frames drawn so far show. |
| `MemoryInit.SelfTestReclaim` | kernel/src/memory.rs:169-194 | Both assertions hold; the test fails only with no frame free, and leaves the free set, the ledger and mergedness as they were. |
| `MemoryInit.ReclaimRestores` | kernel/src/memory.rs:169-194 | For merged lists that means the same blocks. |
| `MemoryInit.Init` | kernel/src/memory.rs:97-139 | After heap, `activate` and self-test, on any page table the bootloader left: every heap byte is backed, drawn and free frames partition the usable frames, some frame is free, and no heap page's frame is in a free list; running out of frames means every usable frame was drawn. |
| `Sched.PickMinSpec` | kernel/src/task.rs:964-980 | The scan finds the first task of least vruntime among those not sleeping past the reading, or that all are. |
| `Sched.PassRunsAwake` | kernel/src/task.rs:857-863 | Whoever a pass runs does not sleep past the tick read for it; a pass runs nobody only if everybody does; round robin passes over sleepers only. |
| `Sched.SleeperSleeps` | kernel/src/task.rs:857-862 | Through every history whose readings stay before its tick, a sleeper is queued exactly as it was, not having run. |
| `Sched.SpawnedSleeps` | kernel/src/task.rs:684-735 | So is one just spawned, every field as given. |
| `Sched.SleeperWakes` | kernel/src/task.rs:857-863 | A pass that reads its tick or later runs somebody: nobody behind it under round robin, nobody above it under CFS. |
| `Sched.MinVruntime` | kernel/src/task.rs:985-987 | The least vruntime of the queue, sleepers included, 0 when it is empty. |
| `Sched.PassConserves` | kernel/src/task.rs:846-911 | A pass keeps the ids of queued and finished tasks, and adds one run exactly when it returns true. |
| `Sched.RunKeepsIds` | kernel/src/task.rs:834-926 | Over every run, ids are those at the start plus those spawned. |
| `Sched.RunCountsRuns` | kernel/src/task.rs:834-926 | Over every run, ledger runs grow by exactly the number of true returns. |
| `RoundRobin.RoundRobinScheduler.Spawn` | kernel/src/task.rs:817-826 | Appends the task as given. |
| `RoundRobin.RoundRobinScheduler.NextId` | kernel/src/task.rs:828-832 | Ids count up from 1. |
| `RoundRobin.RoundRobinScheduler.ScheduleOnce` | kernel/src/task.rs:834-911 | The rotating loop performs the round-robin pass and says whether someone ran. |
| `RoundRobin.PassAwake` | kernel/src/task.rs:846-907 | A pass that runs someone moves the sleeping prefix to the back in order and runs the next task once. |
| `RoundRobin.PassNobody` | kernel/src/task.rs:850-910 | A pass that runs nobody leaves the queue in its original order. |
| `RoundRobin.BoundedWaiting` | kernel/src/task.rs:834-911 | An awake task at position p is not passed over by more than p successful schedules, whatever is spawned and however the clock moves. |
| `RoundRobin.LagAtMostOne` | kernel/src/task.rs:834-911 | Two tasks spawned ready before either ran never differ by more than one run while both are queued. |
| `Cfs.CfsScheduler.Spawn` | kernel/src/task.rs:999-1011 | Appends a task of positive weight as given. |
| `Cfs.CfsScheduler.PickMinIndex` | kernel/src/task.rs:964-980 | The loop finds the first awake task of least vruntime. |
| `Cfs.CfsScheduler.MinQueued` | kernel/src/task.rs:985-987 | The fold finds the queue's least vruntime. |
| `Cfs.CfsScheduler.Wake` | kernel/src/task.rs:1029-1035 | Raises a woken sleeper to the least vruntime still queued, and only then. |
| `Cfs.CfsScheduler.ScheduleOnce` | kernel/src/task.rs:1019-1083 | Pick, removal, sleeper clamp, run, saturating accrual and requeue perform the CFS pass. |
| `Cfs.PassRunsLeast` | kernel/src/task.rs:1019-1083 | A CFS pass by its shape: the first task of least vruntime not sleeping past the reading runs once, the others keep their order, and it goes to the back or to the ledger, charged 102400 / max(1, weight), saturating, a sleeper from the least vruntime queued if it was below. |
| `Cfs.VruntimeCountsRuns` | kernel/src/task.rs:1055-1062 | In every reachable state a task queued ready before it ran has a vruntime of its runs times 102400 / weight, saturated. |
| `Cfs.FairFromAnyState` | kernel/src/task.rs:964-1083 | From any state with two tasks awake, in every later state with both queued: v_i <= max(v_i then, v_j) + s_i, whatever else wakes, spawns or finishes; so for woken sleepers and late arrivals too. |
| `Cfs.WeightedFairness` | kernel/src/task.rs:964-1083 | Two tasks spawned ready before either ran: in every reachable state neither is more than one of its own slices ahead, (runs_i - 1) * s_i <= runs_j * s_j below saturation, whatever else wakes, spawns or finishes. |
| `Cfs.ShareByWeight` | kernel/src/task.rs:935-937 | The same in every reachable state in terms of the weights: (runs_i - 1) * (102400 - w_i + 1) * w_j <= runs_j * 102400 * w_i, so runs are proportional to weight up to one run and one rounding. |
| `Cfs.WokenYields` | kernel/src/task.rs:1026-1035 | After its first run a woken sleeper stands strictly above the queue's minimum and is not picked again while a task at that minimum is awake. |
| `Starvation.PassLowersDeficit` | kernel/src/task.rs:1026-1062 | A pass that runs another task, and neither finds nor leaves a heavy awake task below, strictly lowers the awake task's deficit: the sum of max(0, v_i - v_j) plus the level tasks ahead. Clamp and saturation are included. |
| `Starvation.WaitBounded` | kernel/src/task.rs:964-1083 | Over every history without such a task, spawns and heavy sleepers included, it is passed over at most as often as its deficit and the newcomers' claims, max(0, v_i - v) each, allow. |
| `Starvation.NoStarvation` | kernel/src/task.rs:964-1083 | So it is if every task below it and every newcomer below it weighs at most 102400. |
| `Starvation.BlockedPass` | kernel/src/task.rs:1059-1062 | A heavy awake task below another is still there after any pass its own step survives, and the other was not picked. |
| `Starvation.BlockerStarves` | kernel/src/task.rs:1059-1062 | So the other never runs while the heavy one lives, though every pass runs somebody, whatever else is queued, spawned, wakes or finishes. |
| `Starvation.StarvationIff` | kernel/src/task.rs:964-1083 | An awake task's wait is bounded if and only if no history that leaves it waiting leads to a heavy awake task below it. |
| `Starvation.NeverStarvesIffLight` | kernel/src/task.rs:964-1083 | Where no heavy task below it sleeps: if and only if every task below it weighs at most 102400. |
| `Starvation.NeverStarvesIffHarmless` | kernel/src/task.rs:964-1083 | Where the light tasks below it are awake, heavy sleepers or not: if and only if no heavy task below it is awake and, beside a heavy sleeper below it, every other task below it is light, runs before the sleeper, and first reaches or passes the sleeper's vruntime at v_i or beyond. |
| `Starvation.HeavySleeperLands` | kernel/src/task.rs:1027-1035 | A heavy sleeper's first run leaves it below a task if and only if some other queued task is below that task. |
| `Starvation.LoneSleeperHarmless` | kernel/src/task.rs:1027-1035 | A heavy sleeper alone below an awake task does not starve it. |
| `Starvation.HeavySleeperStarves` | kernel/src/task.rs:1027-1062 | A heavy sleeper that can wake while another task below is asleep, above it or level behind it can starve the task above both. |
| `Refinement.CfsIsRoundRobin` | kernel/src/task.rs:934-937 | With equal weights and one lap of vruntime between queued tasks, both policies pick the same task at every step, saturation included. |
| `Refinement.EqualWeightsDegenerate` | kernel/src/task.rs:934-937 | From equal fresh tasks, the same sequence of picks and the same ledger on every run. |
| `Driver.Drive` | kernel/src/main.rs:353-415 | The loop ends, after some number of calls that gave a reason to stop, with the answer that reason calls for. |
| `Driver.DriveAnswers` | kernel/src/main.rs:368-415 | For every scheduler and start: the loop stops at the first call after which nobody is queued, more than 100 schedules ran, or more than 100 calls in a row were idle, and answers accordingly: completed only with nobody queued, runaway only after more than 100 schedules, asleep for ever exactly if 101 idle calls in a row come before either. |
| `Driver.PassSpends` | kernel/src/main.rs:378-389 | A pass that runs someone spends exactly one run of the budgets, under either policy. |
| `Driver.DemoCompletes` | kernel/src/main.rs:353-442 | With naps of at most 100 ticks and ticks that keep coming, the loop completes if and only if the budgets add up to at most 100; then after exactly that many schedules, with every ledger line at its budget; otherwise the schedule guard stops it and the sleep guard never does. |
| `Driver.LedgerSorted` | kernel/src/task.rs:917-926 | The ledger lists queued and finished tasks once each, sorted by id. |
| `Driver.LedgerLines` | kernel/src/task.rs:917-926 | One line for each queued and each finished task, with its id and its runs, and no other. |
| `Preempt.SetOccupies` | kernel/src/preempt.rs:296-296 | Setting a bit adds exactly that slot to the occupied set. |
| `Preempt.ClearVacates` | kernel/src/preempt.rs:353-353 | Clearing a bit removes exactly that slot. |
| `Preempt.AllocSlot` | kernel/src/task.rs:610-619 | The loop over the bitmap finds the first free slot, or that there is none. |
| `Preempt.FirstFree` | kernel/src/task.rs:610-619 | First free: everything before it is occupied; refused only when all are. |
| `Preempt.SlotTables.constructor` | kernel/src/preempt.rs:237-265 | All frames invalid, no windows, no bits. |
| `Preempt.SlotTables.RegisterTask` | kernel/src/preempt.rs:279-297 | Writes the frame and sets the bit of one slot. |
| `Preempt.SlotTables.SetSlotBounds` | kernel/src/preempt.rs:303-321 | Records one window, which reads back unless its bottom is 0. |
| `Preempt.SlotTables.UnregisterTask` | kernel/src/preempt.rs:341-354 | The slot can no longer pass `frame_ok`, every other slot's verdict is unchanged, and the window stays. |
| `Preempt.StackInsideBacking` | kernel/src/task.rs:458-490 | Wherever the heap puts the backing bytes, the window is aligned, inside them, and 131072 bytes long. |
| `Preempt.CanonicalExact` | kernel/src/preempt.rs:180-187 | The canonical test accepts exactly the lowest and the highest 2^47 addresses. |
| `Preempt.FreshValid` | kernel/src/preempt.rs:136-189 | A fresh frame validates for its own stack, and names the entry with rsp 8 modulo 16, interrupts on and all registers zero. |
| `Preempt.SavedRspExact` | kernel/src/preempt.rs:464-464 | The recorded rsp is the interrupted one if and only if the CPU pushes three words. |
| `Preempt.StashValid` | kernel/src/preempt.rs:173-189 | A stash taken with room for the spill validates for the stack it was taken on, in both hardware models. |
| `Protocol.StepInv` | kernel/src/task.rs:294-376 | Every step of driver, trampoline and timer keeps the invariant. |
| `Protocol.RunInv` | kernel/src/task.rs:294-376 | So does every interleaving. |
| `Protocol.FenceSafety` | kernel/src/preempt.rs:425-468 | Whenever the stub stashes, the CPU is on the stack of the task owning the published slot, in its step window, with a live pointer; only that slot's frame changes; nothing is stashed on the boot stack. |
| `Protocol.TrampolineFindsItself` | kernel/src/task.rs:282-285 | The slot lookup always finds the task whose stack it runs on. |
| `Protocol.PostSwitchAsserts` | kernel/src/task.rs:874-889 | Neither post-switch assertion can fail on any run. |
| `Protocol.SlotIdentity` | kernel/src/preempt.rs:257-354 | Bit set, magic valid, frame accepted and exactly one live owner coincide; the pointer is set exactly for that owner once spawned. |
| `Protocol.AllocSlotSafe` | kernel/src/task.rs:603-619 | `alloc_slot` never returns a live slot and refuses only when every slot has an owner. |
| `Protocol.NoBoundsIffNeverOwned` | kernel/src/preempt.rs:311-321 | A window is absent if and only if the slot never had a registered owner. |
| `Protocol.FreeSlotWithBounds` | kernel/src/preempt.rs:341-354 | From boot, the life of any task is a possible run that ends with its slot free and its window still recorded. |
| `Protocol.RegistrationCompletes` | kernel/src/task.rs:629-671 | Whatever interrupts come in between, three stores after a task is created it has the lowest free slot, a frame with rip = entry, cs = cs, rsp = top - 8, zeroed registers and interrupts on, its bit and its window, and nothing else changed. |
| `Protocol.LeavesOnlyWhenDone` | kernel/src/task.rs:890-905 | Over every run, a task leaves the spawned or the live tasks only if one of its own steps returned that it is done. |
| `Protocol.VerdictDecides` | kernel/src/task.rs:329-346 | After a step returns, every run with enough code steps comes to idle; a task that is alive then keeps its slot, pointer and window, a task that is done has lost pointer, frame and bit, and no other task has lost anything. |
| `Protocol.StepWindowStashes` | kernel/src/task.rs:322-329 | In the step window an interrupt is enabled and would stash. |
| `Machine.PushesSpill` | kernel/src/preempt.rs:416-421 | Pushes store the registers in order just below rsp and nothing else. |
| `Machine.RefillRestores` | kernel/src/preempt.rs:475-479 | Popping in reverse a block that still holds a spill brings those registers back and leaves the others. |
| `ContextSwitch.SwitchSpec` | kernel/src/task.rs:118-141 | One switch suspends the old side exactly where it is, resumes the new side exactly where it was, rbx, rbp and r12 to r15 by name, and writes nothing else. |
| `ContextSwitch.SuspendedByName` | kernel/src/task.rs:124-138 | A suspended frame by name: r15, r14, r13, r12, rbx, rbp and the return address, from the saved rsp upward. |
| `ContextSwitch.CoroutinesIntact` | kernel/src/task.rs:118-141 | However many sides compute and switch in whatever order, every suspended frame stays intact. |
| `ContextSwitch.RoundTrip` | kernel/src/task.rs:118-141 | A side switched away from and later back to, after any history of the others, finds rbx, rbp, r12, r13, r14, r15, its rsp and its return address. |
| `ContextSwitch.InitTaskContext` | kernel/src/task.rs:170-190 | Plants six zeros, the entry and a pad below the top, and touches nothing else. |
| `ContextSwitch.FirstSwitchEnters` | kernel/src/task.rs:143-190 | The first switch enters the trampoline with rbx, rbp and r12 to r15 zero and rsp = top - 8, which is 8 modulo 16. |
| `ContextSwitch.BootSides` | kernel/src/task.rs:629-671 | Building the tasks one by one leaves every one of them suspended at its start on its own stack. |
| `ContextSwitch.BootIntact` | kernel/src/task.rs:629-671 | That is the coroutine invariant, with the driver running. |
| `ContextSwitch.FirstEntry` | kernel/src/task.rs:143-190 | Whatever driver and tasks did since boot, the first switch into a task enters its trampoline zeroed at top - 8 of its own stack. |
| `Stub.CopySpec` | kernel/src/preempt.rs:449-467 | A list of copies puts each spilled word in its field and changes no other address. |
| `Stub.FilledSpec` | kernel/src/preempt.rs:447-468 | The frame behind rdi is the spill turned round, the computed rsp, the CPU's words and the magic, all inside 160 bytes. |
| `Stub.GuardedSpec` | kernel/src/preempt.rs:426-468 | The three tests reach label 2 with the slot filled exactly when fence, range and bit allow it, and untouched memory otherwise. |
| `Stub.StubTransparent` | kernel/src/preempt.rs:414-492 | For every register file, stack and index, under both hardware frames: all registers, rip, cs, ss and flags come back, ticks, yanks and acknowledgements are counted, no word clear of the spill below rsp changes but in the yanked slot, and that slot holds exactly the interrupted context. |
| `Interrupts.TickAgrees` | kernel/src/preempt.rs:414-492 | An interrupt leaves all control state, and every word clear of the room below rsp and of the frame table, as it was. |
| `Interrupts.InterruptsInvisible` | kernel/src/preempt.rs:395-398 | Any number of interrupts between any instructions of any code leaves it with the registers, control state and live memory of the uninterrupted run, if that run keeps room below rsp and reads no word it let fall there without writing it again. |
| `Interrupts.YankedFrameValid` | kernel/src/preempt.rs:326-334 | A frame yanked on a task's own stack is in the slot and passes that slot's validity test. |
| `Interrupts.YankByName` | kernel/src/preempt.rs:444-468 | After a yank the slot's 160 bytes hold, by name and offset, r15 to rax, rsp, rip, cs, rflags and the integrity word. |
| `Interrupts.BitIsUsed` | kernel/src/preempt.rs:436-438 | The stub's bit test on the byte agrees with the driver's mask test. |
| `Interrupts.StubImplementsTimer` | kernel/src/preempt.rs:414-492 | Executed instruction by instruction, an interrupt does to statics and frame table exactly what the protocol's timer event does to its state. |

## Left out

- Task and ledger names, log lines and serial output: they decide nothing.
- 64-bit overflow of run counters and of `free_frames`: unreachable in any real uptime or memory size; vruntime saturation and the stub's counters do wrap or saturate in the model.
- The `hlt` wait of the driver loop: it appears as a strictly increasing sequence of awaited ticks.
- The driver's final "at least one yank" gate (`kernel/src/main.rs:416-425`): it depends on real timing.
- `OffsetPageTable::map_to` and the heap allocator: `map_to` draws any number of frames for page tables and adds one entry or fails in one of its three ways.
- APIC, PIT, IDT, GDT, serial and clock calibration: MMIO and port I/O.
- The compare and branch pairs of the stub are single instructions of the machine, and flags between them are not modelled; `lock inc` is an increment modulo 2^64 and the EOI store a counter.
- Bytes: memory maps addresses to 64-bit words. A word is said to stay only if none of its eight bytes lies where a routine writes, and stacks, cells and slots are apart as byte ranges, so the statements hold at every alignment.
- FPU and SSE state, `TSS.rsp0`, the stack canary and panic paths: no modelled guarantee depends on them.
- The cross-task yank of `docs/preemption.md:40-58`: not implemented in the kernel.
- Build scripts, configuration parsing and feature selection.
- The addresses of firmware regions are taken below 2^52, the limit at which the kernel's own address type panics, and usable regions as disjoint.
- Task stacks are taken to lie in the canonical high half, where the kernel's heap is (`kernel/src/preempt.rs:285-286`).
- NeverStarvesIffHarmless: gives the condition on the queue for every queue but those that hold, below the waiting task, both a heavy sleeper and a light sleeper. There `StarvationIff` has the answer in terms of histories; a light sleeper's first run lands one slice above whichever vruntime is then the least queued, so the queue condition would have to enumerate the vruntimes the others can reach.
