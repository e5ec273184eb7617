# A verified model of the kernel's core

This project models the parts of a small i386 kernel whose correctness is not visible from any one
function, and proves what they keep. `dafny verify dfyconfig.toml` checks the whole project.

| file | models |
|---|---|
| `Words.dfy` | 32-bit arithmetic shared by the other files |
| `SchedState.dfy` | the scheduler and its semaphores as a step machine: tasks, 64 ready rings, one wait ring per semaphore, and a program counter per task for the functions that leave their lock before they are finished |
| `SchedInvariant.dfy` | what every step keeps, whatever the interleaving |
| `SchedRuns.dfy`, `Startup.dfy` | runs from the state in which `sched_init` waits for the first idle task; where each task is queued along them; the steps to the end of `sched_init` |
| `SchedFairness.dfy` | bounded waiting, exact round robin |
| `StepMeanings.dfy` | what a whole uninterrupted `task_create`, a suspension, a slice and an up without effect come to, in the terms of the state alone |
| `PidRuns.dfy` | when the pids that `allocate_pid` hands out are distinct |
| `SemaphoreLaw.dfy`, `SemaphoreWakeups.dfy`, `SemaphoreRuns.dfy` | the conservation law of the semaphores; when a wakeup is lost, whom it wakes and how the woken task returns; two reachable runs that show what the semaphores do not guarantee |
| `ScheduleRace.dfy`, `RaceFairness.dfy`, `RaceLaws.dfy`, `RaceRuns.dfy` | `schedule()` in four parts with interrupts between them, as `sema_down` and `task_exit` call it: what becomes of the invariant, of bounded waiting and of the other laws, and two reachable runs |
| `IntrusiveList.dfy`, `TaskQueues.dfy`, `Scheduler.dfy` | the same code over heap objects: circular doubly linked rings threaded through the tasks, task structures and semaphores whose fields are updated in place. Every method is proved to take the step of the step machine |
| `Spinlock.dfy` | the two spinlocks, one instruction of one contender at a time |
| `ContextSwitch.dfy` | `switch_to`, `switch_initial` and the hand-built first stack, on a machine with registers and word memory |
| `StringOps.dfy` | the byte loops of the C library |
| `Bitmap.dfy`, `PagePool.dfy`, `PoolRuns.dfy` | the page-frame pool over a packed bitmap |
| `Paging.dfy` | the kernel page tables and a two-level walk of them (IA-32 Software Developer's Manual, volume 3A, section 3.7.6) |
| `Numerals.dfy`, `Vsprintf.dfy`, `FormatMeaning.dfy`, `FormatFlags.dfy` | printing and reading numbers, the format interpreter, what each conversion prints, and how the carried flags show in the text |
| `Console.dfy`, `Printk.dfy` | the scrolling screen as a window on a growing document, and `printk` onto it |

In the scheduler one step is one locked section or one unlocked access to shared data of the C code,
or one call of `schedule()`, and an interrupt (the timer, or a `sema_up` from a handler) may come
between any two steps. That a call of `schedule()` is not interrupted is an assumption which the C
code does not provide for the calls in `sema_down` and `task_exit`. `ScheduleRace.dfy` drops it; it,
`RaceFairness.dfy` and `RaceLaws.dfy` prove what then becomes of the main results. The heap classes
state each operation as `View() == Apply(old(View()), step)`, and everything proved about runs of
the step machine then speaks about them. Addresses, sizes and counters wrap at 2^32 (or at 2^8 in
the decrement lock) where the C types do.

## What the code does differently from what one would expect

Each of these is proved, with the exact condition under which the expectation does hold.

* `task_create` writes the child's status after it has released the list lock. A child that has
  blocked by then is marked ready while it sits in a wait ring, and the `sema_up` meant for it takes
  it off the ring without making it runnable: it never runs again (`LateWriteLosesWakeup`). The
  placement of tasks in queues holds throughout a run if and only if no such write comes late
  (`PlacementOverRuns`), and none does as long as nothing calls `schedule()` in between
  (`InTimeWithoutSchedule`). A `sema_up` loses the waiter it finds if and only if that waiter is not
  blocked (`WakeupLostIff`).
* `schedule()` reads the head of the ready ring outside the lock and with interrupts on. If the task
  it chose has left the ring by the time it switches, the invariant is gone, and otherwise it is kept
  (`CoreOverSplitRuns`); in a run from boot a task runs on after its exit (`ExitedTaskRuns`).
* Even when no choice is stale, a switch from the head of the ring to another task costs each waiting
  task one tick more, and nothing else does (`CommitDelays`, `PartsDoNotDelay`), so the bound of
  2p + 1 ticks fails in a run from boot (`DelayedRun`) and holds with these switches added
  (`SplitBoundedWaiting`).
* `allocate_pid` reads `next_pid` after its unlock, so two tasks can get the same pid (`EqualPids`). The
  pids are distinct if and only if no increment falls between another task's increment and its read
  (`PidsOverRuns`), and none does as long as nothing calls `schedule()` in between
  (`PidsWithoutSchedule`).
* A task woken from `sema_down` does not take the count that `sema_up` added, so a semaphore started
  at 1 lets two tasks past (`TwoTasksPast`). The usual law holds exactly on runs in which no waiter
  was woken, and no more tasks get past than init and ups allow exactly while the wakes do not exceed
  the tasks in flight and the count (`IntendedLaw`).
* The decrement spinlock excludes for at most 129 contenders; with 130 the byte wraps and two get in
  (`DecMutualExclusion`).
* `memmove` copies forwards only; it moves every contents correctly exactly when the destination
  does not start inside the source (`ForwardCopyIsMove`).
* With exactly 1 GB of memory the end of the page pool wraps to 0 and every free is rejected
  (`GetThenFree`, `FreeRejectedAtTop`, `MmInit`).
* In `vsprintf` the flags are never cleared: after a directive with a `0` flag every later number
  is padded, and after a `%x` every later `%X` is in lower case (`ZeroFlagLeaks`, `LowerCaseLeaks`).
  A directive prints what it would print alone if and only if no earlier `0` flag reaches a number
  with none of its own and a width to fill, and no earlier `%x` reaches a `%X` or `%p`
  (`PrintsAsAloneAfter`). A width without a `0` flag has no effect, the sign of a negative number does
  not count towards it (`SignedText`), and a conversion the switch does not know, `%%` included,
  prints nothing (`UnknownText`).

## Model

| member | source | states |
|---|---|---|
| SchedInvariant.StepKeepsCore | kernel/sched.c:68-218 | every step (each locked section and each unlocked access of task_create, allocate_pid and task_struct_init, semaphore operation, exit, tick, return) keeps the queues duplicate free and disjoint, a running task in the ready ring of its priority, a blocked one in the wait ring it waits in, a child not yet queued and a dying task in no queue, current at the default priority, and all_tasks complete, in every interleaving |
| SchedInvariant.TickSchedules | kernel/sched.c:194-202 | a default-priority slice is one tick, so every timer interrupt ends in exactly one schedule() |
| SchedState.SomethingToRun | kernel/sched.c:176-192 | the default ready ring is never empty when schedule() looks at its head, because the idle tasks never leave it |
| SchedRuns.BootPlacement | kernel/sched.c:45-66 | the state sched_init reaches satisfies the invariant and the placement |
| SchedRuns.StepKeepsPlacement | kernel/sched.c:120-127 | a step keeps every ready task queued if and only if it is not a status write of task_create to a child that has left its ready ring |
| SchedRuns.PlacementOverRuns | kernel/sched.c:87-152 | the placement holds all along a run if and only if no status write of the run came late |
| SchedRuns.InTimeWithoutSchedule | kernel/sched.c:98-130 | as long as nothing calls schedule(), every status write of task_create comes in time |
| SchedRuns.PlacementMeaning | kernel/sched.c:68-152 | counted occurrences: a running or ready task is once in the ready ring of its priority and nowhere else, a child not yet queued nowhere, a blocked task once in one wait ring and nowhere else unless its status is still to be written by task_create, a dying one nowhere, and each task once in all_tasks |
| Startup.StartsUp | kernel/sched.c:45-66 | the steps by which sched_init returns: the init task blocks, the first idle task wakes it, and the timer brings it back, with the idle tasks queued behind it |
| StepMeanings.CreatedTask | kernel/sched.c:98-130 | a task_create that is not interrupted adds exactly one ready task with the next pid, the priority asked for and the least slice of at least a 31st of it, at the tail of the ready ring of that priority and at the head of all_tasks |
| StepMeanings.SuspendedTask | kernel/sched.c:132-139 | the suspended task is blocked, at the head of the wait ring and in no other; the other rings keep their other tasks and no other task changes |
| StepMeanings.SliceLength | kernel/sched.c:194-202 | with a slice of k ticks exactly every k-th tick asks for schedule(), and the ticks left are given after any number of ticks |
| StepMeanings.UpLeavesWaiters | kernel/sync.c:57-68 | an up of a negative count, or of the largest, changes the count and nothing else, whoever waits |
| PidRuns.PidsOverRuns | kernel/sched.c:166-174 | over every run after which nobody stands between its increment of next_pid and its read, all pids are distinct if and only if no increment fell between another task's increment and its read |
| PidRuns.GoodOverRun | kernel/sched.c:166-174 | at every point up to which no increment fell in between, the pids are distinct |
| PidRuns.LawOverRun | kernel/sched.c:166-174 | over all runs every pid is a value next_pid has had, and increments = pids handed out + tasks yet to read |
| PidRuns.PidsWithoutSchedule | kernel/sched.c:68-85 | as long as nothing calls schedule(), no increment falls in between |
| PidRuns.EqualPids | kernel/sched.c:166-174 | a run from boot in which two tasks get the same pid |
| SchedFairness.ScheduleProgress | kernel/sched.c:176-218 | one schedule() makes a waiting task current or strictly lowers its measure |
| SchedFairness.OthersDoNotDelay | kernel/sched.c:68-152 | no create, block, wake, exit or return raises the measure of a waiting task or takes it out of the ring; the parts of an interrupted schedule() are in RaceFairness |
| SchedFairness.BoundedWaiting | kernel/sched.c:176-218 | in every run in which no interrupt falls inside a schedule() of sema_down or task_exit, a task at position p of the default ring becomes current within 2p + 1 calls of schedule(), at the program point where it was queued |
| SchedFairness.TicksAreCalls | kernel/interrupt.c:28-52 | a run has at least as many calls of schedule() as timer interrupts |
| SchedFairness.BoundedWaitingInTicks | kernel/sched.c:194-218 | the same bound in timer ticks, under the same condition |
| SchedFairness.CurrentAtEnds | kernel/sched.c:176-218 | after any uninterrupted schedule() the current task is running and at the head or the tail of the default ring |
| SchedFairness.RoundRobin | kernel/sched.c:176-218 | with only the timer running, the whole state after n ticks is the ring rotated by half the ticks |
| SchedFairness.TwoIntervalsEach | kernel/sched.c:176-218 | in every run, whatever the tasks do, that leaves the members of the ring as they are between calls of schedule(), each of m tasks is current for exactly two consecutive intervals of every 2m, in ring order, and the ring has turned by half the calls |
| SchedFairness.RingFixedIff | kernel/sched.c:87-152 | exactly which steps leave the ring as it is: all but queueing a child of the default priority, a blocking down, an exit and an up that wakes a task |
| SchedFairness.TailThenRoundRobin | kernel/sched.c:176-218 | a task left at the tail has one interval before the head runs, and then exact round robin starts |
| SchedFairness.UpRing | kernel/sync.c:57-68 | sema_up changes the default ring by appending the task it wakes, or not at all |
| SemaphoreLaw.CountConservation | kernel/sync.c:42-68 | over every run the count moves by ups minus non-blocking downs, modulo the wrap of a 32-bit count |
| SemaphoreLaw.CountExact | kernel/sync.c:42-68 | without overflow the count is never negative and equals init + ups - non-blocking downs |
| SemaphoreLaw.FlightConservation | kernel/sync.c:42-68 | every wake puts one task on its way out of sema_down and every return of a waiter lands one |
| SemaphoreLaw.NewSemaIsFree | kernel/sync.c:35-40 | a semaphore just initialised has no waiter and nobody on the way out |
| SemaphoreLaw.IntendedLaw | kernel/sync.c:42-68 | passes + in flight + count = init + ups + wakes, so the law without the wakes holds if and only if no waiter was woken; passes stay within init + ups if and only if the wakes do not exceed in flight + count |
| SemaphoreWakeups.UpWakesOne | kernel/sync.c:57-68 | sema_up with a waiter takes the head off the wait ring; it moves it to the tail of its ready ring, and nothing else, if and only if it is blocked, otherwise the head ends in no queue |
| SemaphoreWakeups.WakeupLostIff | kernel/sync.c:57-68 | the waiter found is lost in every continuation if and only if it is not blocked |
| SemaphoreWakeups.NoLostWakeup | kernel/sync.c:42-68 | a sema_up that wakes a task puts exactly it on its way out of sema_down, wherever in sema_down it is, also between unlock and schedule() or switched away there, and it stays on its way until it returns and is current within the waiting bound |
| SemaphoreWakeups.FlightOverRun | kernel/sync.c:46-50 | over any run a woken task stays on its way until it returns |
| SemaphoreWakeups.WaitRingIsStack | kernel/sched.c:132-139 | the wait ring after any run: first, newest first, the tasks suspended during the run and not taken off since, then what is left of the old ring |
| SemaphoreWakeups.LastInFirstOut | kernel/sched.c:132-152 | after any run the waiter woken is the one suspended last of all that still wait |
| SemaphoreWakeups.WokenReturns | kernel/sync.c:46-50 | every task on its way out is current within the waiting bound, and then either returns or makes its call of schedule(), which leaves it on its way inside that call |
| SemaphoreWakeups.OwnCall | kernel/sync.c:49 | the call of schedule() made by a woken task leaves it current or in the ring, inside the call |
| SemaphoreWakeups.OwnCallReturns | kernel/sync.c:46-50 | from there it returns within the waiting bound |
| SemaphoreWakeups.UninterruptedCalls | kernel/sync.c:48-49 | without a timer interrupt the next call of schedule() is the woken task's own |
| SemaphoreRuns.TwoTasksPast | kernel/sync.c:42-68 | a run from boot, through the end of sched_init, in which a semaphore started at 1 has two more passes than ups |
| SemaphoreRuns.LateWriteLosesWakeup | kernel/sched.c:120-127 | a run from boot, through the end of sched_init, after which a sema_up strands its waiter in every continuation |
| SemaphoreWakeups.StrandedForever | kernel/sched.c:141-152 | a waiting task that is in no queue stays so for ever |
| ScheduleRace.PartsMakeSchedule | kernel/sched.c:176-218 | the four parts (read of the head, test of the status, locked requeue, switch) with nothing in between are the schedule() of the step machine |
| ScheduleRace.UninterruptedRuns | kernel/sched.c:176-218 | every run of the step machine is such a run with nothing between the parts |
| ScheduleRace.CommitKeepsIff | kernel/sched.c:209-217 | the switch keeps the invariant if and only if the task chosen is still in the default ring |
| ScheduleRace.CoreOverSplitRuns | kernel/sched.c:176-218 | with interrupts between the read of the head, the test of the status, the locked requeue and the switch, the invariant survives a run if and only if every task chosen was still in the ring when it was switched to |
| RaceRuns.ExitedTaskRuns | kernel/sched.c:179-211 | a run from boot, through the end of sched_init, after which a task that has exited is running, in no queue |
| RaceFairness.CommitDelays | kernel/sched.c:209-217 | the switch raises the measure of a waiting task it does not choose by one if and only if it is made from the head of the ring to another task, lowers it by one if and only if it is made to the head from elsewhere, and changes it by no more |
| RaceFairness.PartsDoNotDelay | kernel/sched.c:176-192 | no other part of schedule() and no other step raises the measure of a waiting task |
| RaceFairness.SplitBoundedWaiting | kernel/sched.c:176-218 | with interrupts anywhere, in every run in which no choice is stale, a task at position p becomes current within 2p + 1 ticks and one more for each switch from the head of the ring to another task, at the program point where it was queued |
| RaceRuns.DelayedRun | kernel/sched.c:179-211 | a run from boot in which no choice is stale and the second task of the ring is not current during three ticks |
| RaceLaws.PlacementOverSplitRuns | kernel/sched.c:120-217 | with interrupts anywhere the placement holds all along a run if and only if no status write of task_create came late and no task switched to had left the ring |
| RaceLaws.SplitIntendedLaw | kernel/sync.c:42-68 | the laws of IntendedLaw with interrupts anywhere, as long as no choice is stale |
| RaceLaws.SplitCountConservation | kernel/sync.c:42-68 | with interrupts anywhere, stale choices included, the count moves by ups minus non-blocking downs modulo its wrap |
| RaceLaws.FlightOverSplitRun | kernel/sync.c:46-50 | with interrupts anywhere, no choice stale, a woken task stays on its way until it returns |
| RaceLaws.WokenRunsSplit | kernel/sync.c:46-50 | with interrupts anywhere, no choice stale, a task on its way is current within the bound of SplitBoundedWaiting and can take its next step out: its return, or the next part of its call of schedule() |
| RaceLaws.PidsOverSplitRuns | kernel/sched.c:166-217 | PidsOverRuns with interrupts anywhere, no choice stale |
| IntrusiveList.RingUnique | lib/list.h:14-16 | the pointers of a ring determine its sequence of nodes from the head on |
| IntrusiveList.ListHeadInit | lib/list.h:18-21 | makes a ring of the head alone |
| IntrusiveList.ListEmpty | lib/list.h:23-26 | true exactly when the ring has no node but the head |
| IntrusiveList.ListInsert | lib/list.h:41-49 | the ring with the node inserted between two neighbours, no other node touched |
| IntrusiveList.ListAdd | lib/list.h:51-54 | inserts after the head |
| IntrusiveList.ListAddTail | lib/list.h:56-59 | inserts before the head |
| IntrusiveList.ListDel | lib/list.h:28-32 | the ring without the node, no other node touched |
| IntrusiveList.ListPop | lib/list.h:34-39 | removes and returns the first node |
| TaskQueues.RingSet.Del | lib/list.h:28-32 | removes one task's node from its ring and leaves every other ring as it was |
| TaskQueues.RingSet.Add | lib/list.h:51-54 | puts a task in no queue at the head of one ring, all others unchanged |
| TaskQueues.RingSet.AddTail | lib/list.h:56-59 | puts a task in no queue at the tail of one ring, all others unchanged |
| TaskQueues.RingSet.Pop | lib/list.h:34-39 | takes the first task of one ring, all others unchanged |
| Scheduler.SchedInit | kernel/sched.c:45-66 | builds rings and tasks whose view is the state from which all runs start |
| Scheduler.Kernel.TaskCreate | kernel/sched.c:98-111 | without a procedure or a page fails and changes nothing; otherwise refines the step up to the first unlock of task_struct_init: a zeroed task with its priority, first in all_tasks, in no queue |
| Scheduler.Kernel.AllocatePid | kernel/sched.c:166-171 | refines the locked increment of next_pid |
| Scheduler.Kernel.TaskStructInit | kernel/sched.c:83-84 | refines the unlocked read: the task gets next_pid as it is by then, and its slice |
| Scheduler.Kernel.QueueNewTask | kernel/sched.c:124-126 | refines the locked section that puts the new task last in the ready ring of its priority |
| Scheduler.Kernel.TaskCreateStatus | kernel/sched.c:127-129 | refines the status write outside the lock and returns the pid the new task was given |
| Scheduler.Kernel.TaskSuspend | kernel/sched.c:132-139 | moves any queued task from its ready ring to the head of a wait ring, blocked |
| Scheduler.Kernel.SuspendCurrent | kernel/sync.c:46-47 | refines the suspension of the current task by sema_down |
| Scheduler.Kernel.TaskResume | kernel/sched.c:141-152 | a blocked task becomes running at the tail of its ready ring; any other is left alone |
| Scheduler.Kernel.TaskExit | kernel/sched.c:87-96 | refines the exit step: dying and in no queue |
| Scheduler.Kernel.NextTaskToRun | kernel/sched.c:176-192 | returns the head as it was before a running caller moved to the tail |
| Scheduler.Kernel.Schedule | kernel/sched.c:204-218 | refines the specification function of schedule() |
| Scheduler.Kernel.ScheduleAway | kernel/sync.c:49 | refines the call of schedule() made by sema_down and task_exit |
| Scheduler.Kernel.TaskTick | kernel/sched.c:194-202 | counts the slice down, reloads it and asks for schedule() when it is used up |
| Scheduler.Kernel.GenericIsr | kernel/interrupt.c:28-52 | for every vector and handler: a hardware interrupt clears the request, sets and clears the interrupt flag and calls schedule() on return if its handler asked for it; an exception or a missing handler does none of that; a handler that is neither the timer's nor calls sema_up leaves the scheduler and the request as they were |
| Scheduler.Kernel.TimerInterrupt | kernel/interrupt.c:28-52 | refines the tick step |
| Scheduler.Kernel.DeviceInterrupt | devices/ide.c:118-132 | an interrupt whose handler calls sema_up refines the up step |
| Scheduler.Kernel.SemaInit | kernel/sync.c:35-40 | refines the step that sets up a semaphore with an empty wait ring |
| Scheduler.Kernel.SemaDown | kernel/sync.c:42-55 | refines the locked section: suspends when the count is not positive, otherwise takes one |
| Scheduler.Kernel.SemaDownReturns | kernel/sync.c:49-50 | refines the return of a waiter from sema_down |
| Scheduler.Kernel.SemaUp | kernel/sync.c:57-68 | refines the up step: count incremented with 32-bit wrap, the head waiter resumed if the new count is positive |
| Spinlock.XchgMutualExclusion | kernel/sync.c:21-33 | at most one holder for any number of contenders and any schedule of their instructions; the 1 is in the lock or with one contender |
| Spinlock.XchgAcquires | kernel/sync.c:21-33 | three instructions of a contender take a free lock and a fourth gives it back, with no other effect |
| Spinlock.XchgGetsLockIff | kernel/sync.c:21-33 | at every point of every schedule, a contender that has not been given the lock, running alone from there, gets it if and only if the lock is free |
| Spinlock.DecMutualExclusion | kernel/sync.c:10-33 | the decrement lock excludes on every schedule if and only if there are at most 129 contenders |
| Spinlock.DecAcquires | kernel/sync.c:10-33 | three instructions of a contender take a free lock and a fourth gives it back, with no other effect |
| Spinlock.DecGetsLockIff | kernel/sync.c:10-33 | with at most 129 contenders, at every point of every schedule, a contender that has not been given the lock, running alone from there, gets it if and only if the lock is free |
| Spinlock.DecCounts | kernel/sync.c:10-33 | up to then the byte is 1 minus the contenders that decremented since the last release, each at most once, so it stays within -128 and 1 |
| Spinlock.Overcrowded | kernel/sync.c:10-19 | the schedule that lets two of 130 contenders in |
| ContextSwitch.Cpu.SwitchTo | kernel/switch.S:7-26 | the instruction sequence leaves the frame, the saved stack pointer and the registers of the specification |
| ContextSwitch.Cpu.SwitchInitial | kernel/switch.S:33-43 | drops the rest of the frame, passes the previous task to task_sched_post_proc and returns into the procedure |
| ContextSwitch.Cpu.BuildStack | kernel/sched.c:107-122 | the new task is left parked with an intact frame, ready to enter proc with params and to return to task_exit; every other word of its page is 0 and no word outside it changes |
| ContextSwitch.StepKeepsValid | kernel/switch.S:7-26 | whatever task runs, every parked task keeps an intact frame inside its own page |
| ContextSwitch.SwitchResumes | kernel/switch.S:19-26 | the next task goes on with its own saved registers, eax names the task just left, and rounding esp down to its page gives the next task |
| ContextSwitch.SwitchParks | kernel/switch.S:9-17 | the caller of switch_to is left with the 28-byte frame of kernel/switch.h |
| ContextSwitch.Coroutine | kernel/switch.S:7-26 | over any run of other tasks: ebx, ebp, esi, edi, esp and the return address after a task's switch_to are those of its own call |
| ContextSwitch.FirstEntry | kernel/switch.S:33-43 | over any run: a new task enters its procedure with task_exit as return address and params as argument |
| StringOps.ForwardCopyLaw | lib/string.c:3-20 | every byte after the copy, for every overlap: a destination inside the source range gets the first bytes repeated |
| StringOps.ForwardCopyIsMove | lib/string.c:17-20 | memmove moves every contents correctly if and only if the destination does not start inside the source range |
| StringOps.Memcpy | lib/string.c:3-15 | null pointers and size 0 give NULL and change nothing; otherwise the byte-by-byte copy |
| StringOps.Memmove | lib/string.c:17-20 | a correct move for a destination at or below the source or for disjoint ranges |
| StringOps.Memset | lib/string.c:37-47 | the low byte of the value in the range and nothing changed outside |
| Bitmap.WordUpdate | lib/kernel/bitmap.c:66-78 | the mask operations change one bit of a word and no other |
| Bitmap.Bitmap.TestBit | lib/kernel/bitmap.c:29-38 | tells whether the bit has the given value, for both values |
| Bitmap.Bitmap.ConfigBit | lib/kernel/bitmap.c:66-78 | sets exactly the named bit; out of range changes nothing |
| Bitmap.Bitmap.ConfigAll | lib/kernel/bitmap.c:13-27 | sets exactly the bits below bit_count, whole words and leftover bits, not the padding |
| Bitmap.Bitmap.ConfigMulti | lib/kernel/bitmap.c:92-120 | for all 32-bit arguments sets exactly the named range, or nothing if it leaves the map or wraps |
| Bitmap.Bitmap.FindFirstBitsGroup | lib/kernel/bitmap.c:45-64 | for all 32-bit arguments the least start of a run of the given value inside the map, BITMAP_ERR exactly when there is none or the size is 0 |
| Bitmap.FirstRunUnique | lib/kernel/bitmap.c:45-64 | that promise determines the result |
| Bitmap.MismatchSkips | lib/kernel/bitmap.c:57-60 | why one mismatch rules out all starts up to it |
| PagePool.PoolLayout | kernel/mm.c:10-23 | the region can hold its own bitmap (no underflow, create succeeds, every word touched inside the bitmap's pages) if and only if it has 1 to 2^32 - 8 pages |
| PagePool.BitmapPagesLeast | kernel/mm.c:12 | k pages hold a bit for each page and the count of bits if and only if k is at least the number set aside |
| PagePool.MemPoolInit | kernel/mm.c:10-23 | bitmap pages and pool pages partition the region, all pool pages free |
| PagePool.LowPagesLeftOut | kernel/mm.c:25-30 | leaving out the low pages gives the rest of memory, able to hold its bitmap, if and only if memory has more than 256 pages |
| PagePool.MmInit | kernel/mm.c:25-35 | the pool ends at the end of mapped memory, and below 2^32 exactly with less than 1 GB |
| PagePool.SearchIsFirstFit | kernel/mm.c:51-52 | the search finds what trying every start in turn finds |
| PagePool.MemPool.GetPages | kernel/mm.c:42-67 | refines the specification of a get; the pages obtained are zeroed exactly with PF_ZERO, no other byte changes |
| PagePool.MemPool.FreePages | kernel/mm.c:74-92 | refines the specification of a free, with both wraps |
| PagePool.GetSpec | kernel/mm.c:42-67 | a get fails if and only if the size is 0 or no free run exists, and then changes nothing; otherwise it takes the lowest free run, page aligned, inside the pool |
| PagePool.FreeSpec | kernel/mm.c:74-92 | a free of any address and size takes effect if and only if the pool ends below 2^32, the address lies in it and the range stays in it; then it clears exactly the bits of the range, allocated or not |
| PagePool.GetThenFree | kernel/mm.c:42-92 | a get followed by its free restores the pool if and only if the pool ends below 2^32 |
| PoolRuns.AllocatorSafety | kernel/mm.c:42-92 | over every run of gets and owner frees: live ranges aligned, inside the pool and pairwise apart, a bit set if and only if its page is live, the number of set bits the sum of the live sizes; in a pool that ends at 2^32, where no free takes effect, the same of all ranges ever handed out |
| PoolRuns.NextKeepsSafe | kernel/mm.c:42-92 | one step keeps all that if and only if it is no free that the wrapped end rejects |
| PoolRuns.GetFailsIff | kernel/mm.c:50-57 | a get fails if and only if every run of that many pages meets a live range |
| PoolRuns.FreeRejectedAtTop | kernel/mm.c:76-81 | a pool that ends at 2^32 never takes a page back |
| Paging.KernelPgDirInit | kernel/init.c:76-106 | a walk of the finished tables maps 0xc0000000 + p to p for every p below the memory size, read-only exactly where its page begins in the kernel text, and finds every other address not present; uses 1 + ceil(n / 1024) pages that were free |
| Paging.BootPagesSuffice | kernel/init.c:32-36 | right after mm_init the free pages suffice for the tables if and only if memory has at least 259 pages |
| Paging.InitMemory | kernel/init.c:32-36 | mm_init and then kernel_pg_dir_init on any memory of 259 pages to 1 GB: a walk maps exactly 0xc0000000 + p to p for each p of memory, read-only exactly where its page begins in the kernel text, and the pages in use are the directory and its tables, all free before and different from each other |
| Paging.BuiltMeans | kernel/init.c:88-103 | what the two-level walk finds in the tables for every address: the page of memory, read-only exactly where it begins in the kernel text, or not present |
| Paging.EntryWritten | kernel/init.c:99-102 | writing one entry adds one page to the mapping and changes no other |
| Paging.TableAdded | kernel/init.c:94-97 | taking and entering a zeroed table keeps all mappings |
| Paging.SplitAddress | kernel/pte.h:21-29 | directory index, table index and offset make up the address |
| Paging.EntryParts | kernel/pte.h:31-39 | an entry keeps page address and flags apart |
| Paging.PageAddress | kernel/vaddr.h:22-30 | ptov and vtop are inverse on physical memory, and the indices of page i |
| Numerals.NumberMeans | lib/vsprintf.c:28-58 | for every 32-bit number and base 2 to 16: positional value, digits of the base, at most 32 digits, length max(width, digits) when padding, otherwise no leading zero |
| Numerals.ShortestNumeralUnique | lib/vsprintf.c:41-46 | the digits are the only text of their value without a leading zero |
| FormatMeaning.NumberTextUnique | lib/vsprintf.c:28-58 | value, digits, letter case, padding and the absence of other leading zeros leave only one text, the one printed |
| Vsprintf.AtoiMod | lib/vsprintf.c:11-19 | reads the longest run of digits; the value wraps as an int |
| Vsprintf.ReadBack | lib/vsprintf.c:11-58 | reading back a printed base-10 number gives it as an int, the number itself exactly up to INT32_MAX |
| Vsprintf.ItoaBase | lib/vsprintf.c:28-58 | NULL for a base out of range, otherwise writes exactly the number and returns the end |
| Vsprintf.FillTemp | lib/vsprintf.c:30-46 | the division loop never leaves the 32 slots of temp_buf |
| Vsprintf.Vsprintf | lib/vsprintf.c:61-135 | on every complete format with matching arguments writes the concatenation of the renderings and a NUL, changes nothing else, and returns the length |
| Vsprintf.SpellingParses | lib/vsprintf.c:68-87 | the format string written for any list of directives (0 flag, width, length prefix, conversion) is read as exactly those directives, the prefixes ignored |
| Vsprintf.RenderConcat | lib/vsprintf.c:68-131 | formats compose: the second part starts with the arguments left, one used per value directive, and with the flags set so far |
| Vsprintf.FlagsStay | lib/vsprintf.c:64-119 | which flags are set after any directives: they are never cleared |
| FormatFlags.PrintsAsAloneIff | lib/vsprintf.c:74-129 | for every directive and flags set before it: it prints what it prints alone, for all arguments, if and only if no 0 flag reaches a number with none of its own and a width to fill, and no lower-case flag reaches %X or %p |
| FormatFlags.PrintsAsAloneAfter | lib/vsprintf.c:61-135 | the same in terms of the directives before it in the format |
| FormatFlags.ZeroFlagLeaks | lib/vsprintf.c:77-79 | %02d%3d on 5 and 7 prints 05007, although %3d alone prints 7 |
| FormatFlags.LowerCaseLeaks | lib/vsprintf.c:118-124 | %x%X on 10 and 10 prints aa, although %X alone prints A |
| Vsprintf.UnsignedMeans | lib/vsprintf.c:105-129 | %u, %o, %x and %p print the word in their base |
| Vsprintf.SignedMeans | lib/vsprintf.c:102-111 | %d prints the sign and the magnitude, also for the least int |
| Vsprintf.PlainText | lib/vsprintf.c:68-72 | a format without directives prints itself |
| FormatMeaning.UnsignedText | lib/vsprintf.c:102-129 | whatever flags are carried: %u, %o, %x, %X and %p take one word and print its number in base 10, 8 or 16, in lower case for %x, padded to the width (8 for %p) exactly under a 0 flag |
| FormatMeaning.SignedText | lib/vsprintf.c:102-111 | %d and %i print the number, or a minus sign and the magnitude, INT_MIN included; the sign does not count towards the width |
| FormatMeaning.CharacterText | lib/vsprintf.c:90-92 | %c prints the low byte of its argument, whatever flags, width and upper bytes |
| FormatMeaning.StringText | lib/vsprintf.c:94-100 | %s prints its string, and nothing for a null pointer, whatever flags and width |
| FormatMeaning.UnknownText | lib/vsprintf.c:89-131 | any other conversion prints nothing and takes no argument |
| FormatMeaning.DiskName | devices/ide.c:90 | the format of the disk names is read as two letters and a %c, and prints hd and the letter |
| Console.FrameBuffer.Putc | devices/fb.c:24-61 | the screen stays the last 25 rows of the document, the document takes the character, the hardware cursor is at the next position; after a form feed every cell of the screen is a gray-on-black space and the cursor register is 0 |
| Console.FrameBuffer.Newline | devices/fb.c:83-92 | next row, scrolling by the forward memmove at the bottom |
| Console.FrameBuffer.Cls | devices/fb.c:72-81 | every cell of the screen is a gray-on-black space, the cursor register is 0 and the document takes a form feed |
| Console.FrameBuffer.ClearRow | devices/fb.c:63-70 | blanks exactly one row |
| Console.FrameBuffer.InitCursor | devices/fb.c:94-107 | the first call adopts the screen and goes to the start of the row three below the cursor found in the hardware |
| Console.FirstCharacterFits | devices/fb.c:52-54 | the cell of the first printable character lies in the buffer if and only if the cursor found was in the first 22 rows |
| Console.FrameBuffer.MoveCursor | devices/fb.c:122-127 | writes the position that find_cursor would read back |
| Console.PutKeeps | devices/fb.c:24-61 | a character adds at most one row, keeps the cursor in the window and never changes a row above it |
| Console.ControlsMove | devices/fb.c:29-50 | carriage return, newline, backspace and tab change no cell, and where each puts the cursor |
| Console.FormFeedBlanks | devices/fb.c:37-39 | a form feed blanks every cell from the top of the window on, keeps those above and puts the cursor at the top |
| Console.ScrolledRowsFrozen | devices/fb.c:83-92 | over any text the rows scrolled off stay as they were |
| Console.PlainText | devices/fb.c:52-57 | plain text of any length is laid out cell by cell from the cursor on, nothing lost or moved by wrapping and scrolling |
| Printk.Print | kernel/utils.c:9-23 | the document grows by exactly the bytes of the rendered format, and the length is returned |
| Printk.PlainPrintk | kernel/utils.c:9-23 | a printk of plain text puts each of its characters, gray on black, into the next cell of the document and changes no other cell |

## Left out

- SchedState.Apply: a call of `schedule()` is one step, which the code does not ensure for the calls in `sema_down` and `task_exit`. ScheduleRace, RaceFairness and RaceLaws say what interrupts there do to the invariant, bounded waiting, the placement, the semaphores and the pids; round robin, the order of the wait rings and the fate of a lost waiter are stated without them.
- Scheduler.Kernel.ScheduleAway: no interrupt between the choice of the next task and the switch, as above.
- Interrupts inside a held spinlock: the locked sections are assumed to be atomic, and no liveness is claimed through them.
- The name and magic fields of a task; callers are taken to pass a valid priority and TASK_READY, as `sched_init` does.
- Reaping in `task_sched_post_proc`: its null test is inverted, so it never acts for a real task and all_tasks only grows.
- The lifetime of semaphores: one on the stack of a task that has left is still a wait ring in the model.
- Scheduler.SchedInit: timer interrupts between `serial_init`, which turns interrupts on (devices/serial.c:106-122), and the `sema_down` of `sched_init`. Before the rings are set up the code is not protected from them.
- Overflow of `next_pid`: pages of tasks are never freed, so there are fewer than 2^18 creates.
- Scheduler.Kernel.SwitchTo: only the change of the current task; registers and stacks are in ContextSwitch.dfy.
- ContextSwitch.Coroutine: parked tasks are assumed to be spared by the others only as far as their saved stack pointer and live frame; that no C code writes there is not derived from the C sources. Memory is aligned words, and code addresses are arbitrary constants.
- PagePool.MemPool.GetPages: the bitmap's words and the pool's bytes are separate arrays; PagePool.PoolLayout shows that their addresses do not overlap.
- PagePool.MmInit: memory of at most 256 pages, where the subtraction of the low pages wraps (PagePool.LowPagesLeftOut), and of more than 1 GB, which cannot be mapped.
- Paging.KernelPgDirInit: enough free pages are assumed (Paging.InitMemory shows them there from 259 pages of memory on); without them the code writes through a null pointer. Loading CR3 is the result value. Masking with constants is written as division and remainder.
- Vsprintf.Vsprintf: formats whose last directive is cut off, after which the code reads past the end, arguments of the wrong kind, and a buffer that is too small.
- Console.FrameBuffer.constructor: a cursor found in the last three rows, for which the first character would be written below the screen (Console.FirstCharacterFits). The serial port is not part of this model.
- `strcmp` and `memcmp`, which do not compare as their names say, `strlen`, `strlcpy`, and the device drivers, boot code and interrupt stubs.
