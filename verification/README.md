# Proofs about the RT-Thread Smart kernel

This Dafny project models the parts of the RT-Thread Smart kernel where linked structures, counters and wake-ups have to
agree, and proves that they do: the timer list, the scheduler, the blocking IPC objects and three memory allocators, and
with them two of the repository's tools. `dafny verify dfyconfig.toml` checks everything.

| module | what it is about |
|---|---|
| `Common` | what several modules use |
| `TimerList` | the skip list of timers over a wrapping 32-bit tick |
| `RtList` | the doubly linked lists under the kernel, on nodes in the heap |
| `Bitmap`, `Scheduler` | find-first-set, ready queues and their one- or two-level bitmaps, time slices, round robin |
| `IpcQueue` | wait lists in first-come or priority order, and the bookkeeping of blocked and woken threads |
| `Mailbox`, `MsgQueue`, `Bits32`, `Event`, `Mutex` | the IPC objects |
| `SmallMem` | the small-memory heap that both boards build |
| `Ring`, `MemHeap` | the memory heap over a ring of blocks and a ring of free blocks |
| `Pages`, `SizeClass`, `Slab`, `SlabRequests` | the page allocator, the zones of equal chunks on top of it, and what a request is answered with |
| `Romfs`, `RomfsLookup` | the read-only file system image, its reader, and path lookup |
| `WorstStack` | the worst-case stack analysis |

A module that models an object has the same three layers throughout. A pure `State` with one function per critical
section says what each step does. Invariants and histories are proved about those functions. A class with the fields the
C code has then carries the code itself, and each of its methods is proved to do what its function says; where the C code
keeps links or headers, the class keeps them too and proves that they represent the `State`.

Some conventions. Interrupt-disabled sections are atomic steps. `lwp_suspend_sigcheck` is an arbitrary `suspends: bool`.
A thread is a number; `prio` gives priorities, smaller ones being more urgent. Byte offsets are unbounded integers, and
the 32-bit tick, the 32-bit event set and the 8- and 16-bit counters are bounded explicitly. Sizes of structures are those
of the 64-bit boards, the small-memory heap with memory tracing; only the romfs image is that of a 32-bit target, as the
tool writes four words of 32 bits for each `struct romfs_dirent`. `RT_DEBUG` is taken to be on, so that a call that fails an
`RT_ASSERT` goes no further. Ghost values that no code reads are marked as such, except
for the field `live` (chunks handed out), which is history only.

What the functions of a `State` say is pinned in turn by lemmas that do not read them back: what an operation does to bits,
rooms, queues and priorities, when each of its outcomes occurs (`SendTells` and the like), and over whole runs what the
outcomes of the calls add up to (`DeliveredInOrder`, `TakenInOrder`, `HoldIsDepth`, `TakeTells`).

Results that a reader of the code might not expect:

- `rt_timer_start` puts a timer where its true deadline belongs exactly if some row passes by each listed timer that the
  wrapped comparison misreads, one whose deadline is modulo 2^32 more than 2^31+1 before the new one (`DescentIsRight`).
  Within a turn that is: all listed timers are at most 2^31+1 earlier, or the first timer of some row is in that window
  (`ReachesWithinATurn`); with one row, as both boards build it, only the former. Outside of it the order of the list is
  lost. `MisplacedStart` is such a start with an interval that the code accepts: the new timer, not due, goes in front of one
  that is due.
- `rt_timer_check` always ends. It fires exactly the timers due if they are all on time, and with one row only then; otherwise
  it leaves a due timer unfired (`Check`, and `DueTimerLeft` for one that it misplaces itself).
- `rt_timer_list_next_timeout` answers `RT_TICK_MAX` for an empty list and also for a first timer that is due at just
  that tick, so its caller cannot tell the two apart (`NextTimeout` states exactly when, `LooksEmpty` shows such a list).
- `rt_malloc` passes over a block that fits if it is the last block of the heap and fits exactly, as the one block of an
  unused heap does for a request of its whole size (`WholeHeapPassedOver`); `rt_memheap_alloc` turns down a request for all
  that is available even if one free block holds it, as in a new pool (`AllTurnedDown`).
- `rt_memheap_realloc` rounds a request before `rt_memheap_alloc` does so again, and takes 16 bytes for one of up to 8, where
  `rt_memheap_alloc` takes 12 (`MemHeap.RoundedIsLeast`).
- In a heap with only 8 or 16 bytes of room, `rt_malloc` of that much never returns (`ScanNeverEnds`).
- The two updates of `lfree` in `plug_holes` and the overflow branches of the message queue and of the mutex are dead. The
  branch of `rt_event_send` for a thread that waits with neither AND nor OR is dead only because of the `RT_ASSERT(0)` in
  `_rt_event_recv` that stops such a call.
- A comment in `slab.c` promises that allocations of a power of two are aligned to it. They are exactly up to a page, and
  beyond that if the page they are answered from happens to be so aligned (`MallocAligned`). Requests for pages, for a new
  zone, from a listed zone and from a retired one all fail to be in reachable states (`LargeMisaligned`,
  `ChunksMisaligned`, `RetiredMisaligned`).
- Rounding a slab request up twice, as `rt_realloc` does, is harmless exactly up to 7680 bytes where zones are of 32 KiB, and
  up to 15360 where they are larger. Beyond, the rounded size is `zone_limit`, and the second call asks for pages.
- Under first-come order a mutex can be handed to a thread that is less urgent than those still waiting for it. In either
  order nothing else can bring that about, and it never happens if no thread blocks behind a less urgent one.
- A romfs path that goes on behind a file finds the file, and leaves the caller's size unset (`FindTells` says exactly when).

## Model

| member | source | states |
|---|---|---|
| TimerList.ScanStopsExactly | rt-smart/src/timer.c:374-378 | the wrapped test that ends a row scan agrees with the true order of deadlines exactly if they are at most 2^31-2 ahead or 2^31+1 behind |
| TimerList.ScanStopsAt | rt-smart/src/timer.c:374-378 | however late a listed timer is, the test ends the scan exactly at a later deadline or an earlier one that is misread |
| TimerList.IsDueExactly | rt-smart/src/timer.c:570 | the wrapped due test is right exactly in the same window around the current tick |
| TimerList.ScanRow | rt-smart/src/timer.c:360-382 | from any start the loop along a row ends at the first timer for which the test on the true deadlines' ticks stops it |
| TimerList.ScanEndSplits | rt-smart/src/timer.c:360-382 | from a start that is not too late, and with no timer misread from there on, that is between the timers due no later and those due later |
| TimerList.Descend | rt-smart/src/timer.c:357-385 | for any number of rows the loop goes down at the timer where it left the row above, and ends on each row where the descent on true deadlines' ticks does |
| TimerList.DescentIsRight | rt-smart/src/timer.c:357-385 | for any number of rows that is where a plain scan by true deadline ends exactly if some row passes by each misread timer, and then so on every row |
| TimerList.DescentIsWrong | rt-smart/src/timer.c:357-385 | otherwise it ends right in front of a timer that it misreads |
| TimerList.OneRowReaches | rt-smart/src/timer.c:357-385 | with one row it is right exactly if no listed timer is misread |
| TimerList.ReachesWithinATurn | rt-smart/src/timer.c:357-385 | with all listed timers less than a turn earlier, exactly if all are at most 2^31+1 earlier or the first of some row is |
| TimerList.LinkRows | rt-smart/src/timer.c:391-406 | the new timer is linked into the bottom row and as many rows above it as the counter has lowest pairs of zero bits |
| TimerList.LowPairsAreZero | rt-smart/src/timer.c:396-405 | that is how many lowest pairs are zero, up to the number of rows above |
| TimerList.LinkedWoven | rt-smart/src/timer.c:394-406 | after linking, every row is still a part of the row below |
| TimerList.LinkedInOrder | rt-smart/src/timer.c:394-406 | and all rows are in order exactly if the descent was right |
| TimerList.RowsAgreeOnOrder | rt-smart/src/timer.c:358-385 | two timers that are on two rows are in the same order on both |
| TimerList.PlainScanSplits | rt-smart/src/timer.c:360-385 | the place found is where a plain scan of the bottom row by true deadline ends |
| TimerList.ClearedWoven | rt-smart/src/timer.c:136-144 | taking a timer off all rows keeps each a part of the row below |
| TimerList.ClearedInOrder | rt-smart/src/timer.c:136-144 | and keeps their order |
| TimerList.TimerList.constructor | rt-smart/src/timer.c:744-752 | an empty list with the given number of rows is valid |
| TimerList.TimerList.Remove | rt-smart/src/timer.c:136-144 | exactly the timer's nodes leave all rows, whatever their order |
| TimerList.TimerList.Insert | rt-smart/src/timer.c:357-408 | the bottom row gains the timer where the descent ends, and the rows stay in order exactly if the descent was right |
| TimerList.TimerList.Start | rt-smart/src/timer.c:315-428 | for every interval that the code accepts, restarting takes the timer out, puts it where the descent ends and activates it; that is where a scan by true deadline would put it, across tick wrap, and keeps the order, exactly if the descent is not misled |
| TimerList.TimerList.Stop | rt-smart/src/timer.c:438-465 | an active timer is taken off and deactivated, an inactive one gives an error and changes nothing |
| TimerList.TimerList.Advance | rt-smart/src/clock.c:89 | the wrapping tick keeps step with true time |
| TimerList.TimerList.NextTimeout | rt-smart/src/timer.c:114-134 | the tick of the earliest deadline; `RT_TICK_MAX` exactly if the list is empty or that deadline falls on it |
| TimerList.LooksEmpty | rt-smart/src/timer.c:114-134 | a list with one timer for which the answer is `RT_TICK_MAX` |
| TimerList.PlacedLater | rt-smart/src/timer.c:374-382 | a timer re-armed for the future goes behind all that are still due |
| TimerList.TimerList.FireFirst | rt-smart/src/timer.c:563-604 | one turn removes the first timer, and starts it again one interval from now if it is periodic |
| TimerList.TimerList.RearmedWrong | rt-smart/src/timer.c:594-602 | starting the first timer again is misled only by a due timer behind it, which is stuck behind it then |
| TimerList.TimerList.FrontSeems | rt-smart/src/timer.c:570 | when the due test on the first timer ends the loop, no due timer is left or the first one is and its lateness is misread |
| TimerList.TimerList.Check | rt-smart/src/timer.c:547-613 | the check ends; it fires exactly the timers due by now, once each, in order of deadline and first started first among equals, leaves only later deadlines in order and re-arms exactly the periodic ones, or it leaves a due timer; the former if all due timers are on time, and with one row exactly then |
| TimerList.MisplacedStart | rt-smart/src/timer.c:315-428 | a list of one late timer and a start that puts a timer which is not due in front of it |
| TimerList.DueTimerLeft | rt-smart/src/timer.c:547-613 | a list of two late timers of which the check leaves one |
| RtList.Node.constructor | rt-smart/include/rtservice.h:47-50 | a new node is a ring of its own |
| RtList.InsertAfter | rt-smart/include/rtservice.h:58-65 | the ring gains the node right behind the given one, and every other link stays |
| RtList.InsertBefore | rt-smart/include/rtservice.h:73-80 | the ring gains the node right before the given one; before the head it becomes the last |
| RtList.Remove | rt-smart/include/rtservice.h:86-92 | the others stay a ring in their order, and the node becomes a ring of its own |
| RtList.QueueOfRing | rt-smart/include/rtservice.h:73-92 | putting a node before the head appends its thread to the queue behind the head, and removing one leaves the others |
| RtList.IsEmpty | rt-smart/include/rtservice.h:98-101 | empty exactly if the head is alone |
| Bitmap.TableLowest | rt-smart/src/kservice.c:1454-1472 | every entry of the lookup table is the number of the lowest set bit |
| Bitmap.FfsIsLowest | rt-smart/src/kservice.c:1484-1507 | find-first-set is one more than the number of the lowest set bit, for all 32-bit words |
| Bitmap.LowestIs | rt-smart/src/kservice.c:1474-1483 | that bit is set and no lower one is |
| Scheduler.HighestIsTop | rt-smart/src/scheduler.c:179-201 | the one- and two-level bitmaps with find-first-set give the first queue that is not empty, and the group is zero exactly if all are empty |
| Scheduler.MarksChanged | rt-smart/src/scheduler.c:857-868 | setting or clearing a priority's marks when its queue changes keeps the bitmaps marking exactly the filled queues |
| Scheduler.ScheduleRunsHighest | rt-smart/src/scheduler.c:443-564 | after unlocked scheduling the current thread runs, is in no queue and no ready thread precedes it, exactly if one was running or ready |
| Scheduler.ScheduleChooses | rt-smart/src/scheduler.c:462-486 | the processor changes hands exactly if the scheduler is unlocked and some thread preempts the current one, and then goes to a ready thread that none precedes and that is first in the queue of its priority |
| Scheduler.SwitchIs | rt-smart/src/scheduler.c:481-497 | a switch runs the head of the top queue and appends a thread that was running to its own queue |
| Scheduler.ScheduleTells | rt-smart/src/scheduler.c:443-564 | scheduling changes no thread but the one that gives way and the one that runs then, only their states and the yield flag of the first, and moves no other thread in any queue |
| Scheduler.ScheduleKeeps | rt-smart/src/scheduler.c:443-564 | scheduling keeps the queues holding exactly the ready threads, each once and at its priority |
| Scheduler.InsertKeeps | rt-smart/src/scheduler.c:745-779 | inserting a thread that is not ready keeps that |
| Scheduler.SuspendKeeps | rt-smart/src/thread.c:830-877 | suspending a ready or running thread keeps that |
| Scheduler.ChangePriorityKeeps | rt-smart/src/thread.c:715-756 | changing the priority of any thread keeps that, and keeps its masks right |
| Scheduler.StartedKeeps | rt-smart/src/thread.c:297-321 | starting a thread keeps that |
| Scheduler.RunKeeps | rt-smart/src/scheduler.c:443-872 | so does every run of start, suspend, resume, priority change, yield, tick, lock, unlock and scheduling |
| Scheduler.SuspendTells | rt-smart/src/thread.c:841-877 | a ready or running thread is suspended and in no queue if no signal is pending, with every other thread and the order of all queues as they were; otherwise nothing changes |
| Scheduler.ResumeTells | rt-smart/src/thread.c:903-932 | a suspended thread becomes ready as the last of its priority, or runs on if it is the current one; nothing else changes, and any other thread is left alone |
| Scheduler.PriorityTells | rt-smart/src/thread.c:715-756 | a thread gets the new priority and its masks and keeps the rest, as the last of its new queue if it is ready; nothing else changes |
| Scheduler.StartupTells | rt-smart/src/thread.c:305-326 | a started thread is ready at its initial priority, as the last there, and then the scheduler runs |
| Scheduler.YieldTells | rt-smart/src/thread.c:487-503 | a yield gives the thread a whole slice and the yield flag and changes nothing else before it schedules |
| Scheduler.LockTells | rt-smart/src/scheduler.c:917-1006 | each lock takes one unlock, the last unlock schedules, and one too many does as the last |
| Scheduler.LockedStays | rt-smart/src/scheduler.c:443-564 | in every run, while the scheduler is locked the processor does not change hands |
| Scheduler.YieldRotates | rt-smart/src/thread.c:487-503 | a yield in the top class moves its threads on by one |
| Scheduler.RoundRobin | rt-smart/src/scheduler.c:457-497 | under any sequence of yields and ticks the top class runs in a fixed cyclic order, one step per switch |
| Scheduler.EachGetsTheProcessor | rt-smart/src/scheduler.c:457-497 | the thread i places behind runs after i switches |
| Scheduler.SliceRunsOut | rt-smart/src/clock.c:102-111 | a thread that does not yield is switched out exactly when its remaining ticks have passed |
| Scheduler.Scheduler.constructor | rt-smart/src/scheduler.c:208-253 | empty queues with clear bitmaps are valid |
| Scheduler.Scheduler.Insert | rt-smart/src/scheduler.c:745-779 | the thread is appended to the queue of its priority and marked, or runs if it is current |
| Scheduler.Scheduler.Remove | rt-smart/src/scheduler.c:842-872 | the thread leaves its queue, and the marks go exactly with the last one |
| Scheduler.Scheduler.DoSchedule | rt-smart/src/scheduler.c:443-564 | with bitmaps, does what the scheduler on plain queues does |
| Scheduler.Scheduler.SuspendWithFlag | rt-smart/src/thread.c:830-877 | likewise for suspension, with the error for a thread that is neither ready nor running, and the one for a pending signal |
| Scheduler.Scheduler.Resume | rt-smart/src/thread.c:894-932 | likewise for resumption, with the error for a thread that is not suspended |
| Scheduler.Scheduler.ControlPriority | rt-smart/src/thread.c:715-756 | likewise for a priority change, moving a ready thread between queues |
| Scheduler.Scheduler.Yield | rt-smart/src/thread.c:487-503 | likewise for a yield |
| Scheduler.Scheduler.TickIncrease | rt-smart/src/clock.c:81-111 | likewise for a tick |
| Scheduler.Scheduler.StartThread | rt-smart/src/thread.c:297-329 | likewise for the start of a thread |
| Scheduler.Scheduler.EnterCritical | rt-smart/src/scheduler.c:917-933 | likewise for locking the scheduler |
| Scheduler.Scheduler.ExitCritical | rt-smart/src/scheduler.c:981-1006 | likewise for unlocking it, with a counter that goes below zero put right |
| IpcQueue.PlacedStably | rt-smart/src/ipc.c:100-127 | in priority order a thread goes behind all that are at least as urgent and before all that are less, and the list stays sorted |
| IpcQueue.Suspend | rt-smart/src/ipc.c:83-136 | the list gains the thread at the end, or at its place by priority |
| IpcQueue.WakeCovers | rt-smart/src/ipc.c:146-160 | waking the first thread makes up for one more unit available |
| IpcQueue.WakesFirst | rt-smart/src/ipc.c:146-160 | a wake-up takes the first thread and no other off the list, which in a list by priority none of the others precedes |
| IpcQueue.FirstComeFirstWoken | rt-smart/src/ipc.c:83-160 | in first-come order a thread is woken after exactly as many wake-ups as there were threads before it, and its own |
| IpcQueue.LeaveCovers | rt-smart/src/thread.c:988-1010 | a thread that times out takes no wake-up with it |
| IpcQueue.LeaveTells | rt-smart/src/thread.c:988-1010 | a thread that times out is off the list with that error, and no other thread changes its place or its error |
| IpcQueue.ResetFails | rt-smart/src/ipc.c:171-199 | a reset fails every thread on the list |
| IpcQueue.ResumeAll | rt-smart/src/ipc.c:171-199 | all threads on the list become ready with an error |
| Mailbox.NoLostWakeup | rt-smart/src/ipc.c:1597-1928 | in every run blocked receivers are covered by woken ones for all stored mails, blocked senders likewise for all free slots, and what was delivered are the first of the mails accepted |
| Mailbox.StepKeeps | rt-smart/src/ipc.c:1597-1989 | every critical section, timeout and reset keeps that |
| Mailbox.DeliveredInOrder | rt-smart/src/ipc.c:1597-1989 | in every run the mails of the sends that returned without an error since the last reset are, in order, those that receives returned and then those in the mailbox |
| Mailbox.SendTells | rt-smart/src/ipc.c:1618-1734 | when a send is accepted, returns that the mailbox is full, waits, or is interrupted; only an accepted mail changes the mails and wakes a receiver |
| Mailbox.RecvTells | rt-smart/src/ipc.c:1815-1928 | when a receive returns the oldest mail, times out, waits, or is interrupted; only the first changes the mails and wakes a sender |
| Mailbox.Mailbox.constructor | rt-smart/src/ipc.c:1449-1477 | an empty mailbox of 1 to 65535 mails |
| Mailbox.Mailbox.SendPass | rt-smart/src/ipc.c:1618-1734 | one pass over the ring with its two offsets appends the mail and wakes a receiver, or blocks, or fails, as for a sequence of mails |
| Mailbox.Mailbox.RecvPass | rt-smart/src/ipc.c:1815-1928 | one pass takes the oldest mail and wakes a sender, or blocks, or fails |
| Mailbox.Mailbox.Control | rt-smart/src/ipc.c:1957-1989 | a reset empties the mailbox and wakes everyone with an error |
| MsgQueue.SlotsConserved | rt-smart/src/ipc.c:2206-2769 | in every run each slot is in exactly one of queue, free list and one call's hands, and no wake-up is lost |
| MsgQueue.ActsAsSequence | rt-smart/src/ipc.c:2206-2769 | a send appends, an urgent send prepends, a receive takes the first message, and only a reset changes the queue otherwise |
| MsgQueue.TakenInOrder | rt-smart/src/ipc.c:2206-2769 | in every run each message linked since the last reset was taken by one receive or is on the queue, and without urgent messages they are taken in the order of linking |
| MsgQueue.SendTakeTells | rt-smart/src/ipc.c:2235-2322 | when a send takes a free slot, returns that the queue is full, waits, or is interrupted, with no other slot touched |
| MsgQueue.UrgentTakeTells | rt-smart/src/ipc.c:2438-2472 | an urgent send takes a free slot exactly if there is one, and never waits |
| MsgQueue.RecvTakeTells | rt-smart/src/ipc.c:2555-2651 | when a receive takes the first message, times out, waits, or is interrupted, with no other slot touched |
| MsgQueue.ReceivesWhatItTook | rt-smart/src/ipc.c:2638-2683 | a receiver copies the message it took, whatever happens between its two critical sections |
| MsgQueue.EntryFits | rt-smart/src/ipc.c:2344-2353 | `entry` can always be counted up when a slot is in a call's hands, so the overflow branches are dead |
| MsgQueue.MessageQueue.constructor | rt-smart/src/ipc.c:2012-2062 | all slots are on the free list |
| MsgQueue.MessageQueue.TakeToSend | rt-smart/src/ipc.c:2235-2322 | a send takes the first free slot, or blocks, or fails |
| MsgQueue.MessageQueue.TakeUrgent | rt-smart/src/ipc.c:2438-2472 | an urgent send takes the first free slot, or fails |
| MsgQueue.MessageQueue.LinkAtTail | rt-smart/src/ipc.c:2324-2372 | the message goes behind the tail, `entry` counts it and a receiver is woken |
| MsgQueue.MessageQueue.LinkAtHead | rt-smart/src/ipc.c:2474-2516 | the message goes before the head, with the tail set if it is alone |
| MsgQueue.MessageQueue.TakeToReceive | rt-smart/src/ipc.c:2555-2651 | a receive takes the first message off head, tail and count, or blocks, or fails |
| MsgQueue.MessageQueue.PutBack | rt-smart/src/ipc.c:2653-2683 | the slot goes back to the free list and a sender is woken |
| MsgQueue.MessageQueue.ReleaseAll | rt-smart/src/ipc.c:2741-2755 | every slot on the queue goes to the free list |
| MsgQueue.MessageQueue.Control | rt-smart/src/ipc.c:2721-2769 | a reset empties the queue, loses no slot and wakes everyone with an error |
| Event.WakeIsRetry | rt-smart/src/ipc.c:1154-1209 | the wake loop of a send gives the same final set and the same received bits as each waiter in turn retrying its receive |
| Event.MetBits | rt-smart/src/ipc.c:1163-1185 | bit by bit, a wait ends when all bits waited for are set, or for OR when one is |
| Event.SendBits | rt-smart/src/ipc.c:1144-1209 | a bit is in the set after a send exactly if it was or is sent, but for bits that a woken thread received and asked to clear; an empty send is refused |
| Event.SendWakes | rt-smart/src/ipc.c:1154-1209 | a send wakes only threads that the bits there were and those sent meet, the first of them always, with which of its bits each receives |
| Event.SendOrder | rt-smart/src/ipc.c:1154-1209 | the threads that go on waiting keep their order |
| Event.RecvTells | rt-smart/src/ipc.c:1254-1325 | when a receive returns at once, with which bits and what it clears, and when it times out, waits, or is interrupted |
| Event.ClearedBitsGoToOne | rt-smart/src/ipc.c:1198-1199 | within one send, bits that a woken thread cleared are received by nobody behind it |
| Event.NobodyWaitsInVain | rt-smart/src/ipc.c:1129-1364 | in every reachable state no blocked thread's condition is met |
| Event.Event.constructor | rt-smart/src/ipc.c:1015-1033 | no bit is set and no one waits |
| Event.Event.WakeOne | rt-smart/src/ipc.c:1161-1207 | one round of the wake loop: who is woken, with which bits, and what is left of the set |
| Event.Event.WakeMeeting | rt-smart/src/ipc.c:1154-1209 | the loop over the wait list does what the recursive wake loop does |
| Event.Event.SendEvent | rt-smart/src/ipc.c:1129-1219 | does what the send on the pure state does, which adds its bits and wakes whoever is met |
| Event.Event.RecvEvent | rt-smart/src/ipc.c:1235-1325 | a receive takes and clears its bits, or blocks, or fails |
| Mutex.RunKeeps | rt-smart/src/ipc.c:702-981 | in every run the value, owner, hold and wait list agree, only the owner can be above its own priority, and in priority order the waiters stay sorted below it |
| Mutex.PriorityRestored | rt-smart/src/ipc.c:917-923 | a thread that does not own the mutex has the priority it had before its first take |
| Mutex.NoInversion | rt-smart/src/ipc.c:785-803 | in priority order the owner is always at least as urgent as every waiter |
| Mutex.HoldIsDepth | rt-smart/src/ipc.c:726-752 | the takes a thread completed less its releases are `hold` if it is the owner, and zero otherwise |
| Mutex.MutualExclusion | rt-smart/src/ipc.c:702-981 | no two threads have more completed takes than releases |
| Mutex.TakeTells | rt-smart/src/ipc.c:726-836 | after every run, by the takes and releases that completed: a take completes at once exactly if nobody has the mutex or its own thread has it fewer than 255 times, is full at 255, and behind another thread times out, waits, or is interrupted |
| Mutex.ReleaseTells | rt-smart/src/ipc.c:890-905 | a release completes exactly if the thread has the mutex, and is refused otherwise |
| Mutex.PrioritiesTell | rt-smart/src/ipc.c:785-923 | a take that waits raises the owner to its own priority if that is more urgent, a release restores the thread's, and no other priority changes |
| Mutex.OnlyHandOffInverts | rt-smart/src/ipc.c:702-981 | in either order every step but a hand-off leaves the owner as urgent as all waiters if it was |
| Mutex.NoInversionIfPatient | rt-smart/src/ipc.c:785-803 | so in every run in which no thread blocks behind a less urgent waiter the owner stays as urgent as all waiters |
| Mutex.FifoInversion | rt-smart/src/ipc.c:936-938 | a run in first-come order that ends with a waiter more urgent than the owner |
| Mutex.Mutex.constructor | rt-smart/src/ipc.c:578-599 | a free mutex |
| Mutex.Mutex.TakeMutex | rt-smart/src/ipc.c:702-846 | a take counts up, or takes, or boosts the owner and waits, or fails |
| Mutex.Mutex.ReleaseMutex | rt-smart/src/ipc.c:874-981 | a release counts down, or restores the priority and hands on or frees, or is refused |
| SmallMem.AllocatedKeeps | rt-smart/src/mem.c:311-370 | an allocation, split or not, keeps the blocks tiling the heap with no two free neighbours |
| SmallMem.FreedKeeps | rt-smart/src/mem.c:156-194 | a free with its merges keeps that |
| SmallMem.ShrunkKeeps | rt-smart/src/mem.c:471-504 | shrinking in place keeps that |
| SmallMem.UsedMemAfter | rt-smart/src/mem.c:349-369 | every operation changes the summed extents of the used blocks by what it adds to or takes from `used_mem` |
| SmallMem.LowestFreeMerged | rt-smart/src/mem.c:165-193 | merging never moves the lowest free block, nor absorbs it |
| SmallMem.ScanFromLowestFree | rt-smart/src/mem.c:305-311 | the scan from `lfree` chooses the block that a scan from offset 0 would |
| SmallMem.MallocFailsExactly | rt-smart/src/mem.c:291-311 | a fitting block is passed over only if it is the last and fits exactly; otherwise a scan for a size fails exactly if no free block has room |
| SmallMem.RoundedIsLeast | rt-smart/src/mem.c:288-300 | the size that is looked for is the least aligned one that is enough for the request and for a minimal block |
| SmallMem.NullExactly | rt-smart/src/mem.c:288-311 | an allocation fails exactly if that least size exceeds the heap, or every free block with room for it is the last one and fits exactly |
| SmallMem.TakenRoomTells | rt-smart/src/mem.c:318-365 | a block is taken with exactly that room, unless what would be left is too small for a block |
| SmallMem.WholeHeapPassedOver | rt-smart/src/mem.c:291-311 | an unused heap has room for a request of its whole size, and the scan passes over it |
| SmallMem.FreeUndoesMalloc | rt-smart/src/mem.c:552-615 | freeing the block just allocated restores the block map |
| SmallMem.TouchesOneBlock | rt-smart/src/mem.c:272-615 | every operation adds, removes or resizes one allocated block and no other |
| SmallMem.HeaderMergedMatches | rt-smart/src/mem.c:178-192 | the header stores of a merge keep `next` and `prev` describing the blocks |
| SmallMem.HeaderSplitMatches | rt-smart/src/mem.c:329-348 | so do those of a split |
| SmallMem.SmallMem.constructor | rt-smart/src/mem.c:232-256 | one free block and `heap_end`, which is a valid heap exactly if that has room for a minimal block |
| SmallMem.HeapInit | rt-smart/src/mem.c:204-257 | for any two addresses, no heap exactly if the aligned ones leave no room for two headers, and otherwise one of what is between |
| SmallMem.ScanNeverEnds | rt-smart/src/mem.c:291-311 | in a heap with 8 or 16 bytes of room the scan for a request of no more never ends, as its bound wraps and `heap_end` links to itself |
| SmallMem.SmallMem.PlugHoles | rt-smart/src/mem.c:156-194 | merges with both neighbours, and its updates of `lfree` are never needed |
| SmallMem.SmallMem.Scan | rt-smart/src/mem.c:305-311 | the loop from `lfree` stops at the first block from offset 0 that fits, or finds none exactly if there is none |
| SmallMem.SmallMem.Malloc | rt-smart/src/mem.c:272-410 | allocates the first fit, splits it, moves `lfree` on and counts with the peak, writing only inside the block; or fails, exactly when `NullExactly` says, and changes nothing |
| SmallMem.SmallMem.AdvanceLowestFree | rt-smart/src/mem.c:380-387 | walking on from a block just taken finds the lowest free block |
| SmallMem.SmallMem.Free | rt-smart/src/mem.c:552-615 | frees and merges the block; a pointer outside the heap changes nothing |
| SmallMem.SmallMem.Move | rt-smart/src/mem.c:507-515 | moves the block with its first bytes and frees the old one, or changes nothing if none fits |
| SmallMem.SmallMem.Shrink | rt-smart/src/mem.c:471-504 | gives back the end of the block in place |
| SmallMem.SmallMem.Realloc | rt-smart/src/mem.c:421-516 | on every path the first min(old, new) bytes survive, no byte of another block changes, and if it fails everything is as it was; a move fails exactly as an allocation of the new size |
| MemHeap.TakenKeeps | rt-smart/src/memheap.c:183-258 | an allocation keeps the blocks tiling the pool, no two free neighbours, the free list exact and `available_size` equal to the free room |
| MemHeap.FreedKeeps | rt-smart/src/memheap.c:535-591 | a free with its merges keeps that |
| MemHeap.CutKeeps | rt-smart/src/memheap.c:350-485 | growing into the next block and shrinking with a merge keep that |
| MemHeap.FreeUndoesAlloc | rt-smart/src/memheap.c:495-595 | freeing the block just allocated restores the blocks and the counter |
| MemHeap.TurnedDownExactly | rt-smart/src/memheap.c:155 | of the requests that some block has room for, exactly those for all that is available are turned down |
| MemHeap.RoundedIsLeast | rt-smart/src/memheap.c:147-150 | the size that is looked for is the least that is enough for the request, aligned or minimal; rounding it again makes the minimal size of 12 bytes 16 |
| MemHeap.AllTurnedDown | rt-smart/src/memheap.c:155 | a new pool turns down a request for all of its bytes, which its one block has |
| MemHeap.TakenAreas | rt-smart/src/memheap.c:183-258 | an allocation adds one used block with enough room and changes no other |
| MemHeap.FreedAreas | rt-smart/src/memheap.c:535-591 | a free removes one used block and changes no other |
| MemHeap.CutAreas | rt-smart/src/memheap.c:350-485 | a resize in place changes one used block and no other |
| MemHeap.MemHeap.constructor | rt-smart/src/memheap.c:50-121 | one free block, the tailer and the free list |
| MemHeap.MemHeap.Search | rt-smart/src/memheap.c:170-180 | the loop along the free list stops at the first block with room, or finds none |
| MemHeap.MemHeap.Alloc | rt-smart/src/memheap.c:138-281 | the first block on the free list with room is split or taken, with both rings, the counter and its peak kept; it fails, and changes nothing, exactly if no more than the rounded size is available or no free block has room for it |
| MemHeap.MemHeap.Free | rt-smart/src/memheap.c:495-595 | the block is merged with its free neighbours in both rings |
| MemHeap.MemHeap.Grow | rt-smart/src/memheap.c:350-401 | the boundary to the next free block moves |
| MemHeap.MemHeap.Shrink | rt-smart/src/memheap.c:432-485 | the end of the block becomes free, joined with a free block behind it |
| MemHeap.MemHeap.Realloc | rt-smart/src/memheap.c:284-492 | callers hold the same blocks with the same bytes but for the one resized; that keeps its first min(old, new) bytes and has enough room and less than a header and a minimal block more, where it is exactly if it or the free block behind it has enough; it fails, and changes nothing, exactly if not and an allocation of the size does |
| Pages.AllocatedKeeps | rt-smart/src/slab.c:246-264 | page allocation removes exactly its pages from the free ones and keeps the runs sorted, apart and maximal |
| Pages.AllocatedIsLowest | rt-smart/src/slab.c:246-264 | it takes the lowest place with enough consecutive free pages, and fails only if there is none |
| Pages.FreedKeeps | rt-smart/src/slab.c:286-317 | freeing adds exactly its pages and keeps the runs sorted, apart and maximal |
| Pages.CanonicalUnique | rt-smart/src/slab.c:286-317 | the list of runs depends only on the set of free pages |
| Pages.SameFreeSameList | rt-smart/src/slab.c:236-322 | histories that end with the same free pages end with the same list |
| Pages.FreeUndoesAlloc | rt-smart/src/slab.c:236-322 | freeing what was just allocated restores the list |
| Pages.LinkedReplaced | rt-smart/src/slab.c:251-261 | exchanging runs and storing the one link and header keeps the headers describing the list |
| Pages.PageAllocator.constructor | rt-smart/src/slab.c:327-334 | one run |
| Pages.PageAllocator.AllocPages | rt-smart/src/slab.c:236-270 | through the headers kept in the pages, allocates first fit; zero pages give nothing |
| Pages.PageAllocator.FreePages | rt-smart/src/slab.c:272-322 | through the headers, frees and merges on either side |
| SizeClass.ZoneIndexFits | rt-smart/src/slab.c:401-459 | the index is below 72, gives the chunk size, and less than 8 bytes or an eighth is wasted |
| SizeClass.ZoneIndexMonotone | rt-smart/src/slab.c:401-459 | larger requests have no smaller index, and the index and the chunk size determine each other |
| SizeClass.RoundedTwice | rt-smart/src/slab.c:716-725 | a rounded request stays a zone request of the same class exactly up to 7680 or 15360 bytes, by the zone size, and is for pages beyond |
| SizeClass.RoundedToPages | rt-smart/src/slab.c:716-725 | 7681 bytes, and 15361 in larger zones, round to `zone_limit` |
| SlabRequests.RoundedRequest | rt-smart/src/slab.c:716-728 | so the allocation that `rt_realloc` makes is the one for the request itself, or one of `zone_limit` bytes in pages |
| SizeClass.ZoneHasRoom | rt-smart/src/slab.c:629-643 | a zone has at least three chunks, all inside it, and as many as fit |
| Slab.ChunkInOnePlace | rt-smart/src/slab.c:556-568 | every chunk of a zone is in exactly one of not used yet, on the chunk list, and live |
| Slab.TakeChunkKeeps | rt-smart/src/slab.c:544-568 | an allocation from a zone hands out a chunk that is not live and keeps `z_nfree` right |
| Slab.GiveChunkKeeps | rt-smart/src/slab.c:830-842 | a free keeps `z_nfree` right, and a full count means that no chunk is live |
| Slab.MallocAddsBlock | rt-smart/src/slab.c:478-667 | an allocation adds one block of at least the requested size that was not in use, or changes nothing |
| Slab.MallocFailsExactly | rt-smart/src/slab.c:493-607 | it fails exactly if there are not enough consecutive free pages and, for a small request, no zone with a chunk and no retired zone |
| Slab.MallocPages | rt-smart/src/slab.c:493-612 | an allocation takes from the free pages exactly those of a large block, or of a zone if none with a chunk is listed and none is retired |
| Slab.FreeRemovesBlock | rt-smart/src/slab.c:771-904 | a free removes exactly the block it is given |
| Slab.FreeGivesBack | rt-smart/src/slab.c:795-818 | a free of a large block gives back exactly its pages |
| Slab.RetiresExactly | rt-smart/src/slab.c:853-893 | a free retires the chunk's zone exactly if no other chunk of it is in use and another zone is on its list; two retired zones are kept, and the pages of a third are given back |
| Slab.BlocksApart | rt-smart/src/slab.c:478-667 | no two blocks in use overlap |
| Slab.BlockUsage | rt-smart/src/slab.c:795-828 | `memusage` leads from every block in use to its zone or its pages |
| Slab.HistoryKeeps | rt-smart/src/slab.c:478-904 | after every history a zone is on the list of its index exactly while it has a free chunk, at most two are retired, and pages have one owner |
| SlabRequests.ChunkAligned | rt-smart/src/slab.c:631-638 | chunks of a power-of-two size are aligned to it exactly if their zone is |
| SlabRequests.MallocAligned | rt-smart/src/slab.c:149-153 | in every state a request for a power of two is answered by an aligned address exactly if it is for at most a page or the page it will be answered from is aligned: that of the first zone listed, of a retired zone, or of the first run of enough pages |
| SlabRequests.LargeMisaligned | rt-smart/src/slab.c:493-513 | a heap in which 8192 bytes in pages are answered by 12288 |
| SlabRequests.ChunksMisaligned | rt-smart/src/slab.c:541-643 | a heap in which a new zone answers 8192 bytes by 94208, and then as a listed zone by 102400 |
| SlabRequests.RetiredMisaligned | rt-smart/src/slab.c:590-643 | a history after which a retired zone answers 8192 bytes by 159744 |
| Slab.Slab.constructor | rt-smart/src/slab.c:344-395 | no zone and no block; the pages of `memusage` are set apart at the start, and the zone size is the first of three whose double is not below a 1024th of the heap, or the largest |
| Slab.Slab.MallocBytes | rt-smart/src/slab.c:478-667 | does what the allocation on the pure state does, through zones, lists, `memusage` and the page allocator |
| Slab.Slab.FreeBytes | rt-smart/src/slab.c:771-904 | likewise for a free, with retirement and release of zones |
| Slab.Unlink | rt-smart/src/slab.c:863-865 | the search along the list removes the zone |
| Romfs.AddressesExact | rt-smart/tools/mkromfs.py:192-207 | every address that a dirent stores is that of the name or data it names |
| Romfs.PaddingTells | rt-smart/tools/mkromfs.py:170-200 | names are padded with one to four NULs and data with up to three, to a multiple of four |
| Romfs.AddressesAligned | rt-smart/tools/mkromfs.py:192-207 | every address that a dirent stores is a multiple of four if the image starts at one |
| Romfs.FittingPacks | rt-smart/tools/mkromfs.py:203-207 | an image that ends within 32 bits of address space is written without an error |
| Romfs.RoundTrip | rt-smart/tools/mkromfs.py:162-241 | reading the image from its base address gives back names, file bytes, sizes and nesting of the whole tree |
| Romfs.WriteNode | rt-smart/tools/mkromfs.py:162-211 | the loop writes the dirents and behind them the padded names and data, or raises an error exactly if a word does not fit |
| Romfs.WriteImage | rt-smart/tools/mkromfs.py:230-241 | the root dirent, its name and the tree |
| RomfsLookup.ImageIsImage | rt-smart/tools/mkromfs.py:230-241 | what the tool writes is an image that the lookup can read |
| RomfsLookup.Lookup | rt-smart/components/dfs/filesystems/romfs/dfs_romfs.c:69-147 | on a 32-bit target, where a dirent has 16 bytes, the lookup on the image finds the dirent of the node that the path names in the tree, or none if there is none |
| RomfsLookup.EveryNodeFound | rt-smart/components/dfs/filesystems/romfs/dfs_romfs.c:99-143 | every file and folder of a tree with distinct names is found by its path |
| RomfsLookup.FindTells | rt-smart/components/dfs/filesystems/romfs/dfs_romfs.c:99-143 | for every path a node is found exactly if the names in the path are those on a way to it, and taken for it early exactly if it is a file with some of the first names; otherwise nothing is found |
| RomfsLookup.FileTakenForFolder | rt-smart/components/dfs/filesystems/romfs/dfs_romfs.c:133-137 | a tree and a path behind its one file that finds the file |
| WorstStack.CorrectIsUnique | rt-smart/tools/WCS.py:245-299 | there is only one correct answer for a function, so visiting order and remembered results do not matter |
| WorstStack.CalleesDecide | rt-smart/tools/WCS.py:264-281 | a function without a pointer call recurses only if one of its callees does |
| WorstStack.ParentRecurses | rt-smart/tools/WCS.py:264-267 | a function found among its own callers recurses |
| WorstStack.LargestOfCallees | rt-smart/tools/WCS.py:284-290 | the largest callee and the own frame give the largest sum over all call chains |
| WorstStack.CollectedAll | rt-smart/tools/WCS.py:286-288 | the names gathered from the callees are those of all functions that can be reached |
| WorstStack.ManualCorrect | rt-smart/tools/WCS.py:189-200 | the preset answer of a manual entry is correct |
| WorstStack.Analysis.CalcWcs | rt-smart/tools/WCS.py:246-290 | the memoised search ends, and every answer it adds is unbounded exactly if a pointer call or a cycle can be reached, and otherwise the largest sum over call chains |
| WorstStack.Analysis.CalcAll | rt-smart/tools/WCS.py:292-299 | in any order, all functions get their answers |

## Left out

- The multiprocessor variants, interrupts nested inside critical sections, context switches and the MMU.
- Hooks, logging, object names, `rt_object` bookkeeping, finsh commands, and memory statistics other than `used_mem` and `max_used_size`.
- Creating, deleting and detaching IPC objects and threads; deleting a thread that was woken but has not run breaks the wake-up accounting.
- `rt_tick_set`, `rt_timer_control`, and timeout functions that start or stop timers; `rt_soft_timer_check`, whose loop is that of `rt_timer_check` on a second list.
- Semaphores, memory pools, signals, devices and the idle thread. That some thread can always run is a premise of `ScheduleRunsHighest`.
- TimerList.TimerList.Check: a due periodic timer of interval zero, with which the loop never ends while the tick stands still; and on several rows no exact condition over the whole check, since the rows that re-armed timers join depend on the counter - `Start` has it for each of them.
- Mailbox: threads block in `rt_mb_send_wait` again with the time they have left; the remaining time itself is not computed.
- MsgQueue: a message is a value, the copy of its bytes is one step with the critical section next to it, and the checks of message sizes are not part of this model.
- Mutex: one mutex per thread, and no priority changes by others; a suspended thread is not moved on its wait list when its priority changes.
- SmallMem.HeapInit: a heap of less than a minimal block is set up but is not `Valid()`; of requests to it only `ScanNeverEnds` is said.
- SmallMem: the links of `heap_end` backwards are left out, since splits do not maintain them; block magic and owner names are not modelled; the copy is byte by byte where `rt_memcpy` goes word by word.
- MemHeap: magic numbers, pool pointers and 32-bit wrap-around of pool sizes; what the stores of a header leave in its bytes.
- RomfsLookup.Lookup: reads dirents of 16 bytes, as the tool writes them. On a 64-bit target the structure has 32 bytes and 8-byte pointers, the lookup misreads the image, and nothing is claimed.
- Slab: `rt_realloc` but for how it rounds a request, `rt_calloc` and memory statistics of the slab allocator, and the window in `rt_malloc` and `rt_free` between the heap lock and the page allocator's own; a zone's chunk list and zone lists are sequences, with the search for a zone on its list as a loop.
- Pages.PageAllocator.FreePages: requires that the pages are not free already, which the assertion in the code only checks in part.
- Romfs: the C form of the image, walking and sorting the directory, names that are not bytes, and file reading by position; `Within` bounds the nesting that the reader follows, for any bound.
- WorstStack: parsing of compiler output and the resolution of names to functions; functions are numbered, so that being among the callers is a question of identity where the tool compares dictionaries by value.
- IpcQueue, Scheduler: wait lists and ready queues are sequences; that the kernel's linked lists behave like them is `RtList.QueueOfRing`.
