# PingPongOS: a verified model of the kernel's hard parts

PingPongOS is a small teaching kernel. This project models six of its components in Dafny and proves
what they are for: message queues over semaphores over a byte ring, the aging scheduler, the first-fit
heap, the dispatcher with its queues, the disk driver, and the arithmetic of `lib/libc.c`.

Each component comes in two layers. A class changes its fields and arrays the way the C code does; each of
its methods is proved to act as a function on values that states the operation's effect. About those
functions the lemmas prove what holds over every run; arguments, times and messages in the main results are
taken from the events of the run, not from what the steps write down. Every kernel call is one atomic step; timer
ticks and disk interrupts arrive between steps. Tasks, blocks of memory and user buffers are named by
addresses (`nat`, with 0 for a null pointer); the heap uses offsets, with -1 for null.

| component | class | meaning | results over runs |
|---|---|---|---|
| `lib/queue.c` | `Queues.Queue` | `Queues.QState` | `Queues`, `Sweeps` |
| `kernel/semaphore.c` | `Semaphores.Semaphore` | `Semaphores.Sem` | `Semaphores`, `SplitSemaphores` |
| `kernel/mqueue.c` | `Ring.CircularBuffer`, `MessageQueue.Mqueue` | `Ring.RingBuf`, `MsgQueue.Mq` | `MsgQueue`, `MsgQueueUsers` |
| `kernel/scheduler.c` | `Scheduler.Task` | `Scheduler.State` | `Scheduler` |
| `kernel/memory.c` | `Heap.Heap` | `HeapMemory.Memory`, `Blocks.Block` | `Allocation`, `HeapMemory`, `HeapRuns` |
| `kernel/dispatcher.c`, `kernel/time.c` | `TaskSystem.System` | `Dispatcher.Kernel` | `DispatcherLaws`, `TickLaws`, `CallLaws`, `DispatcherWitnesses` |
| `kernel/block.c`, `hardware/disk.c` | `DiskDrive.Disk`, `BlockDriver.System` | `DiskDriver.Driver` | `DiskDriver`, `DiskLaws`, `DiskUsers`, `DiskWitnesses` |
| `lib/libc.c` | `Random.Generator` | | `Random`, `Decimal` |

Where the code differs from what its comments or its callers may expect, the code is kept, an input on which it
fails is given, and the exact condition is proved:

- `mem_alloc` splits a block when the rest, minus a 32-byte header, is at least 16 in 64-bit unsigned
  arithmetic, so a rest of 0 or 16 bytes wraps around; and it never redirects the old successor's `prev`.
  A request is served correctly if and only if the block it takes leaves exactly 32 bytes, or at least 48
  and is the last block (`HeapMemory.AllocKeepsHeap`). Over whole runs of the code the heap stays well formed
  exactly as long as every request is of that kind (`HeapRuns.RunSaneIff`); two requests that leave it get
  memory outside the heap (`HeapRuns.OutsideTheHeap`). Requests alone, none of which wraps around, get the
  intended pointers in spite of the wrong `prev` links (`HeapRuns.AllocsFollow`). `Heap.Heap.MemAllocRepaired` and module `Allocation`
  have the two one-line repairs, a deviation, and serve every request.
- `queue_del` of the item under the iterator already moves the iterator, so the loops of `task_exit` and
  of the dispatcher skip one item after each deletion. "Every waiter is woken" is false
  (`DispatcherWitnesses.WaiterLeftBehind`); it holds exactly when no two waiters are neighbours in the
  suspended queue (`DispatcherLaws.ExitWakesAllIff`), and in a row of neighbours the first, third, fifth and
  so on are woken (`DispatcherLaws.ExitWakesByParity`). A waiter left behind stays suspended for ever unless
  somebody else wakes it (`DispatcherLaws.LeftBehindForEver`).
- `task_awake` may end a `task_wait` or a `task_sleep` early (`DispatcherWitnesses.CutShort`). At every moment
  of a run every task that is ready to return from one of them has what it was promised, if and only if every
  `task_awake` of the run finds a sleeper whose time has come, or a task that has waited for nobody or
  already has the result of its last wait (`DispatcherLaws.WaitAndSleepReturn`).
- A tick between lines 99 and 100 of `kernel/semaphore.c` can lose a wake-up. With the suspension as a step
  of its own tokens and mutex stay safe (`SplitSemaphores.EveryRunCounted`), and a task is lost exactly when it
  is taken off the wait queue before it has suspended itself (`SplitSemaphores.LostIff`).
- A disk interrupt between the manager's command and its suspension is lost, and a command for a block that
  does not exist is refused; after either, and after nothing else, nothing is served any more
  (`DiskLaws.StuckIff`, `DiskWitnesses`). A caller whose request is served before it suspends itself is never
  woken (`DiskLaws.WokenIffWaiting`).
- A width whose decrements wrap the `short` around prints over 32000 characters (`Decimal.FieldLength`,
  `Decimal.WrappedWidth`).
- `mqueue_recv` compares the ring's answer with -1, which the ring never gives; that is harmless because an
  empty ring is unreachable there (`MsgQueue.RingNeverFullNeverEmpty`).

## Model

| member | source | states |
|---|---|---|
| `Queues.Queue.Add` | lib/queue.c:66-100 | a null item or failed malloc gives ERROR and changes nothing; otherwise the item goes to the end, and the iterator stays on its node, or past the end |
| `Queues.Queue.LinkLast` | lib/queue.c:84-97 | the chain of nodes gets the new node at its end and stays a chain |
| `Queues.Queue.Del` | lib/queue.c:102-168 | ERROR exactly when the item is absent; otherwise the first occurrence leaves, `last` and `size` are right again, and the iterator moves only if it stood on that node |
| `Queues.Queue.DelLater` | lib/queue.c:144-164 | the same for a first occurrence after the first node |
| `Queues.Queue.UnlinkFirst` | lib/queue.c:130-142 | the chain loses its first node; iterator as for Del |
| `Queues.Queue.UnlinkAfter` | lib/queue.c:145-162 | the chain loses the node behind a given one; `last` is repaired |
| `Queues.Queue.Has` | lib/queue.c:170-182 | true exactly for the items in the queue |
| `Queues.Queue.Head` | lib/queue.c:192-203 | the iterator stands on the first item, which is returned |
| `Queues.Queue.Next` | lib/queue.c:205-218 | the iterator moves one item on, and that item or null is returned |
| `Queues.Queue.Item` | lib/queue.c:220-230 | the item under the iterator, or null |
| `Queues.Queue.Size` | lib/queue.c:184-190 | the number of items |
| `Queues.DelFirstOccurrence` | lib/queue.c:102-168 | deletion takes out one occurrence, the first, keeps the order of the rest, and changes the item under the iterator only if it was that one |
| `Queues.IterationListsQueue` | lib/queue.c:192-218 | head followed by n nexts visits the items in order, then null for ever |
| `Queues.UnlinkedChain` | lib/queue.c:150-154 | linking a node past its successor leaves a chain of the other nodes |
| `Sweeps.SweepPartitions` | kernel/dispatcher.c:188-197 | a loop that deletes while iterating loses and duplicates nothing and deletes only what qualifies |
| `Sweeps.WokenByParity` | kernel/dispatcher.c:188-197 | which items such a loop deletes, from the queue alone: in a row of neighbours that qualify the first, third, fifth and so on |
| `Sweeps.AllWokenIff` | kernel/dispatcher.c:188-197 | all qualifying items are deleted if and only if no two neighbours qualify |
| `Sweeps.MiddleLeftBehind` | kernel/dispatcher.c:188-197 | a queue of three that all qualify, of which the second is left behind |
| `Sweeps.LeftBehind` | kernel/dispatcher.c:188-197 | a qualifying item left behind directly followed a deleted one |
| `Sweeps.SoleHitIsWoken` | kernel/dispatcher.c:188-197 | an item that alone qualifies is always deleted |
| `Sweeps.KeptMovesForward` | kernel/dispatcher.c:240-246 | an item left behind moves forward in the queue, strictly if it qualifies |
| `Sweeps.DeleteUnderCursor` | kernel/dispatcher.c:190-196 | one turn of the loop, task_awake's queue_del and queue_next, against the remaining outcome of the loop |
| `Dispatcher.StepPlaced` | kernel/dispatcher.c:52-247 | after every step each task is in exactly the queue its status names, or running, and no assertion of the code has failed |
| `Dispatcher.TaskExitPlaced` | kernel/dispatcher.c:159-203 | the same for task_exit with its sweep of the suspended queue |
| `Dispatcher.SweepPassPlaced` | kernel/dispatcher.c:218-246 | the same for the status switch and the sweep of the sleeping queue; the RUNNING case is unreachable |
| `Dispatcher.TaskAwakePlaced` | kernel/dispatcher.c:108-131 | the same for task_awake: both asserted removals succeed |
| `Dispatcher.TickPlaced` | kernel/time.c:19-24 | the same for a timer tick, whoever is running; what the tick does is said by `TickLaws` |
| `DispatcherLaws.StepBalanced` | kernel/dispatcher.c:52-106 | every step keeps: the tasks' activations sum to the kernel's count, minus one while the kernel runs |
| `DispatcherLaws.EveryRunPlacedAndBalanced` | kernel/dispatcher.c:52-247 | both invariants over every run |
| `DispatcherLaws.RunFromBoot` | kernel/dispatcher.c:205-247 | both invariants in every run from the start of dispatcher(), and no assertion ever fails |
| `DispatcherLaws.FinishedForEver` | kernel/dispatcher.c:159-203 | a finished task never runs again and its exit code never changes |
| `DispatcherLaws.StepCallsOk` | kernel/dispatcher.c:108-157 | the invariant behind the next row is kept by a step if and only if the step is a timely one, judged by the records of the task awakened and of its target |
| `DispatcherLaws.TimelyRunIff` | kernel/dispatcher.c:108-157 | from any consistent state: every task_awake of a run is timely if and only if at every moment every task ready to return from task_wait or task_sleep has what it was promised |
| `DispatcherLaws.WaitAndSleepReturn` | kernel/dispatcher.c:133-157 | the same from boot: task_wait returns the exit code of a finished target and task_sleep not before its wake-up time, throughout a run, if and only if every task_awake is timely |
| `DispatcherLaws.UntimelyBreaks` | kernel/dispatcher.c:108-131 | a task_awake that is not timely breaks its task's promise there and then |
| `DispatcherWitnesses.CutShort` | kernel/dispatcher.c:108-151 | a run from boot in which task_wait is about to return while its target has not finished |
| `DispatcherLaws.ExitWakesItsWaiters` | kernel/dispatcher.c:183-203 | task_exit wakes only its own waiters with its exit code; a waiter left behind directly followed a woken task, so a sole waiter is woken |
| `DispatcherLaws.ExitWakesByParity` | kernel/dispatcher.c:188-197 | whether task_exit wakes the task at a given place of the suspended queue, from that queue alone |
| `DispatcherLaws.ExitWakesAllIff` | kernel/dispatcher.c:188-197 | task_exit wakes all its waiters if and only if no two of them are neighbours in the suspended queue |
| `DispatcherLaws.SweepWakesAllIff` | kernel/dispatcher.c:240-246 | one dispatcher pass wakes all expired sleepers if and only if no two of them are neighbours in the sleeping queue |
| `DispatcherLaws.LeftBehindForEver` | kernel/dispatcher.c:183-203 | over every run a waiter left behind stays suspended unless task_awake is called on it |
| `DispatcherWitnesses.WaiterLeftBehind` | kernel/dispatcher.c:183-203 | a run from boot after which a task waits for a finished one and does not have its exit code |
| `DispatcherLaws.ExpiredSleeperWoken` | kernel/dispatcher.c:240-246 | an expired sleeper at position p is woken within p + 1 dispatcher passes, whatever happens in between |
| `TickLaws.ClockCounts` | kernel/time.c:19-33 | over every run systime() advances by the number of ticks and by nothing else |
| `TickLaws.PreemptedByItsQuantum` | kernel/time.c:19-24 | a task that was just dispatched and makes no call still runs after fewer than QUANTUM ticks, whatever else happens; with the QUANTUM-th the kernel runs and the task is Ready at the end of the ready queue |
| `TickLaws.KernelTick` | kernel/time.c:22-23 | a tick while the kernel runs queues nobody, and the kernel goes on with a new quantum when its own is used up |
| `TickLaws.SleepsUntil` | kernel/dispatcher.c:153-157 | a task that calls task_sleep(t) at time T stays in the sleeping queue while the clock is below T + t, over every run whose task_awake calls are timely |
| `TickLaws.WokenWhenDue` | kernel/dispatcher.c:153-246 | from T + t on, at most as many dispatcher passes leave it there as sleepers stand before it |
| `TickLaws.StopsIff` | kernel/dispatcher.c:211 | the dispatcher loop ends exactly when nobody sleeps, no disk request is open and at most one task is ready |
| `TickLaws.StoppedIsIdle` | kernel/dispatcher.c:211-247 | in every run it has not ended while a task sleeps or two are ready |
| `CallLaws.StatusAfter` | kernel/dispatcher.c:52-247 | for every event and every task: the status changes only by the call, tick, choice or sweep that the code names for it, and always does then; with the placement invariant this gives the queues and the running task |
| `CallLaws.RecordKept` | kernel/dispatcher.c:52-247 | a task that does not run and keeps its status keeps its whole record |
| `CallLaws.ExitCodeAfter` | kernel/dispatcher.c:183-184 | only task_exit sets an exit code, the one it was called with |
| `CallLaws.TargetAfter` | kernel/dispatcher.c:133-144 | only task_wait sets a target, the one it was called with, and only when it suspends |
| `CallLaws.WaitReturnsExitCode` | kernel/dispatcher.c:133-151 | after task_wait(g) on a living g, over every run whose task_awake calls are timely: the caller is suspended, or g has finished and what task_wait will return is its exit code |
| `CallLaws.ActivationsAreTurns` | kernel/dispatcher.c:52-66 | over every run the activations of a task count the dispatcher turns it was chosen for |
| `CallLaws.PhaseAfter` | kernel/dispatcher.c:211-247 | the course of the dispatcher loop: choice, the chosen task, or nobody, then one sweep, then the next choice |
| `CallLaws.IdleTurn` | kernel/dispatcher.c:211-247 | with nobody ready a turn of the loop wakes, of a row of expired neighbours, the first, third, fifth and so on, and is ready to choose again |
| `CallLaws.SweepInOrder` | kernel/dispatcher.c:188-197 | what a sweep leaves in a queue and what it takes out both keep their order |
| `CallLaws.StepFifo` | kernel/dispatcher.c:52-247 | no step lets a task overtake another in the ready, suspended, sleeping or finished queue |
| `CallLaws.NobodyOvertakes` | kernel/dispatcher.c:95-131 | over every run: while a task stays suspended, whoever stood behind it or came later stands behind it |
| `CallLaws.WokenInOrder` | kernel/dispatcher.c:188-246 | tasks woken by one task_exit or one dispatcher pass become ready in the order of their queue |
| `TaskSystem.System.TaskRun` | kernel/dispatcher.c:52-66 | leaves the ready queue, gets a full quantum and one more activation, runs; nothing changes if it was not ready |
| `TaskSystem.System.TaskYield` | kernel/dispatcher.c:68-93 | the current task goes to the end of the ready queue; the kernel is neither queued nor counted |
| `TaskSystem.System.TaskSuspend` | kernel/dispatcher.c:95-106 | the current task goes to the queue given and the kernel runs |
| `TaskSystem.System.TaskAwake` | kernel/dispatcher.c:108-131 | only a suspended task moves, out of the sleeping or the suspended queue into the ready queue; the asserted removals succeed |
| `TaskSystem.System.TaskWait` | kernel/dispatcher.c:133-151 | -1 for null, the exit code of a finished target at once, otherwise suspended with the target recorded |
| `TaskSystem.System.TaskSleep` | kernel/dispatcher.c:153-157 | asleep until the present time plus t |
| `TaskSystem.System.TaskExit` | kernel/dispatcher.c:159-203 | the literal loop over the suspended queue has the outcome the sweep functions give, and the placement invariant is kept |
| `TaskSystem.System.WakeWaiters` | kernel/dispatcher.c:188-197 | that loop: the tasks woken, the order they become ready in, and the tasks kept |
| `TaskSystem.System.SweepSleepers` | kernel/dispatcher.c:218-246 | the status switch cannot see RUNNING, and the sweep of the sleepers has the outcome the sweep functions give |
| `TaskSystem.System.WakeExpired` | kernel/dispatcher.c:240-246 | the loop of that sweep |
| `TaskSystem.System.Dispatch` | kernel/dispatcher.c:211-216 | the loop condition and the choice of the next task |
| `TaskSystem.System.HandleTimer` | kernel/time.c:19-24 | one tick, with the preemption when the quantum is used up |
| `Semaphores.SemCreate` | kernel/semaphore.c:54-76 | null for a negative value; otherwise a living semaphore with that value and nobody waiting |
| `Semaphores.Semaphore.SemDown` | kernel/semaphore.c:80-100 | fails when destroyed; otherwise takes a token, or queues the caller at the end |
| `Semaphores.Semaphore.SemDownResume` | kernel/semaphore.c:103-114 | after the wake-up: gives the token back and fails when destroyed meanwhile; the value is not looked at again |
| `Semaphores.Semaphore.SemUp` | kernel/semaphore.c:119-138 | fails when destroyed; otherwise adds a token and hands it to the oldest waiter |
| `Semaphores.Semaphore.SemDestroy` | kernel/semaphore.c:142-163 | the draining loop wakes all waiters in queue order and leaves the value alone |
| `Semaphores.StepAccounted` | kernel/semaphore.c:80-163 | every call keeps: value = initial + ups - successful downs - pending downs, and while alive the queue length is max(0, -value) |
| `Semaphores.EveryRunAccounted` | kernel/semaphore.c:80-163 | the same over every run, sem_destroy included; after the drain the value is not negative |
| `Semaphores.RunFromCreation` | kernel/semaphore.c:54-163 | from sem_create on, successful downs never exceed the initial value plus the ups |
| `Semaphores.GrantedByItsUp` | kernel/semaphore.c:119-138 | the waiter at position p is granted by exactly the (p+1)-th later sem_up |
| `Semaphores.LiveFromCreation` | kernel/semaphore.c:54-138 | without sem_destroy, from the calls alone: the value is the initial one plus ups minus downs, as many tasks wait as downs exceed initial value plus ups, and all other downs have got a token |
| `Semaphores.DestroyedForEver` | kernel/semaphore.c:80-163 | after sem_destroy nobody ever waits again, every sem_down, resumed or new, and every sem_up fails, whatever the value is |
| `Semaphores.WhereAfter` | kernel/semaphore.c:80-163 | who waits and who is on the way out after every call |
| `SplitSemaphores.StepCounted` | kernel/semaphore.c:80-163 | with the suspension of sem_down as a step of its own: value = initial + ups - successful downs - pending downs, lost wake-ups included |
| `SplitSemaphores.WhereAfter` | kernel/semaphore.c:95-163 | who is before the suspension, suspended or woken after every event; sem_up and sem_destroy awaken only tasks that have suspended themselves |
| `SplitSemaphores.EveryRunCounted` | kernel/semaphore.c:80-163 | over every run of such steps the successful downs never exceed the initial value plus the ups |
| `SplitSemaphores.MutexSafe` | kernel/semaphore.c:80-138 | a semaphore made with 1 lets at most one task between down and up, even when wake-ups are lost |
| `SplitSemaphores.LostStep` | kernel/semaphore.c:95-138 | a wake-up is lost exactly when sem_up or sem_destroy takes a task off the wait queue that has not suspended itself yet |
| `SplitSemaphores.LostIff` | kernel/semaphore.c:95-163 | the same over runs, in both directions; a lost task stays lost |
| `SplitSemaphores.LostWakeUp` | kernel/semaphore.c:95-100 | the shortest run that loses a wake-up |
| `Ring.CircularBuffer.Add` | kernel/mqueue.c:59-89 | the error cases, and the bytes and indices after an insertion |
| `Ring.CircularBuffer.Remove` | kernel/mqueue.c:98-121 | the error cases, the bytes copied out and the indices; the buffer is not changed |
| `Ring.AddAppends` | kernel/mqueue.c:59-89 | unless full, the stored items become the old ones followed by the new one, although `end` stays put on an empty ring |
| `Ring.RemoveTakesOldest` | kernel/mqueue.c:98-121 | unless empty, the oldest item comes out whole and the rest stays in order, although `start` stays put on the last item |
| `MsgQueue.InitInv` | kernel/mqueue.c:132-169 | a new queue satisfies the protocol invariant |
| `MsgQueue.DownLockInv` | kernel/mqueue.c:197-200 | taking the mutex keeps the invariant, granted or suspended |
| `MsgQueue.UpLockInv` | kernel/mqueue.c:206-209 | releasing it does, with the direct hand-over to the oldest waiter |
| `MsgQueue.UpItemsInv` | kernel/mqueue.c:210-215 | so does announcing an item |
| `MsgQueue.UpSpaceInv` | kernel/mqueue.c:240-245 | so does giving back a slot |
| `MsgQueue.InsertInv` | kernel/mqueue.c:202-204 | a sender inside the mutex always finds room, and its message is appended |
| `MsgQueue.ExtractInv` | kernel/mqueue.c:232-234 | a receiver inside the mutex always finds an item, and gets the oldest message not yet received |
| `MsgQueue.StepInv` | kernel/mqueue.c:187-246 | every step of every sender and receiver keeps the invariant |
| `MsgQueue.FirstInFirstOut` | kernel/mqueue.c:59-252 | in every interleaving of any number of senders and receivers, messages received followed by the ring's contents are, byte for byte and in order, the messages inserted; no call returns an error |
| `MsgQueueUsers.StepAgrees` | kernel/mqueue.c:187-246 | every step does to the queue what its users see: a sender carries the message it was called with until the ring holds it, a receiver its buffer until it holds the oldest message |
| `MsgQueueUsers.EndToEnd` | kernel/mqueue.c:187-246 | in every interleaving the ring holds the arguments of the mqueue_send calls in the order of insertion, less the oldest, which receivers have been given; every call returns NOERROR, and a mqueue_recv with the message it was given in its buffer |
| `MsgQueueUsers.GoesOn` | kernel/mqueue.c:187-246 | where a call stands after each turn of its task: it stops half-way for nothing but a sem_down without a token |
| `MsgQueue.RunConserves` | kernel/mqueue.c:187-246 | in every run tokens free, granted and held plus stored items plus slots awaiting release are max_msgs; at most one task is inside the mutex |
| `MsgQueue.RingNeverFullNeverEmpty` | kernel/mqueue.c:202-232 | circular_buffer_add never sees a full ring and circular_buffer_remove never an empty one |
| `MsgQueue.OnlyDeadlocks` | kernel/mqueue.c:187-246 | if all calls in progress are blocked, none waits for the mutex, and all are senders at a full ring or all receivers at an empty one |
| `MessageQueue.MqueueCreate` | kernel/mqueue.c:132-169 | null for a non-positive capacity or a size of at most 1; otherwise the object starts as the empty queue of the protocol |
| `MessageQueue.Mqueue.Advance` | kernel/mqueue.c:187-246 | the ring and semaphore objects, changed in place, do the steps of the protocol |
| `MessageQueue.Mqueue.AdvanceSender` | kernel/mqueue.c:187-216 | the same for a task inside mqueue_send |
| `MessageQueue.Mqueue.AdvanceReceiver` | kernel/mqueue.c:218-246 | the same for a task inside mqueue_recv |
| `MessageQueue.Mqueue.Msgs` | kernel/mqueue.c:248-252 | the number of messages sent and not yet received |
| `Scheduler.Schedule` | kernel/scheduler.c:24-51 | null for an empty queue; otherwise the first minimum before aging is answered and reset, and every other task ages by one |
| `Scheduler.AgeAndCompare` | kernel/scheduler.c:36-46 | the loop: comparing aged values plus one finds the first minimum of the values before aging |
| `Scheduler.SchedSetPrio` | kernel/scheduler.c:53-70 | both priorities of the task, or of the current one for null, become the new one |
| `Scheduler.WinnerIsFirstMinimum` | kernel/scheduler.c:36-46 | the winner is minimal, and strictly smaller than all before it |
| `Scheduler.PassAgrees` | kernel/scheduler.c:24-51 | the pass over the queue is the pass over all tasks used for the bound |
| `Scheduler.PassKeepsSpread` | kernel/scheduler.c:36-50 | one pass keeps: at most n - k of the n tasks have sunk to -20 - k, for every k |
| `Scheduler.StepInv` | kernel/scheduler.c:24-70 | so do suspensions, wake-ups, creations and new priorities |
| `Scheduler.NeverBelow` | kernel/scheduler.c:24-70 | over every run no dynamic priority falls below -(19 + n) |
| `Scheduler.AgesEveryPass` | kernel/scheduler.c:38-46 | a ready task that is passed over ages by one with every pass |
| `Scheduler.AgesFromStatic` | kernel/scheduler.c:36-70 | over every run the static priority is the one last set, and the dynamic priority is below it by the number of passes that have passed over the task since its last turn or new priority |
| `Scheduler.SelectedFirst` | kernel/scheduler.c:36-50 | the answer has the least dynamic priority, and among equals has been in the queue longest |
| `Scheduler.ReadyAfter` | kernel/dispatcher.c:52-66 | of the ready tasks the answer, and nobody else, leaves the queue by its turn |
| `Scheduler.NoStarvation` | kernel/scheduler.c:24-70 | a task that stays ready and is not given a new priority is selected within n + 40 calls |
| `Blocks.RoundedBits` | kernel/memory.c:105-106 | on machine words (size-1 with its low four bits set)+1 is the multiple of 16 in [size, size + 16) |
| `Blocks.Rounded` | kernel/memory.c:105-106 | the same number in integer arithmetic |
| `Blocks.FirstFit` | kernel/memory.c:108-159 | the lowest free block that is large enough, or none |
| `Blocks.AllocKeeps` | kernel/memory.c:111-152 | with the two repairs: the split keeps the blocks tiling the heap with no two free neighbours, adds one live payload, and charges the counters exactly |
| `Blocks.FreeKeeps` | kernel/memory.c:190-217 | release with both merges keeps that, removes exactly one live payload, and credits the counters exactly |
| `Blocks.MergeKeeps` | kernel/memory.c:196-215 | a merge of free neighbours saves one header and changes nothing else |
| `Blocks.LiveInside` | kernel/memory.c:151-152 | live payloads are 16-aligned, not empty and inside the heap |
| `Blocks.LiveDisjoint` | kernel/memory.c:94-218 | two live payloads never overlap and have a header between them |
| `Blocks.FitIsCounted` | kernel/memory.c:99-101 | a block that fits is counted in available_bytes, so the early exit rejects nothing satisfiable |
| `Blocks.UsedIsNotFree` | kernel/memory.c:165-167 | while a payload is live available_bytes is below HEAP_SIZE, so the early exit rejects no live pointer |
| `Blocks.FreeUndoesAlloc` | kernel/memory.c:94-218 | with the two repairs: releasing a block just allocated restores the block list exactly |
| `Blocks.NothingUsed` | kernel/memory.c:33-52 | a well-formed heap with nothing live is the single block of mem_init |
| `Allocation.AllocFails` | kernel/memory.c:94-162 | mem_alloc of a positive size fails if and only if no free block holds the rounded size |
| `Allocation.AllocGives` | kernel/memory.c:94-162 | with the two repairs: the payload is aligned, large enough, inside the heap and apart from all live ones |
| `Allocation.FreeSucceeds` | kernel/memory.c:164-193 | mem_free succeeds if and only if the pointer is a live payload |
| `Allocation.FreeTakes` | kernel/memory.c:164-218 | exactly that payload stops being live |
| `Allocation.FreeRestores` | kernel/memory.c:94-218 | with the two repairs: mem_free right after mem_alloc brings back the previous block list |
| `Allocation.FreeAllRestores` | kernel/memory.c:164-218 | freeing all live payloads in any order leaves the heap of mem_init |
| `Allocation.EveryRunSound` | kernel/memory.c:94-218 | with the two repairs: over every run of calls the pointers handed out and not freed are the live payloads, each as large as asked for |
| `Allocation.RunFromInit` | kernel/memory.c:33-218 | with the two repairs: from mem_init on, the stretches that users hold are aligned, inside the heap and disjoint |
| `HeapMemory.NextPrevInverse` | kernel/memory.c:25-31 | next and prev undo each other, and a next header lies exactly behind its block |
| `HeapMemory.Unambiguous` | kernel/memory.c:25-31 | the headers describe at most one list of blocks |
| `HeapMemory.MergeRepresents` | kernel/memory.c:195-215 | the writes of either merge leave headers that describe the merged list |
| `HeapMemory.ReleaseRepresents` | kernel/memory.c:190 | clearing is_used leaves headers that describe the released block |
| `HeapMemory.AllocKeepsHeap` | kernel/memory.c:111-144 | the code as it stands leaves a well-formed heap if and only if the block leaves 32 bytes, or at least 48 and is the last; then it is the intended one |
| `HeapMemory.WrapBreaks` | kernel/memory.c:117-133 | a rest of 0 or 16 bytes wraps around and writes a header no block list contains |
| `HeapMemory.AllocWalks` | kernel/memory.c:111-144 | unless the rest wraps around, walking next after mem_alloc visits exactly the intended blocks, the wrong prev of an old successor notwithstanding |
| `HeapMemory.SplitBreaks` | kernel/memory.c:124-138 | splitting a block that has a successor leaves that successor's prev wrong |
| `HeapMemory.BrokenRequests` | kernel/memory.c:117-138 | one concrete request for each of the two |
| `HeapMemory.SafeAgrees` | kernel/memory.c:115-144 | on the other requests the code writes what the repaired code writes |
| `HeapMemory.RepairedRepresents` | kernel/memory.c:115-144 | with the two repairs the headers describe the intended list for every request |
| `HeapRuns.AllocStoreIs` | kernel/memory.c:94-162 | the code's mem_alloc on a well-formed heap: its result, the headers it writes and the counters; a failed call changes nothing |
| `HeapRuns.AllocStoreSane` | kernel/memory.c:94-162 | it leaves a well-formed heap, with right counters, if and only if the request is one it serves correctly |
| `HeapRuns.HeaderTaken` | kernel/memory.c:111-152 | in any state of the heap: the header taken was free and large enough, is in use and keeps its prev; besides it only the header behind the payload changes |
| `HeapRuns.NeverTwice` | kernel/memory.c:111-112 | in any state of the heap: the next request never gets the same pointer |
| `HeapRuns.HeadersAfter` | kernel/memory.c:117-144 | the exact headers and counters after every successful request on a well-formed heap |
| `HeapRuns.AllocFollows` | kernel/memory.c:94-162 | a request whose rest does not wrap around gets the intended pointer and leaves the intended walk and counters, also after splits that have left wrong prev links |
| `HeapRuns.AllocsFollow` | kernel/memory.c:94-162 | the same for any sequence of requests |
| `HeapRuns.FreeStoreSane` | kernel/memory.c:164-218 | the code's mem_free always agrees with the list function, headers and counters |
| `HeapRuns.RunSaneIff` | kernel/memory.c:94-218 | over every run of the code: headers and counters describe a well-formed heap after every call if and only if every request is one it serves correctly in the heap it meets; then heap and users are those of the repaired allocator |
| `HeapRuns.CodeFromInit` | kernel/memory.c:33-218 | the same from mem_init; while it holds the stretches that users hold are aligned, inside the heap and disjoint |
| `HeapRuns.CodeFreeRestores` | kernel/memory.c:94-218 | the code's mem_free right after a mem_alloc that it serves correctly restores block list and counters |
| `HeapRuns.OutsideTheHeap` | kernel/memory.c:94-153 | two requests after mem_init of which the second gets a pointer beyond the heap |
| `Heap.Heap.constructor` | kernel/memory.c:33-52 | one free block, all bytes available |
| `Heap.Heap.MemAvail` | kernel/memory.c:57-59 | the free payload bytes plus 32, and HEAP_SIZE minus the allocated bytes |
| `Heap.Heap.FindFit` | kernel/memory.c:103-159 | the walk along next finds the first block that fits, or null |
| `Heap.Heap.Take` | kernel/memory.c:112-144 | the literal writes and counters; on the good requests the invariant is kept |
| `Heap.Heap.MemAlloc` | kernel/memory.c:94-162 | the pointer, the headers and the counters of the code for every request, and the invariant kept on those it serves correctly |
| `Heap.Heap.MemAllocRepaired` | kernel/memory.c:94-162 | the deviation with the two repairs keeps the invariant on every request |
| `Heap.Heap.MemFree` | kernel/memory.c:164-218 | the status, the headers and the counters of the code; an error if and only if the pointer is not a live payload; the invariant kept |
| `Heap.Heap.FindBlock` | kernel/memory.c:174-181 | the walk finds the header sought, or null |
| `Heap.Heap.Release` | kernel/memory.c:190-193 | is_used cleared and the counters moved |
| `Heap.Heap.JoinNext` | kernel/memory.c:195-204 | the forward merge, done exactly when the successor is free |
| `Heap.Heap.JoinPrevious` | kernel/memory.c:206-215 | the backward merge, done exactly when the predecessor is free |
| `DiskDrive.Disk.HwDiskCmd` | hardware/disk.c:200-266 | what each command answers; a transfer is accepted exactly by an idle disk with a buffer and a valid block |
| `DiskDrive.Disk.SigHandle` | hardware/disk.c:105-142 | exactly the pending block or buffer is copied, and the disk is idle again; without a transfer pending it aborts |
| `DiskDriver.LatestWrite` | hardware/disk.c:113-126 | after a sequence of writes a block holds the latest one to it, or its initial contents |
| `DiskDriver.CommandAccepted` | kernel/block.c:37-40 | the manager's command always finds the disk idle, and is accepted exactly when the block exists |
| `DiskDriver.DeletesHead` | kernel/block.c:43 | queue_del removes the served request even when its task has queued a new one at the same address |
| `DiskDriver.ItemIsOldest` | kernel/block.c:38 | queue_item is the oldest request not yet served |
| `DiskDriver.BusyWithHead` | hardware/disk.c:114-126 | a signal serves the request at the head of the queue and only comes while the manager waits for it |
| `DiskDriver.StepInv` | kernel/block.c:28-118 | every step of the callers, the manager and the disk keeps the driver's invariant |
| `DiskDriver.EveryRunInv` | kernel/block.c:28-118 | so does every run |
| `DiskLaws.CallDelivers` | kernel/block.c:83-118 | a call returns only after its own transfer, with success; a read delivers the latest earlier-queued write to the block, or the initial contents |
| `DiskUsers.LogIsCalls` | kernel/block.c:83-118 | the queued requests carry task, kind, block, buffer and data of the calls of the run, in their order |
| `DiskUsers.ReadsWhatWasWritten` | kernel/block.c:83-118 | end to end: when block_read(b, p) is about to return, p holds what the latest earlier block_write(b, ..) passed in, or the initial contents |
| `DiskUsers.ServedInOrderOfCalls` | kernel/block.c:28-118 | the disk holds the writes among the calls completed so far, applied in the order of the calls, and the queue the rest |
| `DiskUsers.MemoryStep` | hardware/disk.c:105-142 | nothing in the driver changes user memory but the signal, which puts the block asked for into the buffer of the oldest read |
| `DiskUsers.PlaceAfter` | kernel/block.c:42-118 | how every call goes on: queued, waiting, awakened when its own request is the one just served, returned |
| `DiskLaws.FirstComeFirstServed` | kernel/block.c:28-57 | requests complete in queue order; the disk holds the completed writes applied in that order |
| `DiskLaws.NeverBusy` | kernel/block.c:30-56 | the manager never issues a command to a busy disk, its commands fail only for blocks that do not exist, and its branches for a busy or unknown disk are unreachable |
| `DiskLaws.StuckStep` | kernel/block.c:40-61 | the manager gets stuck exactly by an interrupt before its suspension or by a command the disk refuses, and then nothing completes any more |
| `DiskLaws.StuckIff` | kernel/block.c:40-61 | the same over runs, in both directions |
| `DiskWitnesses.EarlySignal` | kernel/block.c:40-61 | a run from boot whose interrupt comes too early |
| `DiskWitnesses.RefusedBlock` | kernel/block.c:40-41 | a run from boot with a request for a block that does not exist |
| `DiskWitnesses.ForgottenCaller` | kernel/block.c:42-96 | a run from boot whose caller is not woken |
| `DiskLaws.WokenIffWaiting` | kernel/block.c:42 | the caller is woken if and only if it had suspended itself by then |
| `DiskLaws.ForgottenForEver` | kernel/block.c:93-98 | a caller not woken then is never woken |
| `DiskLaws.ServedInTurn` | kernel/block.c:28-57 | unless the manager gets stuck, the request at position p is transferred within 7 p + 5 steps of manager and disk |
| `BlockDriver.System.constructor` | kernel/block.c:64-73 | the state after boot |
| `BlockDriver.System.BlockRead` | kernel/block.c:83-96 | ERROR for a null buffer; otherwise the request is queued |
| `BlockDriver.System.BlockWrite` | kernel/block.c:101-115 | the same for a write |
| `BlockDriver.System.SuspendCaller` | kernel/block.c:96 | the caller waits |
| `BlockDriver.System.Return` | kernel/block.c:98 | the value returned is NOERROR |
| `BlockDriver.System.Turn` | kernel/block.c:30-56 | one kernel or hardware call of disk_manager, on the disk object and the queue |
| `BlockDriver.System.DiskManager` | kernel/block.c:28-57 | each of them is the manager's step of the protocol and keeps the invariant |
| `BlockDriver.System.DiskInterrupt` | kernel/block.c:59-62 | signal and handler together are the interrupt step of the protocol and keep the invariant |
| `Random.Generator.RandSeed` | lib/libc.c:27-30 | the low 32 bits of the seed |
| `Random.Generator.RandNum` | lib/libc.c:34-39 | the next state and the answer; the 64-bit product and sum never overflow |
| `Random.UnreducedClosedForm` | lib/libc.c:37 | n steps without reduction as a geometric sum |
| `Random.SumDivisibility` | lib/libc.c:37 | the sum of n powers of the multiplier is divisible by exactly the powers of two that divide n |
| `Random.IterateReduces` | lib/libc.c:37 | reducing at every step changes nothing but a multiple of 2^31 |
| `Random.LowBitsPeriod` | lib/libc.c:34-39 | the low j bits after i and after k calls agree if and only if 2^j divides k - i |
| `Random.LowBitsHit` | lib/libc.c:34-39 | within any 2^j consecutive calls the low j bits take every value |
| `Random.FullPeriod` | lib/libc.c:27-39 | from any seed, any 2^31 consecutive calls return every value below 2^31 exactly once |
| `Random.FirstNumbers` | lib/libc.c:23-39 | the first two numbers of a generator that was not seeded |
| `Decimal.PrintDecimal` | lib/libc.c:197-253 | the whole %d branch emits the declarative rendering; no int overflows |
| `Decimal.Measure` | lib/libc.c:216-222 | the loop ends with the power of ten of the first digit and one decrement per further digit |
| `Decimal.EmitDigits` | lib/libc.c:236-242 | the loop emits the decimal digits, most significant first |
| `Decimal.Pad` | lib/libc.c:224-230 | the padding loop emits width blanks, none for a negative width |
| `Decimal.ParseUndoesPrint` | lib/libc.c:197-253 | for every value, width and side the output parses back to the value |
| `Decimal.NoLeadingZeros` | lib/libc.c:236-242 | the first digit is 0 only for the number 0 |
| `Decimal.FieldLength` | lib/libc.c:205-250 | the output is max(width, natural length) long if and only if the width, less that length, is not below -32768; otherwise it is width + 65536 long |
| `Decimal.WrappedWidth` | lib/libc.c:130-134 | the width of "%32768d" |

## Left out

- Context switching and emulated hardware: `kernel/ctx.s`, `hardware/cpu.c`, `hardware/serial.c`, POSIX timers and signals, and the `xchg` spin lock, which is atomic here.
- Preemption inside a kernel call. The code does not mask interrupts there, so a tick inside a queue operation is outside the step model. The suspensions of sem_down and of the disk calls are steps of their own in `SplitSemaphores` and `DiskDriver`; in `MsgQueue` sem_down is one step, on which "no other deadlock" depends.
- Which ready task the dispatcher runs: any one in `Dispatcher`; the choice is the subject of `Scheduler`.
- `TaskSystem`, `Semaphores` and `BlockDriver` hold their queues as the sequence with a cursor that `Queues.Queue` is proved to implement, and task records as values in a sequence.
- `MessageQueue.Mqueue` carries the program points of its tasks itself and does not share the dispatcher's queues.
- Blocks.Rounded: the bitwise or with 15 is written as division; RoundedBits proves the same three facts on 32-bit words.
- Heap.Heap.MemAlloc: needs a well-formed heap, so it says what a request that breaks the heap writes and nothing about later calls; `HeapRuns` goes on from there. Headers are values indexed by byte offset, so a header written 16 bytes before another one does not overwrite half of it; that request already breaks the heap.
- Heap.Heap.MemAllocRepaired: has the two repairs, a deviation; for the code see Heap.Heap.MemAlloc.
- HeapMemory.RepairedRepresents: has the two repairs; for the code see HeapMemory.AllocKeepsHeap.
- Blocks.AllocKeeps: has the two repairs; for the code see HeapMemory.AllocKeepsHeap.
- Blocks.FreeUndoesAlloc: has the two repairs; for the code see HeapRuns.CodeFreeRestores.
- Allocation.AllocGives: has the two repairs; for the code see HeapRuns.AllocStoreIs and HeapRuns.AllocStoreSane.
- Allocation.FreeRestores: has the two repairs; for the code see HeapRuns.CodeFreeRestores.
- Allocation.EveryRunSound: has the two repairs; for the code see HeapRuns.RunSaneIff.
- Allocation.RunFromInit: has the two repairs; for the code see HeapRuns.CodeFromInit.
- Heap block ids, `mem_report` and debug output.
- Decimal.PrintDecimal: excludes the minimum int, whose negation overflows; the parsing of the format string (a width with a digit 0) and the other branches of `printk` are not modelled.
- TaskSystem.System.TaskSleep: `systime() + t` is an unbounded integer here; in C its overflow is undefined.
- TaskSystem.System.TaskWait: the value returned after a suspension is the subject of `CallLaws.WaitReturnsExitCode` and `DispatcherLaws.WaitAndSleepReturn`.
- `execution_time`: a yield charges a full quantum and a suspension nothing, so there is no accounting law.
- `mqueue_destroy`, failed allocations in `mqueue_create` and `sem_create`, and null arguments of the message queue calls.
- BlockDriver.System.constructor: `block_init` puts the manager into the ready and the suspended queue at once; the model starts after boot, with the manager at the top of its loop.
- BlockDriver.System.BlockRead: the buffer must not be in use by another call, because then neither call has a result of its own; a request lives at its task's address.
- BlockDriver.System.BlockWrite: as BlockDriver.System.BlockRead.
- Wake-ups from elsewhere: in `DiskDriver` only the driver wakes its callers, and only the interrupt its manager.
- DiskDrive.Disk.SigHandle: transfers whole blocks; file errors, short images and the delay of the timer are not modelled.
- `task_switch` by users, `task_destroy`, `queue_destroy`, `queue_print`, the test programs and the block cache, which is not part of this model.
