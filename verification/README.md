# eos task module and i386 first-frame construction, in Dafny

This project models the portable core of the eos kernel's task module. It
also models how the Linux/i386 hardware-abstraction layer builds a new task's
first stack frame.

- **Ready queue.** There is one FIFO bucket of queue nodes per priority
  level, from 0 (most urgent) to `LOWEST_PRIORITY`. Next to it sits the
  readiness index of levels marked ready and the current-task pointer.
- **Task control blocks (TCBs).** A TCB holds a state (READY, RUNNING or
  WAITING), a priority, a saved stack pointer and a queue node. The node
  points back at its task and carries a copy of the priority.
- **`eos_create_task`.** It builds the first frame. It fills in the TCB,
  allocates a node, appends it to the tail of its bucket and marks that
  level ready.
- **`eos_schedule`.** The save primitive returns twice, and is modelled as
  an input: `Suspended(handle)` for the first return, `Resumed` for the
  second. The handle is a `Handle`, an address that is never NULL, because
  NULL is what the second return yields.
  - With a current task and a real handle, the outgoing task is re-filed at
    the tail of its bucket.
  - The head of the bucket of the highest ready level is then dispatched:
    it becomes RUNNING and current, and its stack pointer is restored.
  - Restoring is the outcome `Restored(task, sp)`.
- **`_os_init_task`.** It clears the current task and the buckets of
  levels 0 to `LOWEST_PRIORITY` - 1; the last bucket is skipped (see
  Findings).
- **`_os_create_context`.** It writes, from the top of the stack block
  downwards: the argument, a NULL return address, and a ten-word register
  image. The image has `eip = entry` and every other register zero. It
  returns the address of the lowest of these twelve words.

Layout:

- `context.dfy` (module `Context`): 32-bit words and addresses, the register
  image, and `CreateContext` over an `array<Word>`.
- `task_model.dfy` (module `TaskModel`): the scheduler state as a value
  `Kernel`.
  - The steps `Create`, `Refile`, `Dispatch`, `Schedule`, `InitAsWritten`
    and `Initialized`.
  - Predicates. `WellFormed` is what the code needs to stay within its
    data. `Invariant` is `WellFormed` together with `Core`
    (the queue invariants) and `RunningIsCurrent` (RUNNING iff current). `NoneRunning`
    describes the intermediate state between re-filing the outgoing task
    and dispatching the next one.
  - Lemmas about them.
- `scheduler.dfy` (module `Task`): class `Scheduler`, whose fields are the
  ready-queue array, the readiness set, the current task, the TCBs and the
  nodes. Its methods update them in place. `CreateTask`, `RequeueCurrent`,
  `DispatchNext`, `Schedule`, `Init` and `InitFixed` are each proved equal
  to the matching step of `TaskModel`. The primitives `AddNodeTail`,
  `RemoveHead`, `SetReady`, `UnsetReady` and `GetCurrentTask` state their
  effect directly on the array, the set or the invariant.

TCBs and nodes are kept in maps keyed by identity. The allocator is a
counter of fresh node identities. `eos.h` is not part of this model, so
`LOWEST_PRIORITY` is fixed at 63; no proof depends on that value.

In three places the code does something other than what one might expect,
and the model follows the code:

- One might expect the scheduler to return when no level is ready. The code
  reads the bucket at whatever level `_os_get_highest_priority` reports and
  returns when that bucket is empty. `Dispatch` does the same, and
  `DispatchChoosesMostUrgent` proves both readings agree whenever the
  invariant holds.
- One might expect task creation to check that the stack block is large
  enough. The code has no such check; here it is a precondition of `CreateContext`.
- One might expect initialisation to clear every bucket. The code does not
  (see Findings).

## Model

| member | source | states |
|---|---|---|
| Context.ImageLoadRoundTrip | eos/hal/linux/context.c:7-20 | storing a register image and reading it back by field offset gives the same registers, and every ten words are the image of what is read from them |
| Context.InitialFrameLayout | eos/hal/linux/context.c:7-20 | in the twelve-word first frame, the image loads as the initial registers, eip sits at word 9, the other image words are 0, word 10 is NULL and word 11 is the argument |
| Context.FrameFromCells | eos/hal/linux/context.c:54-65 | twelve words holding those cell values are exactly the initial frame (the cell-by-cell writes determine the frame) |
| Context.WriteInitialContext | eos/hal/linux/context.c:56-65 | the ten words at the context load as the initial registers (eip = entry, all others zero) and no other word of the block changes |
| Context.CreateContext | eos/hal/linux/context.c:46-68 | returns the block's end minus twelve words. The top twelve words become the initial frame: registers zero except eip = entry, a NULL return slot, the argument on top. Every word below is unchanged |
| TaskModel.FirstReadyFrom | eos/core/task.c:76 | the first level at or after `from` that is marked ready, or none, with no ready level skipped |
| TaskModel.HighestReady | eos/core/task.c:76 | `_os_get_highest_priority`: a ready level that is numerically no larger than any ready level |
| TaskModel.CreateKeepsWellFormed | eos/core/task.c:28-46 | task creation keeps every queued node and every task reference valid, whether or not the TCB was in use |
| TaskModel.RefileKeepsWellFormed | eos/core/task.c:65-73 | re-filing the outgoing task keeps every reference valid |
| TaskModel.DispatchKeepsWellFormed | eos/core/task.c:76-88 | dispatch keeps every reference valid |
| TaskModel.ScheduleKeepsWellFormed | eos/core/task.c:56-92 | every path of the scheduler keeps every reference valid |
| TaskModel.NotReadyNotQueued | eos/core/task.c:71-72 | under the invariant, the node of a task that is not READY is in no bucket |
| TaskModel.CreatePreservesInvariant | eos/core/task.c:32-41 | creating a task with an unused TCB keeps the invariant: ready flag iff non-empty bucket, every queued node filed at its own level for a READY task that owns it, no node twice in a bucket, every READY task in its bucket |
| TaskModel.RefileKeepsCore | eos/core/task.c:65-73 | re-filing the current task with its handle keeps all of that except "RUNNING iff current", leaves no task RUNNING and some level ready |
| TaskModel.DispatchRestoresInvariant | eos/core/task.c:76-88 | from that state, dispatch always restores a task, makes the restored task current, and re-establishes the full invariant, the chosen task being RUNNING |
| TaskModel.SchedulePreservesInvariant | eos/core/task.c:56-92 | every path of the scheduler keeps the invariant |
| TaskModel.DispatchChoosesMostUrgent | eos/core/task.c:76-88 | dispatch returns exactly when no level is ready, changing nothing; otherwise it restores, with its saved sp, the task whose node heads the bucket of the highest ready level. No READY task is more urgent. The head leaves its bucket and the other buckets are untouched. The level is unmarked iff the bucket empties. The task becomes RUNNING and current and nothing else changes |
| TaskModel.ScheduleRunsMostUrgent | eos/core/task.c:56-92 | whenever the scheduler restores a task, that task is current and RUNNING and no task left READY is more urgent |
| TaskModel.ResumedChangesNothing | eos/core/task.c:60-63 | a "resumed" save with a current task returns at once with the state unchanged |
| TaskModel.NothingReadyReturns | eos/core/task.c:79-80 | with no current task and no ready level, the scheduler returns with nothing changed |
| TaskModel.OwnerUnique | eos/core/task.c:32 | under the invariant, a task is in a bucket iff it is READY, is current iff it is RUNNING, and never both |
| TaskModel.SingleReadyTaskStays | eos/core/task.c:65-91 | when the current task yields and nothing else is ready, it is re-dispatched at once with the new handle, the only change to the state |
| TaskModel.MinPriorityIsLeast | eos/core/task.c:33 | the minimum of the creation priorities is one of them and bounds them all |
| TaskModel.CreateAllMarksLevels | eos/core/task.c:41 | a series of creations marks ready exactly the levels it creates tasks at, in addition to those already marked |
| TaskModel.HighestAfterCreations | eos/core/task.c:41 | after creating tasks at priorities p1..pn with nothing ready before, the highest ready level is min(p1..pn) |
| TaskModel.InitAsWrittenKeepsLowestBucket | eos/core/task.c:126-129 | initialisation as written leaves the bucket of level LOWEST_PRIORITY as it was, so a stale node there breaks the invariant |
| TaskModel.InitAsWrittenCounterexample | eos/core/task.c:126-129 | a concrete unstarted state, with one stale node in the last bucket, that initialisation as written leaves broken |
| TaskModel.InitializedEstablishesInvariant | eos/core/task.c:119-130 | initialisation over all levels empties every bucket, clears the current task and establishes the invariant |
| TaskModel.YieldRotatesLevel | eos/core/task.c:65-88 | when the current task yields and only its own level is ready, the bucket plus the yielding node rotates: the head is restored and the rest move up. The yielding task keeps its new handle; other stack pointers, all priorities and the nodes are unchanged |
| TaskModel.CreateThreeAtLevel | eos/core/task.c:37-41 | creating three tasks at one level after initialisation queues their nodes in creation order, marks only that level ready, records each task READY with its node and stack pointer, and keeps the data well formed |
| TaskModel.YieldWithTwoWaiting | eos/core/task.c:65-88 | a yield with two nodes x, y waiting at the only ready level dispatches the task of x and leaves y, then the yielder's node |
| TaskModel.YieldsCycleLevel | eos/core/task.c:56-92 | with a current task a and then b, c queued at the only ready level, three yields dispatch b, c and then a again with the handle a was frozen with |
| TaskModel.FirstDispatchAfterCreation | eos/core/task.c:28-92 | the first dispatch after creating a, b, c at one level restores a with its initial stack pointer and leaves b, c queued in creation order |
| TaskModel.RoundRobinWithinLevel | eos/core/task.c:28-92 | three tasks created at one level are dispatched a, b, c and then a again, with its saved handle |
| Task.Scheduler.constructor | eos/core/task.c:17-22 | the module's storage starts with every bucket empty, nothing ready and no current task, which satisfies the invariant |
| Task.Scheduler.AddNodeTail | eos/core/task.c:40 | `_os_add_node_tail`: the node is appended to the tail of its bucket; other buckets are unchanged |
| Task.Scheduler.RemoveHead | eos/core/task.c:85 | `_os_remove_node` on the head: the head leaves its bucket; other buckets are unchanged |
| Task.Scheduler.SetReady | eos/core/task.c:41 | `_os_set_ready`: the level is added to the readiness index |
| Task.Scheduler.UnsetReady | eos/core/task.c:86 | `_os_unset_ready`: the level is removed from the readiness index |
| Task.Scheduler.GetCurrentTask | eos/core/task.c:94-96 | under the invariant, the returned task is RUNNING, and with none returned no task is RUNNING |
| Task.Scheduler.CreateTask | eos/core/task.c:28-46 | returns 0. The new state is the creation step, with the sp from `_os_create_context`. The stack block gets the initial frame and nothing below it changes. The step keeps the data well formed, and keeps the invariant for an unused TCB |
| Task.Scheduler.RequeueCurrent | eos/core/task.c:65-73 | the new state is the re-filing step: the outgoing task records the handle, becomes READY, is appended to its bucket and its level is marked ready; references stay valid |
| Task.Scheduler.DispatchNext | eos/core/task.c:76-91 | the new state and the outcome are those of the dispatch step; references stay valid |
| Task.Scheduler.Schedule | eos/core/task.c:56-92 | the new state and the outcome are those of the scheduler step, which keeps the data well formed and the invariant |
| Task.Scheduler.Init | eos/core/task.c:119-130 | as written: the state after the loop over levels below LOWEST_PRIORITY, with the last bucket unchanged; well-formedness is kept |
| Task.Scheduler.InitFixed | eos/core/task.c:119-130 | with the loop covering every level, every bucket is empty, the current task is cleared, well-formedness is kept, and an unstarted kernel satisfies the invariant |

## Left out

- The bodies of `_os_save_context` and `_os_restore_context` are inline x86 assembly. The save is an input of `Schedule`. The restore is the outcome `Restored(task, sp)`, with the task made current.
- `print_context` and the `PRINT` calls are diagnostic output.
- The node allocation can fail, but the code does not check for that; the model allocates a fresh node identity every time.
- The stubs with empty bodies have no behaviour to model: `eos_destroy_task`, `eos_change_priority`, `eos_get_priority`, `eos_set_period`, `eos_get_period`, `eos_suspend_task`, `eos_resume_task`, `eos_sleep`, `_os_wait` and the `_os_wakeup_*` functions.
- The linked-list primitives and the priority bitmap are not part of this model. The list primitives appear only through their contracts: append at tail and remove head. The bitmap appears as a set of marked levels with mark and unmark, and `HighestReady` is a reference scan over that set (`FirstReadyFrom`) that meets the contract of the smallest marked level. When no level is marked, the smallest marked level is taken to be 0.
- Interrupts and critical sections: the code takes no locks, and the model is a single thread of control.
- The initial clearing of the readiness index belongs to the bitmap code, which is not part of this model; `Unstarted` assumes it.
- TCBs and nodes are values in maps keyed by identity, not memory. Aliasing between a TCB and other storage is therefore not modelled.
- Context.CreateContext: the block size is counted in whole words, and the block must not wrap around the 32-bit address space. The code takes a byte size and does not check either.
- Context.CreateContext: the code needs a block of at least twelve words and does not check it. Here that is a precondition.
- TaskModel.Create: a priority above LOWEST_PRIORITY indexes past the bucket array in the code. Here that is a precondition, as the code has no check.
- TaskModel.YieldsCycleLevel: states `WellFormed` after each step, not the full invariant. `SchedulePreservesInvariant` gives the invariant for every step.
- TaskModel.RoundRobinWithinLevel: states `WellFormed` after each step after the first, not the full invariant, for the same reason.

## Findings

| source | as written | input that shows it | evidently intended | confidence | as-written member | corrected member |
|---|---|---|---|---|---|---|
| eos/core/task.c:127 | the loop clears `_os_ready_queue[i]` for `i < LOWEST_PRIORITY`, so the bucket of level LOWEST_PRIORITY is never cleared | a kernel whose last bucket holds a stale node, with no tasks and nothing ready: after initialisation that bucket still holds the node while its level is not marked ready | `i <= LOWEST_PRIORITY`, clearing all `LOWEST_PRIORITY + 1` buckets; a zero-initialised static array hides this at boot | not executed | TaskModel.InitAsWrittenCounterexample | TaskModel.InitializedEstablishesInvariant |
