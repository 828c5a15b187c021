/** The task module of the kernel as it is written: the ready-queue array,
    the readiness index and the current-task pointer are fields of one
    scheduler object that task creation, the scheduler and module
    initialisation update in place. Each method is proved against the value
    model of the same step. */
module Task {
  import opened Context
  import opened TaskModel

  class Scheduler {
    /** _os_ready_queue: one FIFO bucket of nodes per priority level. */
    const readyQueue: array<seq<NodeId>>
    /** The readiness index kept by _os_set_ready and _os_unset_ready. */
    var readySet: set<nat>
    /** _os_current_task (None is NULL). */
    var current: Option<TaskId>
    /** The TCBs (caller-owned storage) and queue nodes (allocator storage). */
    var tcbs: map<TaskId, Tcb>
    var nodes: map<NodeId, Node>
    /** The next node identity the allocator hands out. */
    var nextNode: NodeId

    /** The scheduler's state as a value of the model. */
    ghost function State(): Kernel
      reads this, readyQueue
    {
      Kernel(readyQueue[..], readySet, current, tcbs, nodes, nextNode)
    }

    ghost predicate Valid()
      reads this, readyQueue
    {
      Invariant(State())
    }

    /** The module's storage before any task exists: every bucket empty, no
        level ready, no current task. */
    constructor ()
      ensures fresh(readyQueue)
      ensures State() == Kernel(seq(LOWEST_PRIORITY + 1, p => []), {}, None, map[], map[], 0)
      ensures Valid()
    {
      readyQueue := new seq<NodeId>[LOWEST_PRIORITY + 1](p => []);
      readySet := {};
      current := None;
      tcbs := map[];
      nodes := map[];
      nextNode := 0;
    }

    /** _os_add_node_tail on bucket `p`. */
    method AddNodeTail(p: nat, n: NodeId)
      requires p < readyQueue.Length
      modifies readyQueue
      ensures readyQueue[..] == old(readyQueue[..])[p := old(readyQueue[p]) + [n]]
    {
      readyQueue[p] := readyQueue[p] + [n];
    }

    /** _os_remove_node applied to the head of bucket `p`. */
    method RemoveHead(p: nat)
      requires p < readyQueue.Length && readyQueue[p] != []
      modifies readyQueue
      ensures readyQueue[..] == old(readyQueue[..])[p := old(readyQueue[p])[1..]]
    {
      readyQueue[p] := readyQueue[p][1..];
    }

    /** _os_set_ready: mark level `p` ready. */
    method SetReady(p: nat)
      modifies this`readySet
      ensures readySet == old(readySet) + {p}
    {
      readySet := readySet + {p};
    }

    /** _os_unset_ready: clear the mark of level `p`. */
    method UnsetReady(p: nat)
      modifies this`readySet
      ensures readySet == old(readySet) - {p}
    {
      readySet := readySet - {p};
    }

    /** eos_get_current_task: the task that is RUNNING, if any. */
    function GetCurrentTask(): (r: Option<TaskId>)
      reads this, readyQueue
      ensures Valid() && r.Some? ==> r.value in tcbs && tcbs[r.value].state == Running
      ensures Valid() && r.None? ==> forall t :: t in tcbs ==> tcbs[t].state != Running
    {
      current
    }

    /** eos_create_task: builds the task's first frame in its stack block,
        fills in the TCB (READY, `priority`, the frame's address as stack
        pointer), allocates a node referring back to the task, appends it to
        the tail of bucket `priority`, marks that level ready and returns 0. */
    method CreateTask(t: TaskId, stack: array<Word>, base: Addr, entry: Word, arg: Word, priority: nat)
      returns (r: Word)
      requires readyQueue.Length == LOWEST_PRIORITY + 1
      requires priority <= LOWEST_PRIORITY
      requires FRAME_WORDS <= stack.Length
      requires base + WORD_BYTES * stack.Length <= WORD_LIMIT
      modifies this, readyQueue, stack
      ensures r == 0
      ensures State() == Create(old(State()), t, priority, FrameTop(base, stack.Length))
      ensures stack[stack.Length - FRAME_WORDS..] == InitialFrame(entry, arg)
      ensures forall i :: 0 <= i < stack.Length - FRAME_WORDS ==> stack[i] == old(stack[i])
      ensures old(WellFormed(State())) ==> WellFormed(State())
      ensures old(Valid()) && t !in old(tcbs) ==> Valid()
    {
      ghost var k := State();
      var taskSp := CreateContext(stack, base, entry, arg);
      // malloc of the node
      var n := nextNode;
      nextNode := n + 1;
      tcbs := tcbs[t := Tcb(Ready, priority, taskSp, n)];
      nodes := nodes[n := Node(t, priority)];
      AddNodeTail(priority, n);
      SetReady(priority);
      r := 0;
      assert State() == Create(k, t, priority, taskSp);
      if WellFormed(k) {
        CreateKeepsWellFormed(k, t, priority, taskSp);
      }
      if Invariant(k) && t !in k.tcbs {
        CreatePreservesInvariant(k, t, priority, taskSp);
      }
    }

    /** The first half of eos_schedule after a real save: the outgoing task
        `c` records the handle, becomes READY, goes to the tail of its bucket
        and its level is marked ready. */
    method RequeueCurrent(c: TaskId, prevSp: Handle)
      requires WellFormed(State()) && c in tcbs
      modifies this, readyQueue
      ensures State() == Refile(old(State()), c, prevSp)
      ensures WellFormed(State())
    {
      ghost var k := State();
      var priority := tcbs[c].priority;
      tcbs := tcbs[c := tcbs[c].(sp := prevSp)];
      tcbs := tcbs[c := tcbs[c].(state := Ready)];
      AddNodeTail(priority, tcbs[c].node);
      SetReady(priority);
      RefileKeepsWellFormed(k, c, prevSp);
    }

    /** The second half of eos_schedule: the head of the bucket of the
        highest ready level leaves it (the level is unmarked if the bucket
        empties), becomes RUNNING and current, and its stack pointer is
        restored; if that bucket is empty the call returns. */
    method DispatchNext() returns (outcome: Outcome)
      requires WellFormed(State())
      modifies this, readyQueue
      ensures (State(), outcome) == Dispatch(old(State()))
      ensures WellFormed(State())
    {
      ghost var k := State();
      var workPriority := HighestReady(readySet);
      if readyQueue[workPriority] == [] {
        outcome := Returned;
        return;
      }
      var nextTaskNode := readyQueue[workPriority][0];
      var nextTask := nodes[nextTaskNode].task;
      RemoveHead(workPriority);
      if readyQueue[workPriority] == [] {
        UnsetReady(workPriority);
      }
      tcbs := tcbs[nextTask := tcbs[nextTask].(state := Running)];
      current := Some(nextTask);
      outcome := Restored(nextTask, tcbs[nextTask].sp);
      DispatchKeepsWellFormed(k);
    }

    /** eos_schedule, with `save` the value _os_save_context hands back (it
        is consulted only when there is a current task). A "resumed" save
        returns at once; otherwise the outgoing task is re-filed and the next
        task dispatched. */
    method Schedule(save: SaveResult) returns (outcome: Outcome)
      requires WellFormed(State())
      modifies this, readyQueue
      ensures (State(), outcome) == TaskModel.Schedule(old(State()), save)
      ensures WellFormed(State())
      ensures old(Valid()) ==> Valid()
    {
      ghost var k := State();
      var currentTask := GetCurrentTask();
      if currentTask.Some? {
        match save
        case Resumed =>
          outcome := Returned;
          return;
        case Suspended(prevSp) =>
          RequeueCurrent(currentTask.value, prevSp);
      }
      outcome := DispatchNext();
      if Invariant(k) {
        SchedulePreservesInvariant(k, save);
      }
    }

    /** _os_init_task as written: clears the current task and empties the
        buckets of levels 0 to LOWEST_PRIORITY - 1 only. */
    method Init()
      requires readyQueue.Length == LOWEST_PRIORITY + 1
      modifies this, readyQueue
      ensures State() == InitAsWritten(old(State()))
      ensures readyQueue[LOWEST_PRIORITY] == old(readyQueue[LOWEST_PRIORITY])
      ensures old(WellFormed(State())) ==> WellFormed(State())
    {
      current := None;
      var i := 0;
      while i < LOWEST_PRIORITY
        modifies readyQueue
        invariant 0 <= i <= LOWEST_PRIORITY
        invariant forall p :: 0 <= p < i ==> readyQueue[p] == []
        invariant forall p :: i <= p <= LOWEST_PRIORITY ==> readyQueue[p] == old(readyQueue[p])
      {
        readyQueue[i] := [];
        i := i + 1;
      }
    }

    /** _os_init_task as intended: the loop also covers level
        LOWEST_PRIORITY, so every bucket is emptied and, on an unstarted
        kernel, the invariant holds afterwards. */
    method InitFixed()
      requires readyQueue.Length == LOWEST_PRIORITY + 1
      modifies this, readyQueue
      ensures State() == Initialized(old(State()))
      ensures old(WellFormed(State())) ==> WellFormed(State())
      ensures Unstarted(old(State())) ==> Valid()
    {
      ghost var k := State();
      current := None;
      var i := 0;
      while i <= LOWEST_PRIORITY
        modifies readyQueue
        invariant 0 <= i <= LOWEST_PRIORITY + 1
        invariant forall p :: 0 <= p < i ==> readyQueue[p] == []
      {
        readyQueue[i] := [];
        i := i + 1;
      }
      assert readyQueue[..] == seq(LOWEST_PRIORITY + 1, p => []);
      if Unstarted(k) {
        InitializedEstablishesInvariant(k);
      }
    }
  }
}
