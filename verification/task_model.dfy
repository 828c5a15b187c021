/** The portable bookkeeping of the priority scheduler as values: the
    multi-level ready queue, its readiness index, the current-task reference,
    the task control blocks and the queue nodes, together with the state
    changes made by task creation, re-filing of the outgoing task, dispatch
    and module initialisation, and the invariants they keep. */
module TaskModel {
  import opened Context

  /** Numerically largest (least urgent) priority level; level 0 is the most
      urgent. */
  const LOWEST_PRIORITY: nat := 63

  /** Task states; the kernel encodes them as READY = 1, RUNNING = 2, WAITING = 3. */
  datatype TaskState = Ready | Running | Waiting

  /** Identity of a task control block (the caller-supplied TCB storage). */
  type TaskId = nat

  /** Identity of a queue node (storage obtained from the allocator). */
  type NodeId = nat

  datatype Option<T> = None | Some(value: T)

  /** A task control block: state, priority, saved stack pointer, queue node. */
  datatype Tcb = Tcb(state: TaskState, priority: nat, sp: Addr, node: NodeId)

  /** A queue node: a back-reference to its task and a copy of its priority. */
  datatype Node = Node(task: TaskId, priority: nat)

  /** The handle of a frozen context: never NULL, since NULL is the value
      the save primitive returns when the context is resumed. */
  type Handle = a: Addr | a != NULL witness 4

  /** The two returns of the context-save primitive: the first carries the
      (non-NULL) handle of the frozen context, the second (after a restore)
      is NULL. */
  datatype SaveResult = Suspended(handle: Handle) | Resumed

  /** How a call of the scheduler ends: it returns to its caller, or it
      restores the context `sp` of `task`, which never returns. */
  datatype Outcome = Returned | Restored(task: TaskId, sp: Addr)

  /** The scheduler's state: one FIFO bucket of node ids per priority level,
      the set of levels marked ready, the current task, the TCBs and nodes
      known to the kernel, and the next node identity the allocator hands out. */
  datatype Kernel = Kernel(
    queue: seq<seq<NodeId>>,
    ready: set<nat>,
    current: Option<TaskId>,
    tcbs: map<TaskId, Tcb>,
    nodes: map<NodeId, Node>,
    nextNode: NodeId)

  // ---------------------------------------------------------------------------
  // Readiness index

  /** The first level at or after `from` that is marked ready, if any. */
  function FirstReadyFrom(ready: set<nat>, from: nat): (r: Option<nat>)
    requires from <= LOWEST_PRIORITY + 1
    decreases LOWEST_PRIORITY + 1 - from
    ensures r.Some? ==> from <= r.value <= LOWEST_PRIORITY && r.value in ready
    ensures r.Some? ==> forall q :: from <= q < r.value ==> q !in ready
    ensures r.None? ==> forall q :: from <= q <= LOWEST_PRIORITY ==> q !in ready
  {
    if from > LOWEST_PRIORITY then None
    else if from in ready then Some(from)
    else FirstReadyFrom(ready, from + 1)
  }

  /** _os_get_highest_priority: the numerically smallest level marked ready.
      With no level marked it yields level 0. */
  function HighestReady(ready: set<nat>): (p: nat)
    ensures p <= LOWEST_PRIORITY
    ensures forall q :: q in ready && q <= LOWEST_PRIORITY ==> p in ready && p <= q
  {
    match FirstReadyFrom(ready, 0)
    case Some(p) => p
    case None => 0
  }

  // ---------------------------------------------------------------------------
  // Invariants

  /** Node `n` is filed in bucket `p`: it exists, carries priority `p`, and
      its task exists, owns it and is READY. */
  ghost predicate Filed(k: Kernel, n: NodeId, p: nat)
  {
    && n in k.nodes
    && k.nodes[n].priority == p
    && k.nodes[n].task in k.tcbs
    && k.tcbs[k.nodes[n].task].node == n
    && k.tcbs[k.nodes[n].task].state == Ready
  }

  /** Task `t` owns its node, which refers back to it with the same priority;
      the priority is a valid level; a READY task sits in its level's bucket. */
  ghost predicate Linked(k: Kernel, t: TaskId)
    requires t in k.tcbs
    requires |k.queue| == LOWEST_PRIORITY + 1
  {
    var b := k.tcbs[t];
    && b.node in k.nodes
    && k.nodes[b.node] == Node(t, b.priority)
    && b.priority <= LOWEST_PRIORITY
    && (b.state == Ready ==> b.node in k.queue[b.priority])
  }

  /** What the kernel's code relies on to stay within its data: there is a
      bucket for every level, every queued node exists and refers to a known
      task, every known task has a valid priority and an existing node that
      refers back to it, the current task is known, and the allocator has not
      yet handed out the next node identity. */
  ghost predicate WellFormed(k: Kernel)
  {
    && |k.queue| == LOWEST_PRIORITY + 1
    && (forall p, i :: 0 <= p < |k.queue| && 0 <= i < |k.queue[p]| ==>
          k.queue[p][i] in k.nodes && k.nodes[k.queue[p][i]].task in k.tcbs)
    && (forall t :: t in k.tcbs ==>
          && k.tcbs[t].priority <= LOWEST_PRIORITY
          && k.tcbs[t].node in k.nodes
          && k.nodes[k.tcbs[t].node].task == t)
    && (k.current.Some? ==> k.current.value in k.tcbs)
    // nodes were handed out by the allocator, which returns fresh storage
    && (forall n :: n in k.nodes ==> n < k.nextNode)
  }

  /** Every invariant except the one tying RUNNING to the current task. */
  ghost predicate Core(k: Kernel)
  {
    && |k.queue| == LOWEST_PRIORITY + 1
    // a level is marked ready exactly when its bucket is non-empty
    && (forall p :: p in k.ready ==> p <= LOWEST_PRIORITY)
    && (forall p :: 0 <= p <= LOWEST_PRIORITY ==> (p in k.ready <==> k.queue[p] != []))
    // every queued node is filed at its own level, for a READY task
    && (forall p, i :: 0 <= p < |k.queue| && 0 <= i < |k.queue[p]| ==> Filed(k, k.queue[p][i], p))
    // no node appears twice in a bucket
    && (forall p, i, j :: 0 <= p < |k.queue| && 0 <= i < j < |k.queue[p]| ==> k.queue[p][i] != k.queue[p][j])
    && (forall t :: t in k.tcbs ==> Linked(k, t))
  }

  /** The current task, if any, is known and is the one RUNNING task. */
  ghost predicate RunningIsCurrent(k: Kernel)
  {
    && (k.current.Some? ==> k.current.value in k.tcbs)
    && (forall t :: t in k.tcbs ==> (k.tcbs[t].state == Running <==> k.current == Some(t)))
  }

  /** The scheduler's state invariant. */
  ghost predicate Invariant(k: Kernel)
  {
    WellFormed(k) && Core(k) && RunningIsCurrent(k)
  }

  /** No task is RUNNING: the state between re-filing the outgoing task and
      dispatching the next one. */
  ghost predicate NoneRunning(k: Kernel)
  {
    forall t :: t in k.tcbs ==> k.tcbs[t].state != Running
  }

  /** Task `t` is held in some ready bucket. */
  ghost predicate Queued(k: Kernel, t: TaskId)
    requires t in k.tcbs
  {
    exists p :: 0 <= p < |k.queue| && k.tcbs[t].node in k.queue[p]
  }

  // ---------------------------------------------------------------------------
  // State changes

  /** eos_create_task's bookkeeping: TCB `t` becomes READY at `priority` with
      stack pointer `sp`; a fresh node referring to it is appended to the tail
      of bucket `priority` and that level is marked ready. */
  function Create(k: Kernel, t: TaskId, priority: nat, sp: Addr): Kernel
    requires |k.queue| == LOWEST_PRIORITY + 1
    requires priority <= LOWEST_PRIORITY
  {
    var n := k.nextNode;
    k.(queue := k.queue[priority := k.queue[priority] + [n]],
       ready := k.ready + {priority},
       tcbs := k.tcbs[t := Tcb(Ready, priority, sp, n)],
       nodes := k.nodes[n := Node(t, priority)],
       nextNode := n + 1)
  }

  /** The outgoing task `c` was frozen with handle `h`: it records the handle,
      becomes READY and is appended to the tail of its level's bucket, which
      is marked ready. */
  function Refile(k: Kernel, c: TaskId, h: Addr): Kernel
    requires |k.queue| == LOWEST_PRIORITY + 1
    requires c in k.tcbs && k.tcbs[c].priority <= LOWEST_PRIORITY
  {
    var b := k.tcbs[c];
    k.(queue := k.queue[b.priority := k.queue[b.priority] + [b.node]],
       ready := k.ready + {b.priority},
       tcbs := k.tcbs[c := b.(sp := h, state := Ready)])
  }

  /** Dispatch: look at the bucket of the highest ready level; if it is empty
      return to the caller, otherwise take its head, unmark the level if the
      bucket is left empty, make that task RUNNING and current, and restore
      its saved stack pointer. */
  function Dispatch(k: Kernel): (Kernel, Outcome)
    requires WellFormed(k)
  {
    var p := HighestReady(k.ready);
    if k.queue[p] == [] then (k, Returned)
    else
      var n := k.queue[p][0];
      var u := k.nodes[n].task;
      var rest := k.queue[p][1..];
      var k' := k.(queue := k.queue[p := rest],
                   ready := if rest == [] then k.ready - {p} else k.ready,
                   tcbs := k.tcbs[u := k.tcbs[u].(state := Running)],
                   current := Some(u));
      (k', Restored(u, k.tcbs[u].sp))
  }

  /** eos_schedule: with a current task, a "resumed" save returns at once and
      a real handle re-files the task first; then the next task is dispatched. */
  function Schedule(k: Kernel, save: SaveResult): (Kernel, Outcome)
    requires WellFormed(k)
  {
    match k.current
    case None => Dispatch(k)
    case Some(c) =>
      match save
      case Resumed => (k, Returned)
      case Suspended(h) =>
        RefileKeepsWellFormed(k, c, h);
        Dispatch(Refile(k, c, h))
  }

  /** Initialisation as written: the current task is cleared and the buckets
      of levels 0 to LOWEST_PRIORITY - 1 are emptied; the bucket of level
      LOWEST_PRIORITY is left as it was. */
  function InitAsWritten(k: Kernel): Kernel
    requires |k.queue| == LOWEST_PRIORITY + 1
  {
    k.(current := None,
       queue := seq(LOWEST_PRIORITY + 1, p requires 0 <= p <= LOWEST_PRIORITY =>
                      if p < LOWEST_PRIORITY then [] else k.queue[p]))
  }

  /** Initialisation as intended: the current task is cleared and every
      bucket, level LOWEST_PRIORITY included, is emptied. */
  function Initialized(k: Kernel): Kernel
    requires |k.queue| == LOWEST_PRIORITY + 1
  {
    k.(current := None, queue := seq(LOWEST_PRIORITY + 1, p => []))
  }

  // ---------------------------------------------------------------------------
  // Lemmas

  /** Re-filing a known task keeps the kernel's data well formed. */
  lemma RefileKeepsWellFormed(k: Kernel, c: TaskId, h: Addr)
    requires WellFormed(k) && c in k.tcbs
    ensures WellFormed(Refile(k, c, h))
  {
    var k' := Refile(k, c, h);
    var b := k.tcbs[c];
    forall p, i | 0 <= p < |k'.queue| && 0 <= i < |k'.queue[p]|
      ensures k'.queue[p][i] in k'.nodes && k'.nodes[k'.queue[p][i]].task in k'.tcbs
    {
      if p == b.priority && i == |k.queue[p]| {
        assert k'.queue[p][i] == b.node;
      } else {
        assert k'.queue[p][i] == k.queue[p][i];
      }
    }
  }

  /** Dispatch keeps the kernel's data well formed. */
  lemma DispatchKeepsWellFormed(k: Kernel)
    requires WellFormed(k)
    ensures WellFormed(Dispatch(k).0)
  {
    var p := HighestReady(k.ready);
    if k.queue[p] != [] {
      var k' := Dispatch(k).0;
      forall q, i | 0 <= q < |k'.queue| && 0 <= i < |k'.queue[q]|
        ensures k'.queue[q][i] in k'.nodes && k'.nodes[k'.queue[q][i]].task in k'.tcbs
      {
        if q == p {
          assert k'.queue[q][i] == k.queue[q][i + 1];
        } else {
          assert k'.queue[q][i] == k.queue[q][i];
        }
      }
    }
  }

  /** Task creation keeps the kernel's data well formed, whether or not the
      TCB was already in use: no index leaves the bucket array and no
      reference dangles. */
  lemma {:induction false} CreateKeepsWellFormed(k: Kernel, t: TaskId, priority: nat, sp: Addr)
    requires WellFormed(k) && priority <= LOWEST_PRIORITY
    ensures WellFormed(Create(k, t, priority, sp))
  {
    var k' := Create(k, t, priority, sp);
    forall p, i | 0 <= p < |k'.queue| && 0 <= i < |k'.queue[p]|
      ensures k'.queue[p][i] in k'.nodes && k'.nodes[k'.queue[p][i]].task in k'.tcbs
    {
      if p == priority && i == |k.queue[p]| {
        assert k'.queue[p][i] == k.nextNode;
      } else {
        assert k'.queue[p][i] == k.queue[p][i];
      }
    }
  }

  /** Every path of the scheduler keeps the kernel's data well formed. */
  lemma {:induction false} ScheduleKeepsWellFormed(k: Kernel, save: SaveResult)
    requires WellFormed(k)
    ensures WellFormed(Schedule(k, save).0)
  {
    match k.current
    case None => DispatchKeepsWellFormed(k);
    case Some(c) =>
      match save
      case Resumed =>
      case Suspended(h) =>
        RefileKeepsWellFormed(k, c, h);
        DispatchKeepsWellFormed(Refile(k, c, h));
  }

  /** In a state satisfying Core, a node in some bucket belongs to a READY
      task, so the node of a task that is not READY is in no bucket. */
  lemma NotReadyNotQueued(k: Kernel, t: TaskId)
    requires Core(k) && t in k.tcbs && k.tcbs[t].state != Ready
    ensures forall p :: 0 <= p < |k.queue| ==> k.tcbs[t].node !in k.queue[p]
  {
    assert Linked(k, t);
    forall p | 0 <= p < |k.queue| ensures k.tcbs[t].node !in k.queue[p] {
      if k.tcbs[t].node in k.queue[p] {
        assert false;
      }
    }
  }

  /** eos_create_task keeps the invariant when the TCB is not already in use:
      the readiness index stays exact, the new node is in one bucket once, and
      the new task is READY and filed at its own level. */
  lemma {:induction false} CreatePreservesInvariant(k: Kernel, t: TaskId, priority: nat, sp: Addr)
    requires Invariant(k)
    requires t !in k.tcbs
    requires priority <= LOWEST_PRIORITY
    ensures Invariant(Create(k, t, priority, sp))
  {
    CreateKeepsWellFormed(k, t, priority, sp);
    var k' := Create(k, t, priority, sp);
    var n := k.nextNode;
    assert n !in k.nodes;
    forall p, i | 0 <= p < |k'.queue| && 0 <= i < |k'.queue[p]|
      ensures Filed(k', k'.queue[p][i], p)
    {
      if p == priority && i == |k.queue[p]| {
        assert k'.queue[p][i] == n;
      } else {
        assert k'.queue[p][i] == k.queue[p][i];
        assert Filed(k, k.queue[p][i], p);
      }
    }
    forall p, i, j | 0 <= p < |k'.queue| && 0 <= i < j < |k'.queue[p]|
      ensures k'.queue[p][i] != k'.queue[p][j]
    {
      if p == priority && j == |k.queue[p]| {
        assert Filed(k, k.queue[p][i], p);
      }
    }
    forall u | u in k'.tcbs ensures Linked(k', u) {
      if u != t {
        assert Linked(k, u);
        var b := k.tcbs[u];
        if b.state == Ready && b.priority == priority {
          assert k'.queue[priority] == k.queue[priority] + [n];
        }
      } else {
        assert k'.queue[priority] == k.queue[priority] + [n];
      }
    }
  }

  /** Re-filing the current task keeps everything but "RUNNING iff current",
      and leaves no task RUNNING. */
  lemma {:induction false} RefileKeepsCore(k: Kernel, c: TaskId, h: Addr)
    requires Invariant(k) && k.current == Some(c)
    ensures c in k.tcbs && k.tcbs[c].priority <= LOWEST_PRIORITY
    ensures WellFormed(Refile(k, c, h))
    ensures Core(Refile(k, c, h)) && NoneRunning(Refile(k, c, h))
    ensures Refile(k, c, h).ready != {}
  {
    assert Linked(k, c);
    RefileKeepsWellFormed(k, c, h);
    var b := k.tcbs[c];
    var k' := Refile(k, c, h);
    NotReadyNotQueued(k, c);
    forall p, i | 0 <= p < |k'.queue| && 0 <= i < |k'.queue[p]|
      ensures Filed(k', k'.queue[p][i], p)
    {
      if p == b.priority && i == |k.queue[p]| {
        assert k'.queue[p][i] == b.node;
      } else {
        assert k'.queue[p][i] == k.queue[p][i];
        assert Filed(k, k.queue[p][i], p);
        assert k.nodes[k.queue[p][i]].task != c;
      }
    }
    forall p, i, j | 0 <= p < |k'.queue| && 0 <= i < j < |k'.queue[p]|
      ensures k'.queue[p][i] != k'.queue[p][j]
    {
      if p == b.priority && j == |k.queue[p]| {
        assert k'.queue[p][i] == k.queue[p][i];
      }
    }
    forall u | u in k'.tcbs ensures Linked(k', u) {
      assert Linked(k, u);
      if u != c && k.tcbs[u].state == Ready && k.tcbs[u].priority == b.priority {
        assert k'.queue[b.priority] == k.queue[b.priority] + [b.node];
      }
      if u == c {
        assert k'.queue[b.priority] == k.queue[b.priority] + [b.node];
      }
    }
    assert b.priority in k'.ready;
  }

  /** Dispatch from a Core state with no RUNNING task and some level marked
      ready takes the head of the most urgent bucket and re-establishes the
      full invariant, with the chosen task RUNNING and current. */
  lemma {:induction false} DispatchRestoresInvariant(k: Kernel)
    requires WellFormed(k) && Core(k) && NoneRunning(k) && k.ready != {}
    ensures Dispatch(k).1.Restored?
    ensures Dispatch(k).0.current == Some(Dispatch(k).1.task)
    ensures Invariant(Dispatch(k).0)
  {
    DispatchKeepsWellFormed(k);
    var p := HighestReady(k.ready);
    var q0 :| q0 in k.ready;
    assert p in k.ready;
    assert k.queue[p] != [];
    var n := k.queue[p][0];
    assert Filed(k, n, p);
    var u := k.nodes[n].task;
    var rest := k.queue[p][1..];
    var k' := Dispatch(k).0;
    assert k'.queue == k.queue[p := rest];
    forall q, i | 0 <= q < |k'.queue| && 0 <= i < |k'.queue[q]|
      ensures Filed(k', k'.queue[q][i], q)
    {
      var m := k'.queue[q][i];
      if q == p {
        assert m == k.queue[p][i + 1];
        assert Filed(k, m, q);
        assert m != n;
      } else {
        assert m == k.queue[q][i];
        assert Filed(k, m, q);
      }
    }
    forall q, i, j | 0 <= q < |k'.queue| && 0 <= i < j < |k'.queue[q]|
      ensures k'.queue[q][i] != k'.queue[q][j]
    {
      if q == p {
        assert k'.queue[q][i] == k.queue[q][i + 1];
        assert k'.queue[q][j] == k.queue[q][j + 1];
      }
    }
    forall t | t in k'.tcbs ensures Linked(k', t) {
      assert Linked(k, t);
      var b := k.tcbs[t];
      if t != u && b.state == Ready && b.priority == p {
        assert b.node != n;
        var i :| 0 <= i < |k.queue[p]| && k.queue[p][i] == b.node;
        assert i != 0;
        assert k'.queue[p][i - 1] == b.node;
      }
    }
  }

  /** eos_schedule keeps the invariant on every path. */
  lemma {:induction false} SchedulePreservesInvariant(k: Kernel, save: SaveResult)
    requires Invariant(k)
    ensures Invariant(Schedule(k, save).0)
  {
    match k.current
    case None =>
      if k.ready != {} {
        assert NoneRunning(k);
        DispatchRestoresInvariant(k);
      } else {
        assert HighestReady(k.ready) !in k.ready;
      }
    case Some(c) =>
      match save
      case Resumed =>
      case Suspended(h) =>
        RefileKeepsCore(k, c, h);
        DispatchRestoresInvariant(Refile(k, c, h));
  }

  /** Dispatch takes the head of the bucket of the most urgent READY task: no
      READY task has a smaller priority number, the chosen node leaves the front
      of its bucket and every other bucket is untouched. When nothing is ready
      it returns without dequeuing anything or changing the current task. */
  lemma {:induction false} DispatchChoosesMostUrgent(k: Kernel)
    requires WellFormed(k) && Core(k)
    ensures Dispatch(k).1.Returned? <==> k.ready == {}
    ensures Dispatch(k).1.Returned? ==> Dispatch(k).0 == k
    ensures Dispatch(k).1.Restored? ==>
      var (k', u) := (Dispatch(k).0, Dispatch(k).1.task);
      var p := k.tcbs[u].priority;
      && u in k.tcbs && k.tcbs[u].state == Ready
      && p == HighestReady(k.ready)
      && (forall t :: t in k.tcbs && k.tcbs[t].state == Ready ==> p <= k.tcbs[t].priority)
      && k.queue[p] != [] && k.queue[p][0] == k.tcbs[u].node
      && k'.queue[p] == k.queue[p][1..]
      && (forall q :: 0 <= q < |k.queue| && q != p ==> k'.queue[q] == k.queue[q])
      && |k'.queue| == |k.queue|
      && (p in k'.ready <==> k'.queue[p] != [])
      && k'.ready == (if k'.queue[p] == [] then k.ready - {p} else k.ready)
      && k'.current == Some(u)
      && k'.tcbs == k.tcbs[u := k.tcbs[u].(state := Running)]
      && k'.nodes == k.nodes
      && k'.nextNode == k.nextNode
      && Dispatch(k).1.sp == k.tcbs[u].sp
  {
    var p := HighestReady(k.ready);
    if k.ready == {} {
      assert k.queue[p] == [];
    } else {
      var q0 :| q0 in k.ready;
      assert p in k.ready && k.queue[p] != [];
      var n := k.queue[p][0];
      assert Filed(k, n, p);
      var u := k.nodes[n].task;
      assert Linked(k, u);
      forall t | t in k.tcbs && k.tcbs[t].state == Ready
        ensures p <= k.tcbs[t].priority
      {
        assert Linked(k, t);
        assert k.tcbs[t].priority in k.ready;
      }
    }
  }

  /** After any call of the scheduler that dispatches, the running task is at
      least as urgent as every task left READY. */
  lemma {:induction false} ScheduleRunsMostUrgent(k: Kernel, save: SaveResult)
    requires Invariant(k)
    ensures Schedule(k, save).1.Restored? ==>
      var (k', u) := (Schedule(k, save).0, Schedule(k, save).1.task);
      && u in k'.tcbs && k'.current == Some(u) && k'.tcbs[u].state == Running
      && forall t :: t in k'.tcbs && k'.tcbs[t].state == Ready ==> k'.tcbs[u].priority <= k'.tcbs[t].priority
  {
    var pre := if k.current.Some? && save.Suspended? then Refile(k, k.current.value, save.handle) else k;
    if k.current.Some? && save.Suspended? {
      RefileKeepsCore(k, k.current.value, save.handle);
    }
    if k.current.None? || save.Suspended? {
      assert Schedule(k, save) == Dispatch(pre);
      DispatchChoosesMostUrgent(pre);
      if Dispatch(pre).1.Restored? {
        var u := Dispatch(pre).1.task;
        var k' := Dispatch(pre).0;
        forall t | t in k'.tcbs && k'.tcbs[t].state == Ready
          ensures k'.tcbs[u].priority <= k'.tcbs[t].priority
        {
          assert t != u;
          assert pre.tcbs[t].state == Ready;
        }
      }
    }
  }

  /** A "resumed" return of the save primitive makes the scheduler return at
      once: no bucket, readiness flag, task field or current task changes. */
  lemma ResumedChangesNothing(k: Kernel)
    requires Invariant(k) && k.current.Some?
    ensures Schedule(k, Resumed) == (k, Returned)
  {
  }

  /** With no current task and nothing ready the scheduler returns to its
      caller and changes nothing. */
  lemma {:induction false} NothingReadyReturns(k: Kernel, save: SaveResult)
    requires Invariant(k) && k.current.None? && k.ready == {}
    ensures Schedule(k, save) == (k, Returned)
  {
    DispatchChoosesMostUrgent(k);
  }

  /** Exactly one owner: a task is held in a ready bucket exactly when it is
      READY, is the current task exactly when it is RUNNING, and never both. */
  lemma {:induction false} OwnerUnique(k: Kernel, t: TaskId)
    requires Invariant(k) && t in k.tcbs
    ensures Queued(k, t) <==> k.tcbs[t].state == Ready
    ensures k.current == Some(t) <==> k.tcbs[t].state == Running
    ensures !(Queued(k, t) && k.current == Some(t))
  {
    assert Linked(k, t);
    var b := k.tcbs[t];
    if b.state == Ready {
      assert b.node in k.queue[b.priority];
    } else {
      NotReadyNotQueued(k, t);
    }
  }

  /** A task that is the only one ever ready stays current: when it yields with
      a real handle it is re-filed and at once dispatched again, and the only
      change is the handle stored in its TCB. */
  lemma {:induction false} SingleReadyTaskStays(k: Kernel, h: Handle)
    requires Invariant(k) && k.current.Some? && k.ready == {}
    ensures var c := k.current.value;
      Schedule(k, Suspended(h)) == (k.(tcbs := k.tcbs[c := k.tcbs[c].(sp := h)]), Restored(c, h))
  {
    var c := k.current.value;
    assert Linked(k, c);
    var b := k.tcbs[c];
    var k1 := Refile(k, c, h);
    RefileKeepsCore(k, c, h);
    DispatchChoosesMostUrgent(k1);
    assert k1.ready == {b.priority};
    assert HighestReady(k1.ready) == b.priority;
    assert k.queue[b.priority] == [];
    assert k1.queue[b.priority] == [b.node];
    var k2 := Dispatch(k1).0;
    assert k2.queue == k.queue;
    assert k2.ready == k.ready;
    assert k2.tcbs == k.tcbs[c := b.(sp := h)];
  }

  // ---------------------------------------------------------------------------
  // Series of creations

  /** The arguments of one eos_create_task call, as far as the bookkeeping uses them. */
  datatype Creation = Creation(task: TaskId, priority: nat, sp: Addr)

  ghost predicate ValidLevels(cs: seq<Creation>)
  {
    forall i :: 0 <= i < |cs| ==> cs[i].priority <= LOWEST_PRIORITY
  }

  /** The bookkeeping of a series of task creations, in order. */
  function CreateAll(k: Kernel, cs: seq<Creation>): (k': Kernel)
    requires |k.queue| == LOWEST_PRIORITY + 1 && ValidLevels(cs)
    decreases |cs|
    ensures |k'.queue| == LOWEST_PRIORITY + 1
  {
    if cs == [] then k
    else CreateAll(Create(k, cs[0].task, cs[0].priority, cs[0].sp), cs[1..])
  }

  /** The most urgent priority among a non-empty series of creations. */
  function MinPriority(cs: seq<Creation>): nat
    requires cs != []
    decreases |cs|
  {
    if |cs| == 1 then cs[0].priority
    else if cs[0].priority <= MinPriority(cs[1..]) then cs[0].priority
    else MinPriority(cs[1..])
  }

  lemma {:induction false} MinPriorityIsLeast(cs: seq<Creation>)
    requires cs != []
    decreases |cs|
    ensures exists i :: 0 <= i < |cs| && cs[i].priority == MinPriority(cs)
    ensures forall i :: 0 <= i < |cs| ==> MinPriority(cs) <= cs[i].priority
  {
    if |cs| > 1 {
      MinPriorityIsLeast(cs[1..]);
      var j :| 0 <= j < |cs[1..]| && cs[1..][j].priority == MinPriority(cs[1..]);
      assert cs[j + 1].priority == MinPriority(cs[1..]);
      forall i | 0 <= i < |cs| ensures MinPriority(cs) <= cs[i].priority {
        if i > 0 { assert cs[i] == cs[1..][i - 1]; }
      }
    } else {
      assert cs[0].priority == MinPriority(cs);
    }
  }

  /** A series of creations marks ready exactly the levels it creates tasks at. */
  lemma {:induction false} CreateAllMarksLevels(k: Kernel, cs: seq<Creation>)
    requires |k.queue| == LOWEST_PRIORITY + 1 && ValidLevels(cs)
    decreases |cs|
    ensures CreateAll(k, cs).ready == k.ready + set i | 0 <= i < |cs| :: cs[i].priority
  {
    if cs != [] {
      var k1 := Create(k, cs[0].task, cs[0].priority, cs[0].sp);
      CreateAllMarksLevels(k1, cs[1..]);
      var rest := set i | 0 <= i < |cs[1..]| :: cs[1..][i].priority;
      var all := set i | 0 <= i < |cs| :: cs[i].priority;
      forall q | q in all ensures q in k1.ready + rest {
        var i :| 0 <= i < |cs| && cs[i].priority == q;
        if i > 0 { assert cs[1..][i - 1] == cs[i]; }
      }
      forall q | q in rest ensures q in all {
        var i :| 0 <= i < |cs[1..]| && cs[1..][i].priority == q;
        assert cs[i + 1] == cs[1..][i];
      }
    }
  }

  /** After creating tasks at priorities p1..pn with nothing ready before, the
      highest ready priority is min(p1..pn). */
  lemma {:induction false} HighestAfterCreations(k: Kernel, cs: seq<Creation>)
    requires |k.queue| == LOWEST_PRIORITY + 1 && ValidLevels(cs)
    requires k.ready == {} && cs != []
    ensures HighestReady(CreateAll(k, cs).ready) == MinPriority(cs)
  {
    CreateAllMarksLevels(k, cs);
    MinPriorityIsLeast(cs);
    var r := CreateAll(k, cs).ready;
    var m := MinPriority(cs);
    var i :| 0 <= i < |cs| && cs[i].priority == m;
    assert m in r;
    var h := HighestReady(r);
    assert h in r && h <= m;
    var j :| 0 <= j < |cs| && cs[j].priority == h;
  }

  // ---------------------------------------------------------------------------
  // Module initialisation

  /** The state of the kernel before any task exists: no TCBs, no nodes and no
      level marked ready; the buckets and the current task may hold anything. */
  ghost predicate Unstarted(k: Kernel)
  {
    |k.queue| == LOWEST_PRIORITY + 1 && k.ready == {} && k.tcbs == map[] && k.nodes == map[]
  }

  /** Initialisation as written leaves the bucket of level LOWEST_PRIORITY as it
      was, so a stale node there survives it and the invariant fails
      (readiness flag clear, bucket non-empty). */
  lemma {:induction false} InitAsWrittenKeepsLowestBucket(k: Kernel)
    requires Unstarted(k) && k.queue[LOWEST_PRIORITY] != []
    ensures InitAsWritten(k).queue[LOWEST_PRIORITY] == k.queue[LOWEST_PRIORITY]
    ensures !Invariant(InitAsWritten(k))
  {
    var k' := InitAsWritten(k);
    assert LOWEST_PRIORITY !in k'.ready;
  }

  /** A concrete unstarted state for which initialisation as written fails. */
  lemma InitAsWrittenCounterexample()
    ensures var k := Kernel(seq(LOWEST_PRIORITY + 1, p => if p == LOWEST_PRIORITY then [0] else []),
                            {}, None, map[], map[], 0);
      Unstarted(k) && !Invariant(InitAsWritten(k))
  {
    var k := Kernel(seq(LOWEST_PRIORITY + 1, p => if p == LOWEST_PRIORITY then [0] else []),
                    {}, None, map[], map[], 0);
    InitAsWrittenKeepsLowestBucket(k);
  }

  /** Initialisation as intended empties every bucket and clears the current
      task, whatever the buckets held, and so establishes the invariant. */
  lemma {:induction false} InitializedEstablishesInvariant(k: Kernel)
    requires Unstarted(k)
    ensures Initialized(k).current == None
    ensures forall p :: 0 <= p <= LOWEST_PRIORITY ==> Initialized(k).queue[p] == []
    ensures Invariant(Initialized(k))
  {
  }

  // ---------------------------------------------------------------------------
  // Scenario

  /** When the current task yields with a real handle and no other level is
      ready, its level's bucket rotates: the head is dispatched and the
      yielding task's node goes to the back. */
  lemma {:induction false} YieldRotatesLevel(k: Kernel, h: Handle)
    requires WellFormed(k) && k.current.Some?
    requires forall q :: q in k.ready ==> q == k.tcbs[k.current.value].priority
    ensures var c := k.current.value;
      var p := k.tcbs[c].priority;
      var line := k.queue[p] + [k.tcbs[c].node];
      var (k', o) := Schedule(k, Suspended(h));
      && o.Restored?
      && k.nodes[line[0]].task == o.task
      && o.sp == (if o.task == c then h else k.tcbs[o.task].sp)
      && k'.current == Some(o.task)
      && k'.queue[p] == line[1..]
      && k'.ready == (if line[1..] == [] then {} else {p})
      && k'.nodes == k.nodes
      && k'.tcbs.Keys == k.tcbs.Keys
      && k'.tcbs[c].sp == h
      && (forall t :: t in k.tcbs ==> k'.tcbs[t].priority == k.tcbs[t].priority)
      && (forall t :: t in k.tcbs && t != c ==> k'.tcbs[t].sp == k.tcbs[t].sp)
  {
    var c := k.current.value;
    var p := k.tcbs[c].priority;
    var k1 := Refile(k, c, h);
    RefileKeepsWellFormed(k, c, h);
    assert k1.ready == {p};
    assert HighestReady(k1.ready) == p;
    assert Schedule(k, Suspended(h)) == Dispatch(k1);
  }

  /** Creating three tasks at one level after initialisation queues their
      nodes in creation order, marks only that level ready and records each
      task READY with its own node and stack pointer. */
  lemma {:induction false} CreateThreeAtLevel(k0: Kernel, a: TaskId, b: TaskId, c: TaskId, p: nat,
                                              sa: Addr, sb: Addr, sc: Addr)
    requires Unstarted(k0)
    requires a != b && b != c && a != c && p <= LOWEST_PRIORITY
    ensures var k1 := Create(Create(Create(Initialized(k0), a, p, sa), b, p, sb), c, p, sc);
      var n := k0.nextNode;
      && WellFormed(k1)
      && k1.current == None
      && k1.queue[p] == [n, n + 1, n + 2]
      && k1.ready == {p}
      && k1.nodes == map[n := Node(a, p), n + 1 := Node(b, p), n + 2 := Node(c, p)]
      && k1.tcbs == map[a := Tcb(Ready, p, sa, n), b := Tcb(Ready, p, sb, n + 1), c := Tcb(Ready, p, sc, n + 2)]
  {
    var i0 := Initialized(k0);
    var ka := Create(i0, a, p, sa);
    var kb := Create(ka, b, p, sb);
    var k1 := Create(kb, c, p, sc);
    assert WellFormed(k1) by {
      InitializedEstablishesInvariant(k0);
      CreateKeepsWellFormed(i0, a, p, sa);
      CreateKeepsWellFormed(ka, b, p, sb);
      CreateKeepsWellFormed(kb, c, p, sc);
    }
  }

  /** A yield with exactly two nodes x, y in the current task's bucket and no
      other level ready: the task of x is dispatched and the bucket becomes y
      followed by the yielding task's node. */
  lemma {:induction false} YieldWithTwoWaiting(k: Kernel, h: Handle, p: nat, x: NodeId, y: NodeId)
    requires WellFormed(k) && k.current.Some? && k.ready == {p}
    requires k.tcbs[k.current.value].priority == p && k.queue[p] == [x, y]
    ensures var c := k.current.value;
      var (k', o) := Schedule(k, Suspended(h));
      && WellFormed(k')
      && o == Restored(k.nodes[x].task, if k.nodes[x].task == c then h else k.tcbs[k.nodes[x].task].sp)
      && k'.current == Some(k.nodes[x].task)
      && k'.queue[p] == [y, k.tcbs[c].node]
      && k'.ready == {p}
      && k'.nodes == k.nodes
      && k'.tcbs.Keys == k.tcbs.Keys
      && (forall t :: t in k.tcbs ==> k'.tcbs[t].priority == k.tcbs[t].priority && k'.tcbs[t].node == k.tcbs[t].node)
      && k'.tcbs[c].sp == h
      && (forall t :: t in k.tcbs && t != c ==> k'.tcbs[t].sp == k.tcbs[t].sp)
  {
    YieldRotatesLevel(k, h);
    ScheduleKeepsWellFormed(k, Suspended(h));
    var k' := Schedule(k, Suspended(h)).0;
    forall t | t in k.tcbs ensures k'.tcbs[t].node == k.tcbs[t].node {
    }
    var line := k.queue[p] + [k.tcbs[k.current.value].node];
    assert line[0] == x && line[1..] == [y, k.tcbs[k.current.value].node];
  }

  /** FIFO within a level: when the current task a and the tasks b and c, in
      that order in the bucket, are the only ready work at one level, three
      yields dispatch b, then c, then a again, each with the handle it was
      last frozen with. */
  lemma {:induction false} YieldsCycleLevel(k: Kernel, p: nat, a: TaskId, b: TaskId, c: TaskId,
                                            h1: Handle, h2: Handle, h3: Handle)
    requires WellFormed(k) && k.current == Some(a) && k.ready == {p}
    requires b in k.tcbs && c in k.tcbs && a != b && b != c && a != c
    requires k.tcbs[a].priority == p && k.tcbs[b].priority == p && k.tcbs[c].priority == p
    requires k.queue[p] == [k.tcbs[b].node, k.tcbs[c].node]
    ensures Schedule(k, Suspended(h1)).1 == Restored(b, k.tcbs[b].sp)
    ensures var k2 := Schedule(k, Suspended(h1)).0;
      && WellFormed(k2)
      && Schedule(k2, Suspended(h2)).1 == Restored(c, k.tcbs[c].sp)
      && var k3 := Schedule(k2, Suspended(h2)).0;
      && WellFormed(k3)
      && Schedule(k3, Suspended(h3)).1 == Restored(a, h1)
  {
    var (x, y, z) := (k.tcbs[b].node, k.tcbs[c].node, k.tcbs[a].node);
    var k2 := Schedule(k, Suspended(h1)).0;
    YieldWithTwoWaiting(k, h1, p, x, y);
    assert k2.current == Some(b) && k2.queue[p] == [y, z] && k2.tcbs[b].priority == p
      && k2.nodes == k.nodes && k2.tcbs[a].sp == h1 && k2.tcbs[c].sp == k.tcbs[c].sp
      && k2.tcbs[a].node == z && k2.tcbs[b].node == x;
    var k3 := Schedule(k2, Suspended(h2)).0;
    YieldWithTwoWaiting(k2, h2, p, y, z);
    assert k3.current == Some(c) && k3.queue[p] == [z, x] && k3.tcbs[c].priority == p
      && k3.nodes == k.nodes && k3.tcbs[a].sp == h1;
    YieldWithTwoWaiting(k3, h3, p, z, x);
  }

  /** The first dispatch after creating tasks a, b, c at one level picks a
      with its initial stack pointer and leaves b and c queued in creation
      order behind it, at the only ready level. No task is current yet, so
      the save primitive is never called and the save result passed to
      `Schedule` is unused. */
  lemma {:induction false} FirstDispatchAfterCreation(k0: Kernel, a: TaskId, b: TaskId, c: TaskId, p: nat,
                                                      sa: Addr, sb: Addr, sc: Addr)
    requires Unstarted(k0)
    requires a != b && b != c && a != c && p <= LOWEST_PRIORITY
    ensures var k1 := Create(Create(Create(Initialized(k0), a, p, sa), b, p, sb), c, p, sc);
      && Invariant(k1)
      && Schedule(k1, Resumed).1 == Restored(a, sa)
      && var k2 := Schedule(k1, Resumed).0;
      && Invariant(k2)
      && k2.current == Some(a) && k2.ready == {p}
      && b in k2.tcbs && c in k2.tcbs
      && k2.tcbs[a].priority == p && k2.tcbs[b].priority == p && k2.tcbs[c].priority == p
      && k2.tcbs[b].sp == sb && k2.tcbs[c].sp == sc
      && k2.queue[p] == [k2.tcbs[b].node, k2.tcbs[c].node]
  {
    var n := k0.nextNode;
    CreateThreeAtLevel(k0, a, b, c, p, sa, sb, sc);
    var i0 := Initialized(k0);
    var k1 := Create(Create(Create(i0, a, p, sa), b, p, sb), c, p, sc);
    assert Invariant(k1) by {
      InitializedEstablishesInvariant(k0);
      CreatePreservesInvariant(i0, a, p, sa);
      CreatePreservesInvariant(Create(i0, a, p, sa), b, p, sb);
      CreatePreservesInvariant(Create(Create(i0, a, p, sa), b, p, sb), c, p, sc);
    }
    assert HighestReady(k1.ready) == p;
    SchedulePreservesInvariant(k1, Resumed);
  }

  /** Three tasks created at one level run round-robin: the first dispatch
      picks a, and three yields then dispatch b, c and a again. The first
      call has no current task, so its save result is unused. */
  lemma {:induction false} RoundRobinWithinLevel(k0: Kernel, a: TaskId, b: TaskId, c: TaskId, p: nat,
                                                 sa: Addr, sb: Addr, sc: Addr, h1: Handle, h2: Handle, h3: Handle)
    requires Unstarted(k0)
    requires a != b && b != c && a != c && p <= LOWEST_PRIORITY
    ensures var k1 := Create(Create(Create(Initialized(k0), a, p, sa), b, p, sb), c, p, sc);
      && Invariant(k1)
      && Schedule(k1, Resumed).1 == Restored(a, sa)
      && var k2 := Schedule(k1, Resumed).0;
      && WellFormed(k2)
      && Schedule(k2, Suspended(h1)).1 == Restored(b, sb)
      && var k3 := Schedule(k2, Suspended(h1)).0;
      && WellFormed(k3)
      && Schedule(k3, Suspended(h2)).1 == Restored(c, sc)
      && var k4 := Schedule(k3, Suspended(h2)).0;
      && WellFormed(k4)
      && Schedule(k4, Suspended(h3)).1 == Restored(a, h1)
  {
    FirstDispatchAfterCreation(k0, a, b, c, p, sa, sb, sc);
    var k1 := Create(Create(Create(Initialized(k0), a, p, sa), b, p, sb), c, p, sc);
    YieldsCycleLevel(Schedule(k1, Resumed).0, p, a, b, c, h1, h2, h3);
  }
}
