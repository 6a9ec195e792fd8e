/** The cooperative first-come-first-served scheduler over an intrusive FIFO.

    A fiber body is an adversary: at each dispatch it makes any sequence of calls, until
    it yields or returns.  A script lists those turns; a run is a run of some script, and
    a run whose script ends early stands for every longer run it is a prefix of. */
module FcfsScheduler {
  import opened SlabAllocator
  import opened MultislabAllocator

  const DEFAULT_PER_SLAB: nat := 16
  const MIN_STACK_SIZE: nat := 256
  const TASK_SIZE: nat := 128

  function AlignUp(n: nat): (size: nat)
    ensures n <= size < n + CACHE_LINE_SIZE && size % CACHE_LINE_SIZE == 0
  {
    (n + CACHE_LINE_SIZE - 1) / CACHE_LINE_SIZE * CACHE_LINE_SIZE
  }

  class Task {
    const block: nat
    const stack: nat
    var next: Task?

    constructor (block: nat, stack: nat)
      ensures this.block == block && this.stack == stack
    {
      this.block, this.stack, next := block, stack, null;
    }
  }

  /** The hook the fiber epilogue runs, and whose scheduler it is given. */
  datatype Hook = NoHook | Foreign(id: nat) | ReturnHook(scheduler: Scheduler)

  /** The thread-local state. */
  class Thread {
    var scheduler: Scheduler?
    var hook: Hook
    // Every run begun on the thread.
    ghost var runs: seq<Scheduler>

    constructor ()
    {
      scheduler, hook, runs := null, NoHook, [];
    }

    /** The running fiber goes behind the others and back to the loop, unless it is alone
        or there is no fiber to speak of. */
    method Yield() returns (switched: bool)
      requires scheduler != null ==> scheduler.Valid()
      modifies if scheduler == null then {} else {scheduler}
      modifies (if scheduler == null then {} else scheduler.tasks)`next
      ensures switched <==> scheduler != null && old(scheduler.current != null && scheduler.queue != [])
      ensures scheduler != null ==>
        && scheduler.Valid() && scheduler.tasks == old(scheduler.tasks) && scheduler.zombie == old(scheduler.zombie)
        && scheduler.dispatched == old(scheduler.dispatched) && scheduler.made == old(scheduler.made)
        && scheduler.activeCount == old(scheduler.activeCount)
      ensures switched ==>
        && scheduler.current == null && scheduler.queue == old(scheduler.queue) + [old(scheduler.current)]
        && scheduler.enqueued == old(scheduler.enqueued) + [old(scheduler.current)]
      ensures !switched && scheduler != null ==>
        && scheduler.current == old(scheduler.current) && scheduler.queue == old(scheduler.queue)
        && scheduler.enqueued == old(scheduler.enqueued)
    {
      hide Scheduler.Valid;
      if scheduler == null {
        return false;
      }
      switched := scheduler.YieldCurrent();
    }
  }

  /** What a fiber may do while it runs.  Nested runs a scheduler of its own to completion. */
  datatype Call = Yield | Spawn | Nested(config: Config, fibers: nat, script: Script)

  /** The calls one fiber makes from the moment it is switched in; when they run out its
      function returns. */
  datatype Turn = Turn(calls: seq<Call>)

  /** The turns of a run, in the order the fibers are dispatched. */
  datatype Script = Script(turns: seq<Turn>)

  datatype Config = Config(stackSize: nat, fibersPerSlab: nat, maxSlabs: nat) {
    function PerSlab(): nat { if fibersPerSlab == 0 then DEFAULT_PER_SLAB else fibersPerSlab }

    predicate Accepted() {
      && stackSize >= MIN_STACK_SIZE
      && Configurable(AlignUp(TASK_SIZE), PerSlab()) && Configurable(AlignUp(stackSize), PerSlab())
    }
  }

  /** The backing allocator: callers know only that it never gives memory it has already
      given, so what they prove holds of every such allocator, this one being the poorest. */
  method AskBacking(ms: Multislab) returns (offer: Offer)
    ensures ms.Offered(offer)
  {
    offer := Offer(Null, Null);
  }

  /** A call that was made, and whether it switched, spawned or came to its end. */
  datatype Made = Made(call: Call, done: bool)

  predicate SwitchedOut(log: seq<Made>) { log != [] && log[|log| - 1].call.Yield? && log[|log| - 1].done }

  /** A nested run did not come to its end. */
  predicate Unfinished(log: seq<Made>) { log != [] && log[|log| - 1].call.Nested? && !log[|log| - 1].done }

  lemma UnfinishedAfter(before: seq<Made>, log: seq<Made>)
    ensures Unfinished(log) ==> Unfinished(before + log)
  {
  }

  /** The calls of one turn: those of the script in their order, up to the first that
      switches the fiber out or does not come to its end, or all of them. */
  ghost predicate TurnMade(calls: seq<Call>, log: seq<Made>) {
    && |log| <= |calls| && (forall i :: 0 <= i < |log| ==> log[i].call == calls[i])
    && (forall i :: 0 <= i < |log| - 1 ==> !SwitchedOut([log[i]]) && !Unfinished([log[i]]))
    && (|log| < |calls| ==> SwitchedOut(log) || Unfinished(log))
  }

  /** A block of `ms`, exactly unless it refuses one under what it is offered. */
  method TakeFrom(ms: Multislab) returns (p: Pointer, ghost offer: Offer)
    requires ms.Valid() && ms.Hysteresis()
    modifies ms.Repr
    ensures ms.Valid() && ms.Hysteresis() && fresh(ms.Repr - old(ms.Repr)) && ms in ms.Repr
    ensures p.Null? <==> old(ms.Refuses(offer))
    ensures p.Null? ==> ms.Live() == old(ms.Live())
    ensures p.At? ==> p.address !in old(ms.Live()) && ms.Live() == old(ms.Live()) + {p.address}
  {
    hide Multislab.Valid, Multislab.Hysteresis, Multislab.Refuses, Multislab.Offered;
    ms.InRepr();
    var asked := AskBacking(ms);
    offer := asked;
    p := ms.Alloc(asked);
    ms.InRepr();
  }

  /** What the backing allocator offers while a fiber is spawned: for the task block, and for the stack. */
  datatype Offers = Offers(task: Offer, stack: Offer)

  function Count(t: Task?): nat { if t == null then 0 else 1 }

  /** Every task is in exactly one of: the ready queue (once), current, zombie. */
  ghost predicate Places(tasks: set<Task>, queue: seq<Task>, current: Task?, zombie: Task?, active: int) {
    && (forall t :: t in tasks ==> t in queue || t == current || t == zombie)
    && (forall t :: t in queue ==> t in tasks && t != current && t != zombie)
    && (current != null ==> current in tasks && zombie == null)
    && (zombie != null ==> zombie in tasks)
    && active == |queue| + Count(current)
    && |tasks| == |queue| + Count(current) + Count(zombie)
  }

  lemma PlacesEnqueue(tasks: set<Task>, t: Task, queue: seq<Task>, current: Task?, zombie: Task?, active: int)
    requires Places(tasks, queue, current, zombie, active) && t !in tasks
    ensures Places(tasks + {t}, queue + [t], current, zombie, active + 1)
  {
  }

  lemma PlacesDequeue(tasks: set<Task>, queue: seq<Task>, active: int)
    requires Places(tasks, queue, null, null, active) && queue != []
    requires forall i, j :: 0 <= i < j < |queue| ==> queue[i] != queue[j]
    ensures Places(tasks, queue[1..], queue[0], null, active)
  {
    assert queue == [queue[0]] + queue[1..];
  }

  lemma OneTaskLess(tasks: set<Task>, t: Task, queue: seq<Task>, current: Task?, active: int)
    requires Places(tasks, queue, current, t, active)
    ensures Places(tasks - {t}, queue, current, null, active) && current == null && t in tasks
  {
  }

  lemma PlacesYield(tasks: set<Task>, queue: seq<Task>, current: Task, zombie: Task?, active: int)
    requires Places(tasks, queue, current, zombie, active)
    ensures Places(tasks, queue + [current], null, zombie, active) && current in tasks && current !in queue
  {
  }

  ghost predicate Owned(tasks: set<Task>, blocks: set<nat>, stacks: set<nat>) {
    && (forall t :: t in tasks ==> t.block in blocks && t.stack in stacks)
    && (forall t, u :: t in tasks && u in tasks && t != u ==> t.block != u.block && t.stack != u.stack)
    && |blocks| == |tasks| == |stacks|
  }

  lemma OneMoreOwner(tasks: set<Task>, t: Task, blocks: set<nat>, stacks: set<nat>)
    requires t !in tasks && t.block in blocks && t.stack in stacks
    requires Owned(tasks, blocks - {t.block}, stacks - {t.stack})
    ensures Owned(tasks + {t}, blocks, stacks)
  {
  }

  lemma OneOwnerLess(tasks: set<Task>, t: Task, blocks: set<nat>, stacks: set<nat>)
    requires t in tasks && Owned(tasks, blocks, stacks)
    ensures Owned(tasks - {t}, blocks - {t.block}, stacks - {t.stack})
    ensures t.block in blocks && t.stack in stacks
  {
  }

  class Scheduler {
    var current: Task?
    var zombie: Task?
    var readyHead: Task?
    var readyTail: Task?
    var activeCount: int
    const taskAlloc: Multislab
    const stackAlloc: Multislab

    ghost var queue: seq<Task>
    // Every task that owns a task block and a stack block.
    ghost var tasks: set<Task>
    // All tasks ever put on the ready queue, and all ever taken off it, in order.
    ghost var enqueued: seq<Task>
    ghost var dispatched: seq<Task>
    // Every call fibers made.
    ghost var made: seq<Made>

    ghost predicate QueueOk()
      reads this`readyHead, this`readyTail, this`queue, this`tasks, tasks`next
    {
      && readyHead == (if queue == [] then null else queue[0])
      && readyTail == (if queue == [] then null else queue[|queue| - 1])
      && (forall t :: t in queue ==> t in tasks)
      && (forall i, j :: 0 <= i < j < |queue| ==> queue[i] != queue[j])
      && (forall i {:trigger queue[i].next} :: 0 <= i < |queue| ==>
            queue[i].next == if i + 1 < |queue| then queue[i + 1] else null)
    }

    ghost predicate Partition()
      reads this`queue, this`tasks, this`current, this`zombie, this`activeCount
    {
      Places(tasks, queue, current, zombie, activeCount)
    }

    /** Each task owns a block of either allocator, and nothing else is in use. */
    ghost predicate BlocksOk()
      reads this`tasks, taskAlloc`owner, stackAlloc`owner
    {
      Owned(tasks, taskAlloc.Live(), stackAlloc.Live())
    }

    ghost predicate BlocksOkWith(t: Task)
      reads this`tasks, taskAlloc`owner, stackAlloc`owner
    {
      Owned(tasks + {t}, taskAlloc.Live(), stackAlloc.Live())
    }

    ghost function UsedBlocks(): (set<nat>, set<nat>)
      reads taskAlloc`owner, stackAlloc`owner
    {
      (taskAlloc.Live(), stackAlloc.Live())
    }

    ghost predicate AllocatorsOk()
      reads taskAlloc, taskAlloc.Repr, stackAlloc, stackAlloc.Repr
    {
      taskAlloc.Valid() && taskAlloc.Hysteresis() && stackAlloc.Valid() && stackAlloc.Hysteresis()
    }

    ghost predicate Separate()
      reads this`tasks, taskAlloc`Repr, stackAlloc`Repr
    {
      && taskAlloc in taskAlloc.Repr && stackAlloc in stackAlloc.Repr && taskAlloc.Repr !! stackAlloc.Repr
      && this !in taskAlloc.Repr && this !in stackAlloc.Repr
      && forall t :: t in tasks ==> t !in taskAlloc.Repr && t !in stackAlloc.Repr
    }

    /** Tasks are dispatched in the order they were enqueued. */
    ghost predicate InOrder()
      reads this`enqueued, this`dispatched, this`queue
    {
      enqueued == dispatched + queue
    }

    ghost predicate Valid()
      reads this, tasks, taskAlloc, taskAlloc.Repr, stackAlloc, stackAlloc.Repr
    {
      Separate() && QueueOk() && Partition() && BlocksOk() && AllocatorsOk() && InOrder()
    }

    /** The allocators are none of the thread's own memory. */
    ghost predicate Outer(thread: Thread)
      reads taskAlloc`Repr, stackAlloc`Repr
    {
      thread !in taskAlloc.Repr && thread !in stackAlloc.Repr
    }

    constructor ()
      ensures taskAlloc.held == map[] && stackAlloc.held == map[] && taskAlloc != stackAlloc
      ensures fresh(taskAlloc) && fresh(stackAlloc)
    {
      current, zombie, readyHead, readyTail, activeCount := null, null, null, null, 0;
      taskAlloc := new Multislab();
      stackAlloc := new Multislab();
      queue, tasks, enqueued, dispatched, made := [], {}, [], [], [];
    }

    /** memset to zero of all but the allocators. */
    method Clear()
      modifies this
      ensures QueueOk() && Partition() && InOrder() && Idle()
    {
      current, zombie, readyHead, readyTail, activeCount := null, null, null, null, 0;
      queue, tasks, enqueued, dispatched, made := [], {}, [], [], [];
    }

    /** Nothing ever ran here and nothing waits to. */
    ghost predicate Idle()
      reads this
    {
      && queue == [] && tasks == {} && current == null && zombie == null && activeCount == 0
      && enqueued == [] && dispatched == []
    }

    method Init(config: Config) returns (rc: int)
      requires taskAlloc.held == map[] && stackAlloc.held == map[] && taskAlloc != stackAlloc
      modifies this, taskAlloc, stackAlloc
      ensures rc == 0 || rc == -1
      ensures rc == 0 <==> config.Accepted()
      ensures rc == 0 ==> Valid() && Idle() && UsedBlocks() == ({}, {})
      ensures rc == 0 ==> taskAlloc.Repr == {taskAlloc} && stackAlloc.Repr == {stackAlloc}
      ensures rc == 0 ==>
        && taskAlloc.blockSize == AlignUp(TASK_SIZE) && stackAlloc.blockSize == AlignUp(config.stackSize)
        && taskAlloc.blocksPerSlab == stackAlloc.blocksPerSlab == config.PerSlab()
        && taskAlloc.maxSlabs == stackAlloc.maxSlabs == config.maxSlabs
        && taskAlloc.maxEmptyReserve == stackAlloc.maxEmptyReserve == 1
      ensures rc != 0 ==> taskAlloc.held == map[] && stackAlloc.held == map[]
    {
      hide Multislab.Valid, Multislab.Hysteresis;
      if config.stackSize < MIN_STACK_SIZE {
        return -1;
      }
      Clear();
      rc := taskAlloc.InitExt(AlignUp(TASK_SIZE), config.PerSlab(), config.maxSlabs, 1, true);
      if rc != 0 {
        return;
      }
      rc := stackAlloc.InitExt(AlignUp(config.stackSize), config.PerSlab(), config.maxSlabs, 1, true);
      if rc != 0 {
        taskAlloc.Destroy();
        return;
      }
    }

    /** Both allocators give back all they took. */
    method Destroy()
      requires Valid()
      modifies this, taskAlloc, stackAlloc
      ensures taskAlloc.held == map[] && stackAlloc.held == map[] && Idle()
    {
      hide Multislab.Valid;
      taskAlloc.Destroy();
      stackAlloc.Destroy();
      Clear();
    }

    method EnqueueReady(t: Task)
      requires QueueOk() && InOrder() && t !in queue && t in tasks
      modifies this`readyHead, this`readyTail, this`queue, this`enqueued, tasks`next
      ensures QueueOk() && InOrder() && queue == old(queue) + [t] && enqueued == old(enqueued) + [t]
    {
      t.next := null;
      if readyTail != null {
        readyTail.next := t;
      } else {
        readyHead := t;
      }
      readyTail := t;
      assert dispatched + queue + [t] == dispatched + (queue + [t]);
      queue := queue + [t];
      enqueued := enqueued + [t];
    }

    method DequeueReady() returns (t: Task?)
      requires QueueOk()
      modifies this`readyHead, this`readyTail, this`queue, this`dispatched, tasks`next
      ensures QueueOk()
      ensures old(queue) == [] ==> t == null && queue == [] && dispatched == old(dispatched)
      ensures old(queue) != [] ==>
        t == old(queue)[0] && queue == old(queue)[1..] && dispatched == old(dispatched) + [t]
    {
      t := readyHead;
      if t == null {
        return;
      }
      readyHead := t.next;
      if readyHead == null {
        readyTail := null;
      }
      t.next := null;
      assert forall i {:trigger queue[i]} :: 1 <= i < |queue| ==> queue[i] == queue[1..][i - 1];
      queue := queue[1..];
      dispatched := dispatched + [t];
    }

    /** No task and stack can be had, under what the backing allocator offers for either. */
    ghost predicate Refuses(offers: Offers)
      reads taskAlloc, taskAlloc.nodes`usedCount, stackAlloc, stackAlloc.nodes`usedCount
    {
      taskAlloc.Refuses(offers.task) || stackAlloc.Refuses(offers.stack)
    }

    /** A task block and a stack block, or neither. */
    method AllocPair() returns (ok: bool, block: nat, stack: nat, ghost offers: Offers)
      requires AllocatorsOk() && taskAlloc.Repr !! stackAlloc.Repr
      modifies taskAlloc.Repr, stackAlloc.Repr
      ensures AllocatorsOk() && taskAlloc.Repr !! stackAlloc.Repr
      ensures taskAlloc in taskAlloc.Repr && stackAlloc in stackAlloc.Repr
      ensures fresh(taskAlloc.Repr - old(taskAlloc.Repr)) && fresh(stackAlloc.Repr - old(stackAlloc.Repr))
      ensures !ok <==> old(Refuses(offers))
      ensures !ok ==> taskAlloc.Live() == old(taskAlloc.Live()) && stackAlloc.Live() == old(stackAlloc.Live())
      ensures ok ==>
        && block !in old(taskAlloc.Live()) && taskAlloc.Live() == old(taskAlloc.Live()) + {block}
        && stack !in old(stackAlloc.Live()) && stackAlloc.Live() == old(stackAlloc.Live()) + {stack}
    {
      hide Multislab.Valid, Multislab.Hysteresis, Multislab.Refuses;
      ok, block, stack, offers := false, 0, 0, Offers(Offer(Null, Null), Offer(Null, Null));
      taskAlloc.InRepr();
      stackAlloc.InRepr();
      var b, forTask := TakeFrom(taskAlloc);
      offers := offers.(task := forTask);
      if b.Null? {
        return;
      }
      var s, forStack := TakeFrom(stackAlloc);
      offers := offers.(stack := forStack);
      if s.Null? {
        taskAlloc.Release(b.address);
        return;
      }
      ok, block, stack := true, b.address, s.address;
    }

    /** Memory for a task and its stack, in blocks no task owns; or nothing. */
    method NewTask() returns (t: Task?, ghost offers: Offers)
      requires Separate() && AllocatorsOk() && BlocksOk()
      modifies taskAlloc.Repr, stackAlloc.Repr
      ensures Separate() && AllocatorsOk()
      ensures fresh(taskAlloc.Repr - old(taskAlloc.Repr)) && fresh(stackAlloc.Repr - old(stackAlloc.Repr))
      ensures t == null <==> old(Refuses(offers))
      ensures t != null ==>
        && fresh(t) && t !in taskAlloc.Repr && t !in stackAlloc.Repr
        && BlocksOkWith(t)
      ensures t == null ==> BlocksOk() && UsedBlocks() == old(UsedBlocks())
    {
      hide AllocatorsOk, Owned, Refuses;
      var ok, block, stack;
      ok, block, stack, offers := AllocPair();
      if !ok {
        return null, offers;
      }
      assert taskAlloc.Live() - {block} == old(taskAlloc.Live());
      assert stackAlloc.Live() - {stack} == old(stackAlloc.Live());
      t := new Task(block, stack);
      OneMoreOwner(tasks, t, taskAlloc.Live(), stackAlloc.Live());
    }

    ghost method AddTask(t: Task)
      requires QueueOk() && t !in tasks
      modifies this`tasks
      ensures QueueOk() && tasks == old(tasks) + {t} && t !in queue
    {
      tasks := tasks + {t};
    }

    method Admit(t: Task)
      requires QueueOk() && Partition() && InOrder() && t !in tasks
      modifies this`readyHead, this`readyTail, this`queue, this`enqueued, this`activeCount, this`tasks, tasks`next
      modifies t`next
      ensures QueueOk() && Partition() && InOrder()
      ensures queue == old(queue) + [t] && enqueued == old(enqueued) + [t] && tasks == old(tasks) + {t}
      ensures activeCount == old(activeCount) + 1
    {
      hide Places, InOrder, QueueOk;
      PlacesEnqueue(tasks, t, queue, current, zombie, activeCount);
      AddTask(t);
      EnqueueReady(t);
      activeCount := activeCount + 1;
    }

    /** A task block and a stack block, and a task that owns them behind all others in the
        queue; or nothing at all, exactly if either allocator refuses a block. */
    method Spawn() returns (ok: bool, ghost offers: Offers)
      requires Valid()
      modifies this, tasks, taskAlloc.Repr, stackAlloc.Repr
      ensures Valid() && fresh(tasks - old(tasks)) && made == old(made)
      ensures fresh(taskAlloc.Repr - old(taskAlloc.Repr)) && fresh(stackAlloc.Repr - old(stackAlloc.Repr))
      ensures current == old(current) && zombie == old(zombie) && dispatched == old(dispatched)
      ensures !ok <==> old(Refuses(offers))
      ensures !ok ==>
        && queue == old(queue) && tasks == old(tasks) && activeCount == old(activeCount) && enqueued == old(enqueued)
        && UsedBlocks() == old(UsedBlocks())
      ensures ok ==>
        && activeCount == old(activeCount) + 1 && |queue| == |old(queue)| + 1
        && queue == old(queue) + [queue[|queue| - 1]]
        && enqueued == old(enqueued) + [queue[|queue| - 1]]
        && fresh(queue[|queue| - 1]) && tasks == old(tasks) + {queue[|queue| - 1]}
    {
      hide AllocatorsOk, QueueOk, Partition, InOrder, Owned, Refuses;
      var t;
      t, offers := NewTask();
      ok := t != null;
      if ok {
        Admit(t);
      }
    }

    /** The stack goes back first, then the block it is described in. */
    method FreeBlocks(t: Task)
      requires Separate() && AllocatorsOk() && BlocksOk() && t in tasks
      modifies taskAlloc.Repr, stackAlloc.Repr
      ensures Separate() && AllocatorsOk() && Owned(tasks - {t}, taskAlloc.Live(), stackAlloc.Live())
      ensures taskAlloc.Repr == old(taskAlloc.Repr) && stackAlloc.Repr == old(stackAlloc.Repr)
    {
      hide Owned, Multislab.Valid, Multislab.Hysteresis, Multislab.Returned;
      OneOwnerLess(tasks, t, taskAlloc.Live(), stackAlloc.Live());
      stackAlloc.Release(t.stack);
      taskAlloc.Release(t.block);
    }

    method TaskFree(t: Task)
      requires Valid() && t == zombie
      modifies taskAlloc.Repr, stackAlloc.Repr, this`tasks, this`zombie
      ensures Valid() && tasks == old(tasks) - {t} && zombie == null
      ensures taskAlloc.Repr == old(taskAlloc.Repr) && stackAlloc.Repr == old(stackAlloc.Repr)
    {
      hide AllocatorsOk, InOrder, Owned, Places;
      OneTaskLess(tasks, t, queue, current, activeCount);
      FreeBlocks(t);
      tasks := tasks - {t};
      zombie := null;
    }

    method YieldCurrent() returns (switched: bool)
      requires Valid()
      modifies this`current, this`readyHead, this`readyTail, this`queue, this`enqueued, tasks`next
      ensures Valid()
      ensures switched <==> old(current) != null && old(queue) != []
      ensures switched ==>
        current == null && queue == old(queue) + [old(current)] && enqueued == old(enqueued) + [old(current)]
      ensures !switched ==> current == old(current) && queue == old(queue) && enqueued == old(enqueued)
    {
      hide Places, Owned, AllocatorsOk;
      var t := current;
      if t == null {
        return false;
      }
      if readyHead == null {
        return false;
      }
      PlacesYield(tasks, queue, t, zombie, activeCount);
      EnqueueReady(t);
      current := null;
      switched := true;
    }

    /** The running fiber's function returned: its stack is still in use, so it is only
        marked, and freed by the loop. */
    method OnReturn()
      requires Valid() && current != null
      modifies this`current, this`zombie, this`activeCount
      ensures Valid() && current == null && zombie == old(current) && activeCount == old(activeCount) - 1
    {
      hide AllocatorsOk, QueueOk, BlocksOk, InOrder;
      zombie := current;
      current := null;
      activeCount := activeCount - 1;
    }

    // ----- the loop -----

    /** What a call did: it switched exactly if another fiber is ready; it spawned exactly
        unless an allocator refused; a nested run left this scheduler as it was. */
    twostate predicate Did(c: Call, r: bool)
      reads this`current, this`queue, this`enqueued, this`activeCount, this`tasks, taskAlloc`owner, stackAlloc`owner
    {
      match c
      case Yield =>
        && (r <==> old(queue) != []) && tasks == old(tasks) && activeCount == old(activeCount)
        && (r ==> current == null && queue == old(queue) + [old(current)])
        && (!r ==> current == old(current) && queue == old(queue))
      case Spawn =>
        && current == old(current)
        && (r ==> |queue| == |old(queue)| + 1 && old(queue) <= queue && activeCount == old(activeCount) + 1)
        && (r ==> tasks == old(tasks) + {queue[|queue| - 1]} && queue[|queue| - 1] !in old(tasks))
        && (!r ==> queue == old(queue) && tasks == old(tasks) && UsedBlocks() == old(UsedBlocks()))
        && (!r ==> old(taskAlloc.AllFull()) || old(stackAlloc.AllFull()))
      case Nested(_, _, _) =>
        && current == old(current) && queue == old(queue) && enqueued == old(enqueued) && tasks == old(tasks)
        && activeCount == old(activeCount) && UsedBlocks() == old(UsedBlocks())
    }

    /** One call of the running fiber, through the thread's scheduler. */
    method Perform(thread: Thread, c: Call) returns (r: bool)
      requires Valid() && current != null && thread.scheduler == this && thread.hook == ReturnHook(this)
      requires Outer(thread)
      modifies this, tasks, taskAlloc.Repr, stackAlloc.Repr, thread
      ensures old(thread.runs) <= thread.runs
      ensures Valid() && fresh(tasks - old(tasks)) && Outer(thread)
      ensures fresh(taskAlloc.Repr - old(taskAlloc.Repr)) && fresh(stackAlloc.Repr - old(stackAlloc.Repr))
      ensures dispatched == old(dispatched) && old(enqueued) <= enqueued && zombie == old(zombie)
      ensures made == old(made) + [Made(c, r)] && Did(c, r)
      ensures current == if c.Yield? && r then null else old(current)
      ensures r || !c.Nested? ==> thread.scheduler == this && thread.hook == ReturnHook(this)
      decreases c
    {
      hide Valid, Refuses;
      RunParts();
      match c {
        case Yield =>
          r := thread.Yield();
        case Spawn =>
          RefusedWhenFull();
          ghost var offers;
          r, offers := thread.scheduler.Spawn();
        case Nested(config, fibers, script) =>
          r := RunAnother(thread, config, fibers, script);
      }
      Log(c, r);
    }

    /** The calls of the running fiber, up to its switch back to the loop.  Not done: a run
        it nested did not come to its end within the script. */
    method RunTurn(thread: Thread, turn: Turn) returns (done: bool, ghost log: seq<Made>)
      requires Valid() && current != null && thread.scheduler == this && thread.hook == ReturnHook(this)
      requires Outer(thread) && zombie == null
      modifies this, tasks, taskAlloc.Repr, stackAlloc.Repr, thread
      ensures old(thread.runs) <= thread.runs
      ensures Valid() && fresh(tasks - old(tasks)) && Outer(thread)
      ensures fresh(taskAlloc.Repr - old(taskAlloc.Repr)) && fresh(stackAlloc.Repr - old(stackAlloc.Repr))
      ensures dispatched == old(dispatched) && old(enqueued) <= enqueued
      ensures made == old(made) + log && TurnMade(turn.calls, log) && (done <==> !Unfinished(log))
      ensures done ==> current == null && thread.scheduler == this && thread.hook == ReturnHook(this)
      ensures done ==> zombie == if SwitchedOut(log) then null else old(current)
      decreases turn, 0
    {
      hide Valid, Did;
      RunParts();
      var k := 0;
      log := [];
      while k < |turn.calls|
        invariant k <= |turn.calls|
        invariant Valid() && current == old(current) && zombie == null
        invariant thread.scheduler == this && thread.hook == ReturnHook(this) && old(thread.runs) <= thread.runs
        invariant Outer(thread)
        invariant fresh(tasks - old(tasks)) && dispatched == old(dispatched) && old(enqueued) <= enqueued
        invariant fresh(taskAlloc.Repr - old(taskAlloc.Repr)) && fresh(stackAlloc.Repr - old(stackAlloc.Repr))
        invariant made == old(made) + log && |log| == k
        invariant forall i :: 0 <= i < k ==>
          log[i].call == turn.calls[i] && !SwitchedOut([log[i]]) && !Unfinished([log[i]])
        decreases |turn.calls| - k
      {
        RunParts();
        var c := turn.calls[k];
        var r := Perform(thread, c);
        log := log + [Made(c, r)];
        if c.Yield? && r {
          return true, log;
        }
        if c.Nested? && !r {
          return false, log;
        }
        k := k + 1;
      }
      RunParts();
      thread.hook.scheduler.OnReturn();
      done := true;
    }

    /** Dispatches the head of the ready queue, which is not empty, until it switches back. */
    method Dispatch(thread: Thread, turn: Turn) returns (done: bool, ghost log: seq<Made>)
      requires Valid() && current == null && zombie == null && activeCount > 0
      requires thread.scheduler == this && thread.hook == ReturnHook(this) && Outer(thread)
      modifies this, tasks, taskAlloc.Repr, stackAlloc.Repr, thread
      ensures old(thread.runs) <= thread.runs
      ensures Valid() && fresh(tasks - old(tasks)) && Outer(thread)
      ensures fresh(taskAlloc.Repr - old(taskAlloc.Repr)) && fresh(stackAlloc.Repr - old(stackAlloc.Repr))
      ensures old(queue) != [] && dispatched == old(dispatched) + [old(queue)[0]] && old(enqueued) <= enqueued
      ensures made == old(made) + log && TurnMade(turn.calls, log) && (done <==> !Unfinished(log))
      ensures done ==> current == null && thread.scheduler == this && thread.hook == ReturnHook(this)
      ensures done ==> zombie == if SwitchedOut(log) then null else old(queue)[0]
      decreases turn, 1
    {
      hide AllocatorsOk, BlocksOk, InOrder, Places, TurnMade;
      var t := Next();
      done, log := RunTurn(thread, turn);
    }

    lemma RefusedWhenFull()
      ensures forall offers :: Refuses(offers) ==> taskAlloc.AllFull() || stackAlloc.AllFull()
    {
    }

    ghost method Log(c: Call, r: bool)
      requires Valid()
      modifies this`made
      ensures Valid() && made == old(made) + [Made(c, r)]
    {
      hide QueueOk, Partition, BlocksOk, AllocatorsOk, InOrder;
      made := made + [Made(c, r)];
    }

    lemma RunParts()
      requires Valid()
      ensures taskAlloc in taskAlloc.Repr && stackAlloc in stackAlloc.Repr
      ensures this !in taskAlloc.Repr && this !in stackAlloc.Repr
      ensures activeCount == |queue| + Count(current)
      ensures activeCount == 0 && zombie == null ==>
        && tasks == {} && queue == [] && current == null && UsedBlocks() == ({}, {}) && dispatched == enqueued
    {
    }

    method Next() returns (t: Task)
      requires Valid() && current == null && zombie == null && activeCount > 0
      modifies this`readyHead, this`readyTail, this`queue, this`dispatched, this`current, tasks`next
      ensures Valid() && current == t
      ensures old(queue) != [] && t == old(queue)[0] && queue == old(queue)[1..] && dispatched == old(dispatched) + [t]
    {
      hide AllocatorsOk, Owned;
      PlacesDequeue(tasks, queue, activeCount);
      var head := DequeueReady();
      if head == null {
        // The trap for live fibers with none of them ready.
        assert false;
      }
      current := head;
      t := head;
    }

    method Reap()
      requires Valid()
      modifies taskAlloc.Repr, stackAlloc.Repr, this`tasks, this`zombie
      ensures Valid() && zombie == null && tasks <= old(tasks)
      ensures taskAlloc.Repr == old(taskAlloc.Repr) && stackAlloc.Repr == old(stackAlloc.Repr)
    {
      hide Valid;
      if zombie != null {
        TaskFree(zombie);
      }
    }

    /** Runs until no fiber is left, in a script long enough.  Then every block is free and
        the thread is as it was. */
    method Run(thread: Thread, script: Script) returns (done: bool, ghost turns: nat)
      requires Valid() && current == null && Outer(thread)
      modifies this, tasks, taskAlloc.Repr, stackAlloc.Repr, thread
      ensures old(thread.runs) + [this] <= thread.runs
      ensures Valid()
      ensures old(enqueued) <= enqueued && old(dispatched) <= dispatched
      ensures done ==>
        && thread.scheduler == old(thread.scheduler) && thread.hook == old(thread.hook)
        && tasks == {} && queue == [] && current == null && zombie == null && activeCount == 0
        && UsedBlocks() == ({}, {}) && dispatched == enqueued
      ensures turns <= |script.turns| && |dispatched| == |old(dispatched)| + turns
      ensures !done ==> (turns == |script.turns| && activeCount > 0) || Unfinished(made)
      decreases script, 0
    {
      hide Valid, UsedBlocks, TurnMade, SwitchedOut, Unfinished;
      RunParts();
      var previous, hook := thread.scheduler, thread.hook;
      thread.scheduler, thread.hook := this, ReturnHook(this);
      thread.runs := thread.runs + [this];
      var k := 0;
      while activeCount > 0
        invariant k <= |script.turns| && |dispatched| == |old(dispatched)| + k
        invariant Valid() && current == null && thread.scheduler == this && thread.hook == ReturnHook(this)
        invariant Outer(thread) && old(thread.runs) + [this] <= thread.runs
        invariant fresh(tasks - old(tasks)) && old(enqueued) <= enqueued && old(dispatched) <= dispatched
        invariant fresh(taskAlloc.Repr - old(taskAlloc.Repr)) && fresh(stackAlloc.Repr - old(stackAlloc.Repr))
        decreases |script.turns| - k
      {
        if k == |script.turns| {
          return false, k;
        }
        Reap();
        RunParts();
        ghost var log;
        ghost var before := made;
        done, log := Dispatch(thread, script.turns[k]);
        UnfinishedAfter(before, log);
        k := k + 1;
        if !done {
          return false, k;
        }
      }
      Reap();
      RunParts();
      thread.scheduler, thread.hook := previous, hook;
      done, turns := true, k;
    }

    // ----- what holds whenever any of the calls above returns -----

    /** Task blocks and stack blocks in use both number the live fibers, plus the zombie. */
    lemma BlocksConserved()
      requires Valid()
      ensures activeCount == |queue| + Count(current)
      ensures |taskAlloc.Live()| == |stackAlloc.Live()| == activeCount + Count(zombie)
    {
    }

    /** The loop never meets live fibers with none of them ready. */
    lemma TrapUnreachable()
      requires Valid() && current == null && activeCount > 0
      ensures readyHead != null
    {
    }

    /** The k-th fiber dispatched is the k-th that was enqueued. */
    lemma DispatchOrder(k: nat)
      requires Valid() && k < |dispatched|
      ensures k < |enqueued| && dispatched[k] == enqueued[k]
      ensures enqueued[|dispatched|..] == queue
    {
    }
  }

  /** A fiber sets up a scheduler of its own, and runs it to completion. */
  method RunAnother(thread: Thread, config: Config, fibers: nat, script: Script) returns (done: bool)
    modifies thread
    ensures done ==> thread.scheduler == old(thread.scheduler) && thread.hook == old(thread.hook)
    ensures old(thread.runs) <= thread.runs
    ensures config.Accepted() ==>
      && |old(thread.runs)| < |thread.runs| && fresh(thread.runs[|old(thread.runs)|])
      && (done ==>
            var inner := thread.runs[|old(thread.runs)|];
            inner.taskAlloc.held == map[] && inner.stackAlloc.held == map[])
    decreases script, 1
  {
    hide Scheduler.Valid;
    var inner := new Scheduler();
    var rc := inner.Init(config);
    if rc != 0 {
      return true;
    }
    for i := 0 to fibers
      invariant inner.Valid() && inner.current == null && inner.Outer(thread)
      invariant fresh(inner) && fresh(inner.tasks) && fresh(inner.taskAlloc.Repr) && fresh(inner.stackAlloc.Repr)
      invariant thread.scheduler == old(thread.scheduler) && thread.hook == old(thread.hook)
      invariant thread.runs == old(thread.runs)
    {
      var ok, _ := inner.Spawn();
    }
    ghost var turns;
    done, turns := inner.Run(thread, script);
    if done {
      inner.Destroy();
    }
  }
}
