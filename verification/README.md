# Verified model of a fiber library

A model in Dafny of the parts of a C fiber library where a wrong step is easy to take and
hard to see: the allocators that hand out fiber blocks, the cooperative scheduler, the epoll
reactor with its timers, descriptors, handles and cross-thread command channel, and the
WebSocket framing of the echo example.

| file | what it models |
|---|---|
| `CommandRing.dfy` | the lock-free command ring and its eventfd, as atomic steps of any number of threads |
| `CommandChannel.dfy` | the ring and the reactor together: what is posted is what is applied |
| `Slab.dfy`, `Multislab.dfy` | the bitmap slab, and the growing and shrinking chain of slabs on two intrusive lists |
| `Scheduler.dfy` | the first-come-first-served scheduler over two multislabs, with nested runs |
| `ReactorFibers.dfy`, `TimerHeap.dfy`, `FiberPool.dfy`, `Reactor.dfy` | the reactor: fibers, timer heap, pool of fiber blocks, and the loop with everything a fiber may call |
| `ReactorEffects.dfy`, `ReactorCalls.dfy` | what commands, reports, deadlines and calls do, as functions on values: the loop is proved to compute them, and what a program relies on is proved of them |
| `WsCodec.dfy`, `WsEcho.dfy`, `WsSelftest.dfy` | RFC 6455 frames, the echo server's connection, and the client's mirror image of both |
| `Arithmetic.dfy` | products and quotients with a symbolic divisor |

`dafny verify dfyconfig.toml` checks everything.

## How the source is rendered

- Objects that the C code updates in place are classes with the same fields, and its arrays
  are arrays. Ghost fields (`queue`, `parked`, `live`, `held`, `parks`, ...) say what the
  pointers and counters stand for; `Valid()` ties the two together.
- Whatever the code does not decide is an argument or the answer of a method of which only
  the contract is used: the calls each fiber makes, what the kernel reports and refuses,
  what the memory allocator grants, what the backing allocators give, how the kernel cuts a
  byte stream into reads, when the peer stops taking bytes. A fact proved of every script is
  a fact about every program on every such environment. A run of the scheduler that comes
  to the end of its script stands for the prefix of a longer run; an endless run of a
  reactor is, up to any of its polls, a run whose poll fails there.
- In `CommandRing` every shared access is one step and a run is any sequence of enabled
  steps, so a claim about reachable states holds of every interleaving. Steps are
  sequentially consistent and the counters are unbounded.
- The model is that of a release build: `ASSERT` is compiled out, the slab's defensive checks
  are on (their default), and words have 64 bits. Pointers are natural numbers, `NULL` is a
  constructor of its own. `FIBER_BLOCK_SIZE`, `TASK_SIZE` and `NODE_SIZE` stand for sizes
  that `sizeof` gives; no proof depends on their values beyond being legal block sizes.

## Where the code does less than it may seem to

- `CommandRing.ExclusiveExactlyFromTwoCells`: the ring asks for a capacity that is a power of
  two, which 1 is. With one cell the sequence number that marks position 0 published also
  marks position 1 free, and a command is stored over one not yet read
  (`CommandRing.OneCellOverwrites` is such a run). Stores are exclusive in every run exactly
  from two cells on. The reactor uses 1024.
- "A parked fiber has an armed entry" fails when another fiber closes the descriptor with
  plain `close`. `ReactorCore.Reactor.WaitThenPlainClose` is the failing case: from any state
  in which a fiber can arm the descriptor, it waits, the descriptor is closed plainly, and
  the fiber stays parked with no entry that could ever fire for it. The exact condition is
  `ReactorCore.Reactor.ParkedAreWatched`: a fiber parked on a descriptor has its armed entry
  if and only if it is not in `dropped`, and only a plain close of a descriptor that is
  waited on at that moment puts a fiber there (`ReactorCore.Reactor.Step`,
  `ReactorCore.NobodyDropped`, and over whole runs `ReactorCore.Reactor.Run`).
- The comment at the head of `reactor.c` speaks of a mutex-guarded command queue; the code
  has the lock-free ring, and the model follows the code.

## Model

| member | source | states |
|---|---|---|
| CommandRing.InitInv | src/cfiber/reactor/reactor.c:812-824 | an initialised ring satisfies the invariant |
| CommandRing.StepKeepsInv | src/cfiber/reactor/reactor.c:831-927 | every step of every thread keeps the invariant, cell ownership and the wakeup condition included |
| CommandRing.RunKeepsInv | src/cfiber/reactor/reactor.c:831-927 | so does every run |
| CommandRing.HistoryGrows | src/cfiber/reactor/reactor.c:831-875 | claims and applications are only ever appended |
| CommandRing.AppliedIsPrefixOfClaimed | src/cfiber/reactor/reactor.c:831-875 | commands leave the ring in the order of their claims, each once, with the payload its producer wrote |
| CommandRing.ClaimedAreAccepted | src/cfiber/reactor/reactor.c:904-916 | along any run, the positions a thread holds are those of its calls that returned true, plus the one it is in |
| CommandRing.AcceptedExactlyOnce | src/cfiber/reactor/reactor.c:904-916 | a thread outside post_cmd holds exactly one position for each call that returned true, in call order, and none for a refused one |
| CommandRing.StoresAreExclusive | src/cfiber/reactor/reactor.c:831-875 | no cell is written while another ticket owns it or the loop reads it |
| CommandRing.RefusedExactlyWhenFull | src/cfiber/reactor/reactor.c:837-847 | the sequence number read says full exactly when the previous lap's ticket of that cell is not released at that instant; a refusal changes nothing shared |
| CommandRing.AttemptFailsExactlyWhenFull | src/cfiber/reactor/reactor.c:837-847 | an attempt of a call ends without a position exactly if the ring is seen full, and the call with it exactly at the last attempt; a lost race costs none; a position is claimed exactly by a compare-exchange that finds the cursor where it was read |
| CommandRing.AttemptsAreRefusals | src/cfiber/reactor/reactor.c:904-909 | along any run, a call has used as many attempts as it has seen the ring full |
| CommandRing.GivesUpExactlyAfterRetries | src/cfiber/reactor/reactor.c:904-916 | over any run, post_cmd gives up exactly when it sees the ring full for the sixteenth time |
| CommandRing.UndisturbedPost | src/cfiber/reactor/reactor.c:904-914 | a thread that posts undisturbed while there is room is accepted: its command is in the next cell, the eventfd is written once, and nothing else changes |
| CommandRing.UndisturbedRefusal | src/cfiber/reactor/reactor.c:904-916 | while the ring is full it is refused after sixteen attempts, and nothing shared changes |
| CommandRing.UndisturbedDequeue | src/cfiber/reactor/reactor.c:854-875 | a dequeue undisturbed takes the command of the first position, if it is published |
| CommandRing.UndisturbedDrain | src/cfiber/reactor/reactor.c:918-927 | a drain undisturbed clears the eventfd and applies exactly the commands before the first position not yet published |
| CommandRing.WakeupNeverLost | src/cfiber/reactor/reactor.c:904-927 | outside drain_cmds with the eventfd at zero, the ring is empty or the head's producer still owes its eventfd write, whatever later tickets are published |
| CommandRing.QuiescentMeansApplied | src/cfiber/reactor/reactor.c:918-927 | once all posts returned and the loop sleeps, every claimed command has been applied |
| CommandRing.OneCellOverwrites | src/cfiber/reactor/reactor.c:812-824 | a run of a one-cell ring in which a command is stored over an unread one |
| CommandRing.ExclusiveExactlyFromTwoCells | src/cfiber/reactor/reactor.c:812-824 | stores are exclusive in every run if and only if the ring has at least two cells |
| CommandChannel.RingStep | src/cfiber/reactor/reactor.c:855-927 | when the loop releases a cell, and at no other step of any thread, the reactor applies the command read from that cell |
| CommandChannel.DrainRing | src/cfiber/reactor/reactor.c:918-927 | over any interleaving with the posting threads, from any reachable state of the ring, the reactor applies exactly the commands the loop takes from the ring, each once and in order, and keeps its invariants and all permits |
| CommandChannel.DrainsAddUp | src/cfiber/reactor/reactor.c:918-927 | successive drains take what one drain over both runs takes |
| CommandChannel.EachPostAppliedOnce | src/cfiber/reactor/reactor.c:904-927 | once all posts have returned and the loop sleeps, what the reactor has applied is one command for each position ever claimed, and a thread's positions are its posts that returned true, in its order, and no other |
| SlabAllocator.TrailingZeros | src/cfiber/memory/slab_alloc.c:40-46 | the lowest set bit of a word that is not zero |
| SlabAllocator.Slab.Init | src/cfiber/memory/slab_alloc.c:53-78 | the exact parameters that are refused, more blocks than the bitmap has bits included; otherwise an empty slab of as many blocks as fit |
| SlabAllocator.Slab.FindFree | src/cfiber/memory/slab_alloc.c:35-51 | the lowest free index below the capacity over several words with a partial tail, or -1 exactly when all are taken |
| SlabAllocator.Slab.SetBit | src/cfiber/memory/slab_alloc.c:27-29 | inserts one index into the set of taken ones |
| SlabAllocator.Slab.ClearBit | src/cfiber/memory/slab_alloc.c:31-33 | deletes one index from the set of taken ones |
| SlabAllocator.Slab.Alloc | src/cfiber/memory/slab_alloc.c:80-87 | refines insertion into the set of live blocks; NULL exactly when full |
| SlabAllocator.Slab.Release | src/cfiber/memory/slab_alloc.c:89-116 | accepts exactly live block addresses and deletes them; a rejected release changes nothing |
| SlabAllocator.Slab.Reset | src/cfiber/memory/slab_alloc.c:118-120 | no block is live afterwards |
| SlabAllocator.Slab.IndexOf | src/cfiber/memory/slab_alloc.c:15-17 | the index whose block starts at an address |
| SlabAllocator.Slab.IndexOfAddress | src/cfiber/memory/slab_alloc.c:15-21 | the two conversions are inverse to each other |
| SlabAllocator.Slab.LiveExactly | src/cfiber/memory/slab_alloc.c:89-116 | an address is live exactly if it passes the range, alignment and bitmap tests |
| SlabAllocator.BlocksApart | src/cfiber/memory/slab_alloc.c:19-21 | two blocks of a slab do not overlap |
| SlabAllocator.Slab.FullCount | src/cfiber/memory/slab_alloc.c:35-51 | a slab is full exactly when as many indices are taken as it has blocks |
| SlabAllocator.AddressesSize | src/cfiber/memory/slab_alloc.c:19-21 | there are as many live addresses as taken indices |
| MultislabAllocator.ListPush | src/cfiber/memory/multislab_alloc.c:25-32 | relinks an intrusive doubly linked list to one with the node in front |
| MultislabAllocator.ListUnlink | src/cfiber/memory/multislab_alloc.c:34-45 | relinks it to the list without the node, wherever it stands |
| MultislabAllocator.Multislab.InitExt | src/cfiber/memory/multislab_alloc.c:107-137 | the exact configurations accepted; an allocator that holds nothing |
| MultislabAllocator.Multislab.Grow | src/cfiber/memory/multislab_alloc.c:47-78 | a fresh empty slab at the head of the active list, or nothing kept and everything given back; exactly when the cap or the backing allocator refuses |
| MultislabAllocator.Multislab.MoveToFull | src/cfiber/memory/multislab_alloc.c:152-158 | a full slab goes from the active to the full list and every invariant holds |
| MultislabAllocator.Multislab.TakeFromHead | src/cfiber/memory/multislab_alloc.c:144-165 | a block of the head slab that is not live, counted, or nothing when the slab is full |
| MultislabAllocator.Multislab.TakeFromActive | src/cfiber/memory/multislab_alloc.c:143-171 | walks the active list; finds a block unless every slab is full |
| MultislabAllocator.Multislab.Alloc | src/cfiber/memory/multislab_alloc.c:143-171 | returns a block that is not live; NULL exactly if every slab is full and the cap is reached or the backing allocator fails |
| MultislabAllocator.Multislab.FindOwningSlab | src/cfiber/memory/multislab_alloc.c:85-105 | the one slab whose memory contains a pointer, on either list, or none |
| MultislabAllocator.Multislab.OwnerContains | src/cfiber/memory/multislab_alloc.c:85-105 | only that slab can have handed the pointer out |
| MultislabAllocator.Multislab.Release | src/cfiber/memory/multislab_alloc.c:173-207 | refines deletion from the set of live blocks; a rejected release changes nothing; a slab left empty goes back exactly when the policy says so |
| MultislabAllocator.Multislab.ApplyHysteresis | src/cfiber/memory/multislab_alloc.c:196-206 | after every release at most the reserve is empty, or there is exactly one slab and it is the empty one |
| MultislabAllocator.Multislab.Shrink | src/cfiber/memory/multislab_alloc.c:196-206 | the empty slab leaves its list and the ledger, and both counters |
| MultislabAllocator.Multislab.FreeNodeList | src/cfiber/memory/multislab_alloc.c:209-215 | gives back both regions of every node of a list |
| MultislabAllocator.Multislab.Destroy | src/cfiber/memory/multislab_alloc.c:217-221 | every region ever taken from the backing allocator has been given back with its size |
| MultislabAllocator.Multislab.CountersAgree | src/cfiber/memory/multislab_alloc.c:143-207 | slab_count is the length of both lists together, is_full tells the list, used_count is the number of set bits, only full slabs are on the full list, empty_count is the number of slabs with nothing in use |
| MultislabAllocator.Multislab.LiveBlocksDisjoint | src/cfiber/memory/multislab_alloc.c:143-171 | live blocks never overlap and lie in memory that is held |
| MultislabAllocator.Multislab.GrowOnlyKeepsSlabs | src/cfiber/memory/multislab_alloc.c:196-206 | with the greatest reserve no release ever hands a slab back |
| MultislabAllocator.Multislab.ExactCapacity | src/cfiber/memory/multislab_alloc.c:143-171 | every slab is full exactly when slab_count times the blocks per slab are live |
| FcfsScheduler.Scheduler.Init | src/cfiber/scheduler/scheduler.c:105-149 | the exact configurations accepted, and the sizes, caps and reserve of both allocators; a failure leaves nothing taken |
| FcfsScheduler.Scheduler.Destroy | src/cfiber/scheduler/scheduler.c:155-161 | both allocators gave back all they took |
| FcfsScheduler.Scheduler.EnqueueReady | src/cfiber/scheduler/scheduler.c:27-35 | appends to the intrusive queue |
| FcfsScheduler.Scheduler.DequeueReady | src/cfiber/scheduler/scheduler.c:37-48 | takes the head off it, or nothing from an empty one |
| FcfsScheduler.TakeFrom | src/cfiber/memory/multislab_alloc.c:143-171 | a block that is not live; none exactly if every slab is full and growing is refused |
| FcfsScheduler.Scheduler.AllocPair | src/cfiber/scheduler/scheduler.c:163-176 | one block of either allocator, or neither; neither exactly if one of the two refuses |
| FcfsScheduler.Scheduler.Spawn | src/cfiber/scheduler/scheduler.c:163-184 | a task with a block of either allocator at the end of the queue; it fails exactly if one of them is full and may not grow, and then leaves both sets of live blocks as they were |
| FcfsScheduler.Scheduler.TaskFree | src/cfiber/scheduler/scheduler.c:54-66 | frees the zombie's stack and task block and nothing else |
| FcfsScheduler.Scheduler.OnReturn | src/cfiber/scheduler/scheduler.c:79-97 | the running fiber becomes the zombie |
| FcfsScheduler.Thread.Yield | src/cfiber/scheduler/scheduler.c:240-264 | behind all ready fibers, or nothing at all when there is no other |
| FcfsScheduler.Scheduler.Perform | src/cfiber/scheduler/scheduler.c:163-264 | what each call of a fiber does: a yield switches exactly if another is ready, a spawn adds one fiber at the end unless an allocator is full, a nested run leaves this scheduler as it was |
| FcfsScheduler.Scheduler.RunTurn | src/cfiber/scheduler/scheduler.c:186-226 | the calls of a fiber are made in order up to the first that switches it out; if none does it is the zombie; the invariant is kept and nobody dispatched |
| FcfsScheduler.Scheduler.Next | src/cfiber/scheduler/scheduler.c:204-216 | the head of the queue is dispatched; the trap for an empty queue is unreachable |
| FcfsScheduler.Scheduler.Run | src/cfiber/scheduler/scheduler.c:186-226 | at its end no block is live, all enqueued fibers were dispatched in order, and the previous scheduler and hook are back; it stops short only where the script does |
| FcfsScheduler.RunAnother | src/cfiber/scheduler/scheduler.c:186-226 | a fiber runs a scheduler of its own, if its configuration is accepted, gives back all of its memory, and finds the outer scheduler and hook restored |
| FcfsScheduler.Scheduler.BlocksConserved | src/cfiber/scheduler/scheduler.c:54-96 | task and stack blocks live each number the active fibers plus the zombie; active_count is the ready ones plus the current one |
| FcfsScheduler.Scheduler.TrapUnreachable | src/cfiber/scheduler/scheduler.c:204-210 | live fibers never meet an empty queue |
| FcfsScheduler.Scheduler.DispatchOrder | src/cfiber/scheduler/scheduler.c:27-48 | the k-th dispatch is the k-th enqueue |
| ReactorTimers.TimerHeap.Reserve | src/cfiber/reactor/reactor.c:252-267 | grows by doubling with the entries kept; fails exactly when it must grow and may not |
| ReactorTimers.TimerHeap.Swap | src/cfiber/reactor/reactor.c:269-275 | exchanges two entries and both back-indices |
| ReactorTimers.TimerHeap.SiftUp | src/cfiber/reactor/reactor.c:277-286 | restores heap order above one late entry |
| ReactorTimers.TimerHeap.SiftDown | src/cfiber/reactor/reactor.c:288-305 | leaves at most the start entry before its parent |
| ReactorTimers.UpStep | src/cfiber/reactor/reactor.c:277-286 | one exchange upwards moves the only disorder up |
| ReactorTimers.DownStep | src/cfiber/reactor/reactor.c:288-305 | one exchange with the smaller child moves the disorder down |
| ReactorTimers.DownDone | src/cfiber/reactor/reactor.c:288-305 | when the walk down ends only the start can be late, so the walk up may start there |
| ReactorTimers.HoleFilled | src/cfiber/reactor/reactor.c:319-332 | the last entry in the hole disturbs the order only there |
| ReactorTimers.RootIsLeast | src/cfiber/reactor/reactor.c:1041-1041 | the root has the least deadline |
| ReactorTimers.TimerHeap.Add | src/cfiber/reactor/reactor.c:308-317 | keeps the heap order and the back-indices, adds exactly the one fiber; fails exactly when the heap is full and cannot grow |
| ReactorTimers.TimerHeap.Remove | src/cfiber/reactor/reactor.c:319-332 | the same for removal at any index, which leaves the fiber with NO_TIMER |
| ReactorTimers.DeadlineAfter | src/cfiber/reactor/reactor.c:198-201 | the sum, or UINT64_MAX when it does not fit |
| ReactorTimers.NextTimeoutMs | src/cfiber/reactor/reactor.c:1037-1051 | the least number of milliseconds that covers the earliest deadline, capped at INT32_MAX, without overflow; -1 exactly without deadlines |
| ReactorPool.FiberPool.Obtain | src/cfiber/reactor/reactor.c:753-765 | a block not in use, wiped but for its generation, which is zero on first use; none exactly if every slab is full and growing is refused |
| ReactorPool.FiberPool.Destroy | src/cfiber/reactor/reactor.c:1254-1254 | every slab is given back |
| ReactorPool.FiberPool.Release | src/cfiber/reactor/reactor.c:789-793 | takes the block back and hands no slab back |
| ReactorPool.FiberPool.InMemory | src/cfiber/reactor/reactor.c:1184-1192 | every block ever handed out still lies in a slab the pool has, with its contents |
| ReactorCore.Reactor.Enqueue | src/cfiber/reactor/reactor.c:224-233 | appends to the intrusive ready queue |
| ReactorCore.Reactor.Dequeue | src/cfiber/reactor/reactor.c:235-246 | takes the head off it |
| ReactorCore.Reactor.DetachFd | src/cfiber/reactor/reactor.c:402-412 | gives up exactly the fiber's registration and the kernel's entry for it |
| ReactorCore.Reactor.EpollCtl | src/cfiber/reactor/reactor.c:439-452 | the kernel's side: ADD of a known and MOD of an unknown descriptor are refused, and it may refuse anything |
| ReactorCore.Reactor.MoveTo | src/cfiber/reactor/reactor.c:427-429 | a registration for another descriptor is given up |
| ReactorCore.Reactor.TakeOver | src/cfiber/reactor/reactor.c:431-438 | busy exactly if another fiber is parked there; otherwise nobody else is registered afterwards |
| ReactorCore.Reactor.AskKernel | src/cfiber/reactor/reactor.c:440-452 | the entry is the fiber's exactly if the kernel takes MOD or ADD, or the other at the second try |
| ReactorCore.Reactor.Register | src/cfiber/reactor/reactor.c:440-459 | a registration taken is the fiber's; after a refusal nothing is armed and nobody owns the descriptor |
| ReactorCore.Reactor.ArmFd | src/cfiber/reactor/reactor.c:418-460 | ownership survives takeover, EBUSY, fallback and failure; the exact condition of success, and every registration and entry afterwards, on success and on each failure |
| ReactorCore.Reactor.Resume | src/cfiber/reactor/reactor.c:465-472 | ends the park with one status and enqueues once; leaves a fiber that is not parked alone |
| ReactorCore.Reactor.Unpark | src/cfiber/reactor/reactor.c:475-479 | takes the fiber off both wait sources and resumes it |
| ReactorCore.Reactor.ParkCurrent | src/cfiber/reactor/reactor.c:490-499 | the running fiber is parked, with its park pending, and every invariant holds |
| ReactorCalls.Events | src/cfiber/reactor/reactor.c:513-521 | readable means EPOLLIN, writable EPOLLOUT, both both |
| ReactorCore.Reactor.EvWait | src/cfiber/reactor/reactor.c:505-540 | parks with an armed entry for the events asked for and, if timed, a deadline, exactly if the direction is valid, the descriptor can be armed and there is room for the deadline; otherwise an error with nothing armed and no timer |
| ReactorCore.Reactor.EvSleep | src/cfiber/reactor/reactor.c:542-555 | parks under a deadline, or an error exactly if the heap cannot grow |
| ReactorCore.Reactor.EvWaitAsync | src/cfiber/reactor/reactor.c:557-577 | returns READY at once exactly if there is a permit, and consumes it; otherwise parks, or fails exactly if there is no room for the deadline |
| ReactorCore.Reactor.EvYield | src/cfiber/reactor/reactor.c:582-592 | behind all ready fibers, always |
| ReactorCore.Reactor.EvClose | src/cfiber/reactor/reactor.c:726-743 | cancels exactly the fiber parked on the descriptor, or drops an idle registration; no owner and no entry is left |
| ReactorCore.Reactor.PlainClose | src/cfiber/reactor/reactor.c:414-417 | the kernel forgets the entry; a fiber parked there, and no other, is dropped: it stays parked and nothing is armed for it |
| ReactorCore.Reactor.WaitThenPlainClose | src/cfiber/reactor/reactor.c:414-417 | waiting for a descriptor and closing it plainly leaves the fiber parked with nothing that could fire |
| ReactorCore.Reactor.DroppedAreDisarmed | src/cfiber/reactor/reactor.c:414-417 | of the fibers parked on descriptors exactly the dropped ones can be resumed by no event |
| ReactorCore.Reactor.FiberObtain | src/cfiber/reactor/reactor.c:753-765 | a blank block, all handles keeping their meaning; none exactly if the pool has none |
| ReactorCore.Reactor.BlockAndStack | src/cfiber/reactor/reactor.c:933-943 | a block with a stack no other fiber has; neither exactly without a block or without a stack, and then the block is back in the pool |
| ReactorCore.Reactor.FiberRepool | src/cfiber/reactor/reactor.c:789-793 | bumps the generation, so every handle to the block is stale |
| ReactorCore.Reactor.AdmitNew | src/cfiber/reactor/reactor.c:945-961 | a new incarnation with no permit, timer, descriptor or park of an earlier one, at the end of the queue, and a handle for it alone |
| ReactorCore.Reactor.LiveLink | src/cfiber/reactor/reactor.c:767-774 | the fiber goes to the front of the doubly linked live list |
| ReactorCore.Reactor.LiveUnlink | src/cfiber/reactor/reactor.c:776-785 | the fiber leaves the live list, wherever it stands |
| ReactorCore.Reactor.Spawn | src/cfiber/reactor/reactor.c:933-962 | a live fiber, listed, with a stack of its own and a handle; or nothing, exactly if the pool has no block or there is no stack |
| ReactorCore.Reactor.Issued | src/cfiber/reactor/reactor.c:978-984 | a handle for the incarnation in the block now |
| ReactorCore.Reactor.ReturnHook | src/cfiber/reactor/reactor.c:358-369 | the running fiber becomes the zombie and is no longer active |
| ReactorCore.Reactor.Depart | src/cfiber/reactor/reactor.c:795-799 | the finished fiber's registration is dropped, it leaves the live list, and its stack, which was out, goes back |
| ReactorCore.Reactor.Recycle | src/cfiber/reactor/reactor.c:795-801 | the zombie's registration, listing, stack, block and liveness end; its generation is bumped; the live list, the stacks that are out and the blocks in use are again those of the live fibers |
| ReactorCore.Reactor.Destroy | src/cfiber/reactor/reactor.c:1238-1263 | whatever was spawned, finished or not: every stack is given back, each once, so the assertion that none leaked holds, and so is every slab |
| ReactorCore.Reactor.ApplyCmd | src/cfiber/reactor/reactor.c:879-899 | a stale handle changes nothing; a cancel resumes any parked fiber; a wake resumes an async park and is otherwise kept as a permit |
| ReactorCore.Reactor.ApplyWake | src/cfiber/reactor/reactor.c:892-898 | never disturbs an fd or timer park, and coalesces to one permit |
| ReactorCore.Reactor.DrainCmds | src/cfiber/reactor/reactor.c:918-927 | any sequence of commands keeps every invariant, the events in hand and all permits, and has the effect of its commands one after another |
| ReactorEffects.WakesReach | src/cfiber/reactor/reactor.c:879-899 | every wake that reaches a fiber is counted; one that ends an async park is a READY, any other leaves a permit, and no other permit comes or goes |
| ReactorCore.Reactor.Command | src/cfiber/reactor/reactor.c:1016-1029 | a wake is obeyed as a wake and a cancellation as a cancellation, of the very fiber named, with every invariant and permit kept |
| ReactorCore.Reactor.CloseFd | src/cfiber/reactor/reactor.c:726-743 | a close cancels the fiber parked there or drops an idle registration; a plain one only makes the kernel forget, and drops exactly the fiber parked there |
| ReactorCore.Reactor.EnterNext | src/cfiber/reactor/reactor.c:338-344 | the head of the queue runs, its last wait over |
| ReactorCore.Reactor.Await | src/cfiber/reactor/reactor.c:505-577 | a waiting call ends with exactly the result, the park, the deadline and the registrations that its arguments, the permit, the room and the kernel's answers call for |
| ReactorCore.Reactor.Proceed | src/cfiber/reactor/reactor.c:579-592 | so does any other call: a yield, a handle, a wake, a cancellation, a close; every invariant and permit is kept and the queue only grows |
| ReactorCore.Reactor.Step | src/cfiber/reactor/reactor.c:505-592 | any call of a fiber has exactly its outcome, keeps every invariant, the live list and the stacks that are out, only appends to the queue, never ends a park twice, loses no wake, the caller's included, and drops a fiber only by a plain close of a descriptor it is parked on |
| ReactorCore.Reactor.SpawnFrom | src/cfiber/reactor/reactor.c:964-976 | a fiber spawns another, last in the queue, with a handle for it; or nothing, and then the pool is full or there is no stack |
| ReactorCore.Reactor.Exec | src/cfiber/reactor/reactor.c:933-1029 | the same with spawning, over the pool of blocks |
| ReactorCore.Reactor.RunFrom | src/cfiber/reactor/reactor.c:1065-1079 | a fiber runs another reactor, and it is begun, or tries to run its own, which is refused: nothing but the thread's state is touched, and its reactor and hook are as before |
| ReactorCore.Reactor.Perform | src/cfiber/reactor/reactor.c:1065-1079 | any call, runs included, goes to the thread's current reactor, has its outcome, keeps every invariant and permit, and leaves the thread as it was |
| ReactorCore.Reactor.MakeCalls | src/cfiber/reactor/reactor.c:338-344 | the calls of a fiber are made in order, each with its outcome, up to the first that switches it out |
| ReactorCore.Reactor.RunTurn | src/cfiber/reactor/reactor.c:338-369 | if none does, the fiber is the zombie, through the thread's hook; nested runs included every invariant is kept, and without plain closes nobody is dropped |
| ReactorCore.Reactor.Dispatch | src/cfiber/reactor/reactor.c:1087-1097 | the head of the queue makes its calls; it is live afterwards exactly if one of them switched it out, and is recycled otherwise |
| ReactorCore.Reactor.Round | src/cfiber/reactor/reactor.c:1082-1097 | runs exactly the fibers queued at the start, once each and in order, and leaves exactly those enqueued meanwhile, in order; no wake is lost over the round |
| ReactorCore.Reactor.NeverStuck | src/cfiber/reactor/reactor.c:1099-1103 | the loop's assertion: active fibers mean a ready or a parked one |
| ReactorCore.Reactor.PollTimeout | src/cfiber/reactor/reactor.c:1105-1106 | the poll may block only when nobody is ready, and no longer than the earliest deadline needs |
| ReactorCore.Reactor.PollOnce | src/cfiber/reactor/reactor.c:1099-1133 | the poll is given such a timeout and does exactly what the report and the deadlines that have come call for; one that is interrupted or fails changes nothing; one that reports nothing within a timeout below the cap makes a fiber ready, so the loop never wakes for nothing |
| ReactorCore.Reactor.EpollWait | src/cfiber/reactor/reactor.c:1107-1107 | exactly the armed entries among the events are reported, up to the limit, and are disarmed by that; each names a fiber parked there |
| ReactorCore.Reactor.ReadyEvent | src/cfiber/reactor/reactor.c:1122-1129 | resumes the fiber if it is still parked, its timer gone and its registration kept |
| ReactorCore.Reactor.Deal | src/cfiber/reactor/reactor.c:1116-1130 | one item of a report has its effect on the fiber it is for, and on no other |
| ReactorCore.Reactor.ProcessBatch | src/cfiber/reactor/reactor.c:1116-1130 | in any order of the batch every reported fiber leaves the park it was reported for, no park begins, so none that is later can be resumed, and all items have their effects one after another |
| ReactorEffects.FirstItemDecides | src/cfiber/reactor/reactor.c:1116-1130 | each fiber is moved by the first item that concerns it: an event lets it go with READY and its registration kept, a cancellation with CANCELLED, a wake it waits for with READY; any other fiber is left as it is |
| ReactorEffects.ReportedAreReady | src/cfiber/reactor/reactor.c:1122-1129 | a reported fiber that no command of the report lets go is resumed with READY and keeps its registration |
| ReactorEffects.EventsResumeInOrder | src/cfiber/reactor/reactor.c:1116-1130 | events alone put exactly the reported fibers behind the ready ones, in the order of the report |
| ReactorCore.Reactor.FireExpired | src/cfiber/reactor/reactor.c:1053-1061 | resumes exactly the fibers whose deadline has come, in nondecreasing order of deadlines, and leaves only later ones |
| ReactorEffects.ExpiredInOrder | src/cfiber/reactor/reactor.c:1053-1061 | each of them leaves with TIMEOUT and without its registration, in that order, and nobody else is touched |
| ReactorCore.Reactor.Expire | src/cfiber/reactor/reactor.c:1056-1059 | takes the fiber off the heap, gives up its registration and the kernel's entry, and resumes it with a timeout |
| ReactorCore.Reactor.ReportAndTimers | src/cfiber/reactor/reactor.c:1116-1132 | what is reported and then the deadlines that have come have exactly their effects; after a report of nothing, a deadline the timeout covered has made a fiber ready |
| ReactorCore.Reactor.PollRound | src/cfiber/reactor/reactor.c:1116-1132 | the same with the pool's invariants: no park begins, each ends at most once, no permit is lost |
| ReactorCore.Reactor.RunRound | src/cfiber/reactor/reactor.c:1082-1133 | a round and then its poll, which is left out exactly if no fiber is active; it fails exactly if the poll does |
| ReactorCore.Reactor.Run | src/cfiber/reactor/reactor.c:1063-1140 | it ends with 0 exactly if no fiber is active and with -1 exactly if the last poll failed while some were; no earlier poll failed, each round made the calls and was followed by the poll of its own, and the fibers queued at the start ran; every invariant is kept, no park ends twice, no wake is lost and, without plain closes, nobody is dropped; at 0 no fiber is live, no descriptor owned, and every park ended with one status |
| ReactorCore.Reactor.RunOn | src/cfiber/reactor/reactor.c:1063-1140 | a run from one of the reactor's own fibers is refused and changes nothing; any other is begun, ends as it must, and leaves the previous reactor and return hook in place |
| ReactorCore.RunNested | src/cfiber/reactor/reactor.c:1071-1074 | a fiber creates a reactor, runs it and destroys it, all its stacks and slabs given back, and finds its own current again, whatever the other one's fibers do, nested runs included |
| ReactorCore.Reactor.AllDone | src/cfiber/reactor/reactor.c:1081-1081 | no active fiber means no live fiber, owner or pending park |
| ReactorCore.Reactor.OneWaiterPerDescriptor | src/cfiber/reactor/reactor.c:431-438 | at most one fiber is parked on a descriptor, and it is the owner |
| ReactorCore.Reactor.EventsReachTheOwner | src/cfiber/reactor/reactor.c:418-460 | every armed entry names the owner, parked on that very descriptor |
| ReactorCore.Reactor.ParkedAreWatched | src/cfiber/reactor/reactor.c:505-540 | a fiber parked on a descriptor has an armed entry there if and only if the descriptor was not closed plainly since it parked |
| ReactorCore.NobodyDropped | src/cfiber/reactor/reactor.c:414-417 | over any stretch of a run in which no descriptor is closed plainly under its fiber, no fiber is dropped |
| ReactorCore.Reactor.WakesBoundReadies | src/cfiber/reactor/reactor.c:557-577 | a fiber has a permit if and only if a wake came after its last READY; never more READY results and permits than wakes; no permit while parked asynchronously |
| ReactorCore.NoWakeLost | src/cfiber/reactor/reactor.c:879-899 | over any stretch of a run, within one incarnation, a permit is still there or an async wait has returned READY |
| ReactorCore.LaterThen | src/cfiber/reactor/reactor.c:1081-1133 | what every call, turn, round and poll guarantees of the past adds up over a run |
| ReactorCore.Reactor.HandleNamesOneIncarnation | src/cfiber/reactor/reactor.c:879-883 | a handle matches only the incarnation it was given out for; any other is stale; its block can always be read |
| ReactorCore.StaleForGood | src/cfiber/reactor/reactor.c:789-793 | a stale handle stays stale |
| ReactorCore.Reactor.CountersCount | src/cfiber/reactor/reactor.c:174-175 | active is ready plus parked plus running, blocked is parked, and each fiber that is not parked holds the status its last park ended with |
| ReactorCore.Reactor.LiveSize | src/cfiber/reactor/reactor.c:174-175 | every live fiber is in exactly one place |
| WsCodec.XorBitsTwice | examples/ws_echo/ws_echo.c:279-281 | masking twice with the same bits is no change |
| WsCodec.XorBitAt | examples/ws_echo/ws_echo.c:279-281 | each bit is set exactly if one of the two is |
| WsCodec.MaskedTwice | examples/ws_echo/ws_echo.c:279-281 | nor is masking a payload twice |
| WsCodec.BigEndianInverts | examples/ws_echo/ws_echo.c:194-198 | a number written in big-endian bytes is read back |
| WsCodec.ToBigEndianInverts | examples/ws_echo/ws_echo.c:250-263 | bytes read as a number are written back |
| WsCodec.FirstDigitCountsMost | examples/ws_echo/ws_echo.c:250-263 | the first byte of a length counts most |
| WsCodec.ParseInverts | examples/ws_echo/ws_echo.c:225-286 | every legal frame, with any opcode, mask and payload, is read back whatever follows it |
| WsCodec.ParseCanonical | examples/ws_echo/ws_echo.c:249-268 | an accepted frame, printed with its mask, gives the bytes read |
| WsCodec.AcceptsExactlyTheLegal | examples/ws_echo/ws_echo.c:225-286 | a stream begins with a frame if and only if it begins with the bytes of a legal one |
| WsCodec.LegalPrefixWaits | examples/ws_echo/ws_echo.c:225-286 | the beginning of a legal frame, of any length, is never refused |
| WsCodec.RefusesExactlyTheHopeless | examples/ws_echo/ws_echo.c:225-286 | once the longest header is in, a stream is read on exactly if it begins a legal frame, and refused exactly if it neither begins with one nor begins one |
| WsCodec.RefusedForSize | examples/ws_echo/ws_echo.c:249-268 | the code is 1009 exactly if the header is that of a data frame too long, and 1002 otherwise |
| WsCodec.KnownOpcodes | examples/ws_echo/ws_echo.c:225-248 | the six opcodes of the protocol and no other |
| WsCodec.ClientInvertsServer | examples/ws_echo/ws_selftest.c:117-151 | the client reads back every server frame, in all three length forms |
| WsCodec.ClientRefuses | examples/ws_echo/ws_selftest.c:117-151 | it takes no masked frame, none longer than its buffer and none cut short |
| WsCodec.ServerFrameHeader | examples/ws_echo/ws_echo.c:184-200 | a server frame has FIN set, no reserved bit and no mask, its opcode, and its length in the shortest form |
| WsCodec.Rfc6455Examples | examples/ws_echo/ws_echo.c:184-200 | the unmasked examples of section 5.7 of RFC 6455, byte for byte |
| WsEcho.Socket.Read | examples/ws_echo/ws_echo.c:171-179 | some of the bytes there are, in order; 0 or -1 only at the end of the stream |
| WsEcho.Socket.Write | examples/ws_echo/ws_echo.c:201-206 | all bytes, or an error once the peer takes no more |
| WsEcho.Conn.ReadExact | examples/ws_echo/ws_echo.c:159-181 | the next n bytes of the stream, carried ones first, none lost or repeated; the exact result otherwise |
| WsEcho.Conn.RecvFrame | examples/ws_echo/ws_echo.c:225-286 | agrees with ParseFrame on the stream, and consumes exactly the frame |
| WsEcho.Conn.SendFrame | examples/ws_echo/ws_echo.c:184-207 | sends the server frame, in the shortest of three length forms |
| WsEcho.Conn.SendClose | examples/ws_echo/ws_echo.c:209-212 | sends the close frame with the code |
| WsEcho.HeaderEnd | examples/ws_echo/ws_echo.c:291-298 | the offset behind the first CRLFCRLF, or 0 exactly without one |
| WsEcho.Conn.FindHeaderEnd | examples/ws_echo/ws_echo.c:291-298 | the same, for the loop |
| WsEcho.HeaderEndOfMore | examples/ws_echo/ws_echo.c:344-355 | more bytes do not move the first terminator, so the reads do not matter |
| WsEcho.Conn.ReadRequest | examples/ws_echo/ws_echo.c:340-357 | the header ends at the first CRLFCRLF of the first 4095 bytes however they arrive; what follows is carried; 431 otherwise |
| WsEcho.Conn.DoHandshake | examples/ws_echo/ws_echo.c:340-403 | the answer, and a frame reader that starts exactly behind the terminator |
| WsEcho.Conn.OnDataFrame | examples/ws_echo/ws_echo.c:412-438 | fragments are collected and sent as one message; the exact violations |
| WsEcho.Conn.Serve | examples/ws_echo/ws_echo.c:441-496 | what is sent is a function of the bytes received, cut off where the peer takes no more: it does not depend on how the stream is split |
| WsSelftest.BuildHeader | examples/ws_echo/ws_selftest.c:75-88 | the header bytes for lengths of up to 65535 |
| WsSelftest.BuildFrame | examples/ws_echo/ws_selftest.c:92-100 | the bytes of the masked frame |
| WsSelftest.ReadExact | examples/ws_echo/ws_selftest.c:63-72 | exactly n bytes, or -1 exactly if fewer come before the peer closes, the connection breaks or the deadline passes |
| WsSelftest.ClientRecv | examples/ws_echo/ws_selftest.c:117-151 | agrees with ParseServer on the stream, and consumes exactly the frame |
| WsSelftest.ControlsAnswered | examples/ws_echo/ws_echo.c:466-475 | control frames are answered by one pong for each ping and do not disturb the message |
| WsSelftest.FragmentsEchoed | examples/ws_echo/ws_echo.c:412-438 | a message in any number of fragments with control frames between them is echoed as the concatenation under the first opcode |
| WsSelftest.SessionEchoed | examples/ws_echo/ws_echo.c:458-489 | every message of a legal session is echoed, in order |
| WsSelftest.ConversationEchoed | examples/ws_echo/ws_echo.c:340-489 | from the request to the last echo, with nothing lost behind the terminator, whatever follows the session |
| WsSelftest.CloseAnswered | examples/ws_echo/ws_echo.c:468-471 | a close frame is answered by one with its payload, and nothing behind it is |
| WsSelftest.BadDataFrameRefused | examples/ws_echo/ws_echo.c:412-438 | a fragment that continues nothing and a message within another get 1002, a message that grows too long 1009, byte for byte |
| WsSelftest.BadBytesRefused | examples/ws_echo/ws_echo.c:460-467 | bytes that begin no legal frame get the close frame with the exact code, and a frame cut short nothing |
| WsSelftest.BadRequestAnswered | examples/ws_echo/ws_echo.c:340-403 | a refused request gets 400, a header that does not end in time 431 or nothing, and no frame is looked at |

## Left out

- Weak memory orderings, and the wrap of the ring's cursors, generations and `uint32_t` counters: steps are sequentially consistent and counters unbounded.
- Context switching, register setup, FP state and the stack a fiber runs on: a switch is the choice of the running fiber's next call.
- ReactorCore.Reactor.RunOn: a run of a reactor from a fiber of another reactor that one of its own fibers runs; the code refuses only the reactor that is current on the thread, and the model runs none that is suspended so.
- ReactorCore.Reactor.Spawn: growing, caching and poisoning stacks; a stack is on loan from its allocator, which has one or not.
- ReactorCore.Reactor.EpollCtl: duplicated descriptors; descriptors that become invalid are refusals.
- ReactorCore.Reactor.ArmFd: the owner table is a map, so the growth of its array is a yes or no from the allocator.
- ReactorCore.Reactor.Run: the commands of a poll are any list; that such a list is what the ring gives is stated drain by drain, in `CommandChannel`.
- ReactorPool.AskZeroing: the backing allocator gives fewer than 2^32 slabs, which is what a 32-bit slab count can count.
- The `_timed` helpers, accept, connect and the other transport wrappers, which repeat a call around `cfiber_ev_wait`; their drift against the clock.
- The debug build's ASSERT traps, sanitizer hooks, stack watermarks and guard redzones.
- FcfsScheduler.Scheduler.TaskFree: the trap for a stack whose canary is gone; the release of a fixed stack always succeeds.
- ReactorCore.Reactor.Destroy: freeing the ring, the heap and the descriptor table, and closing the two descriptors.
- Destroying a scheduler or reactor that is running, posting to a destroyed one, and a handle used with another reactor.
- SHA-1, base64 and the request's header lines: whether a request is accepted, and with which response, is a parameter of the handshake.
- WsEcho.Conn.Serve: the failure of the connection's two allocations, and closing the descriptor at its end.
- WsSelftest.BuildFrame: lengths above 65535, which the client's builder does not write.
- WsEcho.Socket.Write: after the first failed write nothing more is taken, as on a broken connection.
