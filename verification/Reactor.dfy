/** The reactor's loop and the operations of the fibers it runs.

    Fiber bodies, other threads and the kernel are adversaries.  A script lists, for each
    turn of a fiber, the calls it makes; for each poll, what the kernel reports; and for
    each call, the answers of the kernel and of the memory allocator.  What is proved of
    every script is proved of every program on every kernel. */
module ReactorCore {
  import opened MultislabAllocator
  import opened CommandRing
  import opened ReactorFibers
  import opened ReactorEffects
  import opened ReactorCalls
  import opened ReactorTimers
  import opened ReactorPool

  /** A park in progress, or how it ended. */
  datatype Park = Pending | Resumed(status: Status)

  /** A handle given out, and the incarnation it was given out for. */
  datatype Issue = Issue(fiber: Fiber, gen: nat, incarnation: nat)

  /** A call that was made, and how it ended. */
  datatype Made = Made(call: Call, result: CallResult)

  /** The rounds of a run, each with the turns of its own. */
  ghost predicate RunMade(script: Script, story: seq<seq<seq<Made>>>) {
    forall k :: 0 <= k < |story| ==> RoundMade(script.TurnsOf(k), story[k])
  }

  function Told(story: seq<seq<seq<Made>>>): seq<Made> {
    if story == [] then [] else Told(story[..|story| - 1]) + Joint(story[|story| - 1])
  }

  lemma NoRounds(script: Script, before: seq<Made>)
    ensures RunMade(script, []) && before == before + Told([])
  {
  }

  lemma OneMoreRound(script: Script, before: seq<Made>, story: seq<seq<seq<Made>>>, logs: seq<seq<Made>>)
    requires RunMade(script, story) && RoundMade(script.TurnsOf(|story|), logs)
    ensures RunMade(script, story + [logs])
    ensures before + Told(story) + Joint(logs) == before + Told(story + [logs])
  {
    hide RoundMade, Joint, Told;
    OneMoreTold(before, story, logs);
    var all := story + [logs];
    forall k | 0 <= k < |all| ensures RoundMade(script.TurnsOf(k), all[k]) {
      if k < |story| { assert all[k] == story[k]; }
    }
  }

  lemma OneMoreTold(before: seq<Made>, story: seq<seq<seq<Made>>>, logs: seq<seq<Made>>)
    ensures before + Told(story) + Joint(logs) == before + Told(story + [logs])
  {
    hide Joint;
    assert (story + [logs])[..|story|] == story;
    assert before + Told(story) + Joint(logs) == before + (Told(story) + Joint(logs));
  }

  /** How a run ends, after so many rounds: with -1 exactly if the last poll failed, fibers
      being active, and with 0 exactly if none is left, so that the last round was not
      followed by a poll.  No earlier poll failed, and every other one was answered. */
  ghost predicate RunEnds(
      active: int, script: Script, rc: int, rounds: nat, left: int, before: seq<PollAnswer>, after: seq<PollAnswer>)
  {
    && (rc == 0 || rc == -1) && (rc == 0 <==> left == 0) && (rounds == 0 <==> active <= 0) && (rounds == 0 ==> rc == 0)
    && (forall i :: 0 <= i < rounds - 1 ==> !script.PollAfter(i).Failed?)
    && (rc == -1 ==> rounds > 0 && script.PollAfter(rounds - 1).Failed?)
    && after == before + script.Answers(if rc == 0 && rounds > 0 then rounds - 1 else rounds)
  }

  lemma OneMoreAnswer(script: Script, before: seq<PollAnswer>, k: nat)
    ensures before + script.Answers(k) + [script.PollAfter(k)] == before + script.Answers(k + 1)
  {
    assert script.Answers(k + 1) == script.Answers(k) + [script.PollAfter(k)];
  }

  lemma CarefulRounds(script: Script)
    ensures script.Careful() ==> script.last.Careful()
    ensures script.Careful() ==> forall k :: 0 <= k < |script.rounds| ==> script.rounds[k].turns.Careful()
  {
  }

  /** The calls of one turn: those of the script in their order, up to the first that
      switches the fiber out, or all of them. */
  ghost predicate TurnMade(calls: seq<Call>, log: seq<Made>) {
    && |log| <= |calls| && (forall i :: 0 <= i < |log| ==> log[i].call == calls[i])
    && (forall i :: 0 <= i < |log| - 1 ==> !log[i].result.Switched?)
    && (|log| < |calls| ==> SwitchedOut(log))
  }

  /** The turns of one round, in the order of the dispatches. */
  ghost predicate RoundMade(turns: Turns, logs: seq<seq<Made>>) {
    forall k :: 0 <= k < |logs| ==> TurnMade(turns.At(k).calls, logs[k])
  }

  function Joint(logs: seq<seq<Made>>): seq<Made> {
    if logs == [] then [] else Joint(logs[..|logs| - 1]) + logs[|logs| - 1]
  }

  lemma NoTurns(turns: Turns, before: seq<Made>)
    ensures RoundMade(turns, []) && before == before + Joint([])
  {
  }

  lemma OneMoreTurn(turns: Turns, before: seq<Made>, logs: seq<seq<Made>>, log: seq<Made>)
    requires RoundMade(turns, logs) && TurnMade(turns.At(|logs|).calls, log)
    ensures RoundMade(turns, logs + [log]) && before + Joint(logs) + log == before + Joint(logs + [log])
  {
    hide TurnMade, Joint, Turns.At;
    OneMoreJoint(before, logs, log);
    var all := logs + [log];
    forall k | 0 <= k < |all| ensures TurnMade(turns.At(k).calls, all[k]) {
      if k < |logs| { assert all[k] == logs[k]; }
    }
  }

  lemma OneMoreJoint(before: seq<Made>, logs: seq<seq<Made>>, log: seq<Made>)
    ensures before + Joint(logs) + log == before + Joint(logs + [log])
  {
    assert (logs + [log])[..|logs|] == logs;
    assert before + Joint(logs) + log == before + (Joint(logs) + log);
  }

  /** The first calls of a turn, none of which switched the fiber out. */
  ghost predicate TurnBegun(calls: seq<Call>, log: seq<Made>) {
    && |log| <= |calls|
    && forall i :: 0 <= i < |log| ==> log[i].call == calls[i] && !log[i].result.Switched?
  }

  lemma NoCalls(calls: seq<Call>)
    ensures TurnBegun(calls, [])
  {
  }

  lemma OneMoreCall(calls: seq<Call>, log: seq<Made>, m: Made)
    requires TurnBegun(calls, log) && |log| < |calls| && m.call == calls[|log|]
    ensures m.result.Switched? ==> TurnMade(calls, log + [m]) && SwitchedOut(log + [m])
    ensures !m.result.Switched? ==> TurnBegun(calls, log + [m])
  {
  }

  lemma AllCallsMade(calls: seq<Call>, log: seq<Made>)
    requires TurnBegun(calls, log) && |log| == |calls|
    ensures TurnMade(calls, log) && !SwitchedOut(log)
  {
  }

  predicate SwitchedOut(log: seq<Made>) { log != [] && log[|log| - 1].result.Switched? }

  datatype CtlOp = CtlAdd | CtlMod
  datatype CtlResult = CtlOk | CtlExists | CtlNoEntry | CtlFailed

  /** `early` may only grow into `late`, and no park that ended ends again. */
  ghost predicate Settled(early: seq<Park>, late: seq<Park>) {
    |early| <= |late| && forall i :: 0 <= i < |early| && early[i].Resumed? ==> late[i] == early[i]
  }

  /** What a reactor has been through. */
  datatype Past = Past(
    parks: seq<Park>, issued: set<Issue>, applied: seq<Cmd>, clock: Time,
    abandoned: seq<Fiber>, dropped: set<Fiber>,
    generations: map<Fiber, nat>, born: nat, lives: map<Fiber, Life>)

  ghost predicate NoYounger(early: map<Fiber, nat>, late: map<Fiber, nat>) {
    forall f :: f in early ==> f in late && early[f] <= late[f]
  }

  /** What time never undoes: a park that ended does not end again, a handle given out
      stays so, only a plain close drops a fiber, generations and the clock do not go back,
      and no wake is lost. */
  ghost predicate Later(early: Past, late: Past) {
    && Settled(early.parks, late.parks) && early.issued <= late.issued && early.applied <= late.applied
    && early.clock <= late.clock && early.abandoned <= late.abandoned
    && (forall f :: f in late.dropped ==> f in early.dropped || f in late.abandoned[|early.abandoned|..])
    && NoYounger(early.generations, late.generations)
    && early.born <= late.born && LivesOn(early.lives, early.born, late.lives)
  }

  lemma NoYoungerStays(a: map<Fiber, nat>)
    ensures NoYounger(a, a)
  {
  }

  lemma NoYoungerThen(a: map<Fiber, nat>, b: map<Fiber, nat>, c: map<Fiber, nat>)
    requires NoYounger(a, b) && NoYounger(b, c)
    ensures NoYounger(a, c)
  {
  }

  lemma LaterThen(a: Past, b: Past, c: Past)
    requires Later(a, b) && Later(b, c)
    ensures Later(a, c)
  {
    LivesThen(a.lives, a.born, b.lives, b.born, c.lives);
    forall f | f in c.dropped ensures f in a.dropped || f in c.abandoned[|a.abandoned|..] {
      if f in b.dropped && f !in a.dropped {
        var i :| |a.abandoned| <= i < |b.abandoned| && b.abandoned[i] == f;
        assert c.abandoned[|a.abandoned|..][i - |a.abandoned|] == f;
      } else if f !in b.dropped {
        var i :| |b.abandoned| <= i < |c.abandoned| && c.abandoned[i] == f;
        assert c.abandoned[|a.abandoned|..][i - |a.abandoned|] == f;
      }
    }
  }

  /** What is to show when no descriptor is closed plainly. */
  lemma LaterWhen(a: Past, b: Past)
    requires Settled(a.parks, b.parks) && a.issued <= b.issued && a.applied <= b.applied && a.clock <= b.clock
    requires a.abandoned == b.abandoned && b.dropped <= a.dropped && NoYounger(a.generations, b.generations)
    requires a.born <= b.born && LivesOn(a.lives, a.born, b.lives)
    ensures Later(a, b)
  {
  }

  lemma LaterDropping(a: Past, more: seq<Fiber>)
    ensures Later(a, a.(abandoned := a.abandoned + more, dropped := a.dropped + set f | f in more))
  {
    LivesStay(a.lives, a.born, null);
    assert (a.abandoned + more)[|a.abandoned|..] == more;
  }

  lemma LaterStays(a: Past)
    ensures Later(a, a)
  {
    LivesStay(a.lives, a.born, null);
  }

  lemma SettledStays(a: seq<Park>)
    ensures Settled(a, a)
  {
  }

  lemma SettledThen(a: seq<Park>, b: seq<Park>, c: seq<Park>)
    requires Settled(a, b) && Settled(b, c)
    ensures Settled(a, c)
  {
  }

  function Count(f: Fiber?): nat { if f == null then 0 else 1 }

  /** No stale handle comes to life again. */
  lemma StaleForGood(a: Past, b: Past, h: Issue)
    requires Later(a, b) && h in a.issued && h.fiber in a.generations && h.gen < a.generations[h.fiber]
    ensures h in b.issued && h.fiber in b.generations && h.gen < b.generations[h.fiber]
  {
  }

  /** A permit is still there, or an async wait returned READY, as long as the incarnation
      is the same; and a wake counted once is counted for good. */
  lemma NoWakeLost(a: Past, b: Past, f: Fiber)
    requires Later(a, b) && f in a.lives && f in b.lives && a.lives[f].incarnation < a.born
    requires a.lives[f].incarnation == b.lives[f].incarnation
    ensures a.lives[f].permit ==> b.lives[f].permit || a.lives[f].tally.readies < b.lives[f].tally.readies
    ensures a.lives[f].tally.wakes <= b.lives[f].tally.wakes && a.lives[f].tally.readies <= b.lives[f].tally.readies
  {
  }

  /** Unless a descriptor was closed plainly under its fiber meanwhile, nobody was dropped. */
  lemma NobodyDropped(a: Past, b: Past)
    requires Later(a, b) && a.abandoned == b.abandoned
    ensures b.dropped <= a.dropped
  {
  }

  /** Of the fibers `all`, `k` were dispatched after those `before`, and the others are at
      the head of the queue. */
  ghost predicate Ran(before: seq<Fiber>, all: seq<Fiber>, k: nat, dispatched: seq<Fiber>, queue: seq<Fiber>) {
    k <= |all| && dispatched == before + all[..k] && all[k..] <= queue
  }

  /** One more was dispatched, and others queued. */
  lemma OneMoreRan(
      before: seq<Fiber>, all: seq<Fiber>, k: nat, dispatched: seq<Fiber>, queue: seq<Fiber>, later: seq<Fiber>)
    requires Ran(before, all, k, dispatched, queue) && k < |all| && queue != [] && queue[1..] <= later
    ensures queue[0] == all[k] && Ran(before, all, k + 1, dispatched + [queue[0]], later)
  {
    assert all[k + 1..] == all[k..][1..];
    assert before + all[..k + 1] == before + all[..k] + [all[k]];
  }

  lemma NoneRan(before: seq<Fiber>, all: seq<Fiber>)
    ensures Ran(before, all, 0, before, all)
  {
  }

  /** None is left when as many were dispatched, or when nothing is queued. */
  lemma AllRan(before: seq<Fiber>, all: seq<Fiber>, k: nat, dispatched: seq<Fiber>, queue: seq<Fiber>)
    requires Ran(before, all, k, dispatched, queue) && (k == |all| || queue == [])
    ensures k == |all| && dispatched == before + all
  {
    assert all[..|all|] == all;
  }

  /** What a returning fiber's epilogue runs. */
  datatype ReturnTo = NoHook | ForeignHook(id: nat) | ReactorHook(reactor: Reactor)

  /** A run that a thread began. */
  datatype RunOf = RunOf(reactor: Reactor, script: Script)

  /** The thread-local state. */
  class LoopThread {
    var reactor: Reactor?
    var hook: ReturnTo
    // Every run begun on the thread.
    ghost var runs: seq<RunOf>

    constructor ()
    {
      reactor, hook, runs := null, NoHook, [];
    }
  }

  class Reactor {
    const pool: FiberPool
    const timers: TimerHeap
    var current: Fiber?
    var zombie: Fiber?
    var readyHead: Fiber?
    var readyTail: Fiber?
    var active: int
    var blocked: int
    // The fiber that holds each registered descriptor.
    var fdOwner: map<int, Fiber>
    // The kernel's side of the registrations.
    var poller: map<int, Entry>
    // The monotone clock, in nanoseconds.
    var clock: Time
    // The list of live fibers.
    var liveHead: Fiber?
    // The stacks taken from their allocator and not given back.
    var stacksOut: set<Stack>

    ghost var queue: seq<Fiber>
    ghost var liveList: seq<Fiber>
    // Every call fibers made, and how it ended.
    ghost var made: seq<Made>
    // How every poll ended.
    ghost var polls: seq<PollAnswer>
    ghost var parked: set<Fiber>
    // The fibers spawned and not yet recycled, and all whose blocks were ever used.
    ghost var live: set<Fiber>
    ghost var known: set<Fiber>
    // Every fiber put on the ready queue, and every one taken off it, in order.
    ghost var enqueued: seq<Fiber>
    ghost var dispatched: seq<Fiber>
    // Every park ever begun, and who began it.
    ghost var parks: seq<Park>
    ghost var parker: seq<Fiber>
    ghost var issued: set<Issue>
    ghost var spawned: nat
    // Fibers whose descriptor was closed under them without a word to the reactor: those
    // whose last wait on a descriptor it was, and every such close there ever was.
    ghost var dropped: set<Fiber>
    ghost var abandoned: seq<Fiber>
    // Every command applied, in order.
    ghost var applied: seq<Cmd>

    // ----- the invariant -----

    ghost predicate QueueOk()
      reads this`readyHead, this`readyTail, this`queue, this`live, live`next
    {
      && readyHead == (if queue == [] then null else queue[0])
      && readyTail == (if queue == [] then null else queue[|queue| - 1])
      && (forall f :: f in queue ==> f in live)
      && (forall i, j :: 0 <= i < j < |queue| ==> queue[i] != queue[j])
      && (forall i {:trigger queue[i].next} :: 0 <= i < |queue| ==>
            queue[i].next == if i + 1 < |queue| then queue[i + 1] else null)
    }

    /** Fibers are dispatched in the order they were enqueued. */
    ghost predicate InOrder()
      reads this`enqueued, this`dispatched, this`queue
    {
      enqueued == dispatched + queue
    }

    /** Each member is in exactly one place, its state says which, and the counters count
        them. */
    ghost predicate PlacesOf(members: set<Fiber>)
      reads this`queue, this`parked, this`current, this`zombie, this`active, this`blocked, members`state
    {
      && parked <= members
      && (forall f :: f in queue ==> f in members)
      && (current != null ==> current in members)
      && (zombie != null ==> zombie in members)
      && (forall f :: f in members ==>
            && f.state != FREE
            && (f.state == READY <==> f in queue)
            && (f.state == RUNNING <==> f == current)
            && (f.state == PARKED <==> f in parked)
            && (f.state == ZOMBIE <==> f == zombie))
      && active == |queue| + blocked + Count(current)
    }

    ghost predicate BlockedOk()
      reads this`blocked, this`parked
    {
      blocked == |parked|
    }

    ghost predicate Places()
      reads this`queue, this`parked, this`live, this`current, this`zombie, this`active, this`blocked, live`state
    {
      PlacesOf(live) && BlockedOk()
    }

    // The predicates that follow speak of a set of waiting fibers, which is `parked` but
    // in the middle of a step.

    /** Only waiting fibers have deadlines, but for `late`. */
    ghost predicate TimersOf(waiting: set<Fiber>, late: Fiber?)
      reads this`live, live`timerI, timers, timers.heap, timers.timed`timerI, timers.timed`deadline
    {
      && timers.Valid()
      && (forall f :: f in timers.timed ==> f in live && (f in waiting || f == late))
      && (forall f :: f in live && f !in timers.timed ==> f.timerI == NO_TIMER)
    }

    /** A descriptor's owner is the one fiber registered for it. */
    ghost predicate Ownership()
      reads this`fdOwner, this`live, live`regFd
    {
      && (forall fd :: fd in fdOwner ==> fd >= 0 && fdOwner[fd] in live && fdOwner[fd].regFd == fd)
      && (forall f :: f in live && f.regFd != -1 ==> f.regFd in fdOwner && fdOwner[f.regFd] == f)
    }

    /** A fiber waiting on a descriptor is registered for that very one. */
    ghost predicate WaitsOf(waiting: set<Fiber>)
      reads this`live, waiting`park, waiting`waitFd, waiting`regFd
    {
      && waiting <= live
      && (forall f :: f in waiting ==>
            if f.park == ParkFd then f.waitFd == f.regFd && f.waitFd >= 0 else f.waitFd == -1)
    }

    /** Every armed entry names a fiber waiting on that very descriptor, or `late`. */
    ghost predicate ArmedOf(waiting: set<Fiber>, late: Fiber?)
      reads this`poller, this`live, live`regFd, waiting`park
    {
      forall fd :: fd in poller && poller[fd].armed ==>
        var f := poller[fd].fiber;
        fd >= 0 && f in live && f.regFd == fd && ((f in waiting && f.park == ParkFd) || f == late)
    }

    /** A fiber waiting on a descriptor has an armed entry there exactly if the descriptor
        was not closed behind the reactor's back; but its event may be in `hand`. */
    ghost predicate WatchedOf(waiting: set<Fiber>, hand: set<Fiber>)
      reads this`poller, this`dropped, waiting`park, waiting`waitFd
    {
      forall f :: f in waiting && f.park == ParkFd && f !in hand ==>
        (f !in dropped <==> f.waitFd in poller && poller[f.waitFd].ArmedFor(f))
    }

    /** A fiber has a permit exactly if a wake was applied to it after its last READY, and
        it does not keep one while it waits for a wake. */
    ghost predicate WakesOf(waiting: set<Fiber>)
      reads this`live, waiting`park, live`wakePending, waiting`wakePending, live`tally
    {
      && (forall f :: f in waiting && f.wakePending ==> f.park != ParkAsync)
      && (forall f :: f in live ==> f.tally.Fits(f.wakePending))
    }

    /** Only a plain close of a descriptor waited on drops a fiber. */
    ghost predicate DroppedOk()
      reads this`dropped, this`abandoned
    {
      forall f :: f in dropped ==> f in abandoned
    }

    /** The running fiber has left its last wait behind. */
    ghost predicate RunningOk()
      reads this`current, (if current == null then {} else {current})`waitFd
    {
      current != null ==> current.waitFd == -1
    }

    ghost predicate Sources(waiting: set<Fiber>, hand: set<Fiber>)
      reads this`live, this`fdOwner, this`poller, this`dropped
      reads waiting`park, waiting`waitFd, waiting`regFd, waiting`wakePending
      reads live`timerI, live`regFd, live`wakePending, live`tally
      reads timers, timers.heap, timers.timed`timerI, timers.timed`deadline
    {
      && TimersOf(waiting, null) && Ownership() && WaitsOf(waiting) && ArmedOf(waiting, null)
      && WatchedOf(waiting, hand) && WakesOf(waiting)
    }

    lemma Leaving(waiting: set<Fiber>, hand: set<Fiber>, f: Fiber)
      requires Sources(waiting, hand)
      ensures var rest := waiting - {f};
        && TimersOf(rest, f) && Ownership() && WaitsOf(rest) && ArmedOf(rest, f)
        && WatchedOf(rest, hand) && WakesOf(rest)
    {
      hide TimerHeap.Valid;
    }

    /** The parks in progress are those of `waiting`; every other fiber that ever parked
        holds the status its last park ended with. */
    ghost predicate ParksOf(members: set<Fiber>, waiting: set<Fiber>)
      reads this`parks, this`parker, members`serial, members`waitStatus
    {
      && |parker| == |parks| && waiting <= members
      && (forall f :: f in members ==> -1 <= f.serial < |parks|)
      && (forall f :: f in waiting ==> f.serial >= 0 && parks[f.serial] == Pending && parker[f.serial] == f)
      && (forall f :: f in members && f !in waiting && f.serial >= 0 ==> parks[f.serial] == Resumed(f.waitStatus))
      && (forall i :: 0 <= i < |parks| && parks[i] == Pending ==> parker[i] in waiting && parker[i].serial == i)
    }

    lemma MoreParks(members: set<Fiber>, waiting: set<Fiber>, f: Fiber)
      requires ParksOf(members, waiting) && f !in members && f.serial == -1
      ensures ParksOf(members + {f}, waiting)
    {
    }

    lemma FewerParks(members: set<Fiber>, waiting: set<Fiber>, f: Fiber)
      requires ParksOf(members, waiting) && f !in waiting
      ensures ParksOf(members - {f}, waiting)
    {
    }

    /** A handle whose generation is that of its block was given out for the incarnation
        that is in the block now; a block without one is free. */
    ghost predicate HandlesOk()
      reads this`issued, this`live, this`known, known`generation, known`incarnation
      reads (known - live)`state
    {
      && live <= known
      && (forall f :: f in known && f !in live ==> f.state == FREE)
      && (forall h :: h in issued ==>
            && h.fiber in known && h.gen <= h.fiber.generation
            && (h.fiber !in live ==> h.gen < h.fiber.generation)
            && (h.gen == h.fiber.generation ==> h.incarnation == h.fiber.incarnation))
    }

    /** Incarnations are numbered in the order of their spawns. */
    ghost predicate NumberedBelow(members: set<Fiber>, bound: nat)
      reads members`incarnation
    {
      forall f :: f in members ==> f.incarnation < bound
    }

    lemma MoreNumbered(members: set<Fiber>, f: Fiber, bound: nat)
      requires NumberedBelow(members, bound) && f.incarnation == bound
      ensures NumberedBelow(members + {f}, bound + 1)
    {
    }

    lemma FewerNumbered(members: set<Fiber>, f: Fiber, bound: nat)
      requires NumberedBelow(members, bound)
      ensures NumberedBelow(members - {f}, bound)
    {
    }

    /** All that the pool of blocks has no part in. */
    ghost predicate Loop(hand: set<Fiber>)
      reads this`readyHead, this`readyTail, this`queue, this`enqueued, this`dispatched
      reads this`current, this`zombie, this`active, this`blocked, this`parked, this`parks, this`parker
      reads this`fdOwner, this`poller, this`dropped, this`abandoned
      reads this`live, this`known, this`issued, this`spawned
      reads known, live, parked, if current == null then {} else {current}
      reads timers, timers.heap, timers.timed
    {
      && QueueOk() && InOrder() && Places() && RunningOk() && DroppedOk()
      && Sources(parked, hand) && ParksOf(live, parked) && HandlesOk() && NumberedBelow(live, spawned)
    }

    constructor ()
      ensures Loop({}) && live == {} && known == {} && queue == [] && active == 0 && issued == {} && parks == []
      ensures current == null && zombie == null && fresh(pool) && fresh(pool.slabs) && pool.slabs.held == map[]
      ensures fresh(timers) && fresh(timers.heap) && dropped == {} && abandoned == []
      ensures stacksOut == {} && liveHead == null && liveList == []
    {
      pool := new FiberPool();
      timers := new TimerHeap();
      current, zombie, readyHead, readyTail := null, null, null, null;
      active, blocked, fdOwner, poller, clock := 0, 0, map[], map[], 0;
      liveHead, stacksOut, liveList, made, polls := null, {}, [], [], [];
      queue, parked, live, known, enqueued, dispatched := [], {}, {}, {}, [], [];
      parks, parker, issued, spawned, dropped, abandoned, applied := [], [], {}, 0, {}, [], [];
      new;
      Nothing();
      hide Loop;
    }

    /** Before the first fiber there is nothing to get wrong. */
    lemma Nothing()
      requires live == {} && known == {} && queue == [] && parked == {} && enqueued == dispatched == []
      requires current == null && zombie == null && readyHead == null && readyTail == null && active == 0
      requires blocked == 0
      requires fdOwner == map[] && poller == map[] && parks == [] && parker == [] && issued == {}
      requires dropped == {}
      requires timers.Valid() && timers.timed == {}
      ensures Loop({})
    {
      hide TimerHeap.Valid;
    }

    /** Sets up the pool of blocks; the reactor can run from here on. */
    method Init()
      requires Loop({}) && live == {} && known == {} && pool.slabs.held == map[]
      requires stacksOut == {} && liveHead == null && liveList == []
      modifies pool, pool.slabs
      ensures Valid() && pool.slabs.Repr == {pool.slabs}
    {
      hide QueueOk, InOrder, Places, Sources, ParksOf, HandlesOk, FiberPool.Valid;
      var rc := pool.Init();
      pool.Outside();
    }

    // ----- the ready queue -----

    method Enqueue(f: Fiber)
      requires QueueOk() && InOrder() && f !in queue && f in live
      modifies this`readyHead, this`readyTail, this`queue, this`enqueued, live`next, f`state
      ensures QueueOk() && InOrder() && queue == old(queue) + [f] && enqueued == old(enqueued) + [f]
      ensures f.state == READY
    {
      f.next := null;
      if readyTail != null {
        readyTail.next := f;
      } else {
        readyHead := f;
      }
      readyTail := f;
      f.state := READY;
      assert dispatched + queue + [f] == dispatched + (queue + [f]);
      queue := queue + [f];
      enqueued := enqueued + [f];
    }

    method Dequeue() returns (f: Fiber?)
      requires QueueOk() && InOrder()
      modifies this`readyHead, this`readyTail, this`queue, this`dispatched, live`next
      ensures QueueOk() && InOrder() && enqueued == old(enqueued)
      ensures old(queue) == [] ==> f == null && queue == [] && dispatched == old(dispatched)
      ensures old(queue) != [] ==>
        && f == old(queue)[0] && queue == old(queue)[1..] && dispatched == old(dispatched) + [f]
        && forall g :: g in queue <==> g in old(queue) && g != f
    {
      f := readyHead;
      if f == null {
        return;
      }
      readyHead := f.next;
      if readyHead == null {
        readyTail := null;
      }
      f.next := null;
      assert forall i {:trigger queue[i]} :: 1 <= i < |queue| ==> queue[i] == queue[1..][i - 1];
      assert dispatched + queue == dispatched + [f] + queue[1..];
      assert queue == [f] + queue[1..];
      queue := queue[1..];
      dispatched := dispatched + [f];
    }

    // ----- resuming -----

    method EndPark(f: Fiber, status: Status, ghost waiting: set<Fiber>)
      requires ParksOf(live, waiting) && f in waiting
      modifies this`parks, f`waitStatus
      ensures ParksOf(live, waiting - {f}) && f.waitStatus == status && 0 <= f.serial < |old(parks)|
      ensures parks == old(parks)[f.serial := Resumed(status)] && Settled(old(parks), parks)
      ensures Statuses() == old(Statuses())[f := status]
    {
      f.waitStatus := status;
      parks := parks[f.serial := Resumed(status)];
    }

    method Unblock(f: Fiber)
      requires BlockedOk() && f in parked
      modifies this`blocked, this`parked
      ensures BlockedOk() && parked == old(parked) - {f} && blocked == old(blocked) - 1
    {
      blocked := blocked - 1;
      parked := parked - {f};
    }

    method Requeue(f: Fiber)
      requires QueueOk() && InOrder() && Places() && f in parked
      modifies this`readyHead, this`readyTail, this`queue, this`enqueued, this`blocked, this`parked, live`next, f`state
      ensures QueueOk() && InOrder() && Places()
      ensures parked == old(parked) - {f} && queue == old(queue) + [f]
    {
      hide QueueOk, InOrder, BlockedOk;
      Unblock(f);
      Enqueue(f);
    }

    /** Back onto the ready queue with a status; a fiber that is not parked is left alone. */
    method Resume(f: Fiber, status: Status)
      requires QueueOk() && InOrder() && Places() && ParksOf(live, parked) && f in live
      modifies this`readyHead, this`readyTail, this`queue, this`enqueued, this`blocked, this`parked, this`parks
      modifies live`next, f`state, f`waitStatus
      ensures QueueOk() && InOrder() && Places() && ParksOf(live, parked)
      ensures parked == old(parked) - {f}
      ensures f !in old(parked) ==>
        queue == old(queue) && enqueued == old(enqueued) && parks == old(parks) && unchanged(f)
      ensures f in old(parked) ==>
        && queue == old(queue) + [f] && f.waitStatus == status
        && 0 <= f.serial < |old(parks)| && parks == old(parks)[f.serial := Resumed(status)]
      ensures Settled(old(parks), parks)
      ensures View() == if f in old(parked) then Requeued(old(View()), f, status) else old(View())
    {
      hide QueueOk, InOrder, Places, ParksOf, Statuses, Fds, Lives;
      InPlace(f);
      if f.state != PARKED {
        return;
      }
      EndPark(f, status, parked);
      Requeue(f);
    }

    lemma FdOf(f: Fiber)
      requires f in live
      ensures View().Fd(f) == f.regFd
    {
    }

    lemma InPlace(f: Fiber)
      requires Places() && f in live
      ensures f.state == PARKED <==> f in parked
      ensures f.state == READY <==> f in queue
      ensures f.state != FREE && (f.state == ZOMBIE <==> f == zombie) && (f.state == RUNNING <==> f == current)
    {
    }

    // ----- leaving the wait sources -----

    /** Takes `f` off the timers, if it is there. */
    method DropTimer(f: Fiber, ghost waiting: set<Fiber>)
      requires TimersOf(waiting, f) && f in live
      modifies timers`heapLen, timers`timed, timers.heap, timers.timed`timerI
      ensures TimersOf(waiting, null) && timers.timed == old(timers.timed) - {f}
      ensures View() == Untimed(old(View()), f)
    {
      hide Statuses, Fds, Lives;
      hide TimerHeap.Valid;
      timers.Remove(f);
    }

    /** Gives up the descriptor `f` is registered for, and the kernel's entry with it. */
    method DetachFd(f: Fiber, ghost waiting: set<Fiber>, ghost hand: set<Fiber>)
      requires Ownership() && WaitsOf(waiting) && ArmedOf(waiting, f) && WatchedOf(waiting, hand)
      requires f in live && (f in waiting ==> f.park != ParkFd)
      modifies f`regFd, this`fdOwner, this`poller
      ensures Ownership() && WaitsOf(waiting) && ArmedOf(waiting, null) && WatchedOf(waiting, hand)
      ensures f.regFd == -1
      ensures old(f.regFd) == -1 ==> fdOwner == old(fdOwner) && poller == old(poller)
      ensures old(f.regFd) != -1 ==> fdOwner == old(fdOwner) - {old(f.regFd)} && poller == old(poller) - {old(f.regFd)}
      ensures Fds() == old(Fds())[f := -1]
      ensures View() == Unregistered(old(View()), f)
    {
      hide Statuses, Lives;
      var fd := f.regFd;
      if fd == -1 {
        return;
      }
      f.regFd := -1;
      if fd in fdOwner && fdOwner[fd] == f {
        fdOwner := fdOwner - {fd};
        poller := poller - {fd};
      }
    }

    method Disconnect(f: Fiber, ghost waiting: set<Fiber>, ghost hand: set<Fiber>)
      requires Sources(waiting, hand) && f in live
      modifies f`regFd, this`fdOwner, this`poller, timers`heapLen, timers`timed, timers.heap, timers.timed`timerI
      ensures Sources(waiting - {f}, hand) && timers.timed == old(timers.timed) - {f} && f.regFd == -1
      ensures poller == if old(f.regFd) == -1 then old(poller) else old(poller) - {old(f.regFd)}
      ensures fdOwner == if old(f.regFd) == -1 then old(fdOwner) else old(fdOwner) - {old(f.regFd)}
      ensures View() == Untimed(Unregistered(old(View()), f), f)
    {
      hide TimersOf, Ownership, ArmedOf, WaitsOf, WatchedOf, WakesOf, View, Unregistered, Untimed;
      ghost var rest := waiting - {f};
      Leaving(waiting, hand, f);
      DetachFd(f, rest, hand);
      DropTimer(f, rest);
    }

    /** Takes a parked fiber off both wait sources and resumes it. */
    method Unpark(f: Fiber, status: Status, ghost hand: set<Fiber>)
      requires Loop(hand) && f in parked && f in live
      modifies this`readyHead, this`readyTail, this`queue, this`enqueued, this`blocked, this`parked, this`parks
      modifies this`fdOwner, this`poller, timers`heapLen, timers`timed, timers.heap, timers.timed`timerI
      modifies live`next, f`state, f`waitStatus, f`regFd
      ensures Loop(hand)
      ensures parked == old(parked) - {f} && queue == old(queue) + [f] && timers.timed == old(timers.timed) - {f}
      ensures f.waitStatus == status && f.regFd == -1
      ensures poller == if old(f.regFd) == -1 then old(poller) else old(poller) - {old(f.regFd)}
      ensures fdOwner == if old(f.regFd) == -1 then old(fdOwner) else old(fdOwner) - {old(f.regFd)}
      ensures 0 <= f.serial < |old(parks)|
      ensures parks == old(parks)[f.serial := Resumed(status)] && Settled(old(parks), parks)
      ensures View() == Ended(old(View()), f, status, false)
    {
      hide QueueOk, InOrder, Places, Sources, ParksOf, HandlesOk, NumberedBelow, DroppedOk, Settled;
      hide View, Unregistered, Untimed, Requeued, Ended;
      ViewParts();
      EndedInSteps(View(), f, status);
      Disconnect(f, parked, hand);
      Resume(f, status);
    }

    // ----- wakes and cancellations -----

    /** Every block a handle can point into is one the pool still has. */
    ghost predicate Readable()
      reads this`known, pool`memory
    {
      forall a :: a in pool.memory ==> pool.memory[a] in known
    }

    /** The command's handle is for no live incarnation. */
    predicate Stale(c: Cmd)
      reads pool`memory, if c.target in pool.memory then {pool.memory[c.target]} else {}
    {
      c.target !in pool.memory ||
        var f := pool.memory[c.target];
        f.generation != c.gen || f.state == FREE || f.state == ZOMBIE
    }

    ghost predicate Fewer(small: map<int, Entry>, big: map<int, Entry>) {
      forall fd :: fd in small ==> fd in big && small[fd] == big[fd]
    }

    /** What resuming and waking fibers may touch. */
    ghost function View(): Scene
      reads this`queue, this`parked, this`live, this`fdOwner, this`poller, timers`timed
      reads live`waitStatus, live`regFd, live`incarnation, live`tally, live`wakePending
    {
      Scene(queue, parked, timers.timed, Statuses(), Fds(), fdOwner, poller, Lives())
    }

    ghost function StatusesOf(members: set<Fiber>): map<Fiber, Status>
      reads members`waitStatus
    {
      map f | f in members :: f.waitStatus
    }

    ghost function Statuses(): map<Fiber, Status>
      reads this`live, live`waitStatus
    {
      StatusesOf(live)
    }

    ghost function FdsOf(members: set<Fiber>): map<Fiber, int>
      reads members`regFd
    {
      map f | f in members :: f.regFd
    }

    ghost function Fds(): map<Fiber, int>
      reads this`live, live`regFd
    {
      FdsOf(live)
    }

    lemma OneMoreMember(members: set<Fiber>, f: Fiber)
      ensures StatusesOf(members + {f}) == StatusesOf(members)[f := f.waitStatus]
      ensures FdsOf(members + {f}) == FdsOf(members)[f := f.regFd]
      ensures LivesOf(members + {f}) == LivesOf(members)[f := Life(f.incarnation, f.tally, f.wakePending)]
    {
    }

    /** Where handles lead. */
    ghost function Names(): Directory
      reads pool`memory, this`live, this`zombie, live`generation, live`park
    {
      Directory(
        pool.memory, map f | f in live && f != zombie :: f.generation, map f | f in live && f != zombie :: f.park)
    }

    /** What a call of the running fiber finds. */
    ghost function Found(): Moment
      requires current != null
      reads this`queue, this`parked, this`live, this`fdOwner, this`poller, this`zombie, this`current, timers
      reads live`waitStatus, live`regFd, live`incarnation, live`tally, live`wakePending, live`generation, live`park
      reads pool`memory, current`generation
    {
      Moment(
        View(), Names(), current, Handle(current.block, current.generation), timers.heapLen < timers.heap.Length)
    }

    ghost function LivesOf(members: set<Fiber>): map<Fiber, Life>
      reads members`incarnation, members`tally, members`wakePending
    {
      map f | f in members :: Life(f.incarnation, f.tally, f.wakePending)
    }

    ghost function Lives(): map<Fiber, Life>
      reads this`live, live`incarnation, live`tally, live`wakePending
    {
      LivesOf(live)
    }

    /** A permit is never lost while its fiber does not run. */
    twostate predicate PermitsKept(running: Fiber?)
      reads this`live, live`incarnation, live`tally, live`wakePending
    {
      Quiet(old(Lives()), Lives(), running)
    }

    /** No wake is lost: within one incarnation a permit is there until an async wait
        returns READY for it. */
    twostate predicate WakesHonoured()
      reads this`spawned, this`live, live`incarnation, live`tally, live`wakePending
    {
      old(spawned) <= spawned && LivesOn(old(Lives()), old(spawned), Lives())
    }

    ghost function Generations(): map<Fiber, nat>
      reads this`known, known`generation
    {
      map f | f in known :: f.generation
    }

    ghost function Now(): Past
      reads this`parks, this`issued, this`applied, this`clock, this`abandoned, this`dropped, this`known, this`spawned
      reads this`live, known`generation, live`incarnation, live`tally, live`wakePending
    {
      Past(parks, issued, applied, clock, abandoned, dropped, Generations(), spawned, Lives())
    }

    twostate predicate Onward()
      reads this`parks, this`issued, this`applied, this`clock, this`abandoned, this`dropped, this`known, this`spawned
      reads this`live, known`generation, live`incarnation, live`tally, live`wakePending
    {
      Later(old(Now()), Now())
    }

    lemma MoreLives(members: set<Fiber>, f: Fiber)
      requires f !in members && f.incarnation == spawned
      ensures LivesOn(LivesOf(members), spawned, LivesOf(members + {f}))
      ensures Quiet(LivesOf(members), LivesOf(members + {f}), null)
    {
    }

    lemma FewerLives(members: set<Fiber>, f: Fiber)
      ensures LivesOn(LivesOf(members), spawned, LivesOf(members - {f}))
    {
    }

    /** Resumes an async park; anywhere else the wake is kept as a permit. */
    method ApplyWake(f: Fiber, ghost hand: set<Fiber>)
      requires Loop(hand) && f in live
      modifies this`readyHead, this`readyTail, this`queue, this`enqueued, this`blocked, this`parked, this`parks
      modifies this`fdOwner, this`poller, timers`heapLen, timers`timed, timers.heap, timers.timed`timerI
      modifies live`next, f`state, f`waitStatus, f`regFd, f`wakePending, f`tally
      ensures Loop(hand) && f.tally.wakes == old(f.tally).wakes + 1
      ensures f.tally.readies == old(f.tally).readies + (if old(f in parked && f.park == ParkAsync) then 1 else 0)
      ensures WakesHonoured() && PermitsKept(null)
      ensures old(f in parked && f.park == ParkAsync) ==>
        && parked == old(parked) - {f} && queue == old(queue) + [f] && f.wakePending == old(f.wakePending)
        && 0 <= f.serial < |old(parks)| && parks == old(parks)[f.serial := Resumed(EvReady)] && f.waitStatus == EvReady
      ensures !old(f in parked && f.park == ParkAsync) ==>
        && parked == old(parked) && queue == old(queue) && enqueued == old(enqueued) && parks == old(parks)
        && fdOwner == old(fdOwner) && poller == old(poller) && timers.timed == old(timers.timed)
        && f.state == old(f.state) && f.waitStatus == old(f.waitStatus) && f.regFd == old(f.regFd)
        && f.wakePending
      ensures Settled(old(parks), parks) && Fewer(poller, old(poller))
      ensures View() ==
        var was := old(View());
        if old(f in parked && f.park == ParkAsync) then Ended(Woken(was, f, true), f, EvReady, false)
        else Woken(was, f, false)
    {
      hide Loop, LivesOf, LivesOn, Quiet, View, Woken, Ended;
      Standing(f, hand);
      var delivered := f.state == PARKED && f.park == ParkAsync;
      TallyWake(f, delivered, hand);
      if delivered {
        Unpark(f, EvReady, hand);
      }
    }

    method TallyWake(f: Fiber, delivered: bool, ghost hand: set<Fiber>)
      requires Loop(hand) && f in live && (f in parked && f.park == ParkAsync <==> delivered)
      modifies f`wakePending, f`tally
      ensures Loop(hand) && WakesHonoured() && PermitsKept(null)
      ensures f.tally.wakes == old(f.tally).wakes + 1
      ensures f.tally.readies == old(f.tally).readies + (if delivered then 1 else 0)
      ensures f.wakePending == (if delivered then old(f.wakePending) else true)
      ensures View() == Woken(old(View()), f, delivered)
    {
      hide QueueOk, InOrder, Places, TimersOf, Ownership, ArmedOf, WaitsOf, WatchedOf, WakesOf, ParksOf, HandlesOk;
      hide DroppedOk, NumberedBelow, Lives, LivesOn, Quiet, View, Woken;
      RecordWake(f, delivered);
    }

    method RecordWake(f: Fiber, delivered: bool)
      requires WakesOf(parked) && f in live && (f in parked && f.park == ParkAsync <==> delivered)
      modifies f`wakePending, f`tally
      ensures WakesOf(parked) && WakesHonoured() && PermitsKept(null)
      ensures f.tally.wakes == old(f.tally).wakes + 1
      ensures f.tally.readies == old(f.tally).readies + (if delivered then 1 else 0)
      ensures f.wakePending == (if delivered then old(f.wakePending) else true)
      ensures View() == Woken(old(View()), f, delivered)
    {
      hide WakesOf, LivesOn, Quiet, Statuses, Fds;
      LifeOf(f);
      WokenKeeps(View(), f, delivered, spawned);
      ghost var was := View();
      CountWake(f, delivered);
      assert View() == Woken(was, f, delivered);
    }

    lemma LifeOf(f: Fiber)
      requires WakesOf(parked) && f in live
      ensures f in Lives() && Lives()[f].tally.Fits(Lives()[f].permit)
    {
    }

    method CountWake(f: Fiber, delivered: bool)
      requires WakesOf(parked) && f in live && (f in parked && f.park == ParkAsync <==> delivered)
      modifies f`wakePending, f`tally
      ensures WakesOf(parked)
      ensures f.tally.wakes == old(f.tally).wakes + 1
      ensures f.tally.readies == old(f.tally).readies + (if delivered then 1 else 0)
      ensures f.wakePending == (if delivered then old(f.wakePending) else true)
      ensures f.tally.served == if delivered then f.tally.wakes else old(f.tally).served
    {
      ghost var wakes := f.tally.wakes + 1;
      if delivered {
        f.tally := Tally(wakes, f.tally.readies + 1, wakes);
      } else {
        f.tally := f.tally.(wakes := wakes);
        f.wakePending := true;
      }
    }

    /** The command reaches a parked fiber it can resume. */
    ghost predicate Resumes(c: Cmd)
      reads pool`memory, this`parked, if c.target in pool.memory then {pool.memory[c.target]} else {}
    {
      !Stale(c) && c.target in pool.memory &&
      var f := pool.memory[c.target];
      f in parked && (c.kind == CmdCancel || f.park == ParkAsync)
    }

    /** Whether a block has a live fiber, and what that one is doing. */
    lemma Standing(f: Fiber, hand: set<Fiber>)
      requires Loop(hand)
      ensures f in known ==> (f.state == FREE <==> f !in live)
      ensures f in live ==> f in known && (f.state == PARKED <==> f in parked)
    {
      hide QueueOk, Sources, ParksOf;
    }

    lemma ViewParts()
      ensures View().parked == parked && View().queue == queue && View().poller == poller
      ensures View().timed == timers.timed && View().owners == fdOwner
    {
    }

    /** A handle leads to its fiber exactly if it is not stale. */
    lemma NamedBy(c: Cmd, hand: set<Fiber>)
      requires Loop(hand) && Readable()
      ensures Stale(c) ==> Named(Names(), c) == null
      ensures !Stale(c) ==>
        && c.target in pool.memory && Named(Names(), c) == pool.memory[c.target] && pool.memory[c.target] in live
        && pool.memory[c.target] in Names().kinds && Names().kinds[pool.memory[c.target]] == pool.memory[c.target].park
    {
      hide QueueOk, Sources, ParksOf;
    }

    method Deliver(c: Cmd, ghost hand: set<Fiber>)
      requires Loop(hand) && Readable()
      modifies this`readyHead, this`readyTail, this`queue, this`enqueued, this`blocked, this`parked, this`parks
      modifies this`fdOwner, this`poller, timers`heapLen, timers`timed, timers.heap, timers.timed`timerI
      modifies live`next, live`state, live`waitStatus, live`regFd, live`wakePending, live`tally
      ensures Loop(hand)
      ensures old(Stale(c)) ==> unchanged(known)
      ensures !old(Resumes(c)) ==>
        && queue == old(queue) && enqueued == old(enqueued) && parked == old(parked) && parks == old(parks)
        && fdOwner == old(fdOwner) && poller == old(poller) && timers.timed == old(timers.timed)
      ensures !old(Stale(c)) && !old(Resumes(c)) ==>
        var f := pool.memory[c.target];
        f in live && f.wakePending == (old(f.wakePending) || c.kind == CmdWake)
      ensures old(Resumes(c)) ==>
        var f := pool.memory[c.target];
        && parked == old(parked) - {f} && queue == old(queue) + [f] && f.wakePending == old(f.wakePending)
        && f.waitStatus == (if c.kind == CmdCancel then EvCancelled else EvReady)
        && 0 <= f.serial < |old(parks)| && parks == old(parks)[f.serial := Resumed(f.waitStatus)]
      ensures old(queue) <= queue && parked <= old(parked) && |parks| == |old(parks)| && Fewer(poller, old(poller))
      ensures Settled(old(parks), parks) && PermitsKept(null) && WakesHonoured()
      ensures View() == Obeyed(old(Names()), old(View()), c)
    {
      hide Loop, Readable, LivesOf, LivesOn, Quiet, Settled, View, Names, Named, Woken;
      SettledStays(parks);
      NamedBy(c, hand);
      ViewParts();
      LivesStay(Lives(), spawned, null);
      if c.target !in pool.memory {
        return;
      }
      var f := pool.memory[c.target];
      Standing(f, hand);
      if f.generation != c.gen || f.state == FREE || f.state == ZOMBIE {
        return;
      }
      if c.kind == CmdCancel {
        if f.state == PARKED {
          Unpark(f, EvCancelled, hand);
        }
        return;
      }
      ApplyWake(f, hand);
    }

    /** A stale handle is inert; a cancel resumes a parked fiber; a wake resumes an async
        park and is kept otherwise. */
    method ApplyCmd(c: Cmd, ghost hand: set<Fiber>)
      requires Loop(hand) && Readable()
      modifies this`readyHead, this`readyTail, this`queue, this`enqueued, this`blocked, this`parked, this`parks
      modifies this`fdOwner, this`poller, timers`heapLen, timers`timed, timers.heap, timers.timed`timerI
      modifies live`next, live`state, live`waitStatus, live`regFd, live`wakePending, live`tally
      modifies this`applied
      ensures Loop(hand)
      ensures applied == old(applied) + [c]
      ensures old(Stale(c)) ==> unchanged(known)
      ensures !old(Resumes(c)) ==>
        && queue == old(queue) && enqueued == old(enqueued) && parked == old(parked) && parks == old(parks)
        && fdOwner == old(fdOwner) && poller == old(poller) && timers.timed == old(timers.timed)
      ensures !old(Stale(c)) && !old(Resumes(c)) ==>
        var f := pool.memory[c.target];
        f in live && f.wakePending == (old(f.wakePending) || c.kind == CmdWake)
      ensures old(Resumes(c)) ==>
        var f := pool.memory[c.target];
        && parked == old(parked) - {f} && queue == old(queue) + [f] && f.wakePending == old(f.wakePending)
        && f.waitStatus == (if c.kind == CmdCancel then EvCancelled else EvReady)
        && 0 <= f.serial < |old(parks)| && parks == old(parks)[f.serial := Resumed(f.waitStatus)]
      ensures old(queue) <= queue && parked <= old(parked) && |parks| == |old(parks)| && Fewer(poller, old(poller))
      ensures View() == Obeyed(old(Names()), old(View()), c)
      ensures Onward() && PermitsKept(null)
    {
      hide Loop, Readable, Stale, Resumes, LivesOf, LivesOn, Quiet, Generations, Settled, Later, View, Names, Obeyed;
      ghost var was := Now();
      Deliver(c, hand);
      applied := applied + [c];
      LaterWhen(was, Now());
    }

    // ----- registering a descriptor -----

    /** The kernel refuses an entry it has, a change to one it has not, or for reasons of
        its own; a refusal changes nothing. */
    method EpollCtl(op: CtlOp, fd: int, f: Fiber, events: nat, granted: bool) returns (r: CtlResult)
      modifies this`poller
      ensures r == CtlOk ==> poller == old(poller)[fd := Entry(true, f, events)]
      ensures r != CtlOk ==> poller == old(poller)
      ensures !granted <==> r == CtlFailed
      ensures r == CtlNoEntry <==> granted && op == CtlMod && fd !in old(poller)
      ensures r == CtlExists <==> granted && op == CtlAdd && fd in old(poller)
    {
      if !granted {
        return CtlFailed;
      }
      if op == CtlMod && fd !in poller {
        return CtlNoEntry;
      }
      if op == CtlAdd && fd in poller {
        return CtlExists;
      }
      poller := poller[fd := Entry(true, f, events)];
      r := CtlOk;
    }

    /** Another fiber waits on the descriptor. */
    ghost predicate Busy(f: Fiber, fd: int)
      reads this`fdOwner, this`parked, fdOwner.Values
    {
      fd in fdOwner && fdOwner[fd] != f && fdOwner[fd] in parked && fdOwner[fd].park == ParkFd
    }

    /** Whether the descriptor can be armed for `f`: it is neither negative nor busy, there is
        room in the table, and the kernel takes the entry at the first or the second try. */
    ghost predicate Armable(f: Fiber, fd: int, env: Env)
      reads this`fdOwner, this`parked, this`poller, fdOwner.Values
    {
      && fd >= 0 && env.tableGranted && !Busy(f, fd)
      && env.first && ((fd in fdOwner) == (fd in poller) || env.second)
    }

    /** Whether there is room for one more deadline. */
    predicate TimerRoom(env: Env)
      reads timers
    {
      timers.heapLen < timers.heap.Length || env.heapGranted
    }

    ghost predicate StatesAgree()
      reads this`live, this`parked, live`state
    {
      parked <= live && forall f :: f in live ==> (f.state == PARKED <==> f in parked)
    }

    /** Nobody but `f` is registered for `fd`; every other registration is in order. */
    ghost predicate OwnershipBut(f: Fiber, fd: int)
      reads this`fdOwner, this`live, live`regFd
    {
      && (forall d :: d in fdOwner && d != fd ==> d >= 0 && fdOwner[d] in live && fdOwner[d].regFd == d)
      && (forall g :: g in live && g.regFd != -1 && g.regFd != fd ==> g.regFd in fdOwner && fdOwner[g.regFd] == g)
      && (forall g :: g in live && g.regFd == fd ==> g == f)
    }

    /** Makes way for `f` on `fd`: a registration that a fiber left behind is taken from it. */
    method TakeOver(f: Fiber, fd: int) returns (busy: bool, held: bool)
      requires Ownership() && WaitsOf(parked) && ArmedOf(parked, null) && StatesAgree()
      requires f in live && f !in parked && fd >= 0 && (f.regFd == fd || f.regFd == -1)
      modifies live`regFd
      ensures WaitsOf(parked) && ArmedOf(parked, null)
      ensures busy <==> old(Busy(f, fd))
      ensures held <==> fd in fdOwner
      ensures busy ==> Ownership()
      ensures !busy ==> OwnershipBut(f, fd) && (fd in poller ==> !poller[fd].armed)
      ensures !busy ==> forall g :: g in parked && g.park == ParkFd ==> g.regFd != fd
      ensures f.regFd == fd || f.regFd == -1
      ensures View() == if busy then old(View()) else Freed(old(View()), f, fd)
    {
      hide Statuses, Lives;
      held := fd in fdOwner;
      if held && fdOwner[fd] != f {
        var holder := fdOwner[fd];
        if holder.state == PARKED && holder.waitFd == fd {
          return true, held;
        }
        holder.regFd := -1;
      }
      busy := false;
    }

    /** A registration for another descriptor is given up. */
    method MoveTo(f: Fiber, fd: int)
      requires Ownership() && WaitsOf(parked) && ArmedOf(parked, null) && WatchedOf(parked, {})
      requires f in live && f !in parked && fd >= 0
      modifies f`regFd, this`fdOwner, this`poller
      ensures Ownership() && WaitsOf(parked) && ArmedOf(parked, null) && WatchedOf(parked, {})
      ensures f.regFd == fd || f.regFd == -1
      ensures fd in fdOwner <==> fd in old(fdOwner)
      ensures fd in fdOwner ==> fdOwner[fd] == old(fdOwner[fd])
      ensures fd in poller <==> fd in old(poller)
      ensures View() == if old(f.regFd) == fd then old(View()) else Unregistered(old(View()), f)
    {
      hide View, Unregistered;
      if f.regFd != fd {
        DetachFd(f, parked, {});
      }
    }

    /** Adds or changes the kernel's entry; each operation falls back to the other once. */
    method AskKernel(f: Fiber, fd: int, events: nat, held: bool, env: Env) returns (ok: bool)
      modifies this`poller
      ensures ok <==> env.first && (held == old(fd in poller) || env.second)
      ensures poller == if ok then old(poller)[fd := Entry(true, f, events)] else old(poller)
    {
      var r := EpollCtl(if held then CtlMod else CtlAdd, fd, f, events, env.first);
      if r != CtlOk && r != CtlFailed {
        r := EpollCtl(if r == CtlNoEntry then CtlAdd else CtlMod, fd, f, events, env.second);
      }
      ok := r == CtlOk;
    }

    method Claim(f: Fiber, fd: int)
      requires OwnershipBut(f, fd) && f in live && f !in parked && fd >= 0 && (f.regFd == fd || f.regFd == -1)
      modifies f`regFd, this`fdOwner
      ensures Ownership() && f.regFd == fd
      ensures fdOwner == old(fdOwner)[fd := f] && Fds() == old(Fds())[f := fd]
    {
      fdOwner := fdOwner[fd := f];
      f.regFd := fd;
    }

    /** The state of the entry is unknown; the next wait starts over. */
    method Disclaim(f: Fiber, fd: int)
      requires OwnershipBut(f, fd) && f in live && f !in parked && fd >= 0 && (f.regFd == fd || f.regFd == -1)
      modifies f`regFd, this`fdOwner
      ensures Ownership() && f.regFd == -1
      ensures fdOwner == old(fdOwner) - {fd} && Fds() == old(Fds())[f := -1]
    {
      fdOwner := fdOwner - {fd};
      f.regFd := -1;
    }

    /** The registration the kernel takes is the fiber's; after a refusal nothing is. */
    method Register(f: Fiber, fd: int, events: nat, held: bool, env: Env) returns (ok: bool)
      requires OwnershipBut(f, fd) && WaitsOf(parked) && ArmedOf(parked, null) && WatchedOf(parked, {})
      requires f in live && f !in parked && fd >= 0 && (fd in poller ==> !poller[fd].armed)
      requires f.regFd == fd || f.regFd == -1
      requires forall g :: g in parked && g.park == ParkFd ==> g.regFd != fd
      modifies f`regFd, this`fdOwner, this`poller
      ensures Ownership() && WaitsOf(parked) && WatchedOf(parked, {})
      ensures ok <==> env.first && (held == old(fd in poller) || env.second)
      ensures ok ==> ArmedOf(parked, f) && f.regFd == fd && fd in poller && poller[fd] == Entry(true, f, events)
      ensures !ok ==> ArmedOf(parked, null) && f.regFd == -1
      ensures fdOwner == if ok then old(fdOwner)[fd := f] else old(fdOwner) - {fd}
      ensures poller == if ok then old(poller)[fd := Entry(true, f, events)] else old(poller)
      ensures Fds() == old(Fds())[f := if ok then fd else -1]
    {
      hide OwnershipBut, Ownership, Fds;
      ok := AskKernel(f, fd, events, held, env);
      if ok {
        Claim(f, fd);
      } else {
        Disclaim(f, fd);
      }
    }

    /** Registers the running fiber for the descriptor, or fails and leaves nothing armed
        for it.  It fails exactly when the descriptor is negative or busy, or when memory or
        the kernel refuses. */
    method ArmFd(f: Fiber, fd: int, events: nat, env: Env) returns (ok: bool)
      requires Ownership() && WaitsOf(parked) && ArmedOf(parked, null) && WatchedOf(parked, {}) && StatesAgree()
      requires f in live && f !in parked && f == current && (Taken(Found(), fd) <==> Busy(f, fd))
      modifies live`regFd, this`fdOwner, this`poller
      ensures Ownership() && WaitsOf(parked) && WatchedOf(parked, {})
      ensures ok <==> old(Armable(f, fd, env))
      ensures Armed(ok, View()) == Arm(old(Found()), fd, events, env)
      ensures ok ==> ArmedOf(parked, f) && f.regFd == fd >= 0 && fd in poller && poller[fd] == Entry(true, f, events)
      ensures !ok ==> ArmedOf(parked, null)
      ensures old(Busy(f, fd)) && fd >= 0 ==> fd in fdOwner && fdOwner[fd] == old(fdOwner[fd])
    {
      hide Ownership, OwnershipBut, WaitsOf, ArmedOf, WatchedOf, StatesAgree, Statuses, Fds, Lives;
      hide Names, Unregistered, Taken;
      FdOf(f);
      if fd < 0 {
        return false;
      }
      if !env.tableGranted {
        return false;
      }
      MoveTo(f, fd);
      var busy, held := TakeOver(f, fd);
      if busy {
        return false;
      }
      ok := Register(f, fd, events, held, env);
    }

    // ----- parking -----

    method Tick(ns: nat)
      modifies this`clock
      ensures old(clock) <= clock && (clock == old(clock) + ns || clock == UINT64_MAX < old(clock) + ns)
    {
      clock := if ns > UINT64_MAX - clock then UINT64_MAX else clock + ns;
    }

    /** A deadline for a fiber about to park; refused only when the heap cannot grow. */
    method AddTimer(f: Fiber, ns: nat, env: Env) returns (ok: bool)
      requires TimersOf(parked, null) && f in live && f !in parked
      modifies this`clock, timers, timers.heap, timers.timed`timerI, f`timerI, f`deadline
      ensures old(clock) <= clock
      ensures TimersOf(parked, if ok then f else null) && (timers.heap == old(timers.heap) || fresh(timers.heap))
      ensures ok ==> timers.timed == old(timers.timed) + {f} && f.deadline == DeadlineAfter(ns, clock)
      ensures !ok ==> timers.timed == old(timers.timed) && f.timerI == old(f.timerI)
      ensures ok <==> old(TimerRoom(env))
      ensures View() == Timed(old(View()), f, ok)
    {
      hide TimerHeap.Valid, Statuses, Fds, Lives;
      Tick(env.tick);
      ok := timers.Add(f, DeadlineAfter(ns, clock), env.heapGranted);
    }

    method BeginPark(f: Fiber, ghost waiting: set<Fiber>)
      requires ParksOf(live, waiting) && f in live && f !in waiting
      modifies this`parks, this`parker, f`serial, f`waitStatus
      ensures ParksOf(live, waiting + {f}) && Settled(old(parks), parks)
      ensures parks == old(parks) + [Pending] && f.serial == |old(parks)| && f.waitStatus == EvReady
      ensures Statuses() == old(Statuses())[f := EvReady]
    {
      f.waitStatus := EvReady;
      f.serial := |parks|;
      parks := parks + [Pending];
      parker := parker + [f];
    }

    method Block(f: Fiber)
      requires Places() && current == f
      modifies f`state, this`blocked, this`current, this`parked
      ensures Places() && current == null && parked == old(parked) + {f} && f.state == PARKED
    {
      f.state := PARKED;
      blocked := blocked + 1;
      current := null;
      parked := parked + {f};
    }

    /** A fiber with all that its wait needs joins the waiting ones. */
    lemma Joining(waiting: set<Fiber>, f: Fiber)
      requires f in live && f !in waiting && f !in dropped
      requires TimersOf(waiting, f) && Ownership() && WaitsOf(waiting) && WatchedOf(waiting, {}) && WakesOf(waiting)
      requires ArmedOf(waiting, if f.park == ParkFd then f else null)
      requires if f.park == ParkFd then
          f.waitFd == f.regFd >= 0 && f.regFd in poller && poller[f.regFd].ArmedFor(f)
        else f.waitFd == -1
      requires f.park == ParkAsync ==> !f.wakePending
      ensures Sources(waiting + {f}, {})
    {
      hide TimerHeap.Valid;
    }

    ghost method Undrop(f: Fiber, waiting: set<Fiber>)
      requires WatchedOf(waiting, {}) && DroppedOk() && f !in waiting
      modifies this`dropped
      ensures WatchedOf(waiting, {}) && DroppedOk() && dropped == old(dropped) - {f}
    {
      dropped := dropped - {f};
    }

    method SetWait(f: Fiber, kind: ParkKind, fd: int, ghost waiting: set<Fiber>)
      requires f in live && f !in waiting && f.waitFd == -1 && DroppedOk()
      requires TimersOf(waiting, f) && Ownership() && WaitsOf(waiting) && WatchedOf(waiting, {}) && WakesOf(waiting)
      requires ArmedOf(waiting, if kind == ParkFd then f else null)
      requires kind == ParkFd ==> f.regFd == fd >= 0 && fd in poller && poller[fd].ArmedFor(f)
      requires kind == ParkAsync ==> !f.wakePending
      modifies f`park, f`waitFd, this`dropped
      ensures Sources(waiting + {f}, {}) && f.park == kind && f.waitFd == if kind == ParkFd then fd else -1
      ensures dropped == old(dropped) - {f} && DroppedOk()
    {
      hide TimersOf, Ownership, WaitsOf, WatchedOf, WakesOf, ArmedOf, DroppedOk, Sources;
      f.park := kind;
      if kind == ParkFd {
        f.waitFd := fd;
      }
      Undrop(f, waiting);
      Joining(waiting, f);
    }

    method Suspend(f: Fiber)
      requires Places() && ParksOf(live, parked) && current == f
      modifies f`state, f`waitStatus, f`serial, this`blocked, this`current, this`parked, this`parks, this`parker
      ensures Places() && ParksOf(live, parked) && current == null && parked == old(parked) + {f}
      ensures Settled(old(parks), parks) && parks == old(parks) + [Pending] && f.serial == |old(parks)|
      ensures f.waitStatus == EvReady && View() == Suspended(old(View()), f)
    {
      hide Places, ParksOf, Settled, Statuses, Fds, Lives;
      Agree();
      BeginPark(f, parked);
      Block(f);
    }

    /** Parks the running fiber; the loop goes on. */
    method ParkCurrent(kind: ParkKind, fd: int)
      requires QueueOk() && InOrder() && Places() && ParksOf(live, parked) && HandlesOk() && RunningOk() && DroppedOk()
      requires NumberedBelow(live, spawned)
      requires current != null && ReadyToWait(current, kind == ParkFd)
      requires kind == ParkFd ==> current.regFd == fd >= 0 && fd in poller && poller[fd].ArmedFor(current)
      requires kind == ParkAsync ==> !current.wakePending
      modifies this`blocked, this`current, this`parked, this`dropped, this`parks, this`parker
      modifies current`state, current`park, current`waitFd, current`waitStatus, current`serial
      ensures Loop({}) && current == null && parked == old(parked) + {old(current)}
      ensures Settled(old(parks), parks) && parks == old(parks) + [Pending]
      ensures old(current).park == kind && old(current).waitFd == (if kind == ParkFd then fd else -1)
      ensures old(current).serial == |old(parks)| && dropped == old(dropped) - {old(current)}
      ensures old(current).waitStatus == EvReady
      ensures View() == Suspended(old(View()), old(current))
    {
      hide QueueOk, InOrder, Places, TimersOf, Ownership, ArmedOf, WaitsOf, WatchedOf, WakesOf, ParksOf, HandlesOk;
      hide Sources, View, Suspended, DroppedOk, NumberedBelow, Settled;
      var f := current;
      Agree();
      ghost var was := parked;
      Suspend(f);
      SetWait(f, kind, fd, was);
    }

    // ----- what a running fiber may call -----

    /** A handle for the running fiber. */
    method EvSelf() returns (h: Handle)
      requires Loop({}) && current != null
      modifies this`issued
      ensures Loop({}) && Onward() && h == Handle(current.block, current.generation)
      ensures issued == old(issued) + {Issue(current, h.gen, current.incarnation)}
    {
      hide QueueOk, InOrder, Sources, ParksOf, HandlesOk, LivesOf, Generations, Later;
      ghost var was := Now();
      h := Issued(current);
      LivesStay(was.lives, was.born, null);
      LaterWhen(was, Now());
    }

    /** The running fiber has a registration, if `armed`, and then its entry is armed. */
    ghost predicate ReadyToWait(f: Fiber, armed: bool)
      reads this`parked, this`live, this`fdOwner, this`poller, this`dropped
      reads parked`park, parked`waitFd, parked`regFd, parked`wakePending
      reads live`timerI, live`regFd, live`wakePending, live`tally
      reads timers, timers.heap, timers.timed`timerI, timers.timed`deadline
    {
      && TimersOf(parked, f) && Ownership() && WaitsOf(parked) && WatchedOf(parked, {}) && WakesOf(parked)
      && ArmedOf(parked, if armed then f else null)
    }

    /** A registration and a deadline, or neither. */
    method Prepare(f: Fiber, fd: int, events: nat, timeout: int, env: Env) returns (ok: bool)
      requires Sources(parked, {}) && StatesAgree() && f in live && f !in parked
      requires f == current && (Taken(Found(), fd) <==> Busy(f, fd))
      modifies live`regFd, this`fdOwner, this`poller, this`clock
      modifies timers, timers.heap, timers.timed`timerI, f`timerI, f`deadline
      ensures old(clock) <= clock && (timers.heap == old(timers.heap) || fresh(timers.heap))
      ensures ok ==>
        && ReadyToWait(f, true) && f.regFd == fd >= 0 && fd in poller && poller[fd] == Entry(true, f, events)
        && timers.timed == old(timers.timed) + (if timeout >= 0 then {f} else {})
        && (timeout >= 0 ==> f.deadline == DeadlineAfter(timeout, clock))
      ensures !ok ==> Sources(parked, {}) && timers.timed == old(timers.timed)
      ensures ok <==> old(Armable(f, fd, env)) && (timeout < 0 || old(TimerRoom(env)))
      ensures Armed(ok, View()) == Prepared(old(Found()), fd, events, timeout, env)
    {
      hide View, Names, Arm, Unregistered, Taken, Busy;
      hide Armable, TimersOf, Ownership, ArmedOf, WaitsOf, WatchedOf, WakesOf, StatesAgree;
      ok := ArmFd(f, fd, events, env);
      if !ok {
        return;
      }
      if timeout >= 0 {
        ok := AddTimer(f, timeout, env);
        if !ok {
          DetachFd(f, parked, {});
        }
      } else {
        NotTimed(f);
      }
    }

    lemma NotTimed(f: Fiber)
      requires TimersOf(parked, null)
      ensures TimersOf(parked, f)
    {
      hide TimerHeap.Valid;
    }

    /** Waits for readiness of a descriptor, with a deadline unless `timeout` is negative. */
    method EvWait(fd: int, direction: nat, timeout: int, env: Env) returns (r: CallResult)
      requires Loop({}) && current != null
      modifies this`blocked, this`current, this`parked, this`dropped, this`parks, this`parker
      modifies this`fdOwner, this`poller, this`clock, live`regFd, timers, timers.heap, timers.timed`timerI
      modifies current`state, current`park, current`waitFd, current`waitStatus, current`serial
      modifies current`timerI, current`deadline
      ensures Loop({}) && Settled(old(parks), parks)
      ensures old(clock) <= clock && (timers.heap == old(timers.heap) || fresh(timers.heap))
      ensures r.Switched? ==>
        && current == null && parked == old(parked) + {old(current)}
        && old(current).park == ParkFd && old(current).waitFd == old(current).regFd == fd
        && Direction(direction) && fd in poller && poller[fd] == Entry(true, old(current), Events(direction))
        && old(current) !in dropped
        && parks == old(parks) + [Pending] && old(current).serial == |old(parks)|
        && timers.timed == old(timers.timed) + (if timeout >= 0 then {old(current)} else {})
        && (timeout >= 0 ==> old(current).deadline == DeadlineAfter(timeout, clock))
      ensures r.Returned? ==>
        && r.status == EvError && current == old(current) && parked == old(parked) && parks == old(parks)
        && timers.timed == old(timers.timed)
      ensures r.Switched? || r.Returned?
      ensures r.Switched? <==>
        Direction(direction) && old(Armable(current, fd, env)) && (timeout < 0 || old(TimerRoom(env)))
      ensures dropped == if r.Switched? then old(dropped) - {old(current)} else old(dropped)
      ensures After(r, View()) == Waited(old(Found()), fd, direction, timeout, env)
    {
      hide QueueOk, InOrder, Places, Sources, ParksOf, HandlesOk, ReadyToWait, Armable, TimerRoom;
      hide DroppedOk, NumberedBelow, View, Names, Prepared, Suspended, Taken, Busy;
      TakenIsBusy(fd);
      if !Direction(direction) {
        return Returned(EvError);
      }
      Agree();
      ghost var m := Found();
      var ok := Prepare(current, fd, Events(direction), timeout, env);
      if !ok {
        return Returned(EvError);
      }
      ParkCurrent(ParkFd, fd);
      r := Switched;
    }

    /** Another fiber waits there exactly if the owner does. */
    lemma TakenIsBusy(fd: int)
      requires Loop({}) && current != null
      ensures Taken(Found(), fd) <==> Busy(current, fd)
    {
      hide QueueOk, ParksOf, HandlesOk, TimersOf, WaitsOf, ArmedOf, WatchedOf, WakesOf;
    }

    /** The fiber registered for `fd` is waiting there exactly if it is parked for a
        descriptor. */
    lemma WaitedOnAsNamed(fd: int)
      requires Loop({})
      ensures fd in fdOwner ==>
        var f := fdOwner[fd];
        (f in parked && f in Names().kinds && Names().kinds[f] == ParkFd <==> WaitedOn(fd))
    {
      hide QueueOk, ParksOf, HandlesOk, TimersOf, WaitsOf, ArmedOf, WatchedOf, WakesOf;
    }

    lemma Agree()
      requires Places()
      ensures StatesAgree() && (current != null ==> current in live && current !in parked && current !in queue)
    {
    }

    /** Parks until a deadline; fails only when the heap is full and cannot grow. */
    method EvSleep(ns: nat, env: Env) returns (r: CallResult)
      requires Loop({}) && current != null
      modifies this`blocked, this`current, this`parked, this`dropped, this`parks, this`parker
      modifies this`clock, timers, timers.heap, timers.timed`timerI
      modifies current`state, current`park, current`waitFd, current`waitStatus, current`serial
      modifies current`timerI, current`deadline
      ensures Loop({}) && Settled(old(parks), parks)
      ensures old(clock) <= clock && (timers.heap == old(timers.heap) || fresh(timers.heap))
      ensures r == (if old(TimerRoom(env)) then Switched else Returned(EvError))
      ensures dropped == if r.Switched? then old(dropped) - {old(current)} else old(dropped)
      ensures r.Switched? ==>
        && current == null && parked == old(parked) + {old(current)}
        && old(current).park == ParkTimer && old(current).waitFd == -1
        && parks == old(parks) + [Pending] && old(current).serial == |old(parks)|
        && timers.timed == old(timers.timed) + {old(current)} && old(current).deadline == DeadlineAfter(ns, clock)
      ensures r.Returned? ==>
        && current == old(current) && parked == old(parked) && parks == old(parks) && timers.timed == old(timers.timed)
      ensures After(r, View()) == Slept(old(Found()), env)
    {
      hide QueueOk, InOrder, Places, TimersOf, Ownership, WaitsOf, ArmedOf, WatchedOf, WakesOf, ParksOf, HandlesOk;
      hide DroppedOk, NumberedBelow, View, Names, Suspended;
      Agree();
      var ok := AddTimer(current, ns, env);
      if !ok {
        return Returned(EvError);
      }
      ParkCurrent(ParkTimer, -1);
      r := Switched;
    }

    method TakePermit()
      requires Loop({}) && current != null && current.wakePending
      modifies current`wakePending, current`tally
      ensures Loop({}) && WakesHonoured() && PermitsKept(current)
      ensures !current.wakePending && current.tally.readies == old(current.tally).readies + 1
      ensures old(current in View().lives) && View() == Consumed(old(View()), current)
    {
      hide QueueOk, InOrder, Places, TimersOf, Ownership, WaitsOf, ArmedOf, WatchedOf, WakesOf, ParksOf, HandlesOk;
      hide DroppedOk, NumberedBelow, Lives, LivesOn, Quiet, View, Consumed;
      Agree();
      RecordReady(current);
    }

    method RecordReady(f: Fiber)
      requires WakesOf(parked) && f in live && f.wakePending
      modifies f`wakePending, f`tally
      ensures WakesOf(parked) && WakesHonoured() && PermitsKept(f)
      ensures !f.wakePending && f.tally.readies == old(f.tally).readies + 1
      ensures old(f in View().lives) && View() == Consumed(old(View()), f)
    {
      hide WakesOf, LivesOn, Quiet, Statuses, Fds;
      LifeOf(f);
      ConsumedKeeps(View(), f, spawned);
      ghost var was := View();
      ConsumePermit(f);
      assert View() == Consumed(was, f);
    }

    /** Parks for a wake, there being no permit. */
    method AwaitWake(timeout: int, env: Env) returns (r: CallResult)
      requires Loop({}) && current != null && !current.wakePending
      modifies this`blocked, this`current, this`parked, this`dropped, this`parks, this`parker
      modifies this`clock, timers, timers.heap, timers.timed`timerI
      modifies current`state, current`park, current`waitFd, current`waitStatus, current`serial
      modifies current`timerI, current`deadline
      ensures Loop({}) && Settled(old(parks), parks)
      ensures old(clock) <= clock && (timers.heap == old(timers.heap) || fresh(timers.heap))
      ensures r == if timeout < 0 || old(TimerRoom(env)) then Switched else Returned(EvError)
      ensures dropped == if r.Switched? then old(dropped) - {old(current)} else old(dropped)
      ensures r.Switched? ==>
        && current == null && parked == old(parked) + {old(current)}
        && old(current).park == ParkAsync && old(current).waitFd == -1
        && parks == old(parks) + [Pending] && old(current).serial == |old(parks)|
        && timers.timed == old(timers.timed) + (if timeout >= 0 then {old(current)} else {})
        && (timeout >= 0 ==> old(current).deadline == DeadlineAfter(timeout, clock))
      ensures r.Returned? ==>
        current == old(current) && parked == old(parked) && parks == old(parks) && timers.timed == old(timers.timed)
      ensures r.Returned? ==> View() == old(View())
      ensures r.Switched? ==> View() == Suspended(Timed(old(View()), old(current), timeout >= 0), old(current))
    {
      hide QueueOk, InOrder, Places, TimersOf, Ownership, WaitsOf, ArmedOf, WatchedOf, WakesOf, ParksOf, HandlesOk;
      hide DroppedOk, NumberedBelow, View, Suspended;
      Agree();
      if timeout >= 0 {
        var ok := AddTimer(current, timeout, env);
        if !ok {
          return Returned(EvError);
        }
      } else {
        NotTimed(current);
      }
      ParkCurrent(ParkAsync, -1);
      r := Switched;
    }

    /** Consumes a permit and returns at once, or parks for a wake. */
    method EvWaitAsync(timeout: int, env: Env) returns (r: CallResult)
      requires Loop({}) && current != null
      modifies this`blocked, this`current, this`parked, this`dropped, this`parks, this`parker
      modifies this`clock, timers, timers.heap, timers.timed`timerI
      modifies current`state, current`park, current`waitFd, current`waitStatus, current`serial
      modifies current`timerI, current`deadline, current`wakePending, current`tally
      ensures Loop({}) && Settled(old(parks), parks)
      ensures old(clock) <= clock && (timers.heap == old(timers.heap) || fresh(timers.heap))
      ensures r ==
        if old(current.wakePending) then Returned(EvReady)
        else if timeout < 0 || old(TimerRoom(env)) then Switched
        else Returned(EvError)
      ensures !old(current).wakePending
      ensures r == Returned(EvReady) ==> old(current).tally.readies == old(current.tally).readies + 1
      ensures r != Returned(EvReady) ==> old(current).tally == old(current.tally)
      ensures WakesHonoured() && PermitsKept(old(current))
      ensures dropped == if r.Switched? then old(dropped) - {old(current)} else old(dropped)
      ensures r.Switched? ==>
        && current == null && parked == old(parked) + {old(current)}
        && old(current).park == ParkAsync && old(current).waitFd == -1
        && parks == old(parks) + [Pending] && old(current).serial == |old(parks)|
        && timers.timed == old(timers.timed) + (if timeout >= 0 then {old(current)} else {})
        && (timeout >= 0 ==> old(current).deadline == DeadlineAfter(timeout, clock))
      ensures r.Returned? ==>
        current == old(current) && parked == old(parked) && parks == old(parks) && timers.timed == old(timers.timed)
      ensures After(r, View()) == WaitedForWake(old(Found()), timeout, env)
    {
      hide Loop, LivesOn, Quiet, Statuses, Fds, Names;
      Within({});
      LivesStay(Lives(), spawned, current);
      if current.wakePending {
        TakePermit();
        return Returned(EvReady);
      }
      r := AwaitWake(timeout, env);
    }

    method ConsumePermit(f: Fiber)
      requires WakesOf(parked) && f in live && f.wakePending
      modifies f`wakePending, f`tally
      ensures WakesOf(parked) && !f.wakePending && f.tally.readies == old(f.tally).readies + 1
      ensures f.tally == Tally(old(f.tally).wakes, old(f.tally).readies + 1, old(f.tally).wakes)
    {
      f.wakePending := false;
      f.tally := Tally(f.tally.wakes, f.tally.readies + 1, f.tally.wakes);
    }

    /** Behind the ready fibers, and always back to the loop. */
    method EvYield()
      requires Loop({}) && current != null
      modifies this`readyHead, this`readyTail, this`queue, this`enqueued, this`current, live`next, current`state
      ensures Loop({}) && current == null && queue == old(queue) + [old(current)]
      ensures View() == old(View()).(queue := queue)
    {
      hide QueueOk, InOrder, Places, DroppedOk, NumberedBelow, Sources, ParksOf, HandlesOk, Statuses, Fds, Lives;
      Agree();
      PutBack(current);
    }

    method PutBack(f: Fiber)
      requires QueueOk() && InOrder() && Places() && f == current
      modifies this`readyHead, this`readyTail, this`queue, this`enqueued, this`current, live`next, f`state
      ensures QueueOk() && InOrder() && Places() && current == null && queue == old(queue) + [f]
    {
      hide QueueOk, InOrder, BlockedOk;
      current := null;
      Enqueue(f);
    }

    /** The fiber registered for `fd` is parked there. */
    ghost predicate WaitedOn(fd: int)
      reads this`fdOwner, this`parked, fdOwner.Values
    {
      fd in fdOwner && fdOwner[fd] in parked && fdOwner[fd].park == ParkFd
    }

    lemma OwnerState(fd: int)
      requires Places() && Ownership() && WaitsOf(parked)
      ensures fd !in fdOwner ==> !WaitedOn(fd)
      ensures fd in fdOwner ==>
        && fdOwner[fd] in live && fdOwner[fd].regFd == fd >= 0
        && (fdOwner[fd].state == PARKED && fdOwner[fd].waitFd == fd <==> WaitedOn(fd))
        && (WaitedOn(fd) ==> fdOwner[fd] in parked)
    {
    }

    /** Nobody holds the descriptor any more: the fiber parked on it is cancelled, an idle
        registration dropped. */
    method Vacate(fd: int)
      requires Loop({})
      modifies this`readyHead, this`readyTail, this`queue, this`enqueued, this`blocked, this`parked, this`parks
      modifies this`fdOwner, this`poller, timers`heapLen, timers`timed, timers.heap, timers.timed`timerI
      modifies live`next, live`state, live`waitStatus, live`regFd
      ensures Loop({}) && Settled(old(parks), parks) && old(queue) <= queue
      ensures fd !in fdOwner && (poller == old(poller) || poller == old(poller) - {fd})
      ensures old(WaitedOn(fd)) ==>
        var f := old(fdOwner[fd]);
        && parked == old(parked) - {f} && f.waitStatus == EvCancelled && queue == old(queue) + [f]
        && timers.timed == old(timers.timed) - {f}
      ensures !old(WaitedOn(fd)) ==>
        parked == old(parked) && queue == old(queue) && parks == old(parks) && timers.timed == old(timers.timed)
      ensures View() == Vacated(old(Names()), old(View()), fd)
    {
      hide QueueOk, InOrder, Places, TimersOf, Ownership, WaitsOf, ArmedOf, WatchedOf, WakesOf, ParksOf, HandlesOk;
      hide WaitedOn, View, Names, Ended, Unregistered;
      WaitedOnAsNamed(fd);
      ViewParts();
      Agree();
      OwnerState(fd);
      if fd in fdOwner {
        var holder := fdOwner[fd];
        if holder.state == PARKED && holder.waitFd == fd {
          Unpark(holder, EvCancelled, {});
        } else {
          NotWaiting(fd);
          DetachFd(holder, parked, {});
        }
      }
    }

    lemma NotWaiting(fd: int)
      requires fd in fdOwner && !WaitedOn(fd) && ArmedOf(parked, null)
      ensures (fdOwner[fd] in parked ==> fdOwner[fd].park != ParkFd) && ArmedOf(parked, fdOwner[fd])
    {
    }

    /** The fibers that a plain close of the descriptor leaves parked for good. */
    ghost function Strands(fd: int): seq<Fiber>
      reads this`fdOwner, this`parked, fdOwner.Values
    {
      if WaitedOn(fd) then [fdOwner[fd]] else []
    }

    /** The kernel forgets the descriptor.  A fiber still waiting there is not woken. */
    method KernelClose(fd: int)
      requires Ownership() && WaitsOf(parked) && ArmedOf(parked, null) && WatchedOf(parked, {}) && DroppedOk()
      modifies this`poller, this`dropped, this`abandoned
      ensures ArmedOf(parked, null) && WatchedOf(parked, {}) && DroppedOk()
      ensures poller == old(poller) - {fd}
      ensures abandoned == old(abandoned) + Strands(fd)
      ensures dropped == old(dropped) + (set f | f in Strands(fd))
    {
      poller := poller - {fd};
      abandoned := abandoned + Strands(fd);
      dropped := dropped + (set f | f in Strands(fd));
    }

    /** The descriptor is closed behind the reactor's back.  A fiber parked there stays
        parked, and nothing the kernel may report can resume it. */
    method PlainClose(fd: int)
      requires Loop({})
      modifies this`poller, this`dropped, this`abandoned
      ensures Loop({}) && Onward() && poller == old(poller) - {fd}
      ensures abandoned == old(abandoned) + Strands(fd)
      ensures dropped == old(dropped) + (set f | f in Strands(fd))
      ensures WaitedOn(fd) ==> fdOwner[fd] in parked && fdOwner[fd] in dropped && Disarmed(fdOwner[fd])
      ensures View() == Forgotten(old(View()), fd)
    {
      hide Statuses, Fds, Lives;
      hide QueueOk, InOrder, Places, TimersOf, Ownership, WaitsOf, ArmedOf, WatchedOf, WakesOf, ParksOf, HandlesOk;
      hide DroppedOk;
      hide LivesOf, Generations, Later;
      ghost var was := Now();
      LaterDropping(was, Strands(fd));
      KernelClose(fd);
      if WaitedOn(fd) {
        DroppedAreDisarmed(fdOwner[fd]);
      }
    }

    /** Exactly the dropped ones of the fibers parked on a descriptor cannot be resumed by
        any event. */
    lemma DroppedAreDisarmed(f: Fiber)
      requires WaitsOf(parked) && ArmedOf(parked, null) && WatchedOf(parked, {}) && f in parked && f.park == ParkFd
      ensures f in dropped <==> Disarmed(f)
    {
    }

    /** Cancels the fiber parked on the descriptor, or drops an idle registration, and
        closes it. */
    method EvClose(fd: int)
      requires Loop({})
      modifies this`readyHead, this`readyTail, this`queue, this`enqueued, this`blocked, this`parked, this`parks
      modifies this`fdOwner, this`poller, this`dropped, this`abandoned
      modifies timers`heapLen, timers`timed, timers.heap, timers.timed`timerI
      modifies live`next, live`state, live`waitStatus, live`regFd
      ensures Loop({}) && Onward() && old(queue) <= queue
      ensures fd !in fdOwner && poller == old(poller) - {fd} && dropped == old(dropped) && abandoned == old(abandoned)
      ensures old(WaitedOn(fd)) ==>
        var f := old(fdOwner[fd]);
        && parked == old(parked) - {f} && f.waitStatus == EvCancelled && queue == old(queue) + [f]
        && timers.timed == old(timers.timed) - {f}
      ensures !old(WaitedOn(fd)) ==>
        parked == old(parked) && queue == old(queue) && parks == old(parks) && timers.timed == old(timers.timed)
      ensures View() == Forgotten(Vacated(old(Names()), old(View()), fd), fd)
    {
      hide View, Names, Vacated, Forgotten;
      hide Loop, LivesOf, LivesOn, Quiet, Generations, Settled, Later;
      ghost var was := Now();
      Vacate(fd);
      LivesStay(was.lives, was.born, null);
      LaterWhen(was, Now());
      ghost var mid := Now();
      PlainClose(fd);
      LaterThen(was, mid, Now());
    }

    lemma WaitsThere(f: Fiber)
      requires Loop({}) && f in parked && f.park == ParkFd
      ensures WaitedOn(f.waitFd) && fdOwner[f.waitFd] == f && Strands(f.waitFd) == [f]
    {
    }

    /** A descriptor closed plainly under its fiber: whatever any fiber has armed, waiting
        for it and closing it so leaves the fiber parked, with nothing that could fire. */
    method WaitThenPlainClose(fd: int, env: Env) returns (f: Fiber)
      requires Loop({}) && current != null && Armable(current, fd, env)
      modifies this`blocked, this`current, this`parked, this`dropped, this`abandoned, this`parks, this`parker
      modifies this`fdOwner, this`poller, this`clock, timers, timers.heap
      modifies live`state, live`park, live`waitFd, live`regFd, live`timerI, live`deadline, live`waitStatus, live`serial
      ensures Loop({}) && f == old(current) && abandoned == old(abandoned) + [f]
      ensures f in parked && f.park == ParkFd && f.waitFd == fd && f !in timers.timed
      ensures f in dropped && Disarmed(f)
    {
      hide Loop, WaitedOn, Armable, TimerRoom, Now, Later, View, Found, Waited, Forgotten, Settled;
      Within({});
      f := current;
      var r := EvWait(fd, EV_IN, -1, env);
      WaitsThere(f);
      PlainClose(fd);
    }

    // ----- blocks of fibers -----

    ghost predicate Apart()
      reads this`known, timers`heap, pool.slabs`Repr
    {
      && pool.slabs in pool.slabs.Repr
      && this !in pool.slabs.Repr && timers !in pool.slabs.Repr && timers.heap !in pool.slabs.Repr
      && pool !in pool.slabs.Repr
      && forall f :: f in known ==> f !in pool.slabs.Repr
    }

    /** The blocks the pool has handed out are those of `members`. */
    ghost predicate PoolOk(members: set<Fiber>)
      reads this`known, pool, pool.slabs, pool.slabs.Repr
    {
      pool.Valid() && pool.inUse == members && pool.Known() == known
    }

    ghost predicate Valid()
      reads this, known, live, parked, if current == null then {} else {current}
      reads timers, timers.heap, timers.timed, pool, pool.slabs, pool.slabs.Repr
    {
      Loop({}) && Apart() && PoolOk(live) && StacksOk(live) && Listed(live)
    }

    /** Every member has a stack of its own, the fiber that has just finished included, and
        no other stack is out. */
    ghost predicate StacksOk(members: set<Fiber>)
      reads this`stacksOut, members`stack
    {
      && (forall f :: f in members ==> f.stack in stacksOut)
      && (forall f, g :: f in members && g in members && f.stack == g.stack ==> f == g)
      && |stacksOut| == |members|
    }

    /** The live list links exactly the members, both ways. */
    ghost predicate Listed(members: set<Fiber>)
      reads this`liveHead, this`liveList, members`liveNext, members`livePrev
    {
      && (forall f :: f in liveList ==> f in members)
      && (forall f :: f in members ==> f in liveList)
      && Chained(liveHead, liveList)
    }

    /** The block of `f` is taken and wiped, and no live fiber's. */
    ghost predicate Unborn(f: Fiber)
      reads this`live, this`known, f, pool, pool.slabs, pool.slabs.Repr
    {
      PoolOk(live + {f}) && f in known && f !in live && f.Zero()
    }

    /** A wiped block, not yet a live fiber's; or none, exactly if the slabs refuse one. */
    method FiberObtain() returns (f: Fiber?, ghost offer: Offer)
      requires Apart() && PoolOk(live) && HandlesOk()
      modifies pool, pool.slabs.Repr, known - live, this`known
      ensures Apart() && HandlesOk()
      ensures fresh(pool.slabs.Repr - old(pool.slabs.Repr)) && old(known) <= known && fresh(known - old(known))
      ensures NoYounger(old(Generations()), Generations())
      ensures f == null <==> old(pool.slabs.Refuses(offer))
      ensures f == null ==> PoolOk(live) && known == old(known)
      ensures f != null ==> Unborn(f)
      ensures f != null && f !in old(known) ==> f.generation == 0
    {
      hide FiberPool.Valid, Multislab.Refuses;
      f, offer := pool.Obtain();
      pool.Outside();
      if f != null {
        known := known + {f};
      }
    }

    method ReleaseBlock(f: Fiber)
      requires Apart() && PoolOk(live + {f}) && f !in live
      modifies pool, pool.slabs.Repr
      ensures Apart() && PoolOk(live) && pool.slabs.Repr == old(pool.slabs.Repr)
    {
      hide FiberPool.Valid;
      pool.Release(f);
      assert live + {f} - {f} == live;
    }

    /** The block goes back to the pool; every handle to it is stale from now on. */
    method FiberRepool(f: Fiber)
      requires Apart() && PoolOk(live + {f}) && HandlesOk() && f in known && f !in live
      modifies pool, pool.slabs.Repr, f`generation, f`state
      ensures Apart() && PoolOk(live) && HandlesOk() && f.generation == old(f.generation) + 1
      ensures NoYounger(old(Generations()), Generations())
      ensures pool.slabs.Repr == old(pool.slabs.Repr)
    {
      hide PoolOk;
      f.generation := f.generation + 1;
      f.state := FREE;
      ReleaseBlock(f);
    }

    /** Nothing of an earlier incarnation is left in the block. */
    ghost predicate Blank(f: Fiber)
      reads f
    {
      && f.next == null && !f.wakePending && f.regFd == -1 && f.waitFd == -1 && f.timerI == NO_TIMER
      && f.serial == -1 && f.tally == NO_WAKES
    }

    method Prime(f: Fiber)
      requires HandlesOk() && f in known && f !in live && f.Zero()
      modifies f`regFd, f`waitFd, f`timerI, f`serial, f`incarnation
      ensures HandlesOk() && Blank(f) && f.incarnation == spawned
    {
      f.regFd := -1;
      f.waitFd := -1;
      f.timerI := NO_TIMER;
      f.serial := -1;
      f.incarnation := spawned;
    }

    /** A live incarnation from here on, though not yet in any place. */
    ghost method Enliven(f: Fiber)
      requires f in known && f !in live && Blank(f) && f.incarnation == spawned && PlacesOf(live)
      requires HandlesOk() && QueueOk() && Sources(parked, {})
      modifies this`live, this`spawned
      ensures HandlesOk() && QueueOk() && Sources(parked, {})
      ensures live == old(live) + {f} && spawned == old(spawned) + 1
    {
      hide TimerHeap.Valid;
      live := live + {f};
      spawned := spawned + 1;
    }

    /** A handle for the incarnation in the block now. */
    method Issued(f: Fiber) returns (h: Handle)
      requires HandlesOk() && f in live
      modifies this`issued
      ensures HandlesOk() && h == Handle(f.block, f.generation)
      ensures issued == old(issued) + {Issue(f, h.gen, f.incarnation)}
    {
      h := Handle(f.block, f.generation);
      issued := issued + {Issue(f, h.gen, f.incarnation)};
    }

    method Admit(f: Fiber)
      requires QueueOk() && InOrder() && f in live && PlacesOf(live - {f}) && BlockedOk()
      modifies this`readyHead, this`readyTail, this`queue, this`enqueued, this`active, live`next, f`state
      ensures QueueOk() && InOrder() && Places() && queue == old(queue) + [f] && active == old(active) + 1
      ensures View() == old(View()).(queue := queue)
    {
      hide QueueOk, InOrder, Statuses, Fds, Lives;
      Enqueue(f);
      active := active + 1;
      assert live == live - {f} + {f};
    }

    /** Which fibers the fields of the reactor can name. */
    lemma Within(hand: set<Fiber>)
      requires Loop(hand)
      ensures live <= known && timers.timed <= parked <= live && zombie !in parked
      ensures current != null ==> current in live && current !in parked && current !in queue
      ensures zombie != null ==> zombie in live
    {
      hide TimerHeap.Valid;
    }

    method Begin(f: Fiber) returns (h: Handle)
      requires Loop({}) && f in known && f !in live && f.Zero()
      modifies f`regFd, f`waitFd, f`timerI, f`serial, f`incarnation, this`live, this`spawned, this`issued
      ensures live == old(live) + {f} && Blank(f) && f.incarnation == old(spawned) && spawned == old(spawned) + 1
      ensures QueueOk() && InOrder() && PlacesOf(old(live)) && BlockedOk() && RunningOk() && DroppedOk()
      ensures Sources(parked, {}) && ParksOf(live, parked) && HandlesOk() && NumberedBelow(live, spawned)
      ensures WakesHonoured() && PermitsKept(null)
      ensures h == Handle(f.block, f.generation) && issued == old(issued) + {Issue(f, h.gen, f.incarnation)}
      ensures View() == Joined(old(View()), f, old(spawned)).(queue := queue)
    {
      hide QueueOk, InOrder, PlacesOf, Sources, ParksOf, HandlesOk, DroppedOk, NumberedBelow, LivesOf, LivesOn, Quiet;
      hide StatusesOf, FdsOf;
      Within({});
      Prime(f);
      OneMoreMember(live, f);
      MoreParks(live, parked, f);
      MoreNumbered(live, f, spawned);
      MoreLives(live, f);
      Enliven(f);
      h := Issued(f);
    }

    /** A new incarnation, last in the queue, and a handle for it and for no earlier one. */
    twostate predicate Spawned(new f: Fiber, h: Handle)
      reads this`queue, this`active, this`live, this`issued, this`spawned, f
    {
      && queue == old(queue) + [f] && active == old(active) + 1
      && f !in old(live) && live == old(live) + {f}
      && h == Handle(f.block, f.generation) && issued == old(issued) + {Issue(f, h.gen, f.incarnation)}
      && f.incarnation == old(spawned) && spawned == old(spawned) + 1
      && f.serial == -1 && !f.wakePending && f.tally == NO_WAKES
      && f.waitStatus == EvReady && f.regFd == -1
    }

    method AdmitNew(f: Fiber) returns (h: Handle)
      requires Loop({}) && f in known && f !in live && f.Zero()
      modifies f`regFd, f`waitFd, f`timerI, f`serial, f`incarnation, f`next, f`state, live`next, this`live
      modifies this`spawned, this`issued
      modifies this`readyHead, this`readyTail, this`queue, this`enqueued, this`active
      ensures Loop({}) && Spawned(f, h) && WakesHonoured() && PermitsKept(null) && old(issued) <= issued
      ensures View() == Joined(old(View()), f, old(spawned))
    {
      hide QueueOk, InOrder, PlacesOf, Sources, ParksOf, HandlesOk, DroppedOk, NumberedBelow, LivesOf, LivesOn, Quiet;
      hide View;
      ViewParts();
      Within({});
      ghost var others := live;
      h := Begin(f);
      assert live - {f} == others;
      Admit(f);
    }

    /** Whether a spawn fails: the slabs refuse a block, or there is no stack. */
    ghost predicate SpawnRefused(env: Env, offer: Offer)
      reads pool.slabs, pool.slabs.nodes`usedCount
    {
      pool.slabs.Refuses(offer) || !env.stackGranted
    }

    /** A stack of its own for a block that is no live fiber's. */
    method TakeStack(f: Fiber)
      requires StacksOk(live) && f !in live
      modifies f`stack, this`stacksOut
      ensures StacksOk(live + {f})
    {
      f.stack := new Stack();
      stacksOut := stacksOut + {f.stack};
    }

    lemma LiveHeadIsLive()
      requires Listed(live)
      ensures liveHead != null ==> liveHead in live
    {
    }

    /** To the front of the live list. */
    method LiveLink(f: Fiber)
      requires Listed(live) && f !in live
      modifies f`liveNext, f`livePrev, live`livePrev, this`liveHead, this`liveList
      ensures Listed(live + {f}) && liveList == [f] + old(liveList)
    {
      hide Chained;
      LiveHeadIsLive();
      liveHead := Link(liveHead, f, liveList);
      liveList := [f] + liveList;
    }

    /** Off the live list, wherever it stands. */
    method LiveUnlink(f: Fiber, ghost k: nat)
      requires Listed(live) && k < |liveList| && liveList[k] == f
      modifies live`liveNext, live`livePrev, this`liveHead, this`liveList
      ensures Listed(live - {f})
    {
      Distinct();
      hide Chained;
      WithoutOne(liveList, k);
      liveHead := Unlink(liveHead, f, liveList, k);
      liveList := liveList[..k] + liveList[k + 1..];
    }

    lemma Distinct()
      requires Chained(liveHead, liveList)
      ensures forall i, j :: 0 <= i < j < |liveList| ==> liveList[i] != liveList[j]
    {
    }

    /** The rest of the reactor takes no notice of the live list. */
    method LinkIn(f: Fiber)
      requires Loop({}) && Listed(live) && f !in live
      modifies f`liveNext, f`livePrev, live`livePrev, this`liveHead, this`liveList
      ensures Loop({}) && Listed(live + {f})
    {
      hide QueueOk, InOrder, PlacesOf, Sources, ParksOf, HandlesOk, DroppedOk, NumberedBelow, Listed;
      LiveLink(f);
    }

    lemma PlaceOf(f: Fiber) returns (k: nat)
      requires Listed(live) && f in live
      ensures k < |liveList| && liveList[k] == f
    {
      k :| k < |liveList| && liveList[k] == f;
    }

    method UnlinkFrom(f: Fiber)
      requires Loop({}) && Listed(live) && f in live
      modifies live`liveNext, live`livePrev, this`liveHead, this`liveList
      ensures Loop({}) && Listed(live - {f})
    {
      hide QueueOk, InOrder, PlacesOf, Sources, ParksOf, HandlesOk, DroppedOk, NumberedBelow, Listed;
      ghost var k := PlaceOf(f);
      LiveUnlink(f, k);
    }

    /** A wiped block with a stack to go with it; or neither. */
    method BlockAndStack(env: Env) returns (f: Fiber?, ghost offer: Offer)
      requires Apart() && PoolOk(live) && HandlesOk() && StacksOk(live) && live <= known
      modifies pool, pool.slabs.Repr, known - live, this`known, this`stacksOut
      ensures Apart() && HandlesOk() && NoYounger(old(Generations()), Generations())
      ensures fresh(pool.slabs.Repr - old(pool.slabs.Repr)) && old(known) <= known && fresh(known - old(known))
      ensures f == null <==> old(SpawnRefused(env, offer))
      ensures f == null ==> PoolOk(live) && StacksOk(live)
      ensures f != null ==> Unborn(f) && StacksOk(live + {f})
    {
      hide PoolOk, HandlesOk, StacksOk, Generations, NoYounger, Multislab.Refuses;
      ghost var was := Generations();
      f, offer := FiberObtain();
      if f != null && env.stackGranted {
        TakeStack(f);
      } else if f != null {
        ghost var obtained := Generations();
        FiberRepool(f);
        NoYoungerThen(was, obtained, Generations());
        f := null;
      }
    }

    /** The rest of the reactor takes no notice of the block. */
    method Stock(env: Env) returns (f: Fiber?, ghost offer: Offer)
      requires Valid()
      modifies pool, pool.slabs.Repr, known - live, this`known, this`stacksOut
      ensures f == null <==> old(SpawnRefused(env, offer))
      ensures f == null ==> PoolOk(live) && StacksOk(live)
      ensures f != null ==> Unborn(f) && StacksOk(live + {f})
      ensures Loop({}) && Apart() && Onward() && Lives() == old(Lives()) && Allocates()
      ensures Listed(live)
    {
      hide QueueOk, InOrder, PlacesOf, Sources, ParksOf, HandlesOk, PoolOk;
      hide LivesOf, LivesOn, Generations, NoYounger, Settled, Later, SpawnRefused;
      ghost var was := Now();
      LivesStay(was.lives, was.born, null);
      SettledStays(parks);
      Within({});
      f, offer := BlockAndStack(env);
      LaterWhen(was, Now());
    }

    /** Onto the live list, and then into the queue. */
    method Enlist(f: Fiber) returns (h: Handle)
      requires Loop({}) && Listed(live) && f in known && f !in live && f.Zero()
      modifies f`regFd, f`waitFd, f`timerI, f`serial, f`incarnation, f`next, f`state
      modifies live`next, this`live, this`spawned, this`issued
      modifies this`readyHead, this`readyTail, this`queue, this`enqueued, this`active
      modifies f`liveNext, f`livePrev, live`livePrev, this`liveHead, this`liveList
      ensures Loop({}) && Listed(live) && Spawned(f, h) && WakesHonoured() && PermitsKept(null)
      ensures old(issued) <= issued && View() == Joined(old(View()), f, old(spawned))
    {
      hide Loop, Listed, Fiber.Zero, Lives, LivesOn, Quiet, View, Joined;
      Within({});
      LinkIn(f);
      h := AdmitNew(f);
    }

    method Enrol(f: Fiber) returns (h: Handle)
      requires Loop({}) && Listed(live) && f in known && f !in live && f.Zero()
      modifies f`regFd, f`waitFd, f`timerI, f`serial, f`incarnation, f`next, f`state
      modifies live`next, this`live, this`spawned, this`issued
      modifies this`readyHead, this`readyTail, this`queue, this`enqueued, this`active
      modifies f`liveNext, f`livePrev, live`livePrev, this`liveHead, this`liveList
      ensures Loop({}) && Listed(live) && Spawned(f, h) && Onward() && PermitsKept(null)
      ensures View() == Joined(old(View()), f, old(spawned))
    {
      hide Loop, Listed, Fiber.Zero, Spawned, LivesOf, LivesOn, Quiet, Generations, NoYounger, Settled, Later;
      hide View, Joined;
      ghost var was := Now();
      SettledStays(parks);
      NoYoungerStays(Generations());
      Within({});
      h := Enlist(f);
      LaterWhen(was, Now());
    }

    /** A fiber behind the ready ones, with a handle that no earlier one equals; or nothing,
        exactly without a block or a stack. */
    method Spawn(env: Env) returns (ok: bool, h: Handle, ghost offer: Offer)
      requires Valid()
      modifies pool, pool.slabs.Repr, known - live, live`next, this`known, this`stacksOut, this`live, this`spawned
      modifies this`issued, live`livePrev, this`liveHead, this`liveList
      modifies this`readyHead, this`readyTail, this`queue, this`enqueued, this`active
      ensures Valid() && Allocates()
      ensures Onward() && PermitsKept(null)
      ensures !ok <==> old(SpawnRefused(env, offer))
      ensures !ok ==> live == old(live) && queue == old(queue) && active == old(active) && issued == old(issued)
      ensures ok ==> queue != [] && Spawned(queue[|queue| - 1], h)
      ensures old(live) <= live && old(queue) <= queue && (ok ==> queue[|queue| - 1] in live)
      ensures !ok ==> View() == old(View())
      ensures ok ==> View() == Joined(old(View()), queue[|queue| - 1], old(spawned))
    {
      hide View, Joined;
      hide Loop, PoolOk, StacksOk, Listed, Fiber.Zero, Now, Later, LivesOf, Quiet, SpawnRefused;
      ghost var was := Now();
      LivesStay(Lives(), spawned, null);
      ok, h := false, Handle(0, 0);
      Within({});
      var f;
      f, offer := Stock(env);
      if f != null {
        Within({});
        ghost var mid := Now();
        h := Enrol(f);
        LaterThen(was, mid, Now());
        ok := true;
      }
    }

    // ----- the end of a fiber -----

    /** The running fiber's function returned; its stack is still in use. */
    method ReturnHook()
      requires Loop({}) && current != null && zombie == null
      modifies this`current, this`zombie, this`active, current`state
      ensures Loop({}) && current == null && zombie == old(current) && active == old(active) - 1
    {
      hide QueueOk, InOrder, Sources, ParksOf, HandlesOk;
      var dead := current;
      current := null;
      zombie := dead;
      dead.state := ZOMBIE;
      active := active - 1;
    }

    method Bury(f: Fiber)
      requires PlacesOf(live) && HandlesOk() && f == zombie
      modifies f`generation, f`state, this`zombie
      ensures PlacesOf(live - {f}) && HandlesOk() && zombie == null && f.state == FREE
      ensures f.generation == old(f.generation) + 1
      ensures f in live && f !in queue && f !in parked
      ensures forall h :: h in issued && h.fiber == f ==> h.gen < f.generation
    {
      f.generation := f.generation + 1;
      f.state := FREE;
      zombie := null;
    }

    ghost method Leave(f: Fiber)
      requires QueueOk() && Sources(parked, {}) && HandlesOk() && PlacesOf(live - {f}) && BlockedOk()
      requires f in live && f !in queue && f !in parked && f.regFd == -1 && f.state == FREE
      requires forall h :: h in issued && h.fiber == f ==> h.gen < f.generation
      modifies this`live
      ensures QueueOk() && Sources(parked, {}) && HandlesOk() && Places()
      ensures live == old(live) - {f}
    {
      hide TimerHeap.Valid;
      live := live - {f};
    }

    method DropRegistration(f: Fiber)
      requires Loop({}) && f == zombie
      modifies f`regFd, this`fdOwner, this`poller
      ensures Loop({}) && f.regFd == -1
    {
      hide QueueOk, InOrder, PlacesOf, TimersOf, Ownership, WaitsOf, WatchedOf, WakesOf, ParksOf, HandlesOk, DroppedOk;
      hide NumberedBelow, View, Fds, Unregistered;
      Within({});
      DetachFd(f, parked, {});
    }

    /** The incarnation ends. */
    method Discharge(f: Fiber)
      requires Loop({}) && f == zombie && f.regFd == -1
      modifies f`generation, f`state, this`live, this`zombie
      ensures Loop({}) && zombie == null && live == old(live) - {f} && f in old(live)
      ensures f.generation == old(f.generation) + 1 && WakesHonoured() && NoYounger(old(Generations()), Generations())
    {
      hide QueueOk, InOrder, PlacesOf, Sources, ParksOf, HandlesOk, DroppedOk, NumberedBelow, LivesOf, LivesOn;
      Within({});
      Bury(f);
      FewerParks(live, parked, f);
      FewerNumbered(live, f, spawned);
      FewerLives(live, f);
      Leave(f);
    }

    method GiveBackStack(f: Fiber, ghost members: set<Fiber>)
      requires StacksOk(members) && f in members
      modifies this`stacksOut
      ensures StacksOk(members - {f}) && stacksOut == old(stacksOut) - {f.stack}
    {
      stacksOut := stacksOut - {f.stack};
    }

    /** A finished fiber's registration is dropped, it leaves the live list, and its stack
        goes back. */
    method Depart(f: Fiber)
      requires Loop({}) && StacksOk(live) && Listed(live) && f == zombie
      modifies f`regFd, this`fdOwner, this`poller, this`stacksOut
      modifies live`liveNext, live`livePrev, this`liveHead, this`liveList
      ensures Loop({}) && f.regFd == -1 && Listed(live - {f}) && StacksOk(live - {f})
      ensures stacksOut == old(stacksOut) - {f.stack} && f.stack in old(stacksOut)
    {
      hide Loop, StacksOk, Listed;
      Within({});
      HasStack(f);
      DropRegistration(f);
      UnlinkFrom(f);
      GiveBackStack(f, live);
    }

    /** Its block goes back too; every handle to it is stale from now on. */
    method Recycle()
      requires Valid() && zombie != null
      modifies pool, pool.slabs.Repr, this`fdOwner, this`poller, this`live, this`zombie, this`stacksOut
      modifies zombie`regFd, zombie`generation, zombie`state
      modifies live`liveNext, live`livePrev, this`liveHead, this`liveList
      ensures Valid() && zombie == null && live == old(live) - {old(zombie)} && pool.slabs.Repr == old(pool.slabs.Repr)
      ensures stacksOut == old(stacksOut) - {old(zombie.stack)} && old(zombie.stack) in old(stacksOut)
      ensures old(zombie).generation == old(zombie.generation) + 1 && WakesHonoured()
      ensures NoYounger(old(Generations()), Generations())
    {
      hide Loop, PoolOk, StacksOk, Listed, LivesOf, LivesOn, Generations, NoYounger;
      Within({});
      var f := zombie;
      Depart(f);
      Discharge(f);
      assert live + {f} == old(live);
      ReleaseBlock(f);
    }

    lemma HasStack(f: Fiber)
      requires StacksOk(live) && f in live
      ensures f.stack in stacksOut
    {
    }

    // ----- the end of the reactor -----

    /** Gives back the stacks of the fibers the loop never finished, and every block. */
    method Destroy() returns (leaked: nat)
      requires Valid() && current == null
      modifies this`liveHead, this`stacksOut, pool.slabs
      ensures liveHead == null && stacksOut == {} && leaked == 0 && pool.slabs.held == map[]
    {
      hide Loop, PoolOk, StacksOk;
      var f := liveHead;
      ghost var k := 0;
      ghost var left := live;
      while f != null
        invariant 0 <= k <= |liveList| && f == if k < |liveList| then liveList[k] else null
        invariant Listed(live) && forall g :: g in left <==> g in live && g !in liveList[..k]
        invariant StacksOk(left) && PoolOk(live)
        modifies this`stacksOut
        decreases |liveList| - k
      {
        GiveBackStack(f, left);
        left := left - {f};
        assert liveList[..k + 1] == liveList[..k] + [liveList[k]];
        k := k + 1;
        f := f.liveNext;
      }
      assert liveList[..k] == liveList;
      assert left == {};
      NoStackOut();
      liveHead := null;
      DestroyPool();
      leaked := |stacksOut|;
      assert leaked == 0;
    }

    method DestroyPool()
      requires PoolOk(live)
      modifies pool.slabs
      ensures pool.slabs.held == map[]
    {
      pool.Destroy();
    }

    lemma NoStackOut()
      requires StacksOk({})
      ensures stacksOut == {}
    {
    }

    // ----- a turn of a fiber -----

    /** The fiber at the head of the queue runs; a wait it was in is over. */
    method EnterNext() returns (f: Fiber)
      requires Loop({}) && current == null && queue != []
      modifies this`readyHead, this`readyTail, this`queue, this`dispatched, this`current, live`next
      modifies {queue[0]}`state, {queue[0]}`waitFd
      ensures Loop({}) && current == f && f == old(queue)[0] && queue == old(queue)[1..]
      ensures dispatched == old(dispatched) + [f] && enqueued == old(enqueued)
    {
      hide InOrder, QueueOk, Places, ParksOf, HandlesOk, Sources;
      f := TakeNext();
      EndWait(f);
    }

    method TakeNext() returns (f: Fiber)
      requires QueueOk() && InOrder() && Places() && current == null && queue != []
      modifies this`readyHead, this`readyTail, this`queue, this`dispatched, this`current, live`next, {queue[0]}`state
      ensures QueueOk() && InOrder() && Places() && current == f && f == old(queue)[0] && queue == old(queue)[1..]
      ensures f in live && f !in parked && dispatched == old(dispatched) + [f]
    {
      hide InOrder, QueueOk;
      assert queue[0] in queue;
      f := Dequeue();
      current := f;
      f.state := RUNNING;
    }

    method EndWait(f: Fiber)
      requires Sources(parked, {}) && f in live && f !in parked
      modifies f`waitFd
      ensures Sources(parked, {}) && f.waitFd == -1
    {
      hide TimersOf, Ownership, ArmedOf, WakesOf;
      f.waitFd := -1;
    }

    /** Only new objects are added to those the reactor may change. */
    twostate predicate Allocates()
      reads this`known, pool.slabs`Repr, timers`heap
    {
      && old(known) <= known && fresh(known - old(known)) && fresh(pool.slabs.Repr - old(pool.slabs.Repr))
      && (timers.heap == old(timers.heap) || fresh(timers.heap))
    }

    /** What every call keeps besides: the queue only grows, at its end. */
    twostate predicate Continues()
      reads this, known, live
    {
      && Onward() && old(queue) <= queue && old(live) <= live
      && dispatched == old(dispatched) && zombie == old(zombie)
    }

    /** The fibers a call leaves parked for good. */
    ghost function Abandons(c: Call): seq<Fiber>
      reads this`fdOwner, this`parked, fdOwner.Values
    {
      if c.ClosePlainly? then Strands(c.fd) else []
    }

    /** How the running fiber's park began. */
    ghost predicate ParkedBy(f: Fiber, c: Call)
      reads f`park, f`waitFd, f`deadline, this`clock
    {
      && c.Waits()
      && f.park == (if c.Wait? then ParkFd else if c.Sleep? then ParkTimer else ParkAsync)
      && f.waitFd == (if c.Wait? then c.fd else -1)
      && (c.Timeout() >= 0 ==> f.deadline == DeadlineAfter(c.Timeout(), clock))
    }

    /** The call ended as its outcome says; and if it parked, with the park it says. */
    twostate predicate Did(c: Call, r: CallResult)
      requires old(current) != null && c.Local() && !c.SpawnFiber?
      reads this`current, this`queue, this`parked, this`live, this`fdOwner, this`poller, this`clock, timers`timed
      reads live`waitStatus, live`regFd, live`incarnation, live`tally, live`wakePending
      reads live`park, live`waitFd, live`deadline
    {
      && current == (if r.Switched? then null else old(current))
      && After(r, View()) == Outcome(c, old(Found()))
      && (r.Switched? && c.Waits() ==> old(current) in live && ParkedBy(old(current), c))
    }

    /** A call that may park: it ends as its outcome says, with the park it says. */
    method Await(c: Call) returns (r: CallResult)
      requires Loop({}) && current != null && c.Waits()
      modifies this`blocked, this`current, this`parked, this`dropped, this`parks, this`parker, this`fdOwner, this`poller
      modifies this`clock, timers, timers.heap
      modifies live`state, live`park, live`waitFd, live`regFd, live`timerI, live`deadline, live`waitStatus
      modifies live`wakePending, live`serial, live`tally
      ensures timers.heap == old(timers.heap) || fresh(timers.heap)
      ensures Did(c, r) && PermitsKept(old(current))
      ensures Loop({}) && Onward()
    {
      hide Loop, Armable, TimerRoom, LivesOf, LivesOn, Quiet, Generations, Settled, Later;
      hide View, Found, Waited, Slept, WaitedForWake;
      ghost var was := Now();
      LivesStay(Lives(), spawned, current);
      Within({});
      match c {
        case Wait(fd, direction, timeout, env) =>
          r := EvWait(fd, direction, timeout, env);
        case Sleep(ns, env) =>
          r := EvSleep(ns, env);
        case WaitAsync(timeout, env) =>
          r := EvWaitAsync(timeout, env);
      }
      LaterWhen(was, Now());
    }

    /** A wake or a cancellation of another fiber, or of the running one, is obeyed at once. */
    method Command(c: Call)
      requires Loop({}) && Readable() && (c.Wake? || c.Cancel?)
      modifies this`readyHead, this`readyTail, this`queue, this`enqueued, this`blocked, this`parked, this`parks
      modifies this`fdOwner, this`poller, this`applied, timers`heapLen, timers`timed, timers.heap, live`timerI
      modifies live`next, live`state, live`waitStatus, live`regFd, live`wakePending, live`tally
      ensures Loop({}) && Onward() && PermitsKept(null) && old(queue) <= queue
      ensures applied == old(applied) + Sent(c) && View() == Obeyed(old(Names()), old(View()), CommandOf(c))
    {
      hide Loop, Readable, Stale, Resumes, Fewer, Now, LivesOf, LivesOn, Quiet, Generations, Settled, Later;
      hide View, Names, Obeyed;
      Within({});
      var kind := if c.Wake? then CmdWake else CmdCancel;
      ApplyCmd(Cmd(kind, c.handle.block, c.handle.gen), {});
    }

    /** A descriptor is closed, one way or the other. */
    method CloseFd(c: Call)
      requires Loop({}) && (c.Close? || c.ClosePlainly?)
      modifies this`readyHead, this`readyTail, this`queue, this`enqueued, this`blocked, this`parked, this`parks
      modifies this`fdOwner, this`poller, this`dropped, this`abandoned
      modifies timers`heapLen, timers`timed, timers.heap, live`timerI
      modifies live`next, live`state, live`waitStatus, live`regFd
      ensures Loop({}) && Onward() && PermitsKept(null) && old(queue) <= queue
      ensures abandoned == old(abandoned) + old(Abandons(c))
      ensures dropped == old(dropped) + (set f | f in old(Abandons(c)))
      ensures View() ==
        Forgotten(if c.Close? then Vacated(old(Names()), old(View()), c.fd) else old(View()), c.fd)
    {
      hide Loop, WaitedOn, Strands, Now, LivesOf, LivesOn, Quiet, Generations, Settled, Later;
      hide View, Names, Vacated, Forgotten;
      LivesStay(Lives(), spawned, null);
      Within({});
      if c.Close? {
        EvClose(c.fd);
      } else {
        PlainClose(c.fd);
      }
    }

    /** A call that does not park. */
    method Proceed(c: Call) returns (r: CallResult)
      requires Loop({}) && Readable() && current != null && c.Local() && !c.Waits() && !c.SpawnFiber?
      modifies this`readyHead, this`readyTail, this`queue, this`enqueued, this`blocked, this`parked, this`parks
      modifies this`fdOwner, this`poller, this`applied, this`dropped, this`abandoned, this`current, this`issued
      modifies timers`heapLen, timers`timed, timers.heap, live`timerI
      modifies live`next, live`state, live`waitStatus, live`regFd, live`wakePending, live`tally
      ensures Loop({}) && Onward() && PermitsKept(old(current)) && old(queue) <= queue
      ensures abandoned == old(abandoned) + old(Abandons(c)) && applied == old(applied) + Sent(c)
      ensures Did(c, r)
    {
      hide Loop, Readable, Strands, Now, Lives, LivesOf, LivesOn, Quiet, Later, View, Names, Obeyed, Vacated, Forgotten;
      ghost var was, running := Lives(), current;
      ViewParts();
      LaterStays(Now());
      LivesStay(Lives(), spawned, current);
      Within({});
      r := Done;
      if c.Yield? {
        EvYield();
        r := Switched;
      } else if c.Self? {
        var h := EvSelf();
        r := Given(h);
      } else {
        if c.Wake? || c.Cancel? {
          Command(c);
        } else {
          CloseFd(c);
        }
        QuietAll(was, Lives(), running);
      }
    }

    /** A call that needs no block of the pool. */
    method Step(c: Call) returns (r: CallResult)
      requires Loop({}) && Readable() && current != null && !c.SpawnFiber? && c.Local()
      modifies this, timers, timers.heap, live`next, live`state, live`park, live`wakePending, live`regFd, live`waitFd
      modifies live`timerI, live`deadline, live`waitStatus, live`serial, live`tally
      ensures Loop({}) && Continues() && PermitsKept(old(current))
      ensures known == old(known) && live == old(live) && stacksOut == old(stacksOut)
      ensures made == old(made) && polls == old(polls)
      ensures liveHead == old(liveHead) && liveList == old(liveList)
      ensures abandoned == old(abandoned) + old(Abandons(c)) && applied == old(applied) + Sent(c)
      ensures timers.heap == old(timers.heap) || fresh(timers.heap)
      ensures Did(c, r)
    {
      hide Loop, Readable, Strands, Onward, PermitsKept, Did;
      if c.Waits() {
        r := Await(c);
      } else {
        r := Proceed(c);
      }
    }

    /** Without a block or a stack nothing is spawned, and nothing changes; otherwise the new
        fiber is last in the queue, and the handle is for it and no earlier one. */
    twostate predicate SpawnDone(env: Env, r: CallResult)
      reads this`queue, this`parked, this`live, this`fdOwner, this`poller, timers`timed, this`active, this`issued
      reads this`spawned, live
    {
      && (r.NoFiber? || r.Given?)
      && (r.NoFiber? ==> (old(pool.slabs.AllFull()) || !env.stackGranted) && View() == old(View()))
      && (r.Given? ==> env.stackGranted && queue != [] && queue[|queue| - 1] in live)
      && (r.Given? ==>
            && Spawned(queue[|queue| - 1], r.handle)
            && View() == Joined(old(View()), queue[|queue| - 1], old(spawned)))
    }

    /** The running fiber spawns another. */
    method SpawnFrom(env: Env) returns (r: CallResult)
      requires Valid() && current != null
      modifies pool, pool.slabs.Repr, known - live, live`next, this`known, this`stacksOut, this`live, this`spawned
      modifies this`issued, live`livePrev, this`liveHead, this`liveList
      modifies this`readyHead, this`readyTail, this`queue, this`enqueued, this`active
      ensures old(live) <= live && old(queue) <= queue && !r.Switched?
      ensures SpawnDone(env, r) && PermitsKept(old(current))
      ensures Valid() && Allocates()
      ensures Onward()
    {
      hide Loop, PoolOk, Listed, StacksOk, Lives, Quiet, View, Spawned, Joined, Onward;
      ghost var was := Lives();
      var ok, h, _ := Spawn(env);
      QuietAll(was, Lives(), current);
      r := if ok then Given(h) else NoFiber;
    }

    /** Any call on the fiber's own reactor: what it does, and what it keeps. */
    method Exec(c: Call) returns (r: CallResult)
      requires Valid() && current != null && c.Local()
      modifies this, known, timers, timers.heap, pool, pool.slabs.Repr
      ensures Valid() && Continues() && PermitsKept(old(current))
      ensures made == old(made) && polls == old(polls)
      ensures abandoned == old(abandoned) + old(Abandons(c)) && applied == old(applied) + Sent(c)
      ensures if c.SpawnFiber? then SpawnDone(c.env, r) else Did(c, r)
      ensures current == if r.Switched? then null else old(current)
      ensures Allocates()
    {
      hide Loop, PoolOk, Listed, StacksOk, Onward, PermitsKept, SpawnDone, Strands;
      Within({});
      if c.SpawnFiber? {
        r := SpawnFrom(c.env);
      } else {
        AllReadable();
        r := Step(c);
      }
    }

    lemma AllReadable()
      requires PoolOk(live)
      ensures Readable()
    {
    }

    /** The reactor is the one that runs on the thread. */
    ghost predicate On(thread: LoopThread)
      reads thread, pool.slabs`Repr
    {
      thread.reactor == this && thread.hook == ReactorHook(this) && thread !in pool.slabs.Repr
    }

    /** A run from a fiber: one of another reactor leaves this one as it is, and current on
        the thread; one of this reactor is refused. */
    method RunFrom(thread: LoopThread, c: Call) returns (rc: int)
      requires current != null && On(thread) && !c.Local()
      modifies thread
      ensures On(thread) && (rc == 0 || rc == -1)
      ensures c.RunAgain? ==> rc == -1 && thread.runs == old(thread.runs)
      ensures c.RunAnother? ==> old(thread.runs) < thread.runs && thread.runs[|old(thread.runs)|].script == c.script
      decreases c, 0
    {
      match c {
        case RunAnother(spawns, script) =>
          ghost var inner;
          rc, inner := RunNested(thread, spawns, script);
        case RunAgain(script) =>
          ghost var rounds;
          rc, rounds := thread.reactor.RunOn(thread, script);
      }
    }

    /** Any call at all, on the reactor that is current on the thread. */
    method Perform(thread: LoopThread, c: Call) returns (r: CallResult)
      requires Valid() && current != null && On(thread)
      modifies this, known, timers, timers.heap, pool, pool.slabs.Repr, thread
      ensures old(thread.runs) <= thread.runs
      ensures Valid() && Continues() && PermitsKept(old(current)) && On(thread)
      ensures abandoned == old(abandoned) + old(Abandons(c)) && applied == old(applied) + Sent(c)
      ensures made == old(made) + [Made(c, r)] && polls == old(polls)
      ensures current == if r.Switched? then null else old(current)
      ensures if !c.Local() then r.RunEnded? && (c.RunAgain? ==> r.rc == -1) && View() == old(View())
        else if c.SpawnFiber? then SpawnDone(c.env, r)
        else Did(c, r)
      ensures Allocates()
      decreases c, 1
    {
      hide Loop, PoolOk, StacksOk, Listed, Lives, LivesOf, LivesOn, Quiet, Now, Later, Strands;
      hide View, Found, Outcome, Spawned, SpawnDone, ParkedBy;
      LaterStays(Now());
      LivesStay(Lives(), spawned, current);
      if c.Local() {
        r := thread.reactor.Exec(c);
      } else {
        var rc := RunFrom(thread, c);
        r := RunEnded(rc);
      }
      made := made + [Made(c, r)];
    }

    /** The running fiber's calls, up to the one that switches it out. */
    method MakeCalls(thread: LoopThread, turn: Turn) returns (ghost log: seq<Made>)
      requires Valid() && current != null && On(thread)
      modifies this, known, timers, timers.heap, pool, pool.slabs.Repr, thread
      ensures old(thread.runs) <= thread.runs
      ensures Valid() && Continues() && On(thread)
      ensures made == old(made) + log && TurnMade(turn.calls, log) && polls == old(polls)
      ensures current == if SwitchedOut(log) then null else old(current)
      ensures Allocates()
      ensures turn.Careful() ==> abandoned == old(abandoned)
      decreases turn, 0
    {
      hide Loop, Apart, PoolOk, StacksOk, Listed, Now, Later, View, Did, SpawnDone, PermitsKept, Sent;
      hide TurnBegun, TurnMade, SwitchedOut, Strands;
      ghost var was := Now();
      LaterStays(was);
      log := [];
      NoCalls(turn.calls);
      for k := 0 to |turn.calls|
        invariant Valid() && current == old(current) && Continues() && On(thread)
        invariant old(thread.runs) <= thread.runs
        invariant Allocates() && (turn.Careful() ==> abandoned == old(abandoned))
        invariant made == old(made) + log && |log| == k && polls == old(polls) && TurnBegun(turn.calls, log)
      {
        ghost var mid := Now();
        var r := Perform(thread, turn.calls[k]);
        LaterThen(was, mid, Now());
        OneMoreCall(turn.calls, log, Made(turn.calls[k], r));
        log := log + [Made(turn.calls[k], r)];
        if r.Switched? {
          return;
        }
      }
      AllCallsMade(turn.calls, log);
    }

    /** The running fiber's calls, up to its switch back to the loop.  When they run out its
        function returns, to the hook of the thread, and it is the zombie. */
    method RunTurn(thread: LoopThread, turn: Turn) returns (ghost log: seq<Made>)
      requires Valid() && current != null && zombie == null && On(thread)
      modifies this, known, timers, timers.heap, pool, pool.slabs.Repr, thread
      ensures old(thread.runs) <= thread.runs
      ensures Valid() && current == null && On(thread)
      ensures old(queue) <= queue && old(live) <= live && dispatched == old(dispatched) && Onward()
      ensures made == old(made) + log && TurnMade(turn.calls, log) && polls == old(polls)
      ensures zombie == if SwitchedOut(log) then null else old(current)
      ensures Allocates()
      ensures turn.Careful() ==> abandoned == old(abandoned)
      decreases turn, 1
    {
      hide Loop, PoolOk, StacksOk, Listed, Now, Later, TurnMade, SwitchedOut, Turn.Careful;
      log := MakeCalls(thread, turn);
      Within({});
      if current != null {
        thread.hook.reactor.Return();
      }
    }

    method Return()
      requires Valid() && current != null && zombie == null
      modifies this`current, this`zombie, this`active, live`state
      ensures Valid() && current == null && zombie == old(current)
    {
      hide Loop, PoolOk, StacksOk, Listed;
      Within({});
      ReturnHook();
    }

    /** The fiber at the head of the queue runs until it switches back. */
    method SwitchTo(thread: LoopThread, turn: Turn) returns (ghost log: seq<Made>)
      requires Valid() && current == null && zombie == null && queue != [] && On(thread)
      modifies this, known, timers, timers.heap, pool, pool.slabs.Repr, thread
      ensures old(thread.runs) <= thread.runs
      ensures Valid() && current == null && On(thread)
      ensures old(queue)[1..] <= queue && dispatched == old(dispatched) + [old(queue)[0]] && old(queue)[0] in live
      ensures made == old(made) + log && TurnMade(turn.calls, log) && polls == old(polls)
      ensures zombie == if SwitchedOut(log) then null else old(queue)[0]
      ensures Onward()
      ensures Allocates()
      ensures turn.Careful() ==> abandoned == old(abandoned)
      decreases turn, 2
    {
      hide Loop, PoolOk, StacksOk, Listed, Now, Later, TurnMade, SwitchedOut, Turn.Careful;
      Within({});
      var f := Enter();
      Within({});
      log := RunTurn(thread, turn);
    }

    /** One fiber runs until it switches back; if it finished, it is recycled. */
    method Dispatch(thread: LoopThread, turn: Turn) returns (ghost log: seq<Made>)
      requires Valid() && current == null && zombie == null && queue != [] && On(thread)
      modifies this, known, timers, timers.heap, pool, pool.slabs.Repr, thread
      ensures old(thread.runs) <= thread.runs
      ensures Valid() && current == null && zombie == null && On(thread)
      ensures old(queue)[1..] <= queue && dispatched == old(dispatched) + [old(queue)[0]]
      ensures made == old(made) + log && TurnMade(turn.calls, log) && polls == old(polls)
      ensures old(queue)[0] in live <==> SwitchedOut(log)
      ensures Onward()
      ensures Allocates()
      ensures turn.Careful() ==> abandoned == old(abandoned)
      decreases turn, 3
    {
      hide Loop, PoolOk, StacksOk, Listed, Now, Later, TurnMade, SwitchedOut, Turn.Careful;
      ghost var was := Now();
      log := SwitchTo(thread, turn);
      Within({});
      ghost var mid := Now();
      Reap();
      LaterThen(was, mid, Now());
    }

    method Enter() returns (f: Fiber)
      requires Valid() && current == null && queue != []
      modifies this`readyHead, this`readyTail, this`queue, this`dispatched, this`current
      modifies live`next, live`state, live`waitFd
      ensures Now() == old(Now())
      ensures Valid() && current == f && f == old(queue)[0] && queue == old(queue)[1..]
      ensures dispatched == old(dispatched) + [f]
    {
      hide Loop, PoolOk, StacksOk, Listed, LivesOf, LivesOn, Quiet;
      LivesStay(Lives(), spawned, null);
      Within({});
      HeadIsLive();
      f := EnterNext();
    }

    lemma HeadIsLive()
      requires Loop({}) && queue != []
      ensures queue[0] in live
    {
    }

    /** A finished fiber, if there is one, is recycled. */
    method Reap()
      requires Valid()
      modifies this`fdOwner, this`poller, this`live, this`zombie, this`stacksOut, known, pool, pool.slabs.Repr
      modifies this`liveHead, this`liveList
      ensures Valid() && zombie == null && pool.slabs.Repr == old(pool.slabs.Repr)
      ensures live == if old(zombie) == null then old(live) else old(live) - {old(zombie)}
      ensures Onward()
    {
      hide Loop, PoolOk, StacksOk, Listed, LivesOf, LivesOn, Generations, NoYounger, Settled, Later;
      ghost var was := Now();
      LaterStays(was);
      SettledStays(parks);
      Within({});
      if zombie != null {
        Recycle();
        LaterWhen(was, Now());
      }
    }

    // ----- a round -----

    lemma Ends()
      requires Loop({})
      ensures readyHead == (if queue == [] then null else queue[0])
      ensures readyTail == (if queue == [] then null else queue[|queue| - 1])
      ensures forall i, j :: 0 <= i < j < |queue| ==> queue[i] != queue[j]
      ensures enqueued == dispatched + queue
    {
      hide Places, Sources, ParksOf, HandlesOk;
    }

    /** One round runs the fibers queued at its start, each once and in order, whatever they
        do; what is queued at its end was enqueued meanwhile, in that order. */
    method Round(thread: LoopThread, turns: Turns) returns (ghost logs: seq<seq<Made>>)
      requires Valid() && current == null && zombie == null && On(thread)
      modifies this, known, timers, timers.heap, pool, pool.slabs.Repr, thread
      ensures old(thread.runs) <= thread.runs
      ensures Valid() && current == null && zombie == null && On(thread)
      ensures dispatched == old(dispatched) + old(queue)
      ensures enqueued == old(enqueued) + queue
      ensures made == old(made) + Joint(logs) && RoundMade(turns, logs) && |logs| == |old(queue)|
      ensures polls == old(polls)
      ensures Onward()
      ensures Allocates()
      ensures turns.Careful() ==> abandoned == old(abandoned)
      decreases turns, 3
    {
      hide Loop, Apart, PoolOk, StacksOk, Listed, Ran, Turns.Careful, Turn.Careful, Now, Later;
      hide TurnMade, RoundMade, SwitchedOut, Joint;
      ghost var was := Now();
      LaterStays(was);
      var roundEnd := readyTail;
      ghost var before, all := dispatched, queue;
      Ends();
      NoneRan(before, all);
      logs := [];
      NoTurns(turns, made);
      var k := 0;
      while readyHead != null
        invariant Valid() && current == null && zombie == null && On(thread) && old(thread.runs) <= thread.runs
        invariant 0 <= k <= |all| && Ran(before, all, k, dispatched, queue)
        invariant if all == [] then queue == [] else k < |all|
        invariant made == old(made) + Joint(logs) && RoundMade(turns, logs) && |logs| == k && polls == old(polls)
        invariant Onward()
        invariant Allocates() && (turns.Careful() ==> abandoned == old(abandoned))
        decreases |all| - k
      {
        Ends();
        var f := readyHead;
        ghost var mid, ran, left := Now(), dispatched, queue;
        ghost var log := Dispatch(thread, turns.At(k));
        LaterThen(was, mid, Now());
        OneMoreTurn(turns, old(made), logs, log);
        logs := logs + [log];
        OneMoreRan(before, all, k, ran, left, queue);
        k := k + 1;
        if f == roundEnd {
          break;
        }
      }
      Ends();
      AllRan(before, all, k, dispatched, queue);
    }

    // ----- timers -----

    /** The head of the heap has run out of time. */
    method Expire(f: Fiber)
      requires Loop({}) && f in parked && f in live
      modifies this`readyHead, this`readyTail, this`queue, this`enqueued, this`blocked, this`parked, this`parks
      modifies this`fdOwner, this`poller, timers`heapLen, timers`timed, timers.heap, timers.timed`timerI
      modifies live`next, f`state, f`waitStatus, f`regFd
      ensures Loop({})
      ensures parked == old(parked) - {f} && queue == old(queue) + [f] && timers.timed == old(timers.timed) - {f}
      ensures f.waitStatus == EvTimeout && f.regFd == -1
      ensures poller == if old(f.regFd) == -1 then old(poller) else old(poller) - {old(f.regFd)}
      ensures fdOwner == if old(f.regFd) == -1 then old(fdOwner) else old(fdOwner) - {old(f.regFd)}
      ensures 0 <= f.serial < |old(parks)|
      ensures parks == old(parks)[f.serial := Resumed(EvTimeout)] && Settled(old(parks), parks)
      ensures View() == Ended(old(View()), f, EvTimeout, false)
    {
      hide QueueOk, InOrder, Places, Sources, ParksOf, HandlesOk, NumberedBelow, DroppedOk, Settled;
      hide View, Unregistered, Untimed, Requeued, Ended;
      ViewParts();
      EndedInSteps(View(), f, EvTimeout);
      DisconnectTimed(f, parked);
      Resume(f, EvTimeout);
    }

    method DisconnectTimed(f: Fiber, ghost waiting: set<Fiber>)
      requires Sources(waiting, {}) && f in live
      modifies f`regFd, this`fdOwner, this`poller, timers`heapLen, timers`timed, timers.heap, timers.timed`timerI
      ensures Sources(waiting - {f}, {}) && timers.timed == old(timers.timed) - {f} && f.regFd == -1
      ensures poller == if old(f.regFd) == -1 then old(poller) else old(poller) - {old(f.regFd)}
      ensures fdOwner == if old(f.regFd) == -1 then old(fdOwner) else old(fdOwner) - {old(f.regFd)}
      ensures View() == Untimed(Unregistered(old(View()), f), f)
    {
      hide TimersOf, Ownership, ArmedOf, WaitsOf, WatchedOf, WakesOf, View, Untimed, Unregistered;
      EndedInSteps(View(), f, EvTimeout);
      ghost var rest := waiting - {f};
      Leaving(waiting, {}, f);
      DropTimer(f, rest);
      DetachFd(f, rest, {});
    }

    lemma FirstTimed()
      requires Sources(parked, {})
      ensures timers.heapLen <= timers.heap.Length && (timers.heapLen == 0 <==> timers.timed == {})
      ensures timers.heapLen > 0 ==>
        var f := timers.heap[0];
        && f != null && f in timers.timed && f in parked && f in live
        && forall g :: g in timers.timed ==> f.deadline <= g.deadline
    {
      if timers.heapLen > 0 { timers.FirstIsLeast(); }
    }

    lemma FirstToFire()
      requires Loop({})
      ensures timers.heapLen <= timers.heap.Length && (timers.heapLen == 0 <==> timers.timed == {})
      ensures timers.heapLen > 0 ==>
        timers.heap[0] != null && forall g :: g in timers.timed ==> timers.heap[0].deadline <= g.deadline
    {
      hide QueueOk, InOrder, Places, ParksOf, HandlesOk;
      FirstTimed();
    }

    /** `fired` are those of `was` whose timers have fired so far, the earliest first; none
        of them is registered for a descriptor. */
    ghost predicate FiredOf(fired: seq<Fiber>, was: set<Fiber>)
      reads timers`timed, was`deadline, was`waitStatus, was`regFd
    {
      && (forall f :: f in fired ==> f in was && f.waitStatus == EvTimeout && f.regFd == -1)
      && timers.timed <= was && (forall f :: f in was ==> (f in timers.timed <==> f !in fired))
      && (forall f, g :: f in fired && g in timers.timed ==> g in was && f.deadline <= g.deadline)
      && (forall i, j :: 0 <= i < j < |fired| ==>
            fired[i] in was && fired[j] in was && fired[i] != fired[j] && fired[i].deadline <= fired[j].deadline)
    }

    method ExpireFirst(ghost fired: seq<Fiber>, ghost was: set<Fiber>) returns (f: Fiber)
      requires Loop({}) && FiredOf(fired, was) && timers.timed != {}
      modifies this`readyHead, this`readyTail, this`queue, this`enqueued, this`blocked, this`parked, this`parks
      modifies this`fdOwner, this`poller, timers`heapLen, timers`timed, timers.heap, live`timerI
      modifies live`next, live`state, live`waitStatus, live`regFd
      ensures Loop({}) && Settled(old(parks), parks) && |parks| == |old(parks)| && FiredOf(fired + [f], was)
      ensures f in old(timers.timed) && timers.timed == old(timers.timed) - {f}
      ensures old(timers.heapLen <= timers.heap.Length && timers.heapLen > 0 && timers.heap[0] == f)
      ensures queue == old(queue) + [f] && parked == old(parked) - {f}
      ensures View() == Ended(old(View()), f, EvTimeout, false)
    {
      hide QueueOk, InOrder, Places, Sources, ParksOf, HandlesOk, NumberedBelow, DroppedOk, Settled, View, Ended;
      Within({});
      FirstTimed();
      f := timers.heap[0];
      Expire(f);
    }

    /** Resumes the fibers whose deadline is not beyond `now`. */
    method FireUntil(now: Time) returns (ghost fired: seq<Fiber>)
      requires Loop({})
      modifies this`readyHead, this`readyTail, this`queue, this`enqueued, this`blocked, this`parked, this`parks
      modifies this`fdOwner, this`poller, timers`heapLen, timers`timed, timers.heap, live`timerI
      modifies live`next, live`state, live`waitStatus, live`regFd
      ensures Loop({}) && Settled(old(parks), parks) && |parks| == |old(parks)|
      ensures queue == old(queue) + fired && parked == old(parked) - (set f | f in fired)
      ensures Overdue(fired, old(timers.timed), now) && (old(SomeoneLate(now)) ==> fired != [])
      ensures View() == AllExpired(old(View()), fired)
    {
      hide Loop, FiredOf, Settled, View, Ended, AllExpired;
      SettledStays(parks);
      Within({});
      ghost var was := timers.timed;
      fired := [];
      NoneFired();
      NoneExpired(View());
      FirstToFire();
      while timers.heapLen > 0 && timers.heap[0].deadline <= now
        invariant Loop({}) && Settled(old(parks), parks) && |parks| == |old(parks)|
        invariant queue == old(queue) + fired && parked == old(parked) - (set f | f in fired)
        invariant FiredOf(fired, was) && forall f :: f in fired ==> f.deadline <= now
        invariant View() == AllExpired(old(View()), fired)
        invariant timers.heapLen <= timers.heap.Length && (timers.heapLen == 0 <==> timers.timed == {})
        invariant timers.heapLen > 0 ==> timers.heap[0] != null
        decreases |timers.timed|
      {
        ghost var mid := parks;
        var f := ExpireFirst(fired, was);
        SettledThen(old(parks), mid, parks);
        OneExpired(old(View()), fired, f);
        fired := fired + [f];
        FirstToFire();
      }
      FirstToFire();
      AllDueFired(fired, was, now);
    }

    /** The same, as what was before sees it. */
    method FireDue(now: Time) returns (ghost fired: seq<Fiber>)
      requires Loop({})
      modifies this`readyHead, this`readyTail, this`queue, this`enqueued, this`blocked, this`parked, this`parks
      modifies this`fdOwner, this`poller, timers`heapLen, timers`timed, timers.heap, live`timerI
      modifies live`next, live`state, live`waitStatus, live`regFd
      ensures Loop({}) && Onward() && |parks| == |old(parks)| && Lives() == old(Lives())
      ensures queue == old(queue) + fired && parked == old(parked) - (set f | f in fired)
      ensures Overdue(fired, old(timers.timed), now) && (old(SomeoneLate(now)) ==> fired != [])
      ensures View() == AllExpired(old(View()), fired)
    {
      hide Loop, View, AllExpired, Overdue, SomeoneLate, LivesOf, LivesOn, Generations, NoYounger, Settled, Later;
      ghost var before := Now();
      Within({});
      fired := FireUntil(now);
      LivesStay(before.lives, before.born, null);
      LaterWhen(before, Now());
    }

    /** Resumes with a timeout exactly the fibers whose deadline has come, the earliest
        first; the deadlines left all lie ahead. */
    method FireExpired(tick: nat) returns (ghost fired: seq<Fiber>)
      requires Loop({})
      modifies this`clock, this`readyHead, this`readyTail, this`queue, this`enqueued, this`blocked, this`parked
      modifies this`parks
      modifies this`fdOwner, this`poller, timers`heapLen, timers`timed, timers.heap, live`timerI
      modifies live`next, live`state, live`waitStatus, live`regFd
      ensures Loop({}) && Onward() && |parks| == |old(parks)|
      ensures Lives() == old(Lives())
      ensures queue == old(queue) + fired && parked == old(parked) - (set f | f in fired)
      ensures Overdue(fired, old(timers.timed), clock) && View() == AllExpired(old(View()), fired)
      ensures old(SomeoneLate(clock)) ==> fired != []
    {
      hide Loop, View, AllExpired, Overdue, SomeoneLate, Lives, Now, Later;
      ghost var before := Now();
      TickOn(tick);
      if old(SomeoneLate(clock)) {
        StillLate(old(clock), clock);
      }
      Within({});
      ghost var mid := Now();
      fired := FireDue(clock);
      LaterThen(before, mid, Now());
    }

    method TickOn(ns: nat)
      modifies this`clock
      ensures old(clock) <= clock && (clock == old(clock) + ns || clock == UINT64_MAX < old(clock) + ns) && Onward()
    {
      hide Later, Generations, LivesOf;
      ghost var was := Now();
      Tick(ns);
      SettledStays(parks);
      NoYoungerStays(was.generations);
      LivesStay(was.lives, was.born, null);
      LaterWhen(was, Now());
    }

    /** Some deadline lies no later than `now`. */
    ghost predicate SomeoneLate(now: Time)
      reads timers`timed, timers.timed`deadline
    {
      exists f :: f in timers.timed && f.deadline <= now
    }

    lemma StillLate(early: Time, now: Time)
      requires SomeoneLate(early) && early <= now
      ensures SomeoneLate(now)
    {
    }

    /** `fired` are exactly those of `was` whose deadline is not beyond `now`, the earliest
        first. */
    ghost predicate Overdue(fired: seq<Fiber>, was: set<Fiber>, now: Time)
      reads was`deadline
    {
      && (forall f :: f in fired ==> f in was && f.deadline <= now)
      && (forall f :: f in was && f.deadline <= now ==> f in fired)
      && forall i, j :: 0 <= i < j < |fired| ==>
           fired[i] in was && fired[j] in was && fired[i] != fired[j] && fired[i].deadline <= fired[j].deadline
    }

    lemma AllDueFired(fired: seq<Fiber>, was: set<Fiber>, now: Time)
      requires FiredOf(fired, was) && forall f :: f in fired ==> f.deadline <= now
      requires forall f :: f in timers.timed ==> f.deadline > now
      ensures Overdue(fired, was, now)
    {
    }

    lemma NoneFired()
      ensures FiredOf([], timers.timed)
    {
    }

    // ----- polling -----

    /** No entry can fire for `f`. */
    ghost predicate Disarmed(f: Fiber)
      reads this`poller
    {
      forall fd :: fd in poller && poller[fd].armed ==> poller[fd].fiber != f
    }

    /** The events in hand are for fibers that are live, and that cannot be named by the
        kernel again: they are still in the wait the event is for, or out of it. */
    ghost predicate InHand(hand: set<Fiber>)
      reads this`live, this`parked, this`poller, hand`park
    {
      forall w :: w in hand ==> w in live && Disarmed(w) && (w in parked ==> w.park == ParkFd)
    }

    /** The kernel reports armed entries only, each once, and disarms them. */
    method EpollWait(events: seq<Event>) returns (items: seq<Item>)
      requires Sources(parked, {})
      modifies this`poller
      ensures Sources(parked, Waiters(items)) && InHand(Waiters(items)) && Waiters(items) <= parked
      ensures items == Report(events, old(poller), MAX_EVENTS) && |items| <= MAX_EVENTS
      ensures poller == PollerAfter(events, old(poller), MAX_EVENTS)
    {
      hide Sources, InHand, Waiters, Report, PollerAfter;
      items := [];
      NothingReported(events, poller, MAX_EVENTS);
      NoneInHand([]);
      NoneHeld();
      for k := 0 to |events|
        invariant Sources(parked, Waiters(items)) && InHand(Waiters(items)) && Waiters(items) <= parked
        invariant |items| <= MAX_EVENTS
        invariant items + Report(events[k..], poller, MAX_EVENTS - |items|) == Report(events, old(poller), MAX_EVENTS)
        invariant PollerAfter(events[k..], poller, MAX_EVENTS - |items|) == PollerAfter(events, old(poller), MAX_EVENTS)
      {
        FirstReported(items, events, k, poller, MAX_EVENTS - |items|);
        if |items| == MAX_EVENTS {
          return;
        }
        match events[k] {
          case Control(cmds) =>
            OneMore(items, Commands(cmds));
            items := items + [Commands(cmds)];
          case Ready(fd) =>
            if fd in poller && poller[fd].armed {
              var w := poller[fd].fiber;
              OneMore(items, Waiter(w));
              Disarm(fd, Waiters(items));
              items := items + [Waiter(w)];
            }
        }
      }
      NothingReported(events, poller, MAX_EVENTS - |items|);
    }

    lemma NoneHeld()
      ensures InHand({})
    {
    }

    lemma OneMore(items: seq<Item>, item: Item)
      ensures Waiters(items + [item]) == if item.Waiter? then Waiters(items) + {item.fiber} else Waiters(items)
    {
      var all := items + [item];
      assert forall i :: 0 <= i < |items| ==> all[i] == items[i];
      assert all[|items|] == item;
    }

    method Disarm(fd: int, ghost hand: set<Fiber>)
      requires Sources(parked, hand) && InHand(hand) && hand <= parked && fd in poller && poller[fd].armed
      modifies this`poller
      ensures var w := old(poller[fd].fiber);
        Sources(parked, hand + {w}) && InHand(hand + {w}) && w in parked
      ensures poller == old(poller)[fd := old(poller)[fd].(armed := false)]
    {
      hide TimersOf;
      poller := poller[fd := poller[fd].(armed := false)];
    }

    /** One command of a report, some of whose events are still in hand. */
    method ApplyInBatch(c: Cmd, ghost hand: set<Fiber>)
      requires Loop(hand) && Readable() && InHand(hand)
      modifies this`readyHead, this`readyTail, this`queue, this`enqueued, this`blocked, this`parked, this`parks
      modifies this`fdOwner, this`poller, this`applied, timers`heapLen, timers`timed, timers.heap, live`timerI
      modifies live`next, live`state, live`waitStatus, live`regFd, live`wakePending, live`tally
      ensures Loop(hand) && InHand(hand) && Onward() && PermitsKept(null) && applied == old(applied) + [c]
      ensures |parks| == |old(parks)| && parked <= old(parked) && old(queue) <= queue
      ensures View() == Obeyed(old(Names()), old(View()), c) && Names() == old(Names())
    {
      hide Loop, Readable, Stale, Resumes, Now, LivesOf, LivesOn, Quiet, Generations, Settled, Later;
      hide View, Names, Obeyed;
      Within(hand);
      ApplyCmd(c, hand);
    }

    /** The commands that were in the ring, in the order they left it. */
    method DrainCmds(cmds: seq<Cmd>, ghost hand: set<Fiber>)
      requires Loop(hand) && Readable() && InHand(hand)
      modifies this`readyHead, this`readyTail, this`queue, this`enqueued, this`blocked, this`parked, this`parks
      modifies this`fdOwner, this`poller, timers`heapLen, timers`timed, timers.heap, live`timerI
      modifies live`next, live`state, live`waitStatus, live`regFd, live`wakePending, live`tally
      modifies this`applied
      ensures applied == old(applied) + cmds
      ensures Loop(hand) && InHand(hand) && Onward() && PermitsKept(null)
      ensures |parks| == |old(parks)| && parked <= old(parked) && old(queue) <= queue
      ensures View() == AllObeyed(old(Names()), old(View()), cmds) && Names() == old(Names())
    {
      hide Loop, Readable, InHand, LivesOf, LivesOn, Quiet, Generations, Settled, Later, Now;
      hide View, Names, Obeyed, AllObeyed;
      ghost var was, lives := Now(), Lives();
      LaterStays(was);
      LivesStay(lives, spawned, null);
      Within(hand);
      assert cmds[0..] == cmds;
      for k := 0 to |cmds|
        invariant applied == old(applied) + cmds[..k]
        invariant Names() == old(Names())
        invariant AllObeyed(Names(), View(), cmds[k..]) == AllObeyed(old(Names()), old(View()), cmds)
        invariant Loop(hand) && InHand(hand) && Onward() && PermitsKept(null)
        invariant |parks| == |old(parks)| && parked <= old(parked) && old(queue) <= queue
      {
        Within(hand);
        assert cmds[..k + 1] == cmds[..k] + [cmds[k]];
        FirstObeyed(Names(), View(), cmds, k);
        ghost var mid, calm := Now(), Lives();
        ApplyInBatch(cmds[k], hand);
        LaterThen(was, mid, Now());
        QuietThen(lives, calm, Lives(), null);
      }
      assert cmds[..|cmds|] == cmds;
      NoneObeyed(Names(), View(), cmds);
    }

    method ResumeReady(w: Fiber, ghost hand: set<Fiber>)
      requires Loop(hand) && InHand(hand) && w in hand
      modifies this`readyHead, this`readyTail, this`queue, this`enqueued, this`blocked, this`parked, this`parks
      modifies timers`heapLen, timers`timed, timers.heap, live`timerI, live`next, w`state, w`waitStatus
      ensures Loop(hand - {w}) && InHand(hand) && Settled(old(parks), parks)
      ensures |parks| == |old(parks)| && parked == old(parked) - {w}
      ensures w in old(parked) ==>
        && queue == old(queue) + [w] && w.waitStatus == EvReady && w !in timers.timed
        && 0 <= w.serial < |parks| && parks == old(parks)[w.serial := Resumed(EvReady)]
      ensures w !in old(parked) ==> queue == old(queue) && parks == old(parks) && timers.timed == old(timers.timed)
      ensures View() == Ended(old(View()), w, EvReady, true)
    {
      hide QueueOk, InOrder, Places, Sources, ParksOf, HandlesOk, DroppedOk, NumberedBelow, Settled;
      hide View, Untimed, Requeued, Ended;
      ViewParts();
      EndedInSteps(View(), w, EvReady);
      SettledStays(parks);
      Within(hand);
      InPlace(w);
      if w.state != PARKED {
        OutOfHand(w, hand);
        return;
      }
      DisconnectReady(w, parked, hand);
      Resume(w, EvReady);
    }

    /** The descriptor is ready: a fiber still parked there is resumed, its deadline dropped
        and its registration kept. */
    method ReadyEvent(w: Fiber, ghost hand: set<Fiber>)
      requires Loop(hand) && InHand(hand) && w in hand
      modifies this`readyHead, this`readyTail, this`queue, this`enqueued, this`blocked, this`parked, this`parks
      modifies timers`heapLen, timers`timed, timers.heap, live`timerI, live`next, w`state, w`waitStatus
      ensures Loop(hand - {w}) && InHand(hand) && Onward() && Lives() == old(Lives())
      ensures |parks| == |old(parks)| && parked == old(parked) - {w}
      ensures w in old(parked) ==>
        && queue == old(queue) + [w] && w.waitStatus == EvReady && w !in timers.timed
        && 0 <= w.serial < |parks| && parks == old(parks)[w.serial := Resumed(EvReady)]
      ensures w !in old(parked) ==> queue == old(queue) && parks == old(parks) && timers.timed == old(timers.timed)
      ensures View() == Ended(old(View()), w, EvReady, true)
    {
      hide Loop, InHand, View, Ended, LivesOf, LivesOn, Generations, NoYounger, Settled, Later;
      Within(hand);
      InHandAreLive(hand);
      ghost var was := Now();
      ResumeReady(w, hand);
      LivesStay(was.lives, was.born, null);
      LaterWhen(was, Now());
    }

    lemma InHandAreLive(hand: set<Fiber>)
      requires InHand(hand)
      ensures hand <= live
    {
    }

    lemma OutOfHand(w: Fiber, hand: set<Fiber>)
      requires Sources(parked, hand) && w !in parked
      ensures Sources(parked, hand - {w})
    {
    }

    method DisconnectReady(w: Fiber, ghost waiting: set<Fiber>, ghost hand: set<Fiber>)
      requires Sources(waiting, hand) && w in live && Disarmed(w)
      modifies timers`heapLen, timers`timed, timers.heap, timers.timed`timerI
      ensures Sources(waiting - {w}, hand - {w}) && timers.timed == old(timers.timed) - {w}
      ensures View() == Untimed(old(View()), w)
    {
      hide TimersOf, Ownership, WaitsOf, WakesOf, View, Untimed;
      ghost var rest := waiting - {w};
      Leaving(waiting, hand, w);
      DropTimer(w, rest);
    }

    /** One item of a report. */
    method Deal(item: Item, ghost hand: set<Fiber>)
      requires Loop(hand) && Readable() && InHand(hand) && (item.Waiter? ==> item.fiber in hand)
      modifies this`readyHead, this`readyTail, this`queue, this`enqueued, this`blocked, this`parked, this`parks
      modifies this`fdOwner, this`poller, timers`heapLen, timers`timed, timers.heap, live`timerI
      modifies this`applied, live`next, live`state, live`waitStatus, live`regFd, live`wakePending, live`tally
      ensures Loop(if item.Waiter? then hand - {item.fiber} else hand) && InHand(hand)
      ensures Onward() && PermitsKept(null) && |parks| == |old(parks)|
      ensures applied == old(applied) + AllCommands([item])
      ensures parked <= old(parked) && old(queue) <= queue && (item.Waiter? ==> item.fiber !in parked)
      ensures View() == Dealt(old(Names()), old(View()), item) && Names() == old(Names())
    {
      hide Loop, Readable, InHand, LivesOf, LivesOn, Quiet, Later, Now, View, Names, Ended, AllObeyed;
      LivesStay(Lives(), spawned, null);
      Within(hand);
      match item {
        case Commands(cmds) =>
          DrainCmds(cmds, hand);
        case Waiter(w) =>
          InHandAreLive(hand);
          ReadyEvent(w, hand);
      }
    }

    /** The whole report: every fiber in it leaves the wait it was reported for, resumed by
        the event or by a command that came first, and no later wait is touched. */
    method ProcessBatch(items: seq<Item>)
      requires Loop(Waiters(items)) && Readable() && InHand(Waiters(items))
      modifies this`readyHead, this`readyTail, this`queue, this`enqueued, this`blocked, this`parked, this`parks
      modifies this`fdOwner, this`poller, timers`heapLen, timers`timed, timers.heap, live`timerI
      modifies this`applied, live`next, live`state, live`waitStatus, live`regFd, live`wakePending, live`tally
      ensures Loop({}) && Onward() && |parks| == |old(parks)| && PermitsKept(null)
      ensures applied == old(applied) + AllCommands(items)
      ensures parked <= old(parked) - Waiters(items) && old(queue) <= queue
      ensures View() == AllDealt(old(Names()), old(View()), items) && Names() == old(Names())
    {
      hide Loop, Readable, Disarmed, Waiters, LivesOf, LivesOn, Quiet, Generations, Settled, Later, Now;
      hide View, Names, Dealt, AllDealt, AllCommands;
      ghost var was, lives := Now(), Lives();
      LaterStays(was);
      LivesStay(lives, spawned, null);
      Within(Waiters(items));
      assert items[0..] == items;
      for k := 0 to |items|
        invariant Loop(Waiters(items[k..])) && InHand(Waiters(items[k..])) && Onward()
        invariant PermitsKept(null) && applied + AllCommands(items[k..]) == old(applied) + AllCommands(items)
        invariant |parks| == |old(parks)| && parked <= old(parked) && old(queue) <= queue
        invariant forall w :: w in Waiters(items) && w in parked ==> w in Waiters(items[k..])
        invariant Names() == old(Names())
        invariant AllDealt(Names(), View(), items[k..]) == AllDealt(old(Names()), old(View()), items)
      {
        ghost var hand, rest := Waiters(items[k..]), Waiters(items[k + 1..]);
        Within(hand);
        FirstOfHand(items, k);
        CommandsFirst(applied, items, k);
        FirstDealt(Names(), View(), items, k);
        ghost var mid, calm := Now(), Lives();
        Deal(items[k], hand);
        LaterThen(was, mid, Now());
        QuietThen(lives, calm, Lives(), null);
        Larger(if items[k].Waiter? then hand - {items[k].fiber} else hand, rest);
        SmallerHand(hand, rest);
      }
      NoneInHand(items);
      NoneDealt(Names(), View(), items);
    }

    lemma CommandsFirst(before: seq<Cmd>, items: seq<Item>, k: nat)
      requires k < |items|
      ensures before + AllCommands(items[k..]) == before + AllCommands([items[k]]) + AllCommands(items[k + 1..])
    {
      assert items[k..][1..] == items[k + 1..];
    }

    lemma FirstOfHand(items: seq<Item>, k: nat)
      requires k < |items|
      ensures Waiters(items[k..]) ==
        Waiters(items[k + 1..]) + (if items[k].Waiter? then {items[k].fiber} else {})
    {
      var all, rest := items[k..], items[k + 1..];
      assert forall i :: 0 <= i < |rest| ==> rest[i] == all[i + 1];
      forall w | w in Waiters(all) ensures w in Waiters(rest) || (items[k].Waiter? && w == items[k].fiber) {
        var i :| 0 <= i < |all| && all[i].Waiter? && all[i].fiber == w;
        if i > 0 { assert rest[i - 1].Waiter? && rest[i - 1].fiber == w; }
      }
    }

    lemma NoneInHand(items: seq<Item>)
      ensures Waiters(items[|items|..]) == {} && Waiters([]) == {} && AllCommands(items[|items|..]) == []
    {
    }

    /** An event in hand that has nothing to do any more changes nothing. */
    lemma Larger(hand: set<Fiber>, more: set<Fiber>)
      requires Loop(hand) && hand <= more
      ensures Loop(more)
    {
      hide QueueOk, InOrder, Places, TimersOf, Ownership, WaitsOf, ArmedOf, WakesOf, ParksOf, HandlesOk;
    }

    lemma SmallerHand(hand: set<Fiber>, less: set<Fiber>)
      requires InHand(hand) && less <= hand
      ensures InHand(less)
    {
    }

    // ----- the run loop -----

    /** What a poll reports is dealt with.  Quiet: it reported nothing. */
    method TakeReport(timeout: int, tick: nat, events: seq<Event>) returns (quiet: bool)
      requires Loop({}) && Readable()
      modifies this`clock, this`readyHead, this`readyTail, this`queue, this`enqueued, this`blocked, this`parked
      modifies this`parks
      modifies this`fdOwner, this`poller, this`applied, timers`heapLen, timers`timed, timers.heap, live`timerI
      modifies live`next, live`state, live`waitStatus, live`regFd, live`wakePending, live`tally
      ensures Loop({}) && Onward() && PermitsKept(null) && |parks| == |old(parks)|
      ensures parked <= old(parked) && old(queue) <= queue
      ensures quiet && old(SomeoneDue(timeout)) ==> SomeoneLate(clock)
      ensures quiet <==> Report(events, old(poller), MAX_EVENTS) == []
      ensures View() == AllReported(old(Names()), old(View()), events)
      ensures applied == old(applied) + AllCommands(Report(events, old(poller), MAX_EVENTS))
    {
      hide Loop, Readable, Disarmed, LivesOf, LivesOn, Quiet, Now, Later;
      hide View, Names, Report, PollerAfter, AllCommands;
      ghost var was := Now();
      ViewParts();
      Within({});
      var items := Poll(timeout, tick, events);
      ghost var polled := Now();
      ProcessBatch(items);
      LaterThen(was, polled, Now());
      quiet := items == [];
      ViewParts();
    }

    /** A report, and then the deadlines that have come.  A report of nothing comes when the
        timeout has passed, and so has any deadline it covers. */
    method ReportAndTimers(timeout: int, tick: nat, events: seq<Event>, later: nat)
      returns (quiet: bool, ghost fired: seq<Fiber>)
      requires Loop({}) && Readable()
      modifies this`clock, this`readyHead, this`readyTail, this`queue, this`enqueued, this`blocked, this`parked
      modifies this`parks
      modifies this`fdOwner, this`poller, this`applied, timers`heapLen, timers`timed, timers.heap, live`timerI
      modifies live`next, live`state, live`waitStatus, live`regFd, live`wakePending, live`tally
      ensures Loop({}) && PermitsKept(null) && |parks| == |old(parks)|
      ensures parked <= old(parked) && old(queue) <= queue
      ensures quiet && old(SomeoneDue(timeout)) ==> queue != []
      ensures View() == AllExpired(AllReported(old(Names()), old(View()), events), fired)
      ensures Overdue(fired, AllReported(old(Names()), old(View()), events).timed, clock)
      ensures applied == old(applied) + AllCommands(Report(events, old(poller), MAX_EVENTS))
      ensures Onward()
    {
      hide Loop, Readable, SomeoneDue, SomeoneLate, LivesOf, LivesOn, Quiet, Now, Later;
      hide View, Names, AllReported, AllExpired, Overdue, Report, AllCommands;
      Within({});
      ghost var was := Now();
      quiet := TakeReport(timeout, tick, events);
      ghost var mid := Now();
      Within({});
      ViewParts();
      fired := FireExpired(later);
      LaterThen(was, mid, Now());
    }

    /** The pool has no part in it. */
    method PollRound(timeout: int, tick: nat, events: seq<Event>, later: nat)
      returns (quiet: bool, ghost fired: seq<Fiber>)
      requires Valid() && current == null && zombie == null
      modifies this`clock, this`readyHead, this`readyTail, this`queue, this`enqueued, this`blocked, this`parked
      modifies this`parks
      modifies this`fdOwner, this`poller, this`applied, timers`heapLen, timers`timed, timers.heap, live`timerI
      modifies live`next, live`state, live`waitStatus, live`regFd, live`wakePending, live`tally
      ensures Valid() && abandoned == old(abandoned) && PermitsKept(null) && |parks| == |old(parks)|
      ensures parked <= old(parked) && old(queue) <= queue
      ensures quiet && old(SomeoneDue(timeout)) ==> queue != []
      ensures View() == AllExpired(AllReported(old(Names()), old(View()), events), fired)
      ensures Overdue(fired, AllReported(old(Names()), old(View()), events).timed, clock)
      ensures applied == old(applied) + AllCommands(Report(events, old(poller), MAX_EVENTS))
      ensures Onward()
    {
      hide Loop, PoolOk, StacksOk, Listed, SomeoneDue, PermitsKept, Onward;
      hide View, Names, AllReported, AllExpired, Overdue, Report, AllCommands;
      AllReadable();
      Within({});
      quiet, fired := ReportAndTimers(timeout, tick, events, later);
    }

    /** `timeout` is not for ever, and it covers the deadline of a timer. */
    ghost predicate SomeoneDue(timeout: int)
      reads this`clock, timers`timed, timers.timed`deadline
    {
      timeout >= 0 && exists f :: f in timers.timed && Covers(timeout, clock, f.deadline)
    }

    method Elapse(timeout: int, tick: nat, quiet: bool)
      modifies this`clock
      ensures old(clock) <= clock && (quiet ==> TimedOut(timeout, old(clock), clock)) && Onward()
    {
      hide Now, Later;
      TickOn(if quiet && tick < timeout * NS_PER_MS then timeout * NS_PER_MS else tick);
    }

    /** The kernel reports nothing only when the timeout has passed. */
    method Poll(timeout: int, tick: nat, events: seq<Event>) returns (items: seq<Item>)
      requires Loop({})
      modifies this`poller, this`clock
      ensures Lives() == old(Lives())
      ensures Onward()
      ensures Loop(Waiters(items)) && InHand(Waiters(items)) && Waiters(items) <= parked
      ensures items == [] ==> TimedOut(timeout, old(clock), clock)
      ensures items == Report(events, old(poller), MAX_EVENTS)
      ensures View() == old(View()).(poller := PollerAfter(events, old(poller), MAX_EVENTS))
    {
      hide Report, PollerAfter, Statuses, Fds, Lives, Now, Later, TimedOut;
      hide QueueOk, InOrder, Places, Sources, ParksOf, HandlesOk, DroppedOk, NumberedBelow, RunningOk, InHand;
      items := EpollWait(events);
      assert Now() == old(Now());
      Elapse(timeout, tick, items == []);
    }

    /** With live fibers and nothing running, something is ready or something is parked. */
    lemma NeverStuck()
      requires Loop({}) && current == null && zombie == null && active != 0
      ensures queue != [] || blocked > 0
    {
    }

    /** With none left, every park that ever began has ended. */
    lemma AllDone()
      requires Loop({}) && current == null && zombie == null && active <= 0
      ensures Finished()
    {
      hide TimersOf, WatchedOf, WakesOf, ArmedOf, WaitsOf, HandlesOk;
      assert |queue| == 0 && |parked| == 0;
      assert forall f :: f !in live;
      assert forall fd :: fd !in fdOwner;
    }

    /** How long the poll may block: not at all while a fiber is ready, and otherwise no
        longer than the earliest deadline needs. */
    ghost predicate MayBlock(ms: int)
      reads this`queue, this`clock, timers`timed, timers.timed`deadline
    {
      && (queue != [] ==> ms == 0)
      && (queue == [] ==>
            && (timers.timed == {} <==> ms == -1) && -1 <= ms <= INT32_MAX
            && (forall f :: f in timers.timed && ms > 0 ==> !Covers(ms - 1, clock, f.deadline))
            && (0 <= ms < INT32_MAX ==> SomeoneDue(ms)))
    }

    method PollTimeout() returns (ms: int)
      requires Loop({})
      ensures MayBlock(ms)
    {
      hide InOrder, Places, ParksOf, HandlesOk, Ownership, WaitsOf, ArmedOf, WatchedOf, WakesOf;
      if readyHead != null {
        return 0;
      }
      ms := NextTimeoutMs(timers, clock);
    }

    /** The poll between two rounds, unless it fails.  One that reports nothing within a
        timeout below the cap has made a fiber ready, so the loop never wakes for nothing. */
    method PollOnce(answer: PollAnswer)
      returns (failed: bool, timeout: int, quiet: bool, ghost fired: seq<Fiber>)
      requires Valid() && current == null && zombie == null && active != 0
      modifies this`clock, this`readyHead, this`readyTail, this`queue, this`enqueued, this`blocked, this`parked
      modifies this`parks
      modifies this`fdOwner, this`poller, this`applied, timers`heapLen, timers`timed, timers.heap, live`timerI
      modifies live`next, live`state, live`waitStatus, live`regFd, live`wakePending, live`tally, this`polls
      ensures Valid() && Onward() && abandoned == old(abandoned)
      ensures (failed <==> answer.Failed?) && polls == old(polls) + [answer]
      ensures old(MayBlock(timeout))
      ensures quiet && 0 <= timeout < INT32_MAX ==> queue != []
      ensures old(queue) <= queue
      ensures answer.Reported? ==>
        && View() == AllExpired(AllReported(old(Names()), old(View()), answer.events), fired)
        && Overdue(fired, AllReported(old(Names()), old(View()), answer.events).timed, clock)
        && applied == old(applied) + AllCommands(Report(answer.events, old(poller), MAX_EVENTS))
      ensures !answer.Reported? ==> View() == old(View()) && applied == old(applied) && clock == old(clock)
    {
      hide Loop, PoolOk, StacksOk, Listed, Now, Later, Quiet, LivesOf, View, Names;
      hide AllReported, AllExpired, Overdue, Report, AllCommands;
      LaterStays(Now());
      NeverStuck();
      assert queue != [] || blocked > 0;
      timeout := PollTimeout();
      polls := polls + [answer];
      failed, quiet, fired := answer.Failed?, false, [];
      if answer.Reported? {
        quiet, fired := PollRound(timeout, answer.tick, answer.events, answer.later);
      }
    }

    /** The poll after a round, unless no fiber is left. */
    method PollIfActive(poll: PollAnswer) returns (failed: bool, ghost polled: bool)
      requires Valid() && current == null && zombie == null
      modifies this`clock, this`readyHead, this`readyTail, this`queue, this`enqueued, this`blocked, this`parked
      modifies this`parks
      modifies this`fdOwner, this`poller, this`applied, timers`heapLen, timers`timed, timers.heap, live`timerI
      modifies live`next, live`state, live`waitStatus, live`regFd, live`wakePending, live`tally, this`polls
      ensures Valid() && abandoned == old(abandoned)
      ensures polled <==> active != 0
      ensures polls == (if polled then old(polls) + [poll] else old(polls)) && (failed <==> polled && poll.Failed?)
      ensures Onward()
    {
      hide Loop, PoolOk, StacksOk, Listed, Now, Later, MayBlock, View, Names, SomeoneDue;
      hide AllReported, AllExpired, Overdue, Report, AllCommands;
      LaterStays(Now());
      failed, polled := false, active != 0;
      if active != 0 {
        var timeout, quiet;
        ghost var fired;
        failed, timeout, quiet, fired := PollOnce(poll);
      }
    }

    /** One round, and then a poll and the deadlines that have come, unless no fiber is
        left. */
    method RunRound(thread: LoopThread, turns: Turns, poll: PollAnswer)
      returns (failed: bool, ghost polled: bool, ghost logs: seq<seq<Made>>)
      requires Valid() && current == null && zombie == null && On(thread)
      modifies this, known, timers, timers.heap, pool, pool.slabs.Repr, thread
      ensures old(thread.runs) <= thread.runs
      ensures Valid() && current == null && zombie == null && On(thread)
      ensures dispatched == old(dispatched) + old(queue)
      ensures made == old(made) + Joint(logs) && RoundMade(turns, logs) && |logs| == |old(queue)|
      ensures polled <==> active != 0
      ensures polls == (if polled then old(polls) + [poll] else old(polls)) && (failed <==> polled && poll.Failed?)
      ensures Onward()
      ensures Allocates()
      ensures turns.Careful() ==> abandoned == old(abandoned)
      decreases turns, 4
    {
      hide Loop, Apart, PoolOk, StacksOk, Listed, Now, Later, RoundMade, Joint, Turns.Careful;
      ghost var was := Now();
      logs := Round(thread, turns);
      Within({});
      ghost var mid := Now();
      failed, polled := PollIfActive(poll);
      LaterThen(was, mid, Now());
    }

    /** Runs until no fiber is live, which gives 0, or until a poll fails while some are,
        which gives -1; and nothing else ends it.  Each round is followed by its poll. */
    method Run(thread: LoopThread, script: Script)
      returns (rc: int, ghost rounds: nat, ghost story: seq<seq<seq<Made>>>)
      requires Valid() && current == null && zombie == null && On(thread)
      modifies this, known, timers, timers.heap, pool, pool.slabs.Repr, thread
      ensures old(thread.runs) <= thread.runs
      ensures Valid() && current == null && zombie == null && Onward() && Allocates() && On(thread)
      ensures RunEnds(old(active), script, rc, rounds, active, old(polls), polls)
      ensures rounds > 0 ==> old(dispatched) + old(queue) <= dispatched
      ensures made == old(made) + Told(story) && RunMade(script, story) && |story| == rounds
      ensures rc == 0 ==> Finished()
      ensures script.Careful() ==> abandoned == old(abandoned)
      decreases script, 0
    {
      hide Loop, Apart, PoolOk, StacksOk, Listed, Now, Later, RoundMade, Joint, Turns.Careful, Script.Careful;
      hide RunMade, Told;
      ghost var was := Now();
      LaterStays(was);
      CarefulRounds(script);
      NotNegative();
      NoRounds(script, made);
      story := [];
      var k := 0;
      while active > 0
        invariant Valid() && current == null && zombie == null && Onward() && On(thread)
        invariant old(thread.runs) <= thread.runs
        invariant k <= |script.rounds| + 1 && (k > |script.rounds| ==> active == 0)
        invariant (k == 0 ==> active == old(active)) && (k > 0 ==> old(active) > 0) && active >= 0
        invariant polls == old(polls) + script.Answers(if active == 0 && k > 0 then k - 1 else k)
        invariant forall i :: 0 <= i < k && (i < k - 1 || active > 0) ==> !script.PollAfter(i).Failed?
        invariant (k == 0 ==> dispatched == old(dispatched) && queue == old(queue))
        invariant k > 0 ==> old(dispatched) + old(queue) <= dispatched
        invariant made == old(made) + Told(story) && RunMade(script, story) && |story| == k
        invariant Allocates()
        invariant script.Careful() ==> abandoned == old(abandoned)
        decreases |script.rounds| + 1 - k
      {
        ghost var mid := Now();
        OneMoreAnswer(script, old(polls), k);
        var failed;
        ghost var polled, logs;
        if k < |script.rounds| {
          failed, polled, logs := RunRound(thread, script.rounds[k].turns, script.rounds[k].poll);
        } else {
          failed, polled, logs := RunRound(thread, script.last, Failed);
        }
        LaterThen(was, mid, Now());
        NotNegative();
        OneMoreRound(script, old(made), story, logs);
        story := story + [logs];
        k := k + 1;
        if failed {
          return -1, k, story;
        }
      }
      AllDone();
      rc, rounds := 0, k;
    }

    lemma NotNegative()
      requires Loop({})
      ensures active >= 0
    {
      hide Sources, ParksOf, HandlesOk;
    }

    /** No fiber is live, no descriptor owned, and every park that ever began has ended. */
    ghost predicate Finished()
      reads this
    {
      && active == 0 && live == {} && queue == [] && parked == {} && fdOwner == map[]
      && forall i :: 0 <= i < |parks| ==> parks[i].Resumed?
    }

    /** The run as a thread sees it.  A run from one of the reactor's own fibers is refused
        and changes nothing; otherwise the reactor and the hook that were current before are
        current again at the end, so a fiber may run another reactor and go on. */
    method RunOn(thread: LoopThread, script: Script) returns (rc: int, ghost rounds: nat)
      requires thread.reactor != this ==>
        Valid() && current == null && zombie == null && thread !in pool.slabs.Repr
      modifies if thread.reactor == this then {} else {this, timers, timers.heap, pool, thread}
      modifies if thread.reactor == this then {} else known
      modifies if thread.reactor == this then {} else pool.slabs.Repr
      ensures thread.reactor == old(thread.reactor) && thread.hook == old(thread.hook)
      ensures old(thread.reactor) == this ==> rc == -1 && thread.runs == old(thread.runs)
      ensures old(thread.reactor) != this ==> old(thread.runs) + [RunOf(this, script)] <= thread.runs
      ensures old(thread.reactor) != this ==>
        && Valid() && current == null && zombie == null && thread !in pool.slabs.Repr && Allocates()
        && RunEnds(old(active), script, rc, rounds, active, old(polls), polls)
        && (rounds > 0 ==> old(dispatched) + old(queue) <= dispatched) && (rc == 0 ==> Finished())
        && (script.Careful() ==> abandoned == old(abandoned))
      ensures old(thread.reactor) != this ==> Onward()
      decreases script, 1
    {
      hide Loop, PoolOk, StacksOk, Listed, Now, Later;
      if thread.reactor == this {
        return -1, 0;
      }
      var previous, hook := thread.reactor, thread.hook;
      thread.reactor, thread.hook := this, ReactorHook(this);
      thread.runs := thread.runs + [RunOf(this, script)];
      ghost var story;
      rc, rounds, story := Run(thread, script);
      thread.reactor, thread.hook := previous, hook;
    }

    // ----- what a program can rely on, whenever a call returns -----

    /** At most one fiber is ever parked on a descriptor, and it is its owner. */
    lemma OneWaiterPerDescriptor(f: Fiber, g: Fiber)
      requires Loop({}) && f in parked && g in parked && f.park == ParkFd && g.park == ParkFd && f.waitFd == g.waitFd
      ensures f == g && f.waitFd in fdOwner && fdOwner[f.waitFd] == f
    {
    }

    /** Only the fiber parked on a descriptor can be resumed by an event for it. */
    lemma EventsReachTheOwner(fd: int)
      requires Loop({}) && fd in poller && poller[fd].armed
      ensures fd in fdOwner && fdOwner[fd] == poller[fd].fiber
      ensures poller[fd].fiber in parked && poller[fd].fiber.park == ParkFd && poller[fd].fiber.waitFd == fd
    {
    }

    /** A fiber parked on a descriptor has an armed entry there if and only if the
        descriptor was not closed plainly since it parked; otherwise no entry at all can
        fire for it. */
    lemma ParkedAreWatched(f: Fiber)
      requires Loop({}) && f in parked && f.park == ParkFd
      ensures f !in dropped <==> f.waitFd in poller && poller[f.waitFd].ArmedFor(f)
      ensures f in dropped <==> Disarmed(f)
      ensures f in dropped ==> f in abandoned
    {
      DroppedAreDisarmed(f);
    }

    /** A fiber has a permit if and only if it was woken after its last READY, so a wake
        always leads to one; async waits return READY no more often than their fiber was
        woken; and a fiber that waits for a wake has not been sent one. */
    lemma WakesBoundReadies(f: Fiber)
      requires Loop({}) && f in live
      ensures f.wakePending <==> f.tally.served < f.tally.wakes
      ensures f.tally.wakes > 0 ==> f.wakePending || f.tally.readies > 0
      ensures f.tally.readies + (if f.wakePending then 1 else 0) <= f.tally.wakes
      ensures f in parked && f.park == ParkAsync ==> !f.wakePending
    {
    }

    /** A handle whose generation is still that of its block is for the incarnation that
        is live there; every other handle is stale, and its block can still be read. */
    lemma HandleNamesOneIncarnation(h: Issue, kind: CmdKind)
      requires Valid() && h in issued
      ensures h.fiber.block in pool.memory && pool.memory[h.fiber.block] == h.fiber
      ensures h.fiber.block in pool.home && pool.home[h.fiber.block] in pool.slabs.nodes
      ensures h.fiber.generation == h.gen ==> h.fiber in live && h.fiber.incarnation == h.incarnation
      ensures h.fiber !in live || h.fiber.incarnation != h.incarnation ==>
        h.gen < h.fiber.generation && Stale(Cmd(kind, h.fiber.block, h.gen))
    {
      hide QueueOk, Places, Sources, ParksOf;
      pool.InMemory(h.fiber);
    }

    /** The counters count the ready, the parked and the running fibers; a fiber that does
        not run holds the status its last park ended with. */
    lemma CountersCount()
      requires Loop({})
      ensures active == |queue| + blocked + Count(current) && blocked == |parked|
      ensures zombie == null ==> |live| == active
      ensures forall f :: f in live && f !in parked && f.serial >= 0 ==>
        f.serial < |parks| && parks[f.serial] == Resumed(f.waitStatus)
    {
      hide Sources, HandlesOk;
      if zombie == null {
        LiveSize();
      }
    }

    /** The places partition the live fibers. */
    lemma Partition(ready: set<Fiber>, running: set<Fiber>)
      requires Places() && zombie == null && ready == (set f | f in queue)
      requires running == if current == null then {} else {current}
      ensures live == ready + parked + running && ready !! parked && (ready + parked) !! running
    {
    }

    lemma LiveSize()
      requires QueueOk() && Places() && zombie == null
      ensures |live| == |queue| + |parked| + Count(current)
    {
      hide Places;
      var ready := set f | f in queue;
      var running := if current == null then {} else {current};
      Partition(ready, running);
      DistinctSize(queue);
    }
  }

  /** A reactor, and one fiber in it for each spawn that succeeds. */
  method Populated(spawns: seq<Env>) returns (r: Reactor)
    ensures r.Valid() && r.current == null && r.zombie == null
    ensures fresh(r) && fresh(r.known) && fresh(r.timers) && fresh(r.timers.heap)
    ensures fresh(r.pool) && fresh(r.pool.slabs) && fresh(r.pool.slabs.Repr)
  {
    hide Reactor.Loop, Reactor.PoolOk, Reactor.StacksOk, Reactor.SpawnRefused, Reactor.Spawned;
    hide Reactor.PermitsKept, Reactor.Onward, Reactor.Listed, Reactor.View, Joined;
    r := new Reactor();
    r.Init();
    for i := 0 to |spawns|
      invariant r.Valid() && r.current == null && r.zombie == null
      invariant fresh(r) && fresh(r.known) && fresh(r.timers) && fresh(r.timers.heap)
      invariant fresh(r.pool) && fresh(r.pool.slabs.Repr)
    {
      r.Within({});
      var ok, h, _ := r.Spawn(spawns[i]);
    }
  }

  /** A fiber sets up a reactor of its own, spawns there and runs it. */
  method RunNested(thread: LoopThread, spawns: seq<Env>, script: Script) returns (rc: int, ghost inner: Reactor)
    modifies thread
    ensures fresh(inner) && old(thread.runs) + [RunOf(inner, script)] <= thread.runs
    ensures inner.stacksOut == {} && inner.pool.slabs.held == map[]
    ensures thread.reactor == old(thread.reactor) && thread.hook == old(thread.hook)
    ensures rc == 0 || rc == -1
    decreases script, 2
  {
    hide Reactor.Valid, Reactor.Allocates, Reactor.Onward;
    var other := Populated(spawns);
    ghost var rounds;
    rc, rounds := other.RunOn(thread, script);
    var leaked := other.Destroy();
    inner := other;
  }

  /** A poll that began at `early` and reports nothing has lasted the whole timeout. */
  ghost predicate TimedOut(timeout: int, early: Time, late: Time) {
    timeout >= 0 ==> late >= early + timeout * NS_PER_MS || late == UINT64_MAX
  }

  lemma {:induction false} DistinctSize(s: seq<Fiber>)
    requires forall i, j :: 0 <= i < j < |s| ==> s[i] != s[j]
    ensures |set f | f in s| == |s|
  {
    if s != [] {
      var rest := s[..|s| - 1];
      DistinctSize(rest);
      assert s == rest + [s[|s| - 1]];
      assert (set f | f in s) == (set f | f in rest) + {s[|s| - 1]};
    }
  }
}
