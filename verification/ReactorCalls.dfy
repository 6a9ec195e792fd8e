/** What a fiber may call, and what each call does: the result the caller gets and what it
    finds afterwards, as values. */
module ReactorCalls {
  import opened CommandRing
  import opened ReactorFibers
  import opened ReactorEffects

  /** Names a fiber by its block and the generation the block had. */
  datatype Handle = Handle(block: nat, gen: nat)

  const EV_IN: nat := 1
  const EV_OUT: nat := 2
  const EPOLLIN: nat := 1
  const EPOLLOUT: nat := 4

  /** The directions a caller may wait for: either bit or both, and no other. */
  predicate Direction(direction: nat) { direction == EV_IN || direction == EV_OUT || direction == EV_IN + EV_OUT }

  /** The epoll events for a direction. */
  function Events(direction: nat): (events: nat)
    requires Direction(direction)
    ensures direction == EV_IN <==> events == EPOLLIN
    ensures direction == EV_OUT <==> events == EPOLLOUT
    ensures direction == EV_IN + EV_OUT <==> events == EPOLLIN + EPOLLOUT
  {
    (if direction % 2 == 1 then EPOLLIN else 0) + (if direction / 2 % 2 == 1 then EPOLLOUT else 0)
  }

  /** How a call ends: the fiber is switched out; or it goes on, with a status, a handle, no
      fiber spawned, the result of a run, or nothing to be told. */
  datatype CallResult = Switched | Returned(status: Status) | Given(handle: Handle) | NoFiber | RunEnded(rc: int) | Done

  /** What a running fiber may do next.  Handles are any block and generation at all.
      RunAnother sets up a reactor of its own, spawns there and runs it; RunAgain runs the
      fiber's own.  Descriptors the fibers of another reactor close under this one are plain
      closes, before the run or after it, by the fiber that runs it. */
  datatype Call =
    | Wait(fd: int, direction: nat, timeout: int, env: Env)
    | Sleep(ns: nat, env: Env)
    | WaitAsync(timeout: int, env: Env)
    | Yield
    | Self
    | SpawnFiber(env: Env)
    | Wake(handle: Handle)
    | Cancel(handle: Handle)
    | Close(fd: int)
    | ClosePlainly(fd: int)
    | RunAnother(spawns: seq<Env>, script: Script)
    | RunAgain(script: Script)
  {
    /** A call on the reactor the fiber belongs to, and not a run. */
    predicate Local() { !RunAnother? && !RunAgain? }

    /** A call that waits for something. */
    predicate Waits() { Wait? || Sleep? || WaitAsync? }

    /** The time after which the wait is over, or a negative number. */
    function Timeout(): int
      requires Waits()
    {
      match this
      case Wait(_, _, timeout, _) => timeout
      case Sleep(ns, _) => ns
      case WaitAsync(timeout, _) => timeout
    }
  }

  /** The calls a fiber makes from the moment it is switched in, up to the one that
      switches it out; when they run out its function returns. */
  datatype Turn = Turn(calls: seq<Call>) {
    /** No descriptor is closed plainly. */
    predicate Careful() { forall i :: 0 <= i < |calls| ==> !calls[i].ClosePlainly? }
  }

  /** How a poll ends.  The clock moves by `tick` while it lasts and by `later` before the
      deadlines are looked at. */
  datatype PollAnswer = Interrupted | Failed | Reported(tick: nat, events: seq<Event>, later: nat)

  /** The turns of a round: `first` to the fibers that run first, and `other` to all others. */
  datatype Turns = Turns(first: seq<Turn>, other: Turn) {
    predicate Careful() { other.Careful() && forall i :: 0 <= i < |first| ==> first[i].Careful() }

    function At(k: nat): (turn: Turn)
      ensures Careful() ==> turn.Careful()
    {
      if k < |first| then first[k] else other
    }
  }

  /** A round, and the poll after it. */
  datatype RoundScript = RoundScript(turns: Turns, poll: PollAnswer)

  /** A run: its rounds, and if fibers are left then, one more, whose poll fails.  An endless
      run is such a run up to any of its polls. */
  datatype Script = Script(rounds: seq<RoundScript>, last: Turns) {
    predicate Careful() { last.Careful() && forall i :: 0 <= i < |rounds| ==> rounds[i].turns.Careful() }

    function TurnsOf(k: nat): Turns { if k < |rounds| then rounds[k].turns else last }

    /** How the poll ends that follows a round. */
    function PollAfter(k: nat): PollAnswer { if k < |rounds| then rounds[k].poll else Failed }

    function Answers(n: nat): seq<PollAnswer> { seq(n, i requires 0 <= i => PollAfter(i)) }
  }

  /** The answers one call meets: how far the clock moves, whether the memory allocator
      lets the descriptor table and the heap grow, whether the kernel takes either
      registration, and whether there is a stack. */
  datatype Env = Env(tick: nat, tableGranted: bool, heapGranted: bool, first: bool, second: bool, stackGranted: bool)

  // ----- what the calls do -----

  /** What a call finds: the fibers, where handles lead, the running fiber and a handle for
      it, and whether the timer heap has room. */
  datatype Moment = Moment(scene: Scene, names: Directory, current: Fiber, self: Handle, room: bool)

  /** Another fiber waits on the descriptor. */
  predicate Taken(m: Moment, fd: int) {
    var s := m.scene;
    && fd in s.owners && s.owners[fd] != m.current && s.owners[fd] in s.parked
    && s.owners[fd] in m.names.kinds && m.names.kinds[s.owners[fd]] == ParkFd
  }

  /** A registration another fiber left behind is taken from it. */
  function Freed(s: Scene, f: Fiber, fd: int): Scene {
    if fd in s.owners && s.owners[fd] != f then s.(fds := s.fds[s.owners[fd] := -1]) else s
  }

  /** The kernel's answer: the entry goes in at the first try, or at the one fallback that
      there is if the reactor and the kernel disagree on whether there is an entry. */
  predicate Accepted(s: Scene, fd: int, env: Env) {
    env.first && ((fd in s.owners <==> fd in s.poller) || env.second)
  }

  datatype Armed = Armed(ok: bool, scene: Scene)

  /** The running fiber is registered for the descriptor, and no other; or it fails, and is
      registered for none but perhaps the one it had. */
  function Arm(m: Moment, fd: int, events: nat, env: Env): Armed {
    var f := m.current;
    if fd < 0 || !env.tableGranted then Armed(false, m.scene)
    else
      var s := if m.scene.Fd(f) == fd then m.scene else Unregistered(m.scene, f);
      if Taken(m, fd) then Armed(false, s)
      else
        var t := Freed(s, f, fd);
        if Accepted(s, fd, env) then
          Armed(true, t.(
            fds := t.fds[f := fd], owners := t.owners[fd := f], poller := t.poller[fd := Entry(true, f, events)]))
        else Armed(false, t.(fds := t.fds[f := -1], owners := t.owners - {fd}))
  }

  /** Under a deadline, or not. */
  function Timed(s: Scene, f: Fiber, timed: bool): Scene { s.(timed := if timed then s.timed + {f} else s.timed) }

  /** A registration, and a deadline if one is asked for and there is room for it; or none. */
  function Prepared(m: Moment, fd: int, events: nat, timeout: int, env: Env): Armed {
    var armed := Arm(m, fd, events, env);
    if !armed.ok then armed
    else if timeout >= 0 && !m.room && !env.heapGranted then Armed(false, Unregistered(armed.scene, m.current))
    else Armed(true, Timed(armed.scene, m.current, timeout >= 0))
  }

  function Suspended(s: Scene, f: Fiber): Scene {
    s.(parked := s.parked + {f}, statuses := s.statuses[f := EvReady])
  }

  datatype After = After(result: CallResult, scene: Scene)

  function Failing(s: Scene): After { After(Returned(EvError), s) }

  function Waited(m: Moment, fd: int, direction: nat, timeout: int, env: Env): After {
    if !Direction(direction) then Failing(m.scene)
    else
      var ready := Prepared(m, fd, Events(direction), timeout, env);
      if ready.ok then After(Switched, Suspended(ready.scene, m.current)) else Failing(ready.scene)
  }

  function Slept(m: Moment, env: Env): After {
    if m.room || env.heapGranted then After(Switched, Suspended(Timed(m.scene, m.current, true), m.current))
    else Failing(m.scene)
  }

  /** A permit is used up. */
  function Consumed(s: Scene, f: Fiber): Scene
    requires f in s.lives
  {
    var life := s.lives[f];
    s.(lives := s.lives[f :=
      life.(permit := false, tally := Tally(life.tally.wakes, life.tally.readies + 1, life.tally.wakes))])
  }

  lemma ConsumedKeeps(s: Scene, f: Fiber, born: nat)
    requires f in s.lives && s.lives[f].tally.Fits(s.lives[f].permit)
    ensures LivesOn(s.lives, born, Consumed(s, f).lives) && Quiet(s.lives, Consumed(s, f).lives, f)
  {
  }

  function WaitedForWake(m: Moment, timeout: int, env: Env): After {
    if m.current in m.scene.lives && m.scene.lives[m.current].permit then
      After(Returned(EvReady), Consumed(m.scene, m.current))
    else if timeout >= 0 && !m.room && !env.heapGranted then Failing(m.scene)
    else After(Switched, Suspended(Timed(m.scene, m.current, timeout >= 0), m.current))
  }

  /** The fiber parked there is cancelled, or an idle registration dropped. */
  function Vacated(d: Directory, s: Scene, fd: int): Scene {
    if fd !in s.owners then s
    else if s.owners[fd] in s.parked && s.owners[fd] in d.kinds && d.kinds[s.owners[fd]] == ParkFd then
      Ended(s, s.owners[fd], EvCancelled, false)
    else Unregistered(s, s.owners[fd])
  }

  /** The kernel forgets a descriptor that is closed. */
  function Forgotten(s: Scene, fd: int): Scene { s.(poller := s.poller - {fd}) }

  /** The command a call sends. */
  function CommandOf(c: Call): Cmd
    requires c.Wake? || c.Cancel?
  {
    Cmd(if c.Wake? then CmdWake else CmdCancel, c.handle.block, c.handle.gen)
  }

  /** The commands a call has applied. */
  function Sent(c: Call): seq<Cmd> { if c.Wake? || c.Cancel? then [CommandOf(c)] else [] }

  /** A new fiber is last in the queue, with nothing of an earlier one. */
  function Joined(s: Scene, f: Fiber, incarnation: nat): Scene {
    s.(queue := s.queue + [f], statuses := s.statuses[f := EvReady], fds := s.fds[f := -1],
       lives := s.lives[f := Life(incarnation, NO_WAKES, false)])
  }

  /** What a call does that neither spawns nor runs a reactor. */
  function Outcome(c: Call, m: Moment): After
    requires c.Local() && !c.SpawnFiber?
  {
    match c
    case Wait(fd, direction, timeout, env) => Waited(m, fd, direction, timeout, env)
    case Sleep(_, env) => Slept(m, env)
    case WaitAsync(timeout, env) => WaitedForWake(m, timeout, env)
    case Yield => After(Switched, m.scene.(queue := m.scene.queue + [m.current]))
    case Self => After(Given(m.self), m.scene)
    case Wake(_) => After(Done, Obeyed(m.names, m.scene, CommandOf(c)))
    case Cancel(_) => After(Done, Obeyed(m.names, m.scene, CommandOf(c)))
    case Close(fd) => After(Done, Forgotten(Vacated(m.names, m.scene, fd), fd))
    case ClosePlainly(fd) => After(Done, Forgotten(m.scene, fd))
  }
}
