/** The command ring and the reactor together: what a thread posts, the loop applies. */
module CommandChannel {
  import opened CommandRing
  import opened ReactorFibers
  import opened ReactorCore

  /** Whether the loop releases a cell with this step; it applies the command it read there. */
  predicate Releases(s: State, a: Action) { a.StepConsumer? && s.consumer.ReleaseCell? }

  /** A step that is not a release applies nothing, and a release applies the command that
      was read from the cell. */
  lemma AppliedBy(s: State, a: Action)
    requires s.Capacity() > 0 && Enabled(s, a)
    ensures Next(s, a).history.applied ==
      s.history.applied + if Releases(s, a) then [s.consumer.cmd] else []
  {
  }

  /** One step of the ring; a release hands its command to the reactor. */
  method RingStep(r: Reactor, ghost capacity: nat, s: State, a: Action, ghost hand: set<Fiber>) returns (s': State)
    requires capacity > 0 && Reachable(capacity, s) && s.Capacity() > 0
    requires Enabled(s, a) && Next(s, a).Capacity() > 0
    requires r.Loop(hand) && r.Readable() && r.InHand(hand)
    modifies r`readyHead, r`readyTail, r`queue, r`enqueued, r`blocked, r`parked, r`parks
    modifies r`fdOwner, r`poller, r`applied, r.timers`heapLen, r.timers`timed, r.timers.heap, r.live`timerI
    modifies r.live`next, r.live`state, r.live`waitStatus, r.live`regFd, r.live`wakePending, r.live`tally
    ensures s' == Next(s, a) && Reachable(capacity, s')
    ensures r.applied == old(r.applied) + if Releases(s, a) then [s.consumer.cmd] else []
    ensures s'.history.applied == s.history.applied + if Releases(s, a) then [s.consumer.cmd] else []
    ensures r.Loop(hand) && r.InHand(hand) && r.PermitsKept(null) && r.Onward()
  {
    hide Reactor.Loop, Reactor.Readable, Reactor.InHand, Reactor.Now, Reactor.Lives, Reactor.LivesOf;
    hide Later, Quiet, LivesOn, Reachable, Next, Enabled;
    LaterStays(r.Now());
    LivesStay(r.Lives(), r.spawned, null);
    AppliedBy(s, a);
    if Releases(s, a) {
      r.Within(hand);
      r.ApplyInBatch(s.consumer.cmd, hand);
    }
    ghost var there := ReachableStep(capacity, s, a);
    s' := Next(s, a);
  }

  /** A drain, while other threads go on posting.  The ring takes the steps of `run`, the
      loop's among them, and whenever the loop has read a cell and releases it, the reactor
      applies the command.  From any reachable state of the ring, over any interleaving,
      the reactor applies exactly what leaves the ring, once and in order. */
  method DrainRing(
      r: Reactor, ghost capacity: nat, s: State, run: seq<Action>, ghost end: State, ghost hand: set<Fiber>)
    returns (s': State)
    requires capacity >= 2 && Reachable(capacity, s) && s.Capacity() > 0 && Reaches(s, run, end)
    requires r.Loop(hand) && r.Readable() && r.InHand(hand)
    modifies r`readyHead, r`readyTail, r`queue, r`enqueued, r`blocked, r`parked, r`parks
    modifies r`fdOwner, r`poller, r`applied, r.timers`heapLen, r.timers`timed, r.timers.heap, r.live`timerI
    modifies r.live`next, r.live`state, r.live`waitStatus, r.live`regFd, r.live`wakePending, r.live`tally
    ensures s' == end && Reachable(capacity, s')
    ensures s.history.applied <= s'.history.applied
    ensures r.applied == old(r.applied) + Taken(s, s')
    ensures r.Loop(hand) && r.InHand(hand) && r.PermitsKept(null) && r.Onward()
  {
    hide Reactor.Loop, Reactor.Readable, Reactor.InHand, Reactor.Now, Reactor.Lives, Reactor.LivesOf;
    hide Later, Quiet, LivesOn, Reachable, Next, Enabled, Releases;
    ghost var was, lives := r.Now(), r.Lives();
    LaterStays(was);
    LivesStay(lives, r.spawned, null);
    s' := s;
    for k := 0 to |run|
      invariant Reachable(capacity, s') && s'.Capacity() > 0 && Reaches(s', run[k..], end)
      invariant s.history.applied <= s'.history.applied && r.applied == old(r.applied) + Taken(s, s')
      invariant r.Loop(hand) && r.InHand(hand) && r.PermitsKept(null) && r.Onward()
    {
      assert run[k..][0] == run[k] && run[k..][1..] == run[k + 1..];
      r.Within(hand);
      ghost var mid, calm := r.Now(), r.Lives();
      s' := RingStep(r, capacity, s', run[k], hand);
      LaterThen(was, mid, r.Now());
      QuietThen(lives, calm, r.Lives(), null);
    }
  }

  /** What the loop has taken from the ring between two states of a run. */
  ghost function Taken(s: State, s': State): seq<Cmd> {
    if s.Released() <= s'.Released() then s'.history.applied[s.Released()..] else []
  }

  /** The commands of all positions ever claimed, in the order of the claims. */
  function Claimed(s: State): seq<Cmd> {
    seq(|s.history.tickets|, i requires 0 <= i < |s.history.tickets| => s.history.tickets[i].cmd)
  }

  /** From the initialised ring, over any run.  Once every post has returned and the loop
      has gone back to sleep, the reactor has applied the commands of all positions ever
      claimed; and each thread's positions are those of its calls that returned true, in
      call order.  So each such call has one command applied, and no other call has. */
  method EachPostAppliedOnce(
      r: Reactor, capacity: nat, run: seq<Action>, ghost end: State, ghost hand: set<Fiber>)
    returns (s: State)
    requires capacity >= 2 && Reaches(Init(capacity), run, end)
    requires end.consumer.Outside? && end.eventfd == 0 && forall t: nat :: end.Pc(t).Idle?
    requires r.Loop(hand) && r.Readable() && r.InHand(hand)
    modifies r`readyHead, r`readyTail, r`queue, r`enqueued, r`blocked, r`parked, r`parks
    modifies r`fdOwner, r`poller, r`applied, r.timers`heapLen, r.timers`timed, r.timers.heap, r.live`timerI
    modifies r.live`next, r.live`state, r.live`waitStatus, r.live`regFd, r.live`wakePending, r.live`tally
    ensures s == end && r.applied == old(r.applied) + Claimed(s)
    ensures forall t: nat, any: Cmd ::
      ClaimedBy(s.history.tickets, t) == Accepted(Init(capacity), run, t, any)
    ensures r.Loop(hand) && r.InHand(hand) && r.PermitsKept(null) && r.Onward()
  {
    hide Reactor.Loop, Reactor.Readable, Reactor.InHand, Reactor.PermitsKept, Reactor.Onward;
    assert Reaches(Init(capacity), [], Init(capacity));
    s := DrainRing(r, capacity, Init(capacity), run, end, hand);
    QuiescentMeansApplied(capacity, s);
    assert Taken(Init(capacity), s) == Claimed(s);
    forall t: nat, any: Cmd ensures ClaimedBy(s.history.tickets, t) == Accepted(Init(capacity), run, t, any) {
      AcceptedExactlyOnce(capacity, run, s, t, any);
    }
  }

  /** Drains add up: what the loop takes over one run after another is what it takes over
      both. */
  lemma DrainsAddUp(capacity: nat, a: State, first: seq<Action>, b: State, second: seq<Action>, c: State)
    requires capacity >= 2 && Reachable(capacity, a) && a.Capacity() > 0 && Reaches(a, first, b)
    requires b.Capacity() > 0 && Reaches(b, second, c)
    ensures a.history.applied <= b.history.applied <= c.history.applied
    ensures Taken(a, b) + Taken(b, c) == Taken(a, c)
  {
    ReachableInv(capacity, a);
    HistoryGrows(a, first, b);
    RunKeepsInv(a, first, b);
    HistoryGrows(b, second, c);
  }
}
