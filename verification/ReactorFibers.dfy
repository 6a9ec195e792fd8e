/** The reactor's fibers, as the loop's own bookkeeping sees them. */
module ReactorFibers {

  const UINT64_MAX: nat := 0xFFFF_FFFF_FFFF_FFFF

  /** Nanoseconds of the monotone clock. */
  type Time = n: nat | n <= UINT64_MAX

  /** The absent index into the timer heap. */
  const NO_TIMER: int := -1

  /** FREE is pooled; a zombie has finished and awaits the release of its stack. */
  datatype FiberState = FREE | READY | RUNNING | PARKED | ZOMBIE

  datatype ParkKind = ParkFd | ParkTimer | ParkAsync

  datatype Status = EvReady | EvTimeout | EvCancelled | EvError

  /** Of one incarnation: the wakes applied to it, the async waits they made return READY,
      and the wakes that had been applied when the last of those returned. */
  datatype Tally = Tally(wakes: nat, readies: nat, served: nat) {
    /** The tally of a fiber that has a permit, or none: it has one exactly if a wake came
        after its last READY. */
    ghost predicate Fits(permit: bool) {
      readies <= served <= wakes && (readies == 0 ==> served == 0) && (permit <==> served < wakes)
    }
  }

  const NO_WAKES: Tally := Tally(0, 0, 0)

  /** Counts only grow, and a permit goes only for a READY. */
  ghost predicate Grows(early: Tally, permitThen: bool, late: Tally, permitNow: bool) {
    && early.wakes <= late.wakes && early.readies <= late.readies && early.served <= late.served
    && (permitThen ==> permitNow || early.readies < late.readies)
  }

  /** A stack on loan from the allocator of stacks. */
  class Stack {
    constructor ()
    {
    }
  }

  class Fiber {
    // The address of the block.
    const block: nat
    var next: Fiber?
    // Its neighbours on the list of live fibers.
    var liveNext: Fiber?
    var livePrev: Fiber?
    var stack: Stack?
    var state: FiberState
    var park: ParkKind
    var wakePending: bool
    var generation: nat
    var regFd: int
    var waitFd: int
    var timerI: int
    var deadline: Time
    var waitStatus: Status

    // Which spawn this incarnation of the block belongs to.
    ghost var incarnation: nat
    // The park this incarnation is in, or was last resumed from.
    ghost var serial: int
    ghost var tally: Tally

    /** A block of zeroes. */
    constructor (block: nat)
      ensures this.block == block && Zero() && generation == 0
    {
      this.block := block;
      next, state, park, wakePending, generation := null, FREE, ParkFd, false, 0;
      liveNext, livePrev, stack := null, null, null;
      regFd, waitFd, timerI, deadline, waitStatus := 0, 0, 0, 0, EvReady;
      incarnation, serial, tally := 0, 0, NO_WAKES;
    }

    /** Every field reads as zero, but for the generation and for what a spawn stores before
        anything reads it. */
    ghost predicate Zero()
      reads this`next, this`state, this`park, this`wakePending, this`regFd, this`waitFd, this`timerI, this`deadline
      reads this`waitStatus, this`tally
    {
      && next == null && state == FREE && park == ParkFd && !wakePending
      && regFd == 0 && waitFd == 0 && timerI == 0 && deadline == 0 && waitStatus == EvReady
      && tally == NO_WAKES
    }

    /** memset to zero, the generation kept. */
    method Wipe()
      modifies this
      ensures Zero() && generation == old(generation) && incarnation == old(incarnation)
    {
      liveNext, livePrev, stack := null, null, null;
      next, state, park, wakePending := null, FREE, ParkFd, false;
      regFd, waitFd, timerI, deadline, waitStatus := 0, 0, 0, 0, EvReady;
      serial, tally := 0, NO_WAKES;
    }
  }

  /** The list of live fibers, linked both ways. */
  ghost predicate Chained(head: Fiber?, list: seq<Fiber>)
    reads (set f | f in list)`liveNext, (set f | f in list)`livePrev
  {
    && head == (if list == [] then null else list[0])
    && (forall i, j :: 0 <= i < j < |list| ==> list[i] != list[j])
    && (forall i {:trigger list[i].liveNext} :: 0 <= i < |list| ==>
          list[i].liveNext == if i + 1 < |list| then list[i + 1] else null)
    && (forall i {:trigger list[i].livePrev} :: 0 <= i < |list| ==>
          list[i].livePrev == if i > 0 then list[i - 1] else null)
  }

  method Link(head: Fiber?, f: Fiber, ghost list: seq<Fiber>) returns (newHead: Fiber)
    requires Chained(head, list) && f !in list
    modifies f`liveNext, f`livePrev, (if head == null then {} else {head})`livePrev
    ensures Chained(newHead, [f] + list)
  {
    f.livePrev := null;
    f.liveNext := head;
    if head != null {
      head.livePrev := f;
    }
    newHead := f;
    ghost var l := [f] + list;
    assert forall i :: 1 <= i < |l| ==> l[i] == list[i - 1];
    forall i | 0 <= i < |l| ensures l[i].liveNext == if i + 1 < |l| then l[i + 1] else null {
      if i > 0 { assert l[i].liveNext == old(list[i - 1].liveNext); }
    }
  }

  method Unlink(head: Fiber?, f: Fiber, ghost list: seq<Fiber>, ghost k: nat) returns (newHead: Fiber?)
    requires Chained(head, list) && k < |list| && list[k] == f
    modifies (set g | g in list)`liveNext, (set g | g in list)`livePrev
    ensures Chained(newHead, list[..k] + list[k + 1..])
  {
    newHead := head;
    assert f.livePrev != null ==> f.livePrev == list[k - 1] && f.livePrev in list;
    assert f.liveNext != null ==> f.liveNext == list[k + 1] && f.liveNext in list;
    if f.livePrev != null {
      f.livePrev.liveNext := f.liveNext;
    } else {
      newHead := f.liveNext;
    }
    if f.liveNext != null {
      f.liveNext.livePrev := f.livePrev;
    }
    ghost var l := list[..k] + list[k + 1..];
    assert forall i :: 0 <= i < |l| ==> l[i] == if i < k then list[i] else list[i + 1];
    forall i | 0 <= i < |l|
      ensures l[i].liveNext == if i + 1 < |l| then l[i + 1] else null
      ensures l[i].livePrev == if i > 0 then l[i - 1] else null
    {
    }
  }

  /** What becomes of the wakes of one incarnation. */
  datatype Life = Life(incarnation: nat, tally: Tally, permit: bool)

  /** Every life there is `late` was there before and has lost no wake, or has begun since,
      when `born` was the number of the next incarnation. */
  ghost predicate LivesOn(early: map<Fiber, Life>, born: nat, late: map<Fiber, Life>) {
    forall f :: f in late ==>
      || late[f].incarnation >= born
      || (&& f in early && early[f].incarnation == late[f].incarnation
          && Grows(early[f].tally, early[f].permit, late[f].tally, late[f].permit))
  }

  /** No permit is used up, but perhaps by `running`. */
  ghost predicate Quiet(early: map<Fiber, Life>, late: map<Fiber, Life>, running: Fiber?) {
    forall f :: f in early && f != running ==> f in late && (early[f].permit ==> late[f].permit)
  }

  lemma LivesStay(lives: map<Fiber, Life>, born: nat, running: Fiber?)
    ensures LivesOn(lives, born, lives) && Quiet(lives, lives, running)
  {
  }

  lemma LivesThen(a: map<Fiber, Life>, born: nat, b: map<Fiber, Life>, later: nat, c: map<Fiber, Life>)
    requires LivesOn(a, born, b) && LivesOn(b, later, c) && born <= later
    ensures LivesOn(a, born, c)
  {
  }

  lemma QuietThen(a: map<Fiber, Life>, b: map<Fiber, Life>, c: map<Fiber, Life>, running: Fiber?)
    requires Quiet(a, b, running) && Quiet(b, c, running)
    ensures Quiet(a, c, running)
  {
  }

  lemma QuietAll(a: map<Fiber, Life>, b: map<Fiber, Life>, running: Fiber?)
    requires Quiet(a, b, null)
    ensures Quiet(a, b, running)
  {
  }
}
