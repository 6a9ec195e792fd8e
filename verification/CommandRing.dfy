/** The reactor's cross-thread command channel: a bounded lock-free ring with one
    consumer, plus the eventfd that wakes the loop.

    Every shared access is one atomic step.  A state holds the shared variables, the
    program counter of every posting thread and of the loop, and a history that no
    step reads: which thread claimed each position, with which command, and what the
    loop has applied.  A run is any sequence of enabled steps, so a claim about every
    run is a claim about every interleaving of any number of producers. */
module CommandRing {
  import opened Arithmetic

  // The number of times post_cmd retries a full ring.
  const POST_RETRIES: nat := 16

  datatype CmdKind = CmdWake | CmdCancel
  datatype Cmd = Cmd(kind: CmdKind, target: nat, gen: nat)

  datatype Cell = Cell(sequence: int, cmd: Cmd)

  /** Where a thread stands inside post_cmd; each constructor names its next access. */
  datatype Producer =
    | Idle
    | LoadPos(cmd: Cmd, attempt: nat)
    | LoadSequence(cmd: Cmd, attempt: nat, pos: nat)
    | ClaimPos(cmd: Cmd, attempt: nat, pos: nat)
    | WriteCell(cmd: Cmd, pos: nat)
    | Publish(pos: nat)
    | Poke(pos: nat)

  /** Where the loop stands inside drain_cmds; Outside is everywhere else. */
  datatype Consumer =
    | Outside
    | ReadEvent
    | HeadPos
    | HeadSequence(pos: nat)
    | TakeHead(pos: nat)
    | ReadCell(pos: nat)
    | ReleaseCell(pos: nat, cmd: Cmd)

  datatype Ticket = Ticket(thread: nat, cmd: Cmd)

  datatype History = History(tickets: seq<Ticket>, applied: seq<Cmd>)

  datatype State = State(
    cells: seq<Cell>,
    enqueuePos: nat,
    dequeuePos: nat,
    eventfd: nat,
    producers: map<nat, Producer>,
    consumer: Consumer,
    history: History)
  {
    function Capacity(): nat { |cells| }

    function Pc(thread: nat): Producer {
      if thread in producers then producers[thread] else Idle
    }

    /** The number of positions whose cell the loop has handed back. */
    function Released(): nat { |history.applied| }
  }

  /** The cell of a position: `pos & mask` for a capacity that is a power of two. */
  function Slot(pos: nat, capacity: nat): (slot: nat)
    requires capacity > 0
    ensures slot < capacity
  {
    pos % capacity
  }

  function Init(capacity: nat): State {
    State(seq(capacity, i => Cell(i, Cmd(CmdWake, 0, 0))), 0, 0, 0, map[], Outside, History([], []))
  }

  /** `casFails` is the weak compare-exchange failing although the values agree. */
  datatype Action =
    | Post(thread: nat, cmd: Cmd)
    | StepProducer(thread: nat, casFails: bool)
    | BeginDrain
    | StepConsumer(casFails: bool)

  predicate Enabled(s: State, a: Action) {
    match a
    case Post(t, _) => s.Pc(t).Idle?
    case StepProducer(t, _) => !s.Pc(t).Idle?
    case BeginDrain => s.consumer.Outside? && s.eventfd > 0
    case StepConsumer(_) => !s.consumer.Outside?
  }

  function Next(s: State, a: Action): State
    requires s.Capacity() > 0 && Enabled(s, a)
  {
    match a
    case Post(t, cmd) => s.(producers := s.producers[t := LoadPos(cmd, 0)])
    case StepProducer(t, casFails) => NextProducer(s, t, casFails)
    case BeginDrain => s.(consumer := ReadEvent)
    case StepConsumer(casFails) => NextConsumer(s, casFails)
  }

  function NextProducer(s: State, t: nat, casFails: bool): State
    requires s.Capacity() > 0 && !s.Pc(t).Idle?
  {
    match s.Pc(t)
    case LoadPos(cmd, attempt) =>
      s.(producers := s.producers[t := LoadSequence(cmd, attempt, s.enqueuePos)])
    case LoadSequence(cmd, attempt, pos) =>
      var dif := s.cells[Slot(pos, s.Capacity())].sequence - pos;
      var pc :=
        if dif == 0 then ClaimPos(cmd, attempt, pos)
        else if dif < 0 then (if attempt + 1 < POST_RETRIES then LoadPos(cmd, attempt + 1) else Idle)
        else LoadPos(cmd, attempt);
      s.(producers := s.producers[t := pc])
    case ClaimPos(cmd, attempt, pos) =>
      if s.enqueuePos == pos && !casFails then
        s.(enqueuePos := pos + 1,
           producers := s.producers[t := WriteCell(cmd, pos)],
           history := s.history.(tickets := s.history.tickets + [Ticket(t, cmd)]))
      else
        s.(producers := s.producers[t := LoadSequence(cmd, attempt, s.enqueuePos)])
    case WriteCell(cmd, pos) =>
      var slot := Slot(pos, s.Capacity());
      s.(cells := s.cells[slot := s.cells[slot].(cmd := cmd)],
         producers := s.producers[t := Publish(pos)])
    case Publish(pos) =>
      var slot := Slot(pos, s.Capacity());
      s.(cells := s.cells[slot := s.cells[slot].(sequence := pos + 1)],
         producers := s.producers[t := Poke(pos)])
    case Poke(pos) =>
      s.(eventfd := s.eventfd + 1, producers := s.producers[t := Idle])
  }

  function NextConsumer(s: State, casFails: bool): State
    requires s.Capacity() > 0 && !s.consumer.Outside?
  {
    match s.consumer
    case ReadEvent =>
      if s.eventfd > 0 then s.(eventfd := 0) else s.(consumer := HeadPos)
    case HeadPos =>
      s.(consumer := HeadSequence(s.dequeuePos))
    case HeadSequence(pos) =>
      var dif := s.cells[Slot(pos, s.Capacity())].sequence - (pos + 1);
      s.(consumer := if dif == 0 then TakeHead(pos) else if dif < 0 then Outside else HeadPos)
    case TakeHead(pos) =>
      if s.dequeuePos == pos && !casFails then
        s.(dequeuePos := pos + 1, consumer := ReadCell(pos))
      else
        s.(consumer := HeadSequence(s.dequeuePos))
    case ReadCell(pos) =>
      s.(consumer := ReleaseCell(pos, s.cells[Slot(pos, s.Capacity())].cmd))
    case ReleaseCell(pos, cmd) =>
      var slot := Slot(pos, s.Capacity());
      s.(cells := s.cells[slot := s.cells[slot].(sequence := pos + s.Capacity())],
         consumer := HeadPos,
         history := s.history.(applied := s.history.applied + [cmd]))
  }

  /** `s'` is reached from `s` by the run `run`. */
  ghost predicate Reaches(s: State, run: seq<Action>, s': State)
    requires s.Capacity() > 0
    decreases |run|
  {
    if run == [] then s == s'
    else Enabled(s, run[0]) && Next(s, run[0]).Capacity() > 0 && Reaches(Next(s, run[0]), run[1..], s')
  }

  // ---------------------------------------------------------------------------
  // The invariant
  // ---------------------------------------------------------------------------

  /** Position `p` is claimed and its cell not yet handed back: its ticket owns the cell. */
  ghost predicate Owns(s: State, p: nat) { s.Released() <= p < s.enqueuePos }

  /** The thread that claimed `p` has not stored its sequence number yet. */
  ghost predicate Unpublished(s: State, p: nat)
    requires p < |s.history.tickets|
  {
    var pc := s.Pc(s.history.tickets[p].thread);
    (pc.WriteCell? || pc.Publish?) && pc.pos == p
  }

  /** The thread that claimed `p` stands between its claim and its eventfd write. */
  ghost predicate InFlight(s: State, p: nat)
    requires p < |s.history.tickets|
  {
    var pc := s.Pc(s.history.tickets[p].thread);
    (pc.WriteCell? || pc.Publish? || pc.Poke?) && pc.pos == p
  }

  ghost predicate Cursors(s: State) {
    && s.Capacity() >= 2
    && |s.history.tickets| == s.enqueuePos
    && s.dequeuePos <= s.enqueuePos <= s.Released() + s.Capacity()
    && (match s.consumer
        case ReadCell(pos) => s.dequeuePos == pos + 1 && s.Released() == pos
        case ReleaseCell(pos, cmd) =>
          s.dequeuePos == pos + 1 && s.Released() == pos && cmd == s.history.tickets[pos].cmd
        case HeadSequence(pos) => s.Released() == s.dequeuePos == pos
        case TakeHead(pos) =>
          s.Released() == s.dequeuePos == pos && pos < s.enqueuePos && !Unpublished(s, pos)
        case _ => s.Released() == s.dequeuePos)
  }

  ghost predicate CellOf(s: State, p: nat)
    requires Cursors(s)
  {
    var cell := s.cells[Slot(p, s.Capacity())];
    if p >= s.enqueuePos then cell.sequence == p
    else if Unpublished(s, p) then
      && cell.sequence == p && s.dequeuePos <= p
      && (s.Pc(s.history.tickets[p].thread).Publish? ==> cell.cmd == s.history.tickets[p].cmd)
    else cell.sequence == p + 1 && cell.cmd == s.history.tickets[p].cmd
  }

  /** The `Capacity()` positions from `Released()` on use every cell once. */
  ghost predicate Cells(s: State)
    requires Cursors(s)
  {
    forall p: nat :: s.Released() <= p < s.Released() + s.Capacity() ==> CellOf(s, p)
  }

  ghost predicate ProducerOk(s: State, t: nat) {
    match s.Pc(t)
    case LoadSequence(_, _, pos) => pos <= s.enqueuePos
    case ClaimPos(_, _, pos) => pos <= s.enqueuePos && pos < s.Released() + s.Capacity()
    case WriteCell(cmd, pos) =>
      Owns(s, pos) && s.enqueuePos == |s.history.tickets| && s.history.tickets[pos] == Ticket(t, cmd)
    case Publish(pos) => Owns(s, pos) && s.enqueuePos == |s.history.tickets| && s.history.tickets[pos].thread == t
    case Poke(pos) => pos < s.enqueuePos == |s.history.tickets| && s.history.tickets[pos].thread == t
    case _ => true
  }

  ghost predicate Producers(s: State) { forall t: nat :: ProducerOk(s, t) }

  ghost predicate AppliedInOrder(s: State) {
    && s.Released() <= |s.history.tickets|
    && forall p: nat :: p < s.Released() ==> s.history.applied[p] == s.history.tickets[p].cmd
  }

  /** No lost wakeup: a loop that would sleep has nothing to do, or the producer of
      the head still owes it an eventfd write. */
  ghost predicate NoLostWakeup(s: State)
    requires |s.history.tickets| == s.enqueuePos
  {
    s.consumer.Outside? && s.eventfd == 0 ==>
      s.dequeuePos >= s.enqueuePos || InFlight(s, s.dequeuePos)
  }

  ghost predicate Inv(s: State) {
    Cursors(s) && Cells(s) && Producers(s) && AppliedInOrder(s) && NoLostWakeup(s)
  }

  // ---------------------------------------------------------------------------
  // The invariant is kept by every step
  // ---------------------------------------------------------------------------

  lemma SlotInjective(p: nat, q: nat, capacity: nat)
    requires capacity > 0 && Slot(p, capacity) == Slot(q, capacity)
    requires p < q + capacity && q < p + capacity
    ensures p == q
  {
    var a, b := p / capacity, q / capacity;
    assert (a - b) * capacity == p - q;
    if a > b { MultipleOf(a - b, capacity); }
    if a < b { assert (b - a) * capacity == q - p; MultipleOf(b - a, capacity); }
  }

  lemma SlotPeriodic(p: nat, capacity: nat)
    requires capacity > 0
    ensures Slot(p + capacity, capacity) == Slot(p, capacity)
  {
    var q := p + capacity;
    assert (p / capacity + 1) * capacity + p % capacity == q / capacity * capacity + q % capacity;
    QuotientUnique(p / capacity + 1, p % capacity, q / capacity, q % capacity, capacity);
  }

  /** Any two positions in use at once have different cells. */
  lemma SlotsApart(s: State)
    requires s.Capacity() > 0
    ensures forall p: nat, q: nat {:trigger Slot(p, s.Capacity()), Slot(q, s.Capacity())} ::
      (&& s.Released() <= p < s.Released() + s.Capacity()
       && s.Released() <= q < s.Released() + s.Capacity()
       && Slot(p, s.Capacity()) == Slot(q, s.Capacity())) ==> p == q
  {
    forall p: nat, q: nat | s.Released() <= p < s.Released() + s.Capacity()
        && s.Released() <= q < s.Released() + s.Capacity() && Slot(p, s.Capacity()) == Slot(q, s.Capacity())
      ensures p == q
    {
      SlotInjective(p, q, s.Capacity());
    }
  }

  /** Between its claim and its eventfd write. */
  predicate Claimed(pc: Producer) { pc.WriteCell? || pc.Publish? || pc.Poke? }

  /** The invariant hardly looks at a thread that has claimed nothing. */
  lemma PcKeeps(s: State, t: nat, pc: Producer)
    requires Inv(s) && !Claimed(s.Pc(t)) && !Claimed(pc)
    requires ProducerOk(s.(producers := s.producers[t := pc]), t)
    ensures Inv(s.(producers := s.producers[t := pc]))
  {
    var s' := s.(producers := s.producers[t := pc]);
    assert forall u: nat :: u != t ==> s'.Pc(u) == s.Pc(u);
    forall u: nat ensures ProducerOk(s', u) { assert ProducerOk(s, u); }
    forall p: nat | s.Released() <= p < s.Released() + s.Capacity() ensures CellOf(s', p) { assert CellOf(s, p); }
  }

  lemma LoadKeeps(s: State, t: nat, casFails: bool)
    requires Inv(s) && (s.Pc(t).LoadPos? || s.Pc(t).LoadSequence?)
    ensures Inv(NextProducer(s, t, casFails))
  {
    hide Cells, Producers, NoLostWakeup, AppliedInOrder;
    var s' := NextProducer(s, t, casFails);
    if s.Pc(t).LoadSequence? {
      Positions(s, t);
      SequenceSeen(s, s.Pc(t).pos);
    }
    PcKeeps(s, t, s'.Pc(t));
    assert s' == s.(producers := s.producers[t := s'.Pc(t)]);
  }

  lemma Positions(s: State, t: nat)
    requires Producers(s) && (s.Pc(t).LoadSequence? || s.Pc(t).ClaimPos?)
    ensures s.Pc(t).pos <= s.enqueuePos
  {
    assert ProducerOk(s, t);
  }

  /** The position in use whose cell is that of `pos`. */
  ghost function Representative(s: State, pos: nat): (p: nat)
    requires s.Capacity() > 0 && pos <= s.Released() + s.Capacity()
    ensures s.Released() <= p < s.Released() + s.Capacity()
    ensures Slot(p, s.Capacity()) == Slot(pos, s.Capacity())
    ensures p == pos || (pos < s.Released() && p >= pos + s.Capacity()) || p == pos - s.Capacity()
    decreases s.Released() - pos
  {
    if pos == s.Released() + s.Capacity() then
      SlotPeriodic(s.Released(), s.Capacity());
      s.Released()
    else if pos >= s.Released() then pos
    else
      SlotPeriodic(pos, s.Capacity());
      Representative(s, pos + s.Capacity())
  }

  /** What a producer learns from the sequence number of the cell of `pos`. */
  lemma SequenceSeen(s: State, pos: nat)
    requires Cursors(s) && Cells(s) && pos <= s.enqueuePos
    ensures var seen := s.cells[Slot(pos, s.Capacity())].sequence;
      && (seen == pos ==> pos < s.Released() + s.Capacity())
      && (seen < pos <==> pos == s.Released() + s.Capacity())
  {
    var p := Representative(s, pos);
    assert CellOf(s, p);
  }

  lemma ClaimKeeps(s: State, t: nat, casFails: bool)
    requires Inv(s) && s.Pc(t).ClaimPos?
    ensures Inv(NextProducer(s, t, casFails))
  {
    var pos := s.Pc(t).pos;
    if s.enqueuePos == pos && !casFails {
      ClaimGranted(s, t);
    } else {
      PcKeeps(s, t, LoadSequence(s.Pc(t).cmd, s.Pc(t).attempt, s.enqueuePos));
    }
  }

  lemma ClaimGranted(s: State, t: nat)
    requires Inv(s) && s.Pc(t).ClaimPos? && s.enqueuePos == s.Pc(t).pos
    ensures Inv(NextProducer(s, t, false))
  {
    var s' := NextProducer(s, t, false);
    assert forall u: nat :: u != t ==> s'.Pc(u) == s.Pc(u);
    assert ProducerOk(s, t);
    forall u: nat ensures ProducerOk(s', u) { assert ProducerOk(s, u); }
    forall p: nat | s.Released() <= p < s.Released() + s.Capacity() ensures CellOf(s', p) { assert CellOf(s, p); }
  }

  lemma WriteKeeps(s: State, t: nat, casFails: bool)
    requires Inv(s) && s.Pc(t).WriteCell?
    ensures Inv(NextProducer(s, t, casFails))
  {
    var s' := NextProducer(s, t, casFails);
    var pos := s.Pc(t).pos;
    assert forall u: nat :: u != t ==> s'.Pc(u) == s.Pc(u);
    assert ProducerOk(s, t);
    SlotsApart(s);
    assert CellOf(s, pos);
    forall u: nat ensures ProducerOk(s', u) { assert ProducerOk(s, u); }
    forall p: nat | s.Released() <= p < s.Released() + s.Capacity() ensures CellOf(s', p) {
      assert CellOf(s, p);
      if p != pos { assert Slot(p, s.Capacity()) != Slot(pos, s.Capacity()); }
    }
  }

  lemma PublishKeeps(s: State, t: nat, casFails: bool)
    requires Inv(s) && s.Pc(t).Publish?
    ensures Inv(NextProducer(s, t, casFails))
  {
    var s' := NextProducer(s, t, casFails);
    var pos := s.Pc(t).pos;
    assert forall u: nat :: u != t ==> s'.Pc(u) == s.Pc(u);
    assert ProducerOk(s, t);
    SlotsApart(s);
    assert CellOf(s, pos);
    forall u: nat ensures ProducerOk(s', u) { assert ProducerOk(s, u); }
    forall p: nat | s.Released() <= p < s.Released() + s.Capacity() ensures CellOf(s', p) {
      assert CellOf(s, p);
      if p != pos { assert Slot(p, s.Capacity()) != Slot(pos, s.Capacity()); }
    }
  }

  lemma PokeKeeps(s: State, t: nat, casFails: bool)
    requires Inv(s) && s.Pc(t).Poke?
    ensures Inv(NextProducer(s, t, casFails))
  {
    var s' := NextProducer(s, t, casFails);
    assert forall u: nat :: u != t ==> s'.Pc(u) == s.Pc(u);
    assert ProducerOk(s, t);
    forall u: nat ensures ProducerOk(s', u) { assert ProducerOk(s, u); }
    forall p: nat | s.Released() <= p < s.Released() + s.Capacity() ensures CellOf(s', p) { assert CellOf(s, p); }
  }

  /** The cells and the producers do not know where the loop stands, as long as the loop
      has not moved the head over an unpublished position. */
  lemma LoopKeeps(s: State, consumer: Consumer, eventfd: nat, dequeuePos: nat)
    requires Inv(s) && s.dequeuePos <= dequeuePos
    requires forall p: nat :: s.dequeuePos <= p < dequeuePos && p < s.enqueuePos ==> !Unpublished(s, p)
    requires Cursors(s.(consumer := consumer, eventfd := eventfd, dequeuePos := dequeuePos))
    requires NoLostWakeup(s.(consumer := consumer, eventfd := eventfd, dequeuePos := dequeuePos))
    ensures Inv(s.(consumer := consumer, eventfd := eventfd, dequeuePos := dequeuePos))
  {
    var s' := s.(consumer := consumer, eventfd := eventfd, dequeuePos := dequeuePos);
    assert forall u: nat :: s'.Pc(u) == s.Pc(u);
    forall u: nat ensures ProducerOk(s', u) { assert ProducerOk(s, u); }
    forall p: nat | s.Released() <= p < s.Released() + s.Capacity() ensures CellOf(s', p) { assert CellOf(s, p); }
  }

  /** What the loop learns from the sequence number of the head's cell. */
  lemma HeadSeen(s: State)
    requires Cursors(s) && Cells(s)
    ensures var seen := s.cells[Slot(s.Released(), s.Capacity())].sequence - (s.Released() + 1);
      && (seen == 0 <==> s.Released() < s.enqueuePos && !Unpublished(s, s.Released())) && seen <= 0
      && (seen < 0 && s.Released() < s.enqueuePos ==> Unpublished(s, s.Released()))
  {
    assert CellOf(s, s.Released());
  }

  lemma HeadCell(s: State)
    requires Cursors(s) && Cells(s) && s.consumer.ReadCell?
    ensures s.cells[Slot(s.consumer.pos, s.Capacity())].cmd == s.history.tickets[s.consumer.pos].cmd
  {
    assert CellOf(s, s.consumer.pos);
  }

  lemma ConsumerKeeps(s: State, casFails: bool)
    requires Inv(s) && !s.consumer.Outside? && !s.consumer.ReleaseCell?
    ensures Inv(NextConsumer(s, casFails))
  {
    hide Cells, Producers, AppliedInOrder, CellOf;
    var s' := NextConsumer(s, casFails);
    HeadSeen(s);
    if s.consumer.ReadCell? { HeadCell(s); }
    assert s' == s.(consumer := s'.consumer, eventfd := s'.eventfd, dequeuePos := s'.dequeuePos);
    LoopKeeps(s, s'.consumer, s'.eventfd, s'.dequeuePos);
  }

  lemma ReleaseKeeps(s: State, casFails: bool)
    requires Inv(s) && s.consumer.ReleaseCell?
    ensures Inv(NextConsumer(s, casFails))
  {
    var s' := NextConsumer(s, casFails);
    var pos := s.consumer.pos;
    assert forall u: nat :: s'.Pc(u) == s.Pc(u);
    SlotsApart(s);
    SlotPeriodic(pos, s.Capacity());
    assert CellOf(s, pos);
    forall u: nat ensures ProducerOk(s', u) { assert ProducerOk(s, u); }
    forall p: nat | s'.Released() <= p < s'.Released() + s.Capacity() ensures CellOf(s', p) {
      if p < pos + s.Capacity() {
        assert CellOf(s, p);
        assert Slot(p, s.Capacity()) != Slot(pos, s.Capacity());
      }
    }
  }

  /** Every step of every thread keeps the invariant. */
  lemma StepKeepsInv(s: State, a: Action)
    requires Inv(s) && Enabled(s, a)
    ensures Inv(Next(s, a))
  {
    match a
    case Post(t, cmd) => PcKeeps(s, t, LoadPos(cmd, 0));
    case StepProducer(t, casFails) =>
      match s.Pc(t) {
        case LoadPos(_, _) => LoadKeeps(s, t, casFails);
        case LoadSequence(_, _, _) => LoadKeeps(s, t, casFails);
        case ClaimPos(_, _, _) => ClaimKeeps(s, t, casFails);
        case WriteCell(_, _) => WriteKeeps(s, t, casFails);
        case Publish(_) => PublishKeeps(s, t, casFails);
        case Poke(_) => PokeKeeps(s, t, casFails);
      }
    case BeginDrain =>
      var s' := Next(s, a);
      forall u: nat ensures ProducerOk(s', u) { assert ProducerOk(s, u); }
      forall p: nat | s.Released() <= p < s.Released() + s.Capacity() ensures CellOf(s', p) { assert CellOf(s, p); }
    case StepConsumer(casFails) =>
      if s.consumer.ReleaseCell? { ReleaseKeeps(s, casFails); } else { ConsumerKeeps(s, casFails); }
  }

  lemma {:induction false} RunKeepsInv(s: State, run: seq<Action>, s': State)
    requires Inv(s) && Reaches(s, run, s')
    ensures Inv(s')
    decreases |run|
  {
    if run != [] {
      StepKeepsInv(s, run[0]);
      RunKeepsInv(Next(s, run[0]), run[1..], s');
    }
  }

  lemma InitInv(capacity: nat)
    requires capacity >= 2
    ensures Inv(Init(capacity))
  {
    var s := Init(capacity);
    forall p: nat | p < capacity ensures CellOf(s, p) {
      QuotientUnique(p / capacity, p % capacity, 0, p, capacity);
    }
  }

  // ---------------------------------------------------------------------------
  // What every run from an initialised ring guarantees
  // ---------------------------------------------------------------------------

  ghost predicate Reachable(capacity: nat, s: State)
    requires capacity > 0
  {
    exists run: seq<Action> :: Reaches(Init(capacity), run, s)
  }

  lemma ReachableInv(capacity: nat, s: State)
    requires capacity >= 2 && Reachable(capacity, s)
    ensures Inv(s)
  {
    var run :| Reaches(Init(capacity), run, s);
    InitInv(capacity);
    RunKeepsInv(Init(capacity), run, s);
  }

  /** Claims and applications are only ever appended to. */
  lemma {:induction false} HistoryGrows(s: State, run: seq<Action>, s': State)
    requires Inv(s) && Reaches(s, run, s')
    ensures s.history.tickets <= s'.history.tickets
    ensures s.history.applied <= s'.history.applied
    decreases |run|
  {
    if run != [] {
      StepKeepsInv(s, run[0]);
      HistoryGrows(Next(s, run[0]), run[1..], s');
    }
  }

  /** The loop applies commands in the order their positions were claimed, each once,
      with the payload of the thread that claimed the position. */
  lemma AppliedIsPrefixOfClaimed(capacity: nat, s: State)
    requires capacity >= 2 && Reachable(capacity, s)
    ensures |s.history.tickets| == s.enqueuePos
    ensures |s.history.applied| <= |s.history.tickets|
    ensures s.history.applied ==
      seq(|s.history.applied|, i requires 0 <= i < |s.history.tickets| => s.history.tickets[i].cmd)
  {
    ReachableInv(capacity, s);
  }

  /** The commands thread `t` was granted positions for, in that order. */
  function ClaimedBy(tickets: seq<Ticket>, t: nat): seq<Cmd> {
    if tickets == [] then []
    else
      var earlier := ClaimedBy(tickets[..|tickets| - 1], t);
      if tickets[|tickets| - 1].thread == t then earlier + [tickets[|tickets| - 1].cmd] else earlier
  }

  /** What the caller on thread `t` sees of a run: the argument of each post_cmd call
      that returned true.  `call` is the argument of the call in progress. */
  ghost function Accepted(s: State, run: seq<Action>, t: nat, call: Cmd): seq<Cmd>
    requires s.Capacity() > 0
    decreases |run|
  {
    if run == [] || !Enabled(s, run[0]) || Next(s, run[0]).Capacity() == 0 then []
    else
      var s' := Next(s, run[0]);
      if run[0].StepProducer? && run[0].thread == t && s.Pc(t).Poke? then [call] + Accepted(s', run[1..], t, call)
      else Accepted(s', run[1..], t, CallAfter(run[0], t, call))
  }

  function CallAfter(a: Action, t: nat, call: Cmd): Cmd {
    if a.Post? && a.thread == t then a.cmd else call
  }

  ghost function LastCall(run: seq<Action>, t: nat, call: Cmd): Cmd
    decreases |run|
  {
    if run == [] then call else LastCall(run[1..], t, CallAfter(run[0], t, call))
  }

  /** The call in progress on thread `t`, once its position is claimed. */
  ghost function Pending(s: State, t: nat, call: Cmd): seq<Cmd> {
    if s.Pc(t).WriteCell? || s.Pc(t).Publish? || s.Pc(t).Poke? then [call] else []
  }

  ghost predicate Calls(s: State, t: nat, call: Cmd) {
    var pc := s.Pc(t);
    pc.LoadPos? || pc.LoadSequence? || pc.ClaimPos? || pc.WriteCell? ==> pc.cmd == call
  }

  /** How one step changes the account of thread `t`. */
  ghost predicate Accounts(s: State, a: Action, s': State, t: nat, call: Cmd) {
    var after := CallAfter(a, t, call);
    && Calls(s', t, after)
    && (Pending(s, t, call) == [] ==>
          ClaimedBy(s'.history.tickets, t) == ClaimedBy(s.history.tickets, t) + Pending(s', t, after))
    && (Pending(s, t, call) != [] ==>
          && after == call
          && ClaimedBy(s'.history.tickets, t) == ClaimedBy(s.history.tickets, t)
          && (Pending(s', t, call) == [] <==> a.StepProducer? && a.thread == t && s.Pc(t).Poke?))
  }

  lemma ClaimAccounts(s: State, t: nat, casFails: bool, u: nat, call: Cmd)
    requires s.Capacity() > 0 && s.Pc(t).ClaimPos? && Calls(s, u, call)
    ensures Accounts(s, StepProducer(t, casFails), NextProducer(s, t, casFails), u, call)
  {
    var s' := NextProducer(s, t, casFails);
    if s'.history.tickets != s.history.tickets {
      assert s'.history.tickets[..|s'.history.tickets| - 1] == s.history.tickets;
    }
  }

  lemma ProducerAccounts(s: State, t: nat, casFails: bool, u: nat, call: Cmd)
    requires s.Capacity() > 0 && !s.Pc(t).Idle? && !s.Pc(t).ClaimPos? && Calls(s, u, call)
    ensures Accounts(s, StepProducer(t, casFails), NextProducer(s, t, casFails), u, call)
  {
    hide ClaimedBy, Slot;
    assert NextProducer(s, t, casFails).history == s.history;
    assert u != t ==> NextProducer(s, t, casFails).Pc(u) == s.Pc(u);
  }

  lemma StepAccounts(s: State, a: Action, t: nat, call: Cmd)
    requires s.Capacity() > 0 && Enabled(s, a) && Calls(s, t, call)
    ensures Accounts(s, a, Next(s, a), t, call)
  {
    hide ClaimedBy, NextProducer, Slot;
    match a
    case StepProducer(u, casFails) =>
      if s.Pc(u).ClaimPos? {
        ClaimAccounts(s, u, casFails, t, call);
      } else {
        ProducerAccounts(s, u, casFails, t, call);
      }
    case Post(u, cmd) =>
      assert u != t ==> Next(s, a).Pc(t) == s.Pc(t);
    case _ =>
      assert Next(s, a).history.tickets == s.history.tickets;
  }

  /** The positions granted to a thread are exactly those of its accepted calls, in call
      order, plus the one it has claimed and not yet returned from: a command is applied
      once if post_cmd returned true and never if it returned false. */
  lemma {:induction false} ClaimedAreAccepted(
      s: State, run: seq<Action>, s': State, t: nat, call: Cmd, settled: seq<Cmd>)
    requires s.Capacity() > 0 && Reaches(s, run, s') && Calls(s, t, call)
    requires ClaimedBy(s.history.tickets, t) == settled + Pending(s, t, call)
    ensures ClaimedBy(s'.history.tickets, t)
      == settled + Accepted(s, run, t, call) + Pending(s', t, LastCall(run, t, call))
    decreases |run|
  {
    if run != [] {
      var m := Next(s, run[0]);
      StepAccounts(s, run[0], t, call);
      var call' := CallAfter(run[0], t, call);
      if run[0].StepProducer? && run[0].thread == t && s.Pc(t).Poke? {
        ClaimedAreAccepted(m, run[1..], s', t, call', settled + [call]);
        var more := Accepted(m, run[1..], t, call');
        assert settled + [call] + more == settled + ([call] + more);
      } else {
        ClaimedAreAccepted(m, run[1..], s', t, call', settled);
      }
    }
  }

  /** From an initialised ring, with every thread outside post_cmd at the end: thread `t`
      holds exactly one position for each of its calls that returned true, in call order. */
  lemma AcceptedExactlyOnce(capacity: nat, run: seq<Action>, s: State, t: nat, any: Cmd)
    requires capacity >= 2 && Reaches(Init(capacity), run, s)
    ensures s.Pc(t).Idle? ==> ClaimedBy(s.history.tickets, t) == Accepted(Init(capacity), run, t, any)
  {
    ClaimedAreAccepted(Init(capacity), run, s, t, any, []);
  }

  /** A thread about to store into a cell is the only one that may touch it: its ticket
      owns the cell, no other owned position lies there, no other thread is about to
      store there and the loop is not reading it. */
  lemma StoresAreExclusive(capacity: nat, s: State, t: nat)
    requires capacity >= 2 && Reachable(capacity, s)
    requires s.Pc(t).WriteCell? || s.Pc(t).Publish?
    ensures s.Capacity() == capacity > 0
    ensures Owns(s, s.Pc(t).pos)
    ensures forall q: nat :: Owns(s, q) && Slot(q, capacity) == Slot(s.Pc(t).pos, capacity) ==> q == s.Pc(t).pos
    ensures forall u: nat :: u != t && (s.Pc(u).WriteCell? || s.Pc(u).Publish?) ==>
      Slot(s.Pc(u).pos, capacity) != Slot(s.Pc(t).pos, capacity)
    ensures s.consumer.ReadCell? || s.consumer.ReleaseCell? ==>
      Slot(s.consumer.pos, capacity) != Slot(s.Pc(t).pos, capacity)
  {
    ReachableInv(capacity, s);
    var run :| Reaches(Init(capacity), run, s);
    CapacityKept(Init(capacity), run, s);
    SlotsApart(s);
    assert ProducerOk(s, t);
    assert CellOf(s, s.Pc(t).pos);
    forall u: nat | u != t && (s.Pc(u).WriteCell? || s.Pc(u).Publish?)
      ensures Slot(s.Pc(u).pos, capacity) != Slot(s.Pc(t).pos, capacity)
    {
      assert ProducerOk(s, u);
    }
  }

  lemma {:induction false} CapacityKept(s: State, run: seq<Action>, s': State)
    requires s.Capacity() > 0 && Reaches(s, run, s')
    ensures s'.Capacity() == s.Capacity()
    decreases |run|
  {
    if run != [] {
      CapacityKept(Next(s, run[0]), run[1..], s');
    }
  }

  /** An attempt to enqueue is refused exactly when, at the instant the sequence number
      is read, every cell belongs to a ticket the loop has not released; the cell in
      question to the ticket one lap back.  A refusal changes nothing shared. */
  lemma RefusedExactlyWhenFull(capacity: nat, s: State, t: nat, casFails: bool)
    requires capacity >= 2 && Reachable(capacity, s)
    requires s.Pc(t).LoadSequence?
    ensures s.Capacity() == capacity > 0
    ensures var pos := s.Pc(t).pos;
      var refused := s.cells[Slot(pos, capacity)].sequence < pos;
      && (refused <==> pos == s.enqueuePos == s.Released() + capacity)
      && (refused ==>
          && pos >= capacity && Owns(s, pos - capacity)
          && Slot(pos - capacity, capacity) == Slot(pos, capacity)
          && NextProducer(s, t, casFails) == s.(producers := NextProducer(s, t, casFails).producers)
          && (NextProducer(s, t, casFails).Pc(t).Idle? <==> s.Pc(t).attempt + 1 >= POST_RETRIES))
  {
    ReachableInv(capacity, s);
    var run :| Reaches(Init(capacity), run, s);
    CapacityKept(Init(capacity), run, s);
    assert ProducerOk(s, t);
    SequenceSeen(s, s.Pc(t).pos);
    if s.Pc(t).pos >= capacity { SlotPeriodic(s.Pc(t).pos - capacity, capacity); }
  }

  /** Between the start of a call and its claim. */
  predicate Trying(pc: Producer) { pc.LoadPos? || pc.LoadSequence? || pc.ClaimPos? }

  /** Thread `t` is about to read the sequence number of a cell while every cell belongs to
      a ticket the loop has not released. */
  ghost predicate SeesFull(s: State, t: nat) {
    s.Pc(t).LoadSequence? && s.Pc(t).pos == s.enqueuePos == s.Released() + s.Capacity()
  }

  /** An attempt ends without a position exactly when the ring is seen full, and the call
      with it exactly when it was the last attempt; losing a race costs no attempt; and a
      position is claimed exactly by a compare-exchange that finds the cursor where it was. */
  lemma AttemptFailsExactlyWhenFull(capacity: nat, s: State, t: nat, casFails: bool)
    requires capacity >= 2 && Reachable(capacity, s) && s.Capacity() > 0 && Trying(s.Pc(t))
    ensures var pc, next := s.Pc(t), NextProducer(s, t, casFails).Pc(t);
      && (next.Idle? || (Trying(next) && next.attempt > pc.attempt) <==> SeesFull(s, t))
      && (SeesFull(s, t) ==>
            next == if pc.attempt + 1 >= POST_RETRIES then Idle else LoadPos(pc.cmd, pc.attempt + 1))
      && (Trying(next) && !SeesFull(s, t) ==> next.cmd == pc.cmd && next.attempt == pc.attempt)
      && (Claimed(next) <==> pc.ClaimPos? && pc.pos == s.enqueuePos && !casFails)
      && (Claimed(next) ==> next == WriteCell(pc.cmd, pc.pos))
  {
    ReachableInv(capacity, s);
    if s.Pc(t).LoadSequence? {
      Positions(s, t);
      SequenceSeen(s, s.Pc(t).pos);
    }
  }

  /** How often thread `t` saw the ring full in its latest call, `n` times before the run. */
  ghost function Refusals(s: State, run: seq<Action>, t: nat, n: nat): nat
    requires s.Capacity() > 0
    decreases |run|
  {
    if run == [] || !Enabled(s, run[0]) || Next(s, run[0]).Capacity() == 0 then n
    else
      Refusals(Next(s, run[0]), run[1..], t,
        if run[0].Post? && run[0].thread == t then 0
        else if run[0].StepProducer? && run[0].thread == t && SeesFull(s, t) then n + 1
        else n)
  }

  lemma {:induction false} AttemptsAreRefusals(capacity: nat, s: State, run: seq<Action>, s': State, t: nat, n: nat)
    requires capacity >= 2 && Reachable(capacity, s) && s.Capacity() > 0 && Reaches(s, run, s')
    requires Trying(s.Pc(t)) ==> s.Pc(t).attempt == n
    ensures Trying(s'.Pc(t)) ==> s'.Pc(t).attempt == Refusals(s, run, t, n)
    decreases |run|
  {
    hide Reachable;
    if run != [] {
      var a := run[0];
      if a.StepProducer? && a.thread == t && Trying(s.Pc(t)) {
        AttemptFailsExactlyWhenFull(capacity, s, t, a.casFails);
      }
      var m := ReachableStep(capacity, s, a);
      AttemptsAreRefusals(capacity, m, run[1..], s', t,
        if a.Post? && a.thread == t then 0
        else if a.StepProducer? && a.thread == t && SeesFull(s, t) then n + 1
        else n);
    }
  }

  /** post_cmd gives up exactly when it sees the ring full for the sixteenth time. */
  lemma GivesUpExactlyAfterRetries(capacity: nat, run: seq<Action>, s: State, t: nat, casFails: bool)
    requires capacity >= 2 && Reaches(Init(capacity), run, s) && s.Capacity() > 0 && Trying(s.Pc(t))
    ensures NextProducer(s, t, casFails).Pc(t).Idle? <==>
      SeesFull(s, t) && Refusals(Init(capacity), run, t, 0) + 1 >= POST_RETRIES
  {
    assert Reaches(Init(capacity), [], Init(capacity));
    assert Reachable(capacity, s);
    AttemptsAreRefusals(capacity, Init(capacity), run, s, t, 0);
    AttemptFailsExactlyWhenFull(capacity, s, t, casFails);
  }

  /** Runs of one thread's steps, or of the loop's. */
  predicate OfThread(run: seq<Action>, t: nat) {
    forall a :: a in run ==> (a.Post? || a.StepProducer?) && a.thread == t
  }

  predicate OfLoop(run: seq<Action>) { forall a :: a in run ==> a.BeginDrain? || a.StepConsumer? }

  lemma {:induction false} RunsJoin(s: State, first: seq<Action>, m: State, second: seq<Action>, s': State)
    requires s.Capacity() > 0 && Reaches(s, first, m) && m.Capacity() > 0 && Reaches(m, second, s')
    ensures Reaches(s, first + second, s')
    decreases |first|
  {
    if first == [] {
      assert first + second == second;
    } else {
      assert (first + second)[1..] == first[1..] + second;
      RunsJoin(Next(s, first[0]), first[1..], m, second, s');
    }
  }

  /** One more step of a run from `s` that has reached `m`. */
  lemma OneStepOn(capacity: nat, s: State, run: seq<Action>, m: State, a: Action) returns (run': seq<Action>, m': State)
    requires capacity > 0 && Reachable(capacity, m) && s.Capacity() > 0 && Reaches(s, run, m)
    requires m.Capacity() > 0 && Enabled(m, a) && Next(m, a).Capacity() > 0
    ensures run' == run + [a] && m' == Next(m, a) && Reachable(capacity, m') && Reaches(s, run', m')
  {
    RunExtended(s, run, m, a);
    run' := run + [a];
    m' := ReachableStep(capacity, m, a);
  }

  /** A thread that posts undisturbed while there is room stores its command in the next
      position's cell, pokes the eventfd once, and touches nothing else. */
  lemma UndisturbedPost(capacity: nat, s: State, t: nat, cmd: Cmd) returns (run: seq<Action>, s': State)
    requires capacity >= 2 && Reachable(capacity, s) && s.Capacity() > 0 && s.Pc(t).Idle?
    requires s.enqueuePos < s.Released() + s.Capacity()
    ensures Reaches(s, run, s') && OfThread(run, t)
    ensures s'.Pc(t).Idle? && forall u: nat :: u != t ==> s'.Pc(u) == s.Pc(u)
    ensures s' == s.(
      cells := s.cells[Slot(s.enqueuePos, s.Capacity()) := Cell(s.enqueuePos + 1, cmd)],
      enqueuePos := s.enqueuePos + 1, eventfd := s.eventfd + 1, producers := s'.producers,
      history := s.history.(tickets := s.history.tickets + [Ticket(t, cmd)]))
  {
    hide Reachable, Reaches;
    ReachableInv(capacity, s);
    assert CellOf(s, s.enqueuePos);
    NoSteps(s);
    run, s' := OneStepOn(capacity, s, [], s, Post(t, cmd));
    run, s' := OneStepOn(capacity, s, run, s', StepProducer(t, false));
    run, s' := OneStepOn(capacity, s, run, s', StepProducer(t, false));
    run, s' := OneStepOn(capacity, s, run, s', StepProducer(t, false));
    run, s' := OneStepOn(capacity, s, run, s', StepProducer(t, false));
    run, s' := OneStepOn(capacity, s, run, s', StepProducer(t, false));
    run, s' := OneStepOn(capacity, s, run, s', StepProducer(t, false));
  }

  lemma NoSteps(s: State)
    requires s.Capacity() > 0
    ensures Reaches(s, [], s)
  {
  }

  /** A thread that posts undisturbed while the ring is full is refused, and nothing that
      is shared changes. */
  lemma UndisturbedRefusal(capacity: nat, s: State, t: nat, cmd: Cmd) returns (run: seq<Action>, s': State)
    requires capacity >= 2 && Reachable(capacity, s) && s.Capacity() > 0 && s.Pc(t).Idle?
    requires s.enqueuePos == s.Released() + s.Capacity()
    ensures Reaches(s, run, s') && OfThread(run, t) && |run| == 1 + 2 * POST_RETRIES
    ensures s'.Pc(t).Idle? && (forall u: nat :: u != t ==> s'.Pc(u) == s.Pc(u)) && s' == s.(producers := s'.producers)
  {
    hide Reachable, Reaches;
    NoSteps(s);
    run, s' := OneStepOn(capacity, s, [], s, Post(t, cmd));
    for k := 0 to POST_RETRIES
      invariant Reachable(capacity, s') && Reaches(s, run, s') && OfThread(run, t) && |run| == 1 + 2 * k
      invariant s' == s.(producers := s'.producers) && forall u: nat :: u != t ==> s'.Pc(u) == s.Pc(u)
      invariant s'.Pc(t) == if k < POST_RETRIES then LoadPos(cmd, k) else Idle
    {
      run, s' := OneStepOn(capacity, s, run, s', StepProducer(t, false));
      AttemptFailsExactlyWhenFull(capacity, s', t, false);
      run, s' := OneStepOn(capacity, s, run, s', StepProducer(t, false));
    }
  }

  /** Every position below `end` is published, and the one at `end` is not, or not claimed. */
  ghost predicate PublishedTo(s: State, end: nat)
    requires Cursors(s)
  {
    && s.Released() <= end <= s.enqueuePos
    && (forall p: nat :: s.Released() <= p < end ==> !Unpublished(s, p))
    && (end < s.enqueuePos ==> Unpublished(s, end))
  }

  /** One command taken, read and released. */
  lemma DequeueSteps(capacity: nat, s: State, cmd: Cmd) returns (run: seq<Action>, s': State)
    requires capacity > 0 && Reachable(capacity, s) && s.Capacity() > 0 && s.consumer.HeadPos?
    requires s.cells[Slot(s.dequeuePos, s.Capacity())] == Cell(s.dequeuePos + 1, cmd)
    ensures Reaches(s, run, s') && OfLoop(run) && Reachable(capacity, s') && s'.consumer.HeadPos?
    ensures s'.Capacity() == s.Capacity() && s'.producers == s.producers && s'.eventfd == s.eventfd
    ensures s'.enqueuePos == s.enqueuePos && s'.history == s.history.(applied := s.history.applied + [cmd])
  {
    hide Reachable, Reaches;
    NoSteps(s);
    run, s' := OneStepOn(capacity, s, [], s, StepConsumer(false));
    run, s' := OneStepOn(capacity, s, run, s', StepConsumer(false));
    run, s' := OneStepOn(capacity, s, run, s', StepConsumer(false));
    run, s' := OneStepOn(capacity, s, run, s', StepConsumer(false));
    run, s' := OneStepOn(capacity, s, run, s', StepConsumer(false));
  }

  /** The command of the first position, which is published. */
  lemma UndisturbedDequeue(capacity: nat, s: State, end: nat) returns (run: seq<Action>, s': State)
    requires capacity >= 2 && Reachable(capacity, s) && Inv(s) && s.consumer.HeadPos?
    requires PublishedTo(s, end) && s.Released() < end
    ensures Reaches(s, run, s') && OfLoop(run)
    ensures Reachable(capacity, s') && Inv(s') && s'.consumer.HeadPos? && PublishedTo(s', end)
    ensures s'.producers == s.producers && s'.eventfd == s.eventfd
    ensures s'.enqueuePos == s.enqueuePos && s'.history.tickets == s.history.tickets
    ensures s'.history.applied == s.history.applied + [s.history.tickets[s.Released()].cmd]
  {
    hide Reachable, Reaches;
    assert CellOf(s, s.Released());
    run, s' := DequeueSteps(capacity, s, s.history.tickets[s.Released()].cmd);
    ReachableInv(capacity, s');
    forall p: nat | s'.Released() <= p < end ensures !Unpublished(s', p) { assert !Unpublished(s, p); }
  }

  lemma {:induction false} UndisturbedDequeues(capacity: nat, s: State, end: nat) returns (run: seq<Action>, s': State)
    requires capacity >= 2 && Reachable(capacity, s) && Inv(s) && s.consumer.HeadPos? && PublishedTo(s, end)
    ensures Reaches(s, run, s') && OfLoop(run)
    ensures s'.consumer.Outside? && s'.eventfd == s.eventfd && |s'.history.applied| == end
    ensures s'.producers == s.producers && s'.history.tickets == s.history.tickets
    decreases end - s.Released()
  {
    hide Reachable, Reaches;
    if s.Released() < end {
      var first, m := UndisturbedDequeue(capacity, s, end);
      run, s' := UndisturbedDequeues(capacity, m, end);
      RunsJoin(s, first, m, run, s');
      run := first + run;
    } else {
      assert CellOf(s, end);
      NoSteps(s);
      run, s' := OneStepOn(capacity, s, [], s, StepConsumer(false));
      run, s' := OneStepOn(capacity, s, run, s', StepConsumer(false));
    }
  }

  /** A loop that drains undisturbed clears the eventfd and applies exactly the commands
      below the first position not yet published, all of them if no post is under way. */
  lemma UndisturbedDrain(capacity: nat, s: State, end: nat) returns (run: seq<Action>, s': State)
    requires capacity >= 2 && Reachable(capacity, s) && Inv(s) && s.consumer.Outside? && s.eventfd > 0
    requires PublishedTo(s, end)
    ensures Reaches(s, run, s') && OfLoop(run)
    ensures s'.consumer.Outside? && s'.eventfd == 0
    ensures s'.producers == s.producers && s'.history.tickets == s.history.tickets
    ensures s'.history.applied == seq(end, i requires 0 <= i < |s.history.tickets| => s.history.tickets[i].cmd)
  {
    hide Reachable, Reaches;
    NoSteps(s);
    var m;
    run, m := OneStepOn(capacity, s, [], s, BeginDrain);
    run, m := OneStepOn(capacity, s, run, m, StepConsumer(false));
    run, m := OneStepOn(capacity, s, run, m, StepConsumer(false));
    ReachableInv(capacity, m);
    forall p: nat | m.Released() <= p < end ensures !Unpublished(m, p) { assert !Unpublished(s, p); }
    var rest;
    rest, s' := UndisturbedDequeues(capacity, m, end);
    RunsJoin(s, run, m, rest, s');
    run := run + rest;
    RunKeepsInv(s, run, s');
  }

  /** No lost wakeup: whenever the loop is outside drain_cmds and the eventfd reads zero,
      the ring is empty or the thread that claimed the head still owes its eventfd write. */
  lemma WakeupNeverLost(capacity: nat, s: State)
    requires capacity >= 2 && Reachable(capacity, s)
    requires s.consumer.Outside? && s.eventfd == 0 && s.dequeuePos < s.enqueuePos
    ensures s.enqueuePos == |s.history.tickets|
    ensures var pc := s.Pc(s.history.tickets[s.dequeuePos].thread);
      (pc.WriteCell? || pc.Publish? || pc.Poke?) && pc.pos == s.dequeuePos
  {
    ReachableInv(capacity, s);
  }

  /** Once every post has returned and the loop has gone back to sleep, every claimed
      command has been applied. */
  lemma QuiescentMeansApplied(capacity: nat, s: State)
    requires capacity >= 2 && Reachable(capacity, s)
    requires s.consumer.Outside? && s.eventfd == 0 && forall t: nat :: s.Pc(t).Idle?
    ensures |s.history.applied| == |s.history.tickets| == s.enqueuePos == s.dequeuePos
    ensures forall p: nat :: p < s.enqueuePos ==> s.history.applied[p] == s.history.tickets[p].cmd
  {
    ReachableInv(capacity, s);
  }

  // ---------------------------------------------------------------------------
  // A ring of one cell is a power of two, yet it does not work
  // ---------------------------------------------------------------------------

  /** Every thread that is about to store a command finds its cell free of other tickets. */
  ghost predicate StoresExclusively(s: State) {
    forall t: nat, q: nat ::
      s.Capacity() > 0 && s.Pc(t).WriteCell? && Owns(s, q) && Slot(q, s.Capacity()) == Slot(s.Pc(t).pos, s.Capacity())
      ==> q == s.Pc(t).pos
  }

  lemma {:induction false} RunExtended(s: State, run: seq<Action>, m: State, a: Action)
    requires s.Capacity() > 0 && Reaches(s, run, m)
    requires m.Capacity() > 0 && Enabled(m, a) && Next(m, a).Capacity() > 0
    ensures Reaches(s, run + [a], Next(m, a))
    decreases |run|
  {
    if run == [] {
      assert [a][1..] == [];
    } else {
      assert (run + [a])[1..] == run[1..] + [a];
      RunExtended(Next(s, run[0]), run[1..], m, a);
    }
  }

  lemma ReachableStep(capacity: nat, s: State, a: Action) returns (s': State)
    requires capacity > 0 && Reachable(capacity, s)
    requires s.Capacity() > 0 && Enabled(s, a) && Next(s, a).Capacity() > 0
    ensures s' == Next(s, a) && Reachable(capacity, s')
  {
    var run :| Reaches(Init(capacity), run, s);
    RunExtended(Init(capacity), run, s, a);
    s' := Next(s, a);
  }

  /** Thread `t` posts into a one-cell ring whose cell reads as free. */
  lemma OneCellClaim(s: State, t: nat, cmd: Cmd) returns (s': State)
    requires Reachable(1, s) && s.Capacity() == 1 && s.Pc(t).Idle?
    requires s.cells[0].sequence == s.enqueuePos
    ensures Reachable(1, s')
    ensures s' == s.(producers := s'.producers, enqueuePos := s.enqueuePos + 1,
                     history := s.history.(tickets := s.history.tickets + [Ticket(t, cmd)]))
    ensures s'.Pc(t) == WriteCell(cmd, s.enqueuePos)
    ensures forall u: nat :: u != t ==> s'.Pc(u) == s.Pc(u)
  {
    s' := ReachableStep(1, s, Post(t, cmd));
    s' := ReachableStep(1, s', StepProducer(t, false));
    s' := ReachableStep(1, s', StepProducer(t, false));
    s' := ReachableStep(1, s', StepProducer(t, false));
  }

  /** With one cell, the sequence number that marks position 0 published also marks
      position 1 free, so a second command is stored over an unread one. */
  lemma OneCellOverwrites() returns (s: State)
    ensures Reachable(1, s) && !StoresExclusively(s)
  {
    s := Init(1);
    assert Reaches(s, [], s);
    assert s.Pc(0) == Idle && s.Pc(1) == Idle;
    s := OneCellClaim(s, 0, Cmd(CmdWake, 1, 0));
    assert s.Pc(1) == Idle;
    s := ReachableStep(1, s, StepProducer(0, false));
    s := ReachableStep(1, s, StepProducer(0, false));
    assert s.Pc(1) == Idle;
    s := OneCellClaim(s, 1, Cmd(CmdWake, 2, 0));
    assert s.Pc(1).WriteCell? && s.Pc(1).pos == 1 && Owns(s, 0) && Slot(0, 1) == Slot(1, 1);
  }

  /** Stores are exclusive in every run exactly when the ring has at least two cells:
      being a power of two is not enough. */
  lemma ExclusiveExactlyFromTwoCells(capacity: nat)
    requires capacity > 0
    ensures (forall s: State :: Reachable(capacity, s) ==> StoresExclusively(s)) <==> capacity >= 2
  {
    if capacity >= 2 {
      forall s: State | Reachable(capacity, s) ensures StoresExclusively(s) {
        forall t: nat, q: nat | s.Pc(t).WriteCell? && Owns(s, q) && s.Capacity() > 0
            && Slot(q, s.Capacity()) == Slot(s.Pc(t).pos, s.Capacity())
          ensures q == s.Pc(t).pos
        {
          StoresAreExclusive(capacity, s, t);
        }
      }
    } else {
      var s := OneCellOverwrites();
    }
  }
}
