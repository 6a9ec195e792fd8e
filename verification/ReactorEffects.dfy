/** What a command, a report and the deadlines do to the fibers: values in, values out.  The
    loop's methods are proved to do exactly this, and what a program can rely on is proved
    of it here. */
module ReactorEffects {
  import opened CommandRing
  import opened ReactorFibers

  /** What the kernel keeps for a descriptor: whether the one-shot is still to fire, the
      fiber it names and the events it fires for. */
  datatype Entry = Entry(armed: bool, fiber: Fiber, events: nat) {
    predicate ArmedFor(f: Fiber) { armed && fiber == f }
  }

  /** What a poll reports: that the eventfd was written, with the commands the ring holds
      then, or that a descriptor is ready. */
  datatype Event = Control(cmds: seq<Cmd>) | Ready(fd: int)

  /** The report as the loop receives it, the fiber being what the entry named. */
  datatype Item = Commands(cmds: seq<Cmd>) | Waiter(fiber: Fiber)

  const MAX_EVENTS: nat := 64

  /** All that resuming and waking fibers may touch. */
  datatype Scene = Scene(
    queue: seq<Fiber>, parked: set<Fiber>, timed: set<Fiber>, statuses: map<Fiber, Status>,
    fds: map<Fiber, int>, owners: map<int, Fiber>, poller: map<int, Entry>, lives: map<Fiber, Life>)
  {
    /** The descriptor the fiber is registered for, or -1. */
    function Fd(f: Fiber): int { if f in fds then fds[f] else -1 }
  }

  /** Where handles lead: the fiber each block reads as, and, of those that have not
      finished, the generation and the kind of the last park. */
  datatype Directory = Directory(memory: map<nat, Fiber>, generations: map<Fiber, nat>, kinds: map<Fiber, ParkKind>)

  /** The fiber a command is for, or null for a stale handle. */
  function Named(d: Directory, c: Cmd): Fiber? {
    if c.target in d.memory && d.memory[c.target] in d.generations && d.generations[d.memory[c.target]] == c.gen
    then d.memory[c.target]
    else null
  }

  /** A parked fiber goes behind the ready ones with a status, off its timer, and off its
      descriptor unless the registration is kept. */
  function Ended(s: Scene, f: Fiber, status: Status, kept: bool): Scene {
    if f !in s.parked then s
    else
      var off := if kept then -1 else s.Fd(f);
      s.(queue := s.queue + [f],
         parked := s.parked - {f},
         timed := s.timed - {f},
         statuses := s.statuses[f := status],
         fds := if off == -1 then s.fds else s.fds[f := -1],
         owners := if off == -1 then s.owners else s.owners - {off},
         poller := if off == -1 then s.poller else s.poller - {off})
  }

  /** A registration is given up, with the kernel's entry. */
  function Unregistered(s: Scene, f: Fiber): Scene {
    var fd := s.Fd(f);
    if fd == -1 then s
    else s.(fds := s.fds[f := -1], owners := s.owners - {fd}, poller := s.poller - {fd})
  }

  function Untimed(s: Scene, f: Fiber): Scene { s.(timed := s.timed - {f}) }

  function Requeued(s: Scene, f: Fiber, status: Status): Scene {
    s.(queue := s.queue + [f], parked := s.parked - {f}, statuses := s.statuses[f := status])
  }

  /** The steps in which the loop does it, in either order. */
  lemma EndedInSteps(s: Scene, f: Fiber, status: Status)
    ensures Ended(s, f, status, false) ==
      if f in s.parked then Requeued(Untimed(Unregistered(s, f), f), f, status) else s
    ensures Ended(s, f, status, true) == if f in s.parked then Requeued(Untimed(s, f), f, status) else s
    ensures Untimed(Unregistered(s, f), f) == Unregistered(Untimed(s, f), f)
  {
  }

  /** One more wake: it is a permit, unless it is delivered at once. */
  function Woken(s: Scene, f: Fiber, delivered: bool): Scene {
    if f !in s.lives then s
    else
      var life := s.lives[f];
      var wakes := life.tally.wakes + 1;
      s.(lives := s.lives[f :=
        if delivered then life.(tally := Tally(wakes, life.tally.readies + 1, wakes))
        else life.(tally := life.tally.(wakes := wakes), permit := true)])
  }

  lemma WokenKeeps(s: Scene, f: Fiber, delivered: bool, born: nat)
    requires f in s.lives && s.lives[f].tally.Fits(s.lives[f].permit)
    ensures LivesOn(s.lives, born, Woken(s, f, delivered).lives)
    ensures Quiet(s.lives, Woken(s, f, delivered).lives, null)
  {
  }

  /** A cancellation resumes a parked fiber; a wake resumes an async park and is kept
      otherwise; a stale handle does nothing. */
  function Obeyed(d: Directory, s: Scene, c: Cmd): Scene {
    var f := Named(d, c);
    if f == null then s
    else if c.kind == CmdCancel then Ended(s, f, EvCancelled, false)
    else if f in s.parked && f in d.kinds && d.kinds[f] == ParkAsync then
      Ended(Woken(s, f, true), f, EvReady, false)
    else Woken(s, f, false)
  }

  function AllObeyed(d: Directory, s: Scene, cmds: seq<Cmd>): Scene
    decreases |cmds|
  {
    if cmds == [] then s else AllObeyed(d, Obeyed(d, s, cmds[0]), cmds[1..])
  }

  function Dealt(d: Directory, s: Scene, item: Item): Scene {
    match item
    case Commands(cmds) => AllObeyed(d, s, cmds)
    case Waiter(f) => Ended(s, f, EvReady, true)
  }

  function AllDealt(d: Directory, s: Scene, items: seq<Item>): Scene
    decreases |items|
  {
    if items == [] then s else AllDealt(d, Dealt(d, s, items[0]), items[1..])
  }

  lemma FirstObeyed(d: Directory, s: Scene, cmds: seq<Cmd>, k: nat)
    requires k < |cmds|
    ensures AllObeyed(d, s, cmds[k..]) == AllObeyed(d, Obeyed(d, s, cmds[k]), cmds[k + 1..])
  {
    assert cmds[k..][1..] == cmds[k + 1..];
  }

  lemma NoneObeyed(d: Directory, s: Scene, cmds: seq<Cmd>)
    ensures AllObeyed(d, s, cmds[|cmds|..]) == s
  {
  }

  lemma FirstDealt(d: Directory, s: Scene, items: seq<Item>, k: nat)
    requires k < |items|
    ensures AllDealt(d, s, items[k..]) == AllDealt(d, Dealt(d, s, items[k]), items[k + 1..])
  {
    assert items[k..][1..] == items[k + 1..];
  }

  lemma NoneDealt(d: Directory, s: Scene, items: seq<Item>)
    ensures AllDealt(d, s, items[|items|..]) == s
  {
  }

  function AllExpired(s: Scene, fs: seq<Fiber>): Scene {
    if fs == [] then s else Ended(AllExpired(s, fs[..|fs| - 1]), fs[|fs| - 1], EvTimeout, false)
  }

  lemma NoneExpired(s: Scene)
    ensures AllExpired(s, []) == s
  {
  }

  lemma OneExpired(s: Scene, fs: seq<Fiber>, f: Fiber)
    ensures AllExpired(s, fs + [f]) == Ended(AllExpired(s, fs), f, EvTimeout, false)
  {
    assert (fs + [f])[..|fs|] == fs;
  }

  function Waiters(items: seq<Item>): set<Fiber> { set i | 0 <= i < |items| && items[i].Waiter? :: items[i].fiber }

  /** The commands of a report, in the order they are applied. */
  function AllCommands(items: seq<Item>): seq<Cmd> {
    if items == [] then []
    else (if items[0].Commands? then items[0].cmds else []) + AllCommands(items[1..])
  }

  /** What of `events` is reported, `room` items at most: armed entries, and commands. */
  function Report(events: seq<Event>, poller: map<int, Entry>, room: nat): seq<Item> {
    if events == [] || room == 0 then []
    else
      match events[0]
      case Control(cmds) => [Commands(cmds)] + Report(events[1..], poller, room - 1)
      case Ready(fd) =>
        if fd in poller && poller[fd].armed then
          [Waiter(poller[fd].fiber)] + Report(events[1..], poller[fd := poller[fd].(armed := false)], room - 1)
        else Report(events[1..], poller, room)
  }

  /** The entries afterwards: those reported are disarmed. */
  function PollerAfter(events: seq<Event>, poller: map<int, Entry>, room: nat): map<int, Entry> {
    if events == [] || room == 0 then poller
    else
      match events[0]
      case Control(_) => PollerAfter(events[1..], poller, room - 1)
      case Ready(fd) =>
        if fd in poller && poller[fd].armed then
          PollerAfter(events[1..], poller[fd := poller[fd].(armed := false)], room - 1)
        else PollerAfter(events[1..], poller, room)
  }

  lemma NothingReported(events: seq<Event>, poller: map<int, Entry>, room: nat)
    ensures events[0..] == events && Report(events[|events|..], poller, room) == []
    ensures PollerAfter(events[|events|..], poller, room) == poller
  {
  }

  lemma FirstReported(items: seq<Item>, events: seq<Event>, k: nat, poller: map<int, Entry>, room: nat)
    requires k < |events|
    ensures room == 0 ==> Report(events[k..], poller, room) == [] && PollerAfter(events[k..], poller, room) == poller
    ensures room == 0 ==> items + [] == items
    ensures room > 0 ==>
      match events[k]
      case Control(cmds) =>
        && items + Report(events[k..], poller, room)
          == items + [Commands(cmds)] + Report(events[k + 1..], poller, room - 1)
        && PollerAfter(events[k..], poller, room) == PollerAfter(events[k + 1..], poller, room - 1)
      case Ready(fd) =>
        if fd in poller && poller[fd].armed then
          var after := poller[fd := poller[fd].(armed := false)];
          && items + Report(events[k..], poller, room)
            == items + [Waiter(poller[fd].fiber)] + Report(events[k + 1..], after, room - 1)
          && PollerAfter(events[k..], poller, room) == PollerAfter(events[k + 1..], after, room - 1)
        else
          && Report(events[k..], poller, room) == Report(events[k + 1..], poller, room)
          && PollerAfter(events[k..], poller, room) == PollerAfter(events[k + 1..], poller, room)
  {
    assert events[k..][1..] == events[k + 1..];
  }

  /** A report is dealt with: what is in it is disarmed, and then each item has its effect. */
  function AllReported(d: Directory, s: Scene, events: seq<Event>): Scene {
    AllDealt(d, s.(poller := PollerAfter(events, s.poller, MAX_EVENTS)), Report(events, s.poller, MAX_EVENTS))
  }

  // ----- what becomes of one fiber -----

  /** Whether a parked fiber stays, or leaves with a status, its registration kept or not. */
  datatype Fate = Stays | Leaves(status: Status, kept: bool)

  function FateByCommand(d: Directory, f: Fiber, c: Cmd): Fate {
    if Named(d, c) != f then Stays
    else if c.kind == CmdCancel then Leaves(EvCancelled, false)
    else if f in d.kinds && d.kinds[f] == ParkAsync then Leaves(EvReady, false)
    else Stays
  }

  /** The first command that moves it decides. */
  function FateByCommands(d: Directory, f: Fiber, cmds: seq<Cmd>): Fate
    decreases |cmds|
  {
    if cmds == [] then Stays
    else
      var first := FateByCommand(d, f, cmds[0]);
      if first.Leaves? then first else FateByCommands(d, f, cmds[1..])
  }

  function FateByItem(d: Directory, f: Fiber, item: Item): Fate {
    match item
    case Commands(cmds) => FateByCommands(d, f, cmds)
    case Waiter(w) => if w == f then Leaves(EvReady, true) else Stays
  }

  /** The first item that moves it decides. */
  function FateByReport(d: Directory, f: Fiber, items: seq<Item>): Fate
    decreases |items|
  {
    if items == [] then Stays
    else
      var first := FateByItem(d, f, items[0]);
      if first.Leaves? then first else FateByReport(d, f, items[1..])
  }

  /** What `late` says of a fiber, given what was said of it and its fate. */
  ghost predicate Met(early: Scene, f: Fiber, fate: Fate, late: Scene) {
    if f !in early.parked || fate.Stays? then
      && (f in late.parked <==> f in early.parked) && (f in late.timed <==> f in early.timed)
      && (f in early.statuses ==> f in late.statuses && late.statuses[f] == early.statuses[f])
      && late.Fd(f) == early.Fd(f)
    else
      && f !in late.parked && f !in late.timed && f in late.queue
      && f in late.statuses && late.statuses[f] == fate.status
      && late.Fd(f) == if fate.kept then early.Fd(f) else -1
  }

  lemma EndedFate(s: Scene, g: Fiber, status: Status, kept: bool, f: Fiber)
    ensures var late := Ended(s, g, status, kept);
      Met(s, f, if f == g then Leaves(status, kept) else Stays, late) && s.queue <= late.queue && late.lives == s.lives
  {
  }

  lemma WokenFate(s: Scene, g: Fiber, delivered: bool)
    ensures var late := Woken(s, g, delivered); late == s.(lives := late.lives)
  {
  }

  lemma SameMet(s: Scene, f: Fiber, fate: Fate, late: Scene, lives: map<Fiber, Life>)
    ensures Met(s.(lives := lives), f, fate, late) <==> Met(s, f, fate, late)
    ensures Met(s, f, Stays, s.(lives := lives))
  {
  }

  lemma ObeyedFate(d: Directory, s: Scene, c: Cmd, f: Fiber)
    ensures Met(s, f, FateByCommand(d, f, c), Obeyed(d, s, c)) && s.queue <= Obeyed(d, s, c).queue
  {
    hide Met, Ended, Woken, Named;
    var g := Named(d, c);
    SameMet(s, f, Stays, s, s.lives);
    if g != null {
      var woken := Woken(s, g, c.kind == CmdWake && g in s.parked && g in d.kinds && d.kinds[g] == ParkAsync);
      WokenFate(s, g, g in s.parked && g in d.kinds && d.kinds[g] == ParkAsync);
      EndedFate(s, g, EvCancelled, false, f);
      EndedFate(woken, g, EvReady, false, f);
      SameMet(s, f, if f == g then Leaves(EvReady, false) else Stays, Ended(woken, g, EvReady, false), woken.lives);
      SameMet(s, f, Stays, s, woken.lives);
      NotParkedMet(s, f, Leaves(EvReady, false), woken);
    }
  }

  /** A fate means nothing to a fiber that is not parked. */
  lemma NotParkedMet(s: Scene, f: Fiber, fate: Fate, late: Scene)
    ensures f !in s.parked ==> (Met(s, f, fate, late) <==> Met(s, f, Stays, late))
  {
  }

  lemma DealtFate(d: Directory, s: Scene, item: Item, f: Fiber)
    ensures Met(s, f, FateByItem(d, f, item), Dealt(d, s, item)) && s.queue <= Dealt(d, s, item).queue
  {
    hide Met, Ended, AllObeyed, FateByCommands;
    match item
    case Commands(cmds) => AllObeyedFate(d, s, cmds, f);
    case Waiter(w) => EndedFate(s, w, EvReady, true, f);
  }

  lemma {:induction false} AllObeyedFate(d: Directory, s: Scene, cmds: seq<Cmd>, f: Fiber)
    ensures Met(s, f, FateByCommands(d, f, cmds), AllObeyed(d, s, cmds)) && s.queue <= AllObeyed(d, s, cmds).queue
    decreases |cmds|
  {
    hide Obeyed, FateByCommand;
    if cmds != [] {
      ObeyedFate(d, s, cmds[0], f);
      AllObeyedFate(d, Obeyed(d, s, cmds[0]), cmds[1..], f);
    }
  }

  /** A report moves a fiber by the first item in it that concerns it: an event for it lets
      it go with READY and its registration kept, a cancellation with CANCELLED, a wake with
      READY if it waits for one.  A fiber it does not concern is left as it is. */
  lemma {:induction false} FirstItemDecides(d: Directory, s: Scene, items: seq<Item>, f: Fiber)
    ensures Met(s, f, FateByReport(d, f, items), AllDealt(d, s, items)) && s.queue <= AllDealt(d, s, items).queue
    decreases |items|
  {
    hide Dealt, FateByItem;
    if items != [] {
      DealtFate(d, s, items[0], f);
      FirstItemDecides(d, Dealt(d, s, items[0]), items[1..], f);
    }
  }

  /** No command of a report lets go of a fiber. */
  ghost predicate Unmoved(d: Directory, f: Fiber, cmds: seq<Cmd>) {
    forall c :: c in cmds ==> FateByCommand(d, f, c).Stays?
  }

  lemma {:induction false} UnmovedStays(d: Directory, f: Fiber, cmds: seq<Cmd>)
    requires Unmoved(d, f, cmds)
    ensures FateByCommands(d, f, cmds).Stays?
    decreases |cmds|
  {
    if cmds != [] {
      UnmovedStays(d, f, cmds[1..]);
    }
  }

  /** A reported fiber that no command of the report lets go is resumed with READY, and
      keeps its registration. */
  lemma {:induction false} ReportedAreReady(d: Directory, items: seq<Item>, f: Fiber)
    requires f in Waiters(items) && Unmoved(d, f, AllCommands(items))
    ensures FateByReport(d, f, items) == Leaves(EvReady, true)
    decreases |items|
  {
    if items[0].Commands? {
      UnmovedStays(d, f, items[0].cmds);
    }
    if items[0] != Waiter(f) {
      var i :| 0 <= i < |items| && items[i] == Waiter(f);
      assert items[1..][i - 1] == Waiter(f);
      ReportedAreReady(d, items[1..], f);
    }
  }

  /** The fibers of a report of nothing but events, in its order. */
  function ReadyOnes(items: seq<Item>): seq<Fiber> {
    if items == [] then []
    else (if items[0].Waiter? then [items[0].fiber] else []) + ReadyOnes(items[1..])
  }

  /** Events alone put exactly the reported fibers behind the ready ones, in the order of the
      report. */
  lemma {:induction false} EventsResumeInOrder(d: Directory, s: Scene, items: seq<Item>)
    requires forall i :: 0 <= i < |items| ==> items[i].Waiter? && items[i].fiber in s.parked
    requires forall i, j :: 0 <= i < j < |items| ==> items[i] != items[j]
    ensures AllDealt(d, s, items).queue == s.queue + ReadyOnes(items)
    ensures AllDealt(d, s, items).parked == s.parked - Waiters(items)
    decreases |items|
  {
    if items != [] {
      var w := items[0].fiber;
      EventsResumeInOrder(d, Dealt(d, s, items[0]), items[1..]);
      assert s.queue + [w] + ReadyOnes(items[1..]) == s.queue + ReadyOnes(items);
      assert Waiters(items) == {w} + Waiters(items[1..]) by {
        forall f | f in Waiters(items) ensures f == w || f in Waiters(items[1..]) {
          var i :| 0 <= i < |items| && items[i].Waiter? && items[i].fiber == f;
          if i > 0 { assert items[1..][i - 1].fiber == f; }
        }
        forall f | f in Waiters(items[1..]) ensures f in Waiters(items) {
          var i :| 0 <= i < |items[1..]| && items[1..][i].Waiter? && items[1..][i].fiber == f;
          assert items[i + 1].fiber == f;
        }
      }
    }
  }

  /** The wakes among commands that reach a fiber. */
  function WakesFor(d: Directory, f: Fiber, cmds: seq<Cmd>): nat
    decreases |cmds|
  {
    if cmds == [] then 0
    else (if cmds[0].kind == CmdWake && Named(d, cmds[0]) == f then 1 else 0) + WakesFor(d, f, cmds[1..])
  }

  lemma OneWakeReaches(d: Directory, s: Scene, c: Cmd, f: Fiber)
    requires f in s.lives
    ensures var late, n := Obeyed(d, s, c), if c.kind == CmdWake && Named(d, c) == f then 1 else 0;
      var delivered := if f in s.parked && FateByCommand(d, f, c) == Leaves(EvReady, false) then 1 else 0;
      && f in late.lives && late.lives[f].incarnation == s.lives[f].incarnation
      && late.lives[f].tally.wakes == s.lives[f].tally.wakes + n
      && late.lives[f].tally.readies == s.lives[f].tally.readies + delivered && delivered <= n
      && (late.lives[f].permit <==> s.lives[f].permit || n > delivered)
      && (f in late.parked <==> f in s.parked && FateByCommand(d, f, c).Stays?)
  {
    hide Named, Ended;
    var g := Named(d, c);
    if g != null {
      EndedFate(s, g, EvCancelled, false, f);
      EndedFate(Woken(s, g, true), g, EvReady, false, f);
    }
  }

  /** Every wake that reaches a fiber is counted, one that ends an async park is delivered
      as a READY, and any other leaves a permit; no other permit comes or goes. */
  lemma {:induction false} WakesReach(d: Directory, s: Scene, cmds: seq<Cmd>, f: Fiber)
    requires f in s.lives
    ensures var late, n := AllObeyed(d, s, cmds).lives, WakesFor(d, f, cmds);
      var delivered := if f in s.parked && FateByCommands(d, f, cmds) == Leaves(EvReady, false) then 1 else 0;
      && f in late && late[f].incarnation == s.lives[f].incarnation
      && late[f].tally.wakes == s.lives[f].tally.wakes + n
      && late[f].tally.readies == s.lives[f].tally.readies + delivered && delivered <= n
      && (late[f].permit <==> s.lives[f].permit || n > delivered)
    decreases |cmds|
  {
    hide Obeyed, Met, FateByCommand, Named;
    if cmds != [] {
      OneWakeReaches(d, s, cmds[0], f);
      WakesReach(d, Obeyed(d, s, cmds[0]), cmds[1..], f);
    }
  }

  /** Deadlines that have come let exactly their fibers go, in order, with TIMEOUT and
      without their registrations. */
  lemma {:induction false} ExpiredInOrder(s: Scene, fs: seq<Fiber>)
    requires forall i :: 0 <= i < |fs| ==> fs[i] in s.parked
    requires forall i, j :: 0 <= i < j < |fs| ==> fs[i] != fs[j]
    ensures AllExpired(s, fs).queue == s.queue + fs && AllExpired(s, fs).parked == s.parked - (set f | f in fs)
    ensures forall f :: Met(s, f, if f in fs then Leaves(EvTimeout, false) else Stays, AllExpired(s, fs))
    ensures AllExpired(s, fs).lives == s.lives
    decreases |fs|
  {
    if fs != [] {
      var front, last := fs[..|fs| - 1], fs[|fs| - 1];
      ExpiredInOrder(s, front);
      assert fs == front + [last];
    }
  }
}
