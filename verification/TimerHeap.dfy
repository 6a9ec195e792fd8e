/** The deadlines of parked fibers: a binary min-heap in an array that grows by doubling,
    in which each fiber knows its own index; and the arithmetic of timeouts. */
module ReactorTimers {
  import opened ReactorFibers

  const TIMER_HEAP_INIT_CAP: nat := 16
  const TIMER_HEAP_GROWTH: nat := 2
  const NO_DEADLINE: Time := UINT64_MAX
  const INT32_MAX: nat := 0x7FFF_FFFF
  const NS_PER_MS: nat := 1_000_000

  // ----- heap order, on the deadlines alone -----

  function Parent(k: int): int { (k - 1) / 2 }

  ghost predicate ParentFirst(d: seq<nat>, k: int)
    requires 1 <= k < |d|
  {
    d[Parent(k)] <= d[k]
  }

  ghost predicate Ordered(d: seq<nat>) {
    forall k :: 1 <= k < |d| ==> ParentFirst(d, k)
  }

  /** Heap order, but between `i` and its parent; the parent comes before the children of `i`. */
  ghost predicate LateAt(d: seq<nat>, i: int) {
    && (forall k :: 1 <= k < |d| && k != i ==> ParentFirst(d, k))
    && Grandparent(d, i)
  }

  /** Heap order, but between `i` and its children, and between `start` and its parent
      when the hole is still there. */
  ghost predicate EarlyAt(d: seq<nat>, start: int, i: int) {
    && (forall k :: 1 <= k < |d| && Parent(k) != i && (k != start || i != start) ==> ParentFirst(d, k))
    && Grandparent(d, i)
  }

  ghost predicate Grandparent(d: seq<nat>, i: int) {
    forall k {:trigger d[k]} :: 1 <= i && 1 <= k < |d| && Parent(k) == i ==> d[Parent(i)] <= d[k]
  }

  function Swapped(d: seq<nat>, a: nat, b: nat): seq<nat>
    requires a < |d| && b < |d|
  {
    d[a := d[b]][b := d[a]]
  }

  lemma UpStep(d: seq<nat>, i: nat)
    requires 1 <= i < |d| && LateAt(d, i) && !ParentFirst(d, i)
    ensures LateAt(Swapped(d, i, Parent(i)), Parent(i))
  {
    var p := Parent(i);
    var e := Swapped(d, i, p);
    forall k | 1 <= k < |e| && k != p ensures ParentFirst(e, k) {
      if k != i { assert ParentFirst(d, k); }
      if Parent(k) == i { assert d[p] <= d[k]; }
    }
    if p >= 1 {
      assert ParentFirst(d, p);
      forall k | 1 <= k < |e| && Parent(k) == p ensures e[Parent(p)] <= e[k] {
        if k != i { assert ParentFirst(d, k); }
      }
    }
  }

  lemma DownStep(d: seq<nat>, start: nat, i: nat, child: nat)
    requires i < child < |d| && Parent(child) == i && EarlyAt(d, start, i) && start <= i
    requires d[child] < d[i]
    requires forall k :: 1 <= k < |d| && Parent(k) == i ==> d[child] <= d[k]
    ensures EarlyAt(Swapped(d, i, child), start, child)
  {
    var e := Swapped(d, i, child);
    forall k | 1 <= k < |e| && Parent(k) != child ensures ParentFirst(e, k) {
      if k != i && Parent(k) != i { assert ParentFirst(d, k); }
      if k == i && i >= 1 { assert d[Parent(i)] <= d[child]; }
    }
    forall k | 1 <= k < |e| && Parent(k) == child ensures e[Parent(child)] <= e[k] {
      assert ParentFirst(d, k);
    }
  }

  /** Once no child comes before its parent, only `start` can be late. */
  lemma DownDone(d: seq<nat>, start: nat, i: nat)
    requires start <= i < |d| && EarlyAt(d, start, i)
    requires forall k :: 1 <= k < |d| && Parent(k) == i ==> d[i] <= d[k]
    ensures LateAt(d, start)
  {
    forall k | 1 <= k < |d| && k != start ensures ParentFirst(d, k) {
      if Parent(k) == i { assert d[i] <= d[k]; }
    }
    if i != start && start >= 1 {
      assert ParentFirst(d, start);
      forall k | 1 <= k < |d| && Parent(k) == start ensures d[Parent(start)] <= d[k] {
        assert ParentFirst(d, k);
      }
    }
  }

  lemma UpDone(d: seq<nat>, i: nat)
    requires i < |d| && LateAt(d, i) && (i == 0 || d[Parent(i)] <= d[i])
    ensures Ordered(d)
  {
  }

  lemma {:induction false} RootIsLeast(d: seq<nat>, k: nat)
    requires Ordered(d) && k < |d|
    ensures d[0] <= d[k]
    decreases k
  {
    if k > 0 {
      assert ParentFirst(d, k);
      RootIsLeast(d, Parent(k));
    }
  }

  /** Putting the last entry into the hole at `i` can only disturb the order there. */
  lemma HoleFilled(d: seq<nat>, i: nat)
    requires Ordered(d) && i < |d| - 1
    ensures EarlyAt(d[..|d| - 1][i := d[|d| - 1]], i, i)
  {
    var e := d[..|d| - 1][i := d[|d| - 1]];
    forall k | 1 <= k < |e| && Parent(k) != i && k != i ensures ParentFirst(e, k) {
      assert ParentFirst(d, k);
    }
    forall k | 1 <= i && 1 <= k < |e| && Parent(k) == i ensures e[Parent(i)] <= e[k] {
      assert ParentFirst(d, k) && ParentFirst(d, i);
    }
  }

  // ----- the heap -----

  class TimerHeap {
    var heap: array<Fiber?>
    var heapLen: nat
    ghost var timed: set<Fiber>

    /** The fibers of the heap are those in `timed`, each once, at the index it records. */
    ghost predicate Slots()
      reads this, heap, timed`timerI
    {
      && heapLen <= heap.Length
      && (forall i :: 0 <= i < heapLen ==> heap[i] != null && heap[i] in timed && heap[i].timerI == i)
      && (forall f :: f in timed ==> 0 <= f.timerI < heapLen && heap[f.timerI] == f)
    }

    ghost function Deadlines(): (d: seq<nat>)
      requires Slots()
      reads this, heap, timed`timerI, timed`deadline
      ensures |d| == heapLen && forall i {:trigger d[i]} :: 0 <= i < heapLen ==> d[i] == heap[i].deadline
    {
      DeadlinesTo(heapLen)
    }

    ghost function DeadlinesTo(n: nat): (d: seq<nat>)
      requires Slots() && n <= heapLen
      reads this, heap, timed`timerI, timed`deadline
      ensures |d| == n && forall i {:trigger d[i]} :: 0 <= i < n ==> d[i] == heap[i].deadline
    {
      if n == 0 then [] else DeadlinesTo(n - 1) + [heap[n - 1].deadline]
    }

    ghost predicate Valid()
      reads this, heap, timed`timerI, timed`deadline
    {
      Slots() && Ordered(Deadlines())
    }

    constructor ()
      ensures Valid() && timed == {} && fresh(heap)
    {
      heap := new Fiber?[0];
      heapLen, timed := 0, {};
    }

    /** `granted` is the memory allocator's answer. */
    method Reserve(need: nat, granted: bool) returns (ok: bool)
      requires Slots()
      modifies this`heap
      ensures Slots() && Deadlines() == old(Deadlines())
      ensures ok <==> need <= old(heap.Length) || granted
      ensures ok ==> need <= heap.Length
      ensures ok && need == old(heap.Length) + 1 ==>
        heap.Length == if need == 1 then TIMER_HEAP_INIT_CAP else TIMER_HEAP_GROWTH * old(heap.Length)
      ensures heap == old(heap) || fresh(heap)
    {
      if need <= heap.Length {
        return true;
      }
      var cap := if heap.Length > 0 then heap.Length * TIMER_HEAP_GROWTH else TIMER_HEAP_INIT_CAP;
      while cap < need
        invariant cap > heap.Length
        invariant need == heap.Length + 1 ==>
          cap == if need == 1 then TIMER_HEAP_INIT_CAP else TIMER_HEAP_GROWTH * heap.Length
        decreases need - cap
      {
        cap := cap * TIMER_HEAP_GROWTH;
      }
      if !granted {
        return false;
      }
      var h := new Fiber?[cap];
      forall i | 0 <= i < heap.Length {
        h[i] := heap[i];
      }
      assert forall i {:trigger heap[i]} :: 0 <= i < heapLen ==> h[i] == heap[i];
      heap := h;
      ok := true;
    }

    method Swap(a: nat, b: nat)
      requires Slots() && a < heapLen && b < heapLen && a != b
      modifies heap, timed`timerI
      ensures Slots() && Deadlines() == Swapped(old(Deadlines()), a, b)
    {
      var tmp := heap[a];
      heap[a] := heap[b];
      heap[b] := tmp;
      heap[a].timerI := a;
      heap[b].timerI := b;
    }

    method SiftUp(start: nat)
      requires Slots() && start < heapLen && LateAt(Deadlines(), start)
      modifies heap, timed`timerI
      ensures Valid()
    {
      hide Slots, LateAt;
      var i := start;
      while i > 0
        invariant 0 <= i < heapLen && Slots() && LateAt(Deadlines(), i)
      {
        Entry(i);
        var parent := (i - 1) / 2;
        if heap[parent].deadline <= heap[i].deadline {
          break;
        }
        UpStep(Deadlines(), i);
        Swap(i, parent);
        i := parent;
      }
      UpDone(Deadlines(), i);
    }

    lemma Entry(i: nat)
      requires Slots() && i < heapLen
      ensures heapLen <= heap.Length
      ensures forall k :: 0 <= k < heapLen ==> heap[k] != null && Deadlines()[k] == heap[k].deadline
    {
    }

    /** Leaves at most `start` before its parent. */
    method SiftDown(start: nat)
      requires Slots() && start < heapLen && EarlyAt(Deadlines(), start, start)
      modifies heap, timed`timerI
      ensures Slots() && LateAt(Deadlines(), start)
    {
      hide Slots, EarlyAt;
      var i := start;
      while true
        invariant start <= i < heapLen && Slots() && EarlyAt(Deadlines(), start, i)
        decreases heapLen - i
      {
        Entry(i);
        var l := 2 * i + 1;
        var r := 2 * i + 2;
        var smallest := i;
        if l < heapLen && heap[l].deadline < heap[smallest].deadline {
          smallest := l;
        }
        if r < heapLen && heap[r].deadline < heap[smallest].deadline {
          smallest := r;
        }
        if smallest == i {
          break;
        }
        DownStep(Deadlines(), start, i, smallest);
        Swap(i, smallest);
        i := smallest;
      }
      DownDone(Deadlines(), start, i);
    }

    lemma FirstIsLeast()
      requires Valid() && heapLen > 0
      ensures forall f :: f in timed ==> heap[0].deadline <= f.deadline
    {
      forall f | f in timed ensures heap[0].deadline <= f.deadline {
        RootIsLeast(Deadlines(), f.timerI);
      }
    }

    /** Puts `f` into the heap under a deadline, unless the heap is full and cannot grow. */
    method Add(f: Fiber, deadline: Time, granted: bool) returns (ok: bool)
      requires Valid() && f !in timed
      modifies this, heap, timed`timerI, f`timerI, f`deadline
      ensures Valid()
      ensures ok <==> old(heapLen < heap.Length) || granted
      ensures ok ==> timed == old(timed) + {f} && f.deadline == deadline
      ensures !ok ==> timed == old(timed) && unchanged(f) && unchanged(timed)
      ensures heap == old(heap) || fresh(heap)
    {
      ok := Reserve(heapLen + 1, granted);
      if !ok {
        return;
      }
      Append(f, deadline);
      SiftUp(f.timerI);
    }

    method Append(f: Fiber, deadline: Time)
      requires Valid() && f !in timed && heapLen < heap.Length
      modifies this`heapLen, this`timed, heap, f`timerI, f`deadline
      ensures Slots() && heapLen == old(heapLen) + 1 && f.timerI == old(heapLen) && f.deadline == deadline
      ensures LateAt(Deadlines(), f.timerI) && timed == old(timed) + {f}
    {
      ghost var d := Deadlines();
      f.deadline := deadline;
      f.timerI := heapLen;
      heap[heapLen] := f;
      heapLen := heapLen + 1;
      timed := timed + {f};
      assert Slots();
      assert Deadlines() == d + [deadline];
      forall k | 1 <= k < heapLen && k != f.timerI ensures ParentFirst(Deadlines(), k) { assert ParentFirst(d, k); }
    }

    /** Takes `f` out, wherever it is in the heap. */
    method Remove(f: Fiber)
      requires Valid() && (f in timed || f.timerI == NO_TIMER)
      modifies this`heapLen, this`timed, heap, timed`timerI
      ensures Valid() && timed == old(timed) - {f} && f.timerI == NO_TIMER
    {
      var i := f.timerI;
      if i == NO_TIMER {
        return;
      }
      var last := TakeOut(f);
      if i != last {
        SiftDown(i);
        SiftUp(i);
      }
    }

    /** The last entry goes into the hole. */
    method TakeOut(f: Fiber) returns (last: nat)
      requires Valid() && f in timed
      modifies this`heapLen, this`timed, heap, timed`timerI
      ensures Slots() && timed == old(timed) - {f} && f.timerI == NO_TIMER
      ensures last == heapLen == old(heapLen) - 1
      ensures old(f.timerI) != last ==> old(f.timerI) < heapLen && EarlyAt(Deadlines(), old(f.timerI), old(f.timerI))
      ensures old(f.timerI) == last ==> Valid()
    {
      ghost var d := Deadlines();
      var i := f.timerI;
      f.timerI := NO_TIMER;
      heapLen := heapLen - 1;
      last := heapLen;
      timed := timed - {f};
      if i != last {
        HoleFilled(d, i);
        heap[i] := heap[last];
        heap[i].timerI := i;
        assert Slots();
        assert Deadlines() == d[..last][i := d[last]];
      } else {
        assert Slots();
        assert Deadlines() == d[..last];
        forall k | 1 <= k < last ensures ParentFirst(Deadlines(), k) { assert ParentFirst(d, k); }
      }
    }
  }

  // ----- time -----

  /** An absolute deadline for a relative timeout; UINT64_MAX if it lies beyond the clock. */
  function DeadlineAfter(ns: nat, now: Time): (deadline: Time)
    ensures now <= deadline
    ensures deadline == now + ns || (deadline == NO_DEADLINE && now + ns > UINT64_MAX)
  {
    if ns > NO_DEADLINE - now then NO_DEADLINE else now + ns
  }

  /** `ms` milliseconds last from `now` at least to the deadline. */
  predicate Covers(ms: int, now: nat, deadline: nat) { now + ms * NS_PER_MS >= deadline }

  /** The least number of milliseconds that covers the earliest deadline, capped at the
      greatest 32-bit timeout; -1, for ever, without one.  No sum leaves 64 bits. */
  method NextTimeoutMs(timers: TimerHeap, now: Time) returns (ms: int)
    requires timers.Valid()
    ensures timers.timed == {} <==> ms == -1
    ensures -1 <= ms <= INT32_MAX
    ensures forall f :: f in timers.timed && ms > 0 ==> !Covers(ms - 1, now, f.deadline)
    ensures ms == 0 ==> exists f :: f in timers.timed && f.deadline <= now
    ensures 0 <= ms < INT32_MAX ==> exists f :: f in timers.timed && Covers(ms, now, f.deadline)
  {
    if timers.heapLen == 0 {
      return -1;
    }
    var first: Fiber := timers.heap[0];
    assert first in timers.timed;
    assert forall f :: f in timers.timed ==> first.deadline <= f.deadline by { timers.FirstIsLeast(); }
    var deadline := first.deadline;
    if deadline <= now {
      return 0;
    }
    var left := deadline - now;
    if left >= INT32_MAX * NS_PER_MS {
      return INT32_MAX;
    }
    assert left + 999999 <= UINT64_MAX;
    ms := (left + 999999) / NS_PER_MS;
  }
}
