/** Threads: eight slots, one processor, a timer. A context switch is one atomic step. */
module Scheduler {
  import opened Words

  const MAX_THREADS := 8
  const THREAD_QUANTUM_TICKS := 2

  datatype State = Unused | Ready | Running | Blocked | Sleeping

  /** A thread. `inBlock` says where it resumes when it is switched to: inside thread_block, which then clears
      `wakePending` before interrupts come back on, or anywhere else. */
  datatype Slot = Slot(state: State, wakePending: bool, inBlock: bool)

  type Slots = s: seq<Slot> | |s| == MAX_THREADS witness seq(8, _ => Slot(Unused, false, false))

  datatype Sched = Sched(slots: Slots, current: int, quantum: nat)

  /** Outside a switch exactly one thread is running, and it is the current one. */
  ghost predicate OneRunning(s: Sched) {
    && 0 <= s.current < MAX_THREADS && s.quantum <= THREAD_QUANTUM_TICKS
    && forall i :: 0 <= i < MAX_THREADS ==> (s.slots[i].state == Running <==> i == s.current)
  }

  /** After the last runnable thread has exited, nothing runs until something becomes ready. */
  ghost predicate Halted(s: Sched) {
    && 0 <= s.current < MAX_THREADS && s.quantum <= THREAD_QUANTUM_TICKS
    && s.slots[s.current].state == Unused
    && forall i :: 0 <= i < MAX_THREADS ==> s.slots[i].state != Running
  }

  predicate InRange(s: Sched) { 0 <= s.current < MAX_THREADS }

  // ---- picking ----

  /** Steps from `from` round to `to`, from 1 to 8. */
  function Distance(from: int, to: int): (d: int)
    requires 0 <= from < MAX_THREADS && 0 <= to < MAX_THREADS
    ensures 1 <= d <= MAX_THREADS && (from + d) % MAX_THREADS == to
  {
    if to > from then to - from else to - from + MAX_THREADS
  }

  predicate ReadyAt(s: Sched, i: int) { 0 <= i < MAX_THREADS && s.slots[i].state == Ready }

  /** `next` is the first ready thread after the current one, in the order of the slots. */
  ghost predicate IsNext(s: Sched, next: int)
    requires InRange(s)
  {
    && ReadyAt(s, next)
    && forall i :: ReadyAt(s, i) ==> Distance(s.current, next) <= Distance(s.current, i)
  }

  function PickFrom(s: Sched, k: nat): Option<int>
    requires InRange(s) && 1 <= k <= MAX_THREADS + 1
    decreases MAX_THREADS + 1 - k
  {
    if k == MAX_THREADS + 1 then None else
    var i := (s.current + k) % MAX_THREADS;
    if s.slots[i].state == Ready then Some(i) else PickFrom(s, k + 1)
  }

  /** The nearest ready thread at distance `k` or more. */
  lemma {:induction false} PickFromNearest(s: Sched, k: nat)
    requires InRange(s) && 1 <= k <= MAX_THREADS + 1
    ensures var next := PickFrom(s, k);
      && (next.Some? ==> ReadyAt(s, next.value) && k <= Distance(s.current, next.value))
      && (next.Some? ==> forall i :: ReadyAt(s, i) && k <= Distance(s.current, i) ==>
            Distance(s.current, next.value) <= Distance(s.current, i))
      && (next.None? ==> forall i :: ReadyAt(s, i) ==> Distance(s.current, i) < k)
    decreases MAX_THREADS + 1 - k
  {
    hide Distance;
    Distances(s.current);
    if k <= MAX_THREADS {
      var i := (s.current + k) % MAX_THREADS;
      assert 0 <= i < MAX_THREADS && Distance(s.current, i) == k by { AtDistance(s.current, k); }
      PickFromNearest(s, k + 1);
    }
  }

  lemma AtDistance(from: int, k: nat)
    requires 0 <= from < MAX_THREADS && 1 <= k <= MAX_THREADS
    ensures var i := (from + k) % MAX_THREADS; 0 <= i < MAX_THREADS && Distance(from, i) == k
  {
  }

  /** Different slots are at different distances. */
  lemma Distances(from: int)
    requires 0 <= from < MAX_THREADS
    ensures forall i, j :: 0 <= i < MAX_THREADS && 0 <= j < MAX_THREADS && Distance(from, i) == Distance(from, j) ==> i == j
  {
  }

  /** What pick_next returns: the next ready thread, or the current one if it may go on, or nothing. */
  function Pick(s: Sched): (next: Option<int>)
    requires InRange(s)
    ensures (exists i :: ReadyAt(s, i)) ==> next.Some? && IsNext(s, next.value)
    ensures !(exists i :: ReadyAt(s, i)) ==> next == if s.slots[s.current].state == Running then Some(s.current) else None
  {
    var next := PickFrom(s, 1);
    PickFromNearest(s, 1);
    if next.Some? then next else if s.slots[s.current].state == Running then Some(s.current) else None
  }

  // ---- the operations ----

  /** The processor moves to `next`. */
  function SwitchTo(s: Sched, next: int): Sched
    requires InRange(s) && 0 <= next < MAX_THREADS
  {
    var prev := s.slots[s.current];
    var slots := if prev.state == Running then s.slots[s.current := prev.(state := Ready)] else s.slots;
    var n := slots[next];
    s.(slots := slots[next := Slot(Running, n.wakePending && !n.inBlock, false)], current := next)
  }

  /** scheduler_tick. */
  function Tick(s: Sched): Sched
    requires InRange(s)
  {
    if s.quantum > 0 then s.(quantum := s.quantum - 1) else
    var s1 := s.(quantum := THREAD_QUANTUM_TICKS);
    match Pick(s1)
    case None => s1
    case Some(next) => if next == s.current then s1 else SwitchTo(s1, next)
  }

  /** thread_yield. */
  function Yield(s: Sched): Sched
    requires InRange(s)
  {
    match Pick(s)
    case None => s
    case Some(next) => if next == s.current then s else SwitchTo(s, next)
  }

  /** thread_block, up to the point where some thread, maybe the same, runs on. */
  function Block(s: Sched): Sched
    requires InRange(s)
  {
    var me := s.slots[s.current];
    if me.wakePending then s.(slots := s.slots[s.current := me.(wakePending := false)]) else
    var s1 := s.(slots := s.slots[s.current := me.(state := Blocked, inBlock := true)]);
    match Pick(s1)
    case None => s.(slots := s.slots[s.current := me.(state := Running, wakePending := false)])
    case Some(next) => SwitchTo(s1, next)
  }

  /** thread_wake. */
  function Wake(s: Sched, i: int): Sched
    requires 0 <= i < MAX_THREADS
  {
    var t := s.slots[i];
    var state := if t.state == Blocked || t.state == Sleeping then Ready else t.state;
    s.(slots := s.slots[i := t.(wakePending := true, state := state)])
  }

  /** thread_exit: with nothing ready, the processor halts. */
  function Exit(s: Sched): Sched
    requires InRange(s)
  {
    var s1 := s.(slots := s.slots[s.current := s.slots[s.current].(state := Unused)]);
    match Pick(s1)
    case None => s1
    case Some(next) => SwitchTo(s1, next)
  }

  function FreeFrom(s: Sched, k: nat): (r: Option<int>)
    requires k <= MAX_THREADS
    ensures r.Some? ==> k <= r.value < MAX_THREADS && s.slots[r.value].state == Unused
    ensures r.None? ==> forall i :: k <= i < MAX_THREADS ==> s.slots[i].state != Unused
    decreases MAX_THREADS - k
  {
    if k == MAX_THREADS then None else if s.slots[k].state == Unused then Some(k) else FreeFrom(s, k + 1)
  }

  /** thread_create: `stack` says whether there was memory for one. */
  function Create(s: Sched, stack: bool): Sched {
    match FreeFrom(s, 0)
    case None => s
    case Some(i) => if stack then s.(slots := s.slots[i := Slot(Ready, false, false)]) else s
  }

  // ---- one thread runs ----

  datatype Event = TickEvent | YieldEvent | BlockEvent | ExitEvent | WakeEvent(thread: int) | CreateEvent(stack: bool)

  ghost predicate Possible(s: Sched, e: Event) {
    && InRange(s)
    && (e.WakeEvent? ==> 0 <= e.thread < MAX_THREADS)
    && (Halted(s) ==> e.TickEvent? || e.WakeEvent?)
  }

  ghost function Step(s: Sched, e: Event): Sched
    requires Possible(s, e)
  {
    match e
    case TickEvent => Tick(s)
    case YieldEvent => Yield(s)
    case BlockEvent => Block(s)
    case ExitEvent => Exit(s)
    case WakeEvent(i) => Wake(s, i)
    case CreateEvent(stack) => Create(s, stack)
  }

  /** Whatever happens, one thread is running and it is the current one, unless an exit left nothing ready. */
  lemma StepKeepsOneRunning(s: Sched, e: Event)
    requires Possible(s, e) && (OneRunning(s) || Halted(s))
    ensures OneRunning(Step(s, e)) || Halted(Step(s, e))
    ensures OneRunning(s) && Halted(Step(s, e)) <==> OneRunning(s) && e.ExitEvent? && forall i :: !ReadyAt(s, i)
  {
    hide Distance, Tick, Yield, Block, Exit, FreeFrom, Pick;
    TickKeeps(s);
    BlockKeeps(s);
    if e.ExitEvent? {
      ExitKeeps(s);
    }
  }

  lemma TickKeeps(s: Sched)
    requires OneRunning(s) || Halted(s)
    ensures OneRunning(Tick(s)) || (Halted(s) && Halted(Tick(s)))
    ensures OneRunning(s) ==> OneRunning(Yield(s))
  {
    hide Distance;
  }

  lemma BlockKeeps(s: Sched)
    requires OneRunning(s) || Halted(s)
    ensures OneRunning(s) ==> OneRunning(Block(s))
  {
    hide Distance;
  }

  lemma ExitKeeps(s: Sched)
    requires OneRunning(s)
    ensures if exists i :: ReadyAt(s, i) then OneRunning(Exit(s)) && !Halted(Exit(s)) else Halted(Exit(s)) && !OneRunning(Exit(s))
  {
    hide Distance;
    var s1 := s.(slots := s.slots[s.current := s.slots[s.current].(state := Unused)]);
    assert forall i :: ReadyAt(s1, i) <==> ReadyAt(s, i);
  }

  // ---- every ready thread runs ----

  /** While `x` is ready, each switch either takes the processor to it or brings it nearer, and the ticks left before
      that happens never exceed this bound. */
  ghost function TicksLeft(s: Sched, x: int): int
    requires InRange(s) && 0 <= x < MAX_THREADS
  {
    3 * (Distance(s.current, x) - 1) + s.quantum + 1
  }

  lemma StepNearer(s: Sched, e: Event, x: int)
    requires OneRunning(s) && Possible(s, e) && ReadyAt(s, x)
    ensures var s' := Step(s, e);
      && OneRunning(s')
      && (s'.current == x || (
        && ReadyAt(s', x)
        && (if s'.current == s.current then 0 else 1) <= Distance(s.current, x) - Distance(s'.current, x)
        && (if e.TickEvent? then 1 else 0) <= TicksLeft(s, x) - TicksLeft(s', x)))
  {
    StepKeepsOneRunning(s, e);
    var s' := Step(s, e);
    if s'.current != x {
      StaysReady(s, e, x);
      if s'.current != s.current {
        SwitchNearer(s, e, x);
      } else {
        NoSwitch(s, e, x);
      }
    }
  }

  lemma StaysReady(s: Sched, e: Event, x: int)
    requires OneRunning(s) && Possible(s, e) && ReadyAt(s, x)
    ensures Step(s, e).current == x || ReadyAt(Step(s, e), x)
  {
    hide Distance;
  }

  lemma SwitchNearer(s: Sched, e: Event, x: int)
    requires OneRunning(s) && Possible(s, e) && ReadyAt(s, x)
    requires Step(s, e).current != s.current && Step(s, e).current != x
    ensures var s' := Step(s, e);
      && Distance(s'.current, x) < Distance(s.current, x)
      && s'.quantum == (if e.TickEvent? then THREAD_QUANTUM_TICKS else s.quantum)
  {
    var s' := Step(s, e);
    assert ReadyAt(s, x);
    var s1 := match e
      case TickEvent => s.(quantum := THREAD_QUANTUM_TICKS)
      case BlockEvent => s.(slots := s.slots[s.current := s.slots[s.current].(state := Blocked, inBlock := true)])
      case ExitEvent => s.(slots := s.slots[s.current := s.slots[s.current].(state := Unused)])
      case _ => s;
    assert ReadyAt(s1, x);
    assert Pick(s1) == Some(s'.current) && IsNext(s1, s'.current);
  }

  lemma NoSwitch(s: Sched, e: Event, x: int)
    requires OneRunning(s) && Possible(s, e) && ReadyAt(s, x) && Step(s, e).current == s.current
    ensures Step(s, e).quantum == if e.TickEvent? then s.quantum - 1 else s.quantum
  {
    hide Distance;
    match e {
      case TickEvent =>
        var s1 := s.(quantum := THREAD_QUANTUM_TICKS);
        assert ReadyAt(s1, x);
      case _ =>
    }
  }

  ghost predicate AllPossible(s: Sched, es: seq<Event>)
    decreases |es|
  {
    es == [] || (Possible(s, es[0]) && AllPossible(Step(s, es[0]), es[1..]))
  }

  ghost function After(s: Sched, es: seq<Event>): Sched
    requires AllPossible(s, es)
    decreases |es|
  {
    if es == [] then s else After(Step(s, es[0]), es[1..])
  }

  ghost function Ticks(es: seq<Event>): nat {
    if es == [] then 0 else (if es[0].TickEvent? then 1 else 0) + Ticks(es[1..])
  }

  ghost function Switches(s: Sched, es: seq<Event>): nat
    requires AllPossible(s, es)
    decreases |es|
  {
    if es == [] then 0 else
    (if Step(s, es[0]).current == s.current then 0 else 1) + Switches(Step(s, es[0]), es[1..])
  }

  /** `x` gets the processor at some point of the run. */
  ghost predicate Runs(s: Sched, es: seq<Event>, x: int)
    requires AllPossible(s, es)
    decreases |es|
  {
    s.current == x || (es != [] && Runs(Step(s, es[0]), es[1..], x))
  }

  lemma {:induction false} RunsWithin(s: Sched, es: seq<Event>, x: int)
    requires OneRunning(s) && ReadyAt(s, x) && AllPossible(s, es)
    requires Ticks(es) >= TicksLeft(s, x) || Switches(s, es) >= Distance(s.current, x)
    ensures Runs(s, es, x)
    decreases |es|
  {
    hide Distance, Step;
    if es != [] {
      StepNearer(s, es[0], x);
      if Step(s, es[0]).current != x {
        RunsWithin(Step(s, es[0]), es[1..], x);
      }
    }
  }

  /** A ready thread runs within seven switches, and within 21 timer ticks. */
  lemma NoStarvation(s: Sched, es: seq<Event>, x: int)
    requires OneRunning(s) && ReadyAt(s, x) && AllPossible(s, es)
    requires Ticks(es) >= 21 || Switches(s, es) >= 7
    ensures Runs(s, es, x)
  {
    RunsWithin(s, es, x);
  }

  // ---- in place ----

  class Threads {
    const slots: array<Slot>
    var current: int
    var quantum: nat

    ghost predicate Valid()
      reads this
    {
      slots.Length == MAX_THREADS && 0 <= current < MAX_THREADS
    }

    ghost function Value(): (s: Sched)
      requires Valid()
      reads this, slots
      ensures InRange(s)
    {
      Sched(slots[..], current, quantum)
    }

    /** thread_init: the boot context becomes thread 0. */
    constructor ()
      ensures Valid() && fresh(slots) && OneRunning(Value()) && current == 0
    {
      slots := new Slot[MAX_THREADS](i => if i == 0 then Slot(Running, false, false) else Slot(Unused, false, false));
      current := 0;
      quantum := THREAD_QUANTUM_TICKS;
    }

    method PickNext() returns (next: Option<int>)
      requires Valid()
      ensures next == Pick(Value())
    {
      ghost var s := Value();
      var i := 1;
      while i <= MAX_THREADS
        invariant 1 <= i <= MAX_THREADS + 1 && PickFrom(s, 1) == PickFrom(s, i)
      {
        var t := (current + i) % MAX_THREADS;
        if slots[t].state == Ready {
          return Some(t);
        }
        i := i + 1;
      }
      return if slots[current].state == Running then Some(current) else None;
    }

    method Switch(next: int)
      requires Valid() && 0 <= next < MAX_THREADS
      modifies this`current, slots
      ensures Valid() && Value() == SwitchTo(old(Value()), next)
    {
      if slots[current].state == Running {
        slots[current] := slots[current].(state := Ready);
      }
      slots[next] := Slot(Running, slots[next].wakePending && !slots[next].inBlock, false);
      current := next;
    }

    method TimerTick()
      requires Valid()
      modifies this, slots
      ensures Valid() && Value() == Tick(old(Value()))
    {
      if quantum > 0 {
        quantum := quantum - 1;
        return;
      }
      quantum := THREAD_QUANTUM_TICKS;
      var next := PickNext();
      if next.Some? && next.value != current {
        Switch(next.value);
      }
    }

    method ThreadYield()
      requires Valid()
      modifies this, slots
      ensures Valid() && Value() == Yield(old(Value()))
    {
      var next := PickNext();
      if next.Some? && next.value != current {
        Switch(next.value);
      }
    }

    method ThreadBlock()
      requires Valid()
      modifies this, slots
      ensures Valid() && Value() == Block(old(Value()))
    {
      if slots[current].wakePending {
        slots[current] := slots[current].(wakePending := false);
        return;
      }
      var inBlock := slots[current].inBlock;
      slots[current] := slots[current].(state := Blocked, inBlock := true);
      var next := PickNext();
      if next.Some? {
        Switch(next.value);
      } else {
        slots[current] := slots[current].(state := Running, inBlock := inBlock, wakePending := false);
      }
    }

    method ThreadWake(i: int)
      requires Valid() && 0 <= i < MAX_THREADS
      modifies slots
      ensures Valid() && Value() == Wake(old(Value()), i)
    {
      slots[i] := slots[i].(wakePending := true);
      if slots[i].state == Blocked || slots[i].state == Sleeping {
        slots[i] := slots[i].(state := Ready);
      }
    }

    /** Returns only if nothing is ready: the processor halts. */
    method ThreadExit() returns (halted: bool)
      requires Valid()
      modifies this, slots
      ensures Valid() && Value() == Exit(old(Value()))
      ensures halted <==> forall i :: !ReadyAt(old(Value()), i) || i == old(current)
    {
      ghost var s := Value();
      slots[current] := slots[current].(state := Unused);
      ghost var s1 := Value();
      assert forall i :: ReadyAt(s1, i) <==> ReadyAt(s, i) && i != s.current;
      var next := PickNext();
      if next.None? {
        return true;
      }
      Switch(next.value);
      return false;
    }

    method ThreadCreate(stack: bool) returns (id: Option<int>)
      requires Valid()
      modifies slots
      ensures Valid() && Value() == Create(old(Value()), stack)
      ensures id.Some? ==> 0 <= id.value < MAX_THREADS && ReadyAt(Value(), id.value) && old(slots[id.value]).state == Unused
      ensures id.None? ==> Value() == old(Value()) && (stack ==> forall i :: 0 <= i < MAX_THREADS ==> slots[i].state != Unused)
    {
      var i := 0;
      while i < MAX_THREADS && slots[i].state != Unused
        invariant 0 <= i <= MAX_THREADS && FreeFrom(Value(), 0) == FreeFrom(Value(), i)
        invariant forall k :: 0 <= k < i ==> slots[k].state != Unused
      {
        i := i + 1;
      }
      if i == MAX_THREADS || !stack {
        return None;
      }
      slots[i] := Slot(Ready, false, false);
      return Some(i);
    }
  }
}
