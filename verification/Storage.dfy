/** The storage thread: other threads queue requests and wait, one worker serves them. Steps of different threads
    interleave as the scheduler and the timer decide; a step is a section with interrupts off, or one access to a
    shared variable. */
module Storage {
  import opened Words
  import opened FsLayout
  import opened Scheduler

  // ---- requests ----

  datatype Op = ReadOp(lba: nat, count: nat) | WriteOp(lba: nat, data: seq<Sector>)

  type Answer = seq<Sector>

  ghost function WriteAll(d: Disk, lba: nat, data: seq<Sector>): Disk
    decreases |data|
  {
    if data == [] then d else WriteAll(d[lba := data[0]], lba + 1, data[1..])
  }

  ghost function DiskAfter(d: Disk, op: Op): Disk {
    match op
    case ReadOp(_, _) => d
    case WriteOp(lba, data) => WriteAll(d, lba, data)
  }

  ghost function ReadAll(d: Disk, lba: nat, count: nat): seq<Sector>
    decreases count
  {
    if count == 0 then [] else [ReadSector(d, lba)] + ReadAll(d, lba + 1, count - 1)
  }

  ghost function AnswerTo(d: Disk, op: Op): Answer {
    match op
    case ReadOp(lba, count) => ReadAll(d, lba, count)
    case WriteOp(_, _) => []
  }

  datatype Request = Request(op: Op, waiter: int, done: bool, answer: Option<Answer>)

  /** One request served: kept only to say in which order things happened. */
  datatype Service = Service(id: nat, op: Op, answer: Answer)

  // ---- the system ----

  /** What a thread does next. Requests are named by their place in the order they were made. */
  datatype Pc =
    | Away
    | Enqueue(r: nat) | CheckWorker(r: nat) | WakeWorker(r: nat) | TestDone(r: nat) | BlockOn(r: nat)
    | Start | Dequeue | Serve(r: nat) | Finish(r: nat) | WakeWaiter(r: nat) | BlockIdle

  /** `home` is the thread that runs the storage worker, `worker` the global that tells the others once it has started. */
  datatype System = System(sched: Sched, pcs: seq<Pc>, home: int, worker: Option<int>, requests: seq<Request>, queue: seq<nat>,
                           disk: Disk, submitted: seq<nat>, log: seq<Service>, returned: map<nat, Answer>)

  datatype Action = Timer | Proceed | Submit(op: Op) | GiveUp | Spawn(stack: bool) | Quit | Spurious(thread: int)

  ghost predicate Enabled(s: System, a: Action) {
    && |s.pcs| == MAX_THREADS
    && match a
       case Timer => InRange(s.sched)
       case Spurious(j) => 0 <= j < MAX_THREADS
       case Proceed => OneRunning(s.sched) && Sound(s, s.sched.current) && !s.pcs[s.sched.current].Away?
       case _ => OneRunning(s.sched) && s.pcs[s.sched.current].Away?
  }

  /** Thread `i` now stands at `pc`. */
  function At(s: System, i: int, pc: Pc): System
    requires 0 <= i < |s.pcs|
  {
    s.(pcs := s.pcs[i := pc])
  }

  ghost function Next(s: System, a: Action): System
    requires Enabled(s, a)
  {
    var i := s.sched.current;
    match a
    case Timer => s.(sched := Tick(s.sched))
    case Spurious(j) => s.(sched := Wake(s.sched, j))
    case GiveUp => s.(sched := Yield(s.sched))
    case Spawn(stack) => s.(sched := Create(s.sched, stack))
    case Quit => s.(sched := Exit(s.sched))
    case Submit(op) => At(s.(requests := s.requests + [Request(op, i, false, None)]), i, Enqueue(|s.requests|))
    case Proceed => ProceedNext(s, i)
  }

  /** The request a thread's next step is about exists; the worker it is about to wake is known. */
  predicate Sound(s: System, i: int)
    requires 0 <= i < |s.pcs|
  {
    match s.pcs[i]
    case TestDone(r) => r < |s.requests| && (s.requests[r].done ==> s.requests[r].answer.Some?)
    case Serve(r) => r < |s.requests|
    case Finish(r) => r < |s.requests|
    case WakeWaiter(r) => r < |s.requests| && 0 <= s.requests[r].waiter < MAX_THREADS
    case WakeWorker(_) => s.worker.Some? && 0 <= s.worker.value < MAX_THREADS
    case _ => true
  }

  ghost function ProceedNext(s: System, i: int): System
    requires 0 <= i < |s.pcs| == MAX_THREADS && i == s.sched.current && Sound(s, i)
  {
    match s.pcs[i]
    case Away => s
    // submit
    case Enqueue(r) => At(s.(queue := s.queue + [r], submitted := s.submitted + [r]), i, CheckWorker(r))
    case CheckWorker(r) => At(s, i, if s.worker.Some? then WakeWorker(r) else TestDone(r))
    case WakeWorker(r) => At(s.(sched := Wake(s.sched, s.worker.value)), i, TestDone(r))
    case TestDone(r) =>
      if s.requests[r].done then At(s.(returned := s.returned[r := s.requests[r].answer.value]), i, Away)
      else At(s, i, BlockOn(r))
    case BlockOn(r) => At(s.(sched := Block(s.sched)), i, TestDone(r))
    // storage_thread_main
    case Start => At(s.(worker := Some(i)), i, Dequeue)
    case Dequeue =>
      if s.queue == [] then At(s, i, BlockIdle) else At(s.(queue := s.queue[1..]), i, Serve(s.queue[0]))
    case Serve(r) =>
      var q := s.requests[r];
      var answer := AnswerTo(s.disk, q.op);
      At(s.(disk := DiskAfter(s.disk, q.op), requests := s.requests[r := q.(answer := Some(answer))],
            log := s.log + [Service(r, q.op, answer)]), i, Finish(r))
    case Finish(r) => At(s.(requests := s.requests[r := s.requests[r].(done := true)]), i, WakeWaiter(r))
    case WakeWaiter(r) => At(s.(sched := Wake(s.sched, s.requests[r].waiter)), i, Dequeue)
    case BlockIdle => At(s.(sched := Block(s.sched)), i, Dequeue)
  }

  // ---- the invariant ----

  predicate WorkerPc(pc: Pc) {
    pc.Start? || pc.Dequeue? || pc.Serve? || pc.Finish? || pc.WakeWaiter? || pc.BlockIdle?
  }

  predicate Waiting(pc: Pc) { pc.CheckWorker? || pc.WakeWorker? || pc.TestDone? || pc.BlockOn? }

  predicate InGap(pc: Pc) { pc.CheckWorker? || pc.WakeWorker? }

  /** A thread suspended inside thread_block looks again when it resumes; only such a thread is ever blocked. */
  predicate ThreadOk(t: Slot, pc: Pc) {
    && t.state != Sleeping
    && (t.inBlock ==> (t.state == Blocked || t.state == Ready) && (pc.TestDone? || pc.Dequeue?))
    && (t.state == Blocked ==> t.inBlock)
    && (t.state == Unused ==> pc.Away?)
  }

  /** Blocked, or about to block with no wake pending: it will not look again before someone wakes it. */
  predicate Asleep(t: Slot, pc: Pc) {
    t.state == Blocked || ((pc.BlockOn? || pc.BlockIdle?) && !t.wakePending)
  }

  ghost predicate Threaded(s: System) {
    && (OneRunning(s.sched) || Halted(s.sched)) && |s.pcs| == MAX_THREADS && 0 <= s.home < MAX_THREADS
    && (forall j :: 0 <= j < MAX_THREADS ==> ThreadOk(s.sched.slots[j], s.pcs[j]))
    && (forall j :: 0 <= j < MAX_THREADS ==> (WorkerPc(s.pcs[j]) <==> j == s.home))
    && s.worker == (if s.pcs[s.home].Start? then None else Some(s.home))
    && (forall j :: 0 <= j < MAX_THREADS && s.pcs[j].WakeWorker? ==> s.worker.Some?)
  }

  /** Thread `j` at `pc` is making or waiting for a request of its own. */
  predicate OwnedAt(requests: seq<Request>, submitted: seq<nat>, j: int, pc: Pc) {
    && (pc.Enqueue? ==> pc.r < |requests| && requests[pc.r].waiter == j && pc.r !in submitted)
    && (Waiting(pc) ==> pc.r < |requests| && requests[pc.r].waiter == j && pc.r in submitted)
  }

  /** Someone waits for a request that was queued and is not done. */
  predicate AwaitedAt(requests: seq<Request>, pcs: seq<Pc>, r: nat) {
    && r < |requests| && 0 <= requests[r].waiter < |pcs|
    && (!requests[r].done ==> Waiting(pcs[requests[r].waiter]) && pcs[requests[r].waiter].r == r)
  }

  ghost predicate Owned(requests: seq<Request>, pcs: seq<Pc>, submitted: seq<nat>) {
    && (forall r :: 0 <= r < |requests| ==> 0 <= requests[r].waiter < |pcs|)
    && (forall j :: 0 <= j < |pcs| ==> OwnedAt(requests, submitted, j, pcs[j]))
    && (forall r :: r in submitted ==> AwaitedAt(requests, pcs, r))
  }

  function Ids(log: seq<Service>): (ids: seq<nat>)
    ensures |ids| == |log| && forall k :: 0 <= k < |log| ==> ids[k] == log[k].id
  {
    seq(|log|, k requires 0 <= k < |log| => log[k].id)
  }

  function InService(pc: Pc): seq<nat> { if pc.Serve? then [pc.r] else [] }

  ghost predicate Distinct(ids: seq<nat>) { forall i, j :: 0 <= i < j < |ids| ==> ids[i] != ids[j] }

  /** Requests leave in the order they came, each once. */
  ghost predicate Fifo(submitted: seq<nat>, log: seq<Service>, working: Pc, queue: seq<nat>) {
    && Distinct(submitted)
    && submitted == Ids(log) + InService(working) + queue
    && (working.Finish? || working.WakeWaiter? ==> log != [] && log[|log| - 1].id == working.r)
  }

  /** Those served, and only they, are done. */
  ghost predicate DoneIsServed(requests: seq<Request>, log: seq<Service>, working: Pc) {
    forall r :: 0 <= r < |requests| ==> (requests[r].done <==> r in Ids(log) && working != Finish(r))
  }

  ghost function Replay(d: Disk, log: seq<Service>): Disk {
    if log == [] then d else DiskAfter(Replay(d, log[..|log| - 1]), log[|log| - 1].op)
  }

  /** The disk and every answer are what serving the requests one after the other from disk `d` gives. */
  ghost predicate Serial(disk: Disk, requests: seq<Request>, log: seq<Service>, d: Disk) {
    disk == Replay(d, log) && forall k :: 0 <= k < |log| ==> ServedRight(requests, log, d, k)
  }

  /** What submit has returned is the answer of a finished request. */
  ghost predicate Returned(requests: seq<Request>, returned: map<nat, Answer>) {
    forall r :: r in returned ==> r < |requests| && requests[r].done && requests[r].answer == Some(returned[r])
  }

  ghost predicate ServedRight(requests: seq<Request>, log: seq<Service>, d: Disk, k: int)
    requires 0 <= k < |log|
  {
    var e := log[k];
    && e.id < |requests| && requests[e.id].op == e.op && requests[e.id].answer == Some(e.answer)
    && e.answer == AnswerTo(Replay(d, log[..k]), e.op)
  }

  /** The worker sleeps over a queued request only while a thread is between queueing and waking it. */
  ghost predicate WorkerWakes(slots: Slots, pcs: seq<Pc>, home: int, queue: seq<nat>)
    requires 0 <= home < |pcs| == MAX_THREADS
  {
    queue != [] && Asleep(slots[home], pcs[home]) ==> SomeInGap(pcs)
  }

  /** A thread sleeps over its finished request only while the worker is about to wake it. */
  predicate WaiterWakes(t: Slot, pc: Pc, requests: seq<Request>, working: Pc) {
    Waiting(pc) && Asleep(t, pc) && pc.r < |requests| && requests[pc.r].done ==> working == WakeWaiter(pc.r)
  }

  ghost predicate WaitersWake(slots: Slots, pcs: seq<Pc>, requests: seq<Request>, working: Pc)
    requires |pcs| == MAX_THREADS
  {
    forall j :: 0 <= j < MAX_THREADS ==> WaiterWakes(slots[j], pcs[j], requests, working)
  }

  ghost predicate SomeInGap(pcs: seq<Pc>) {
    exists j :: 0 <= j < |pcs| && InGap(pcs[j])
  }

  ghost predicate Inv(s: System, d: Disk) {
    && Threaded(s)
    && Owned(s.requests, s.pcs, s.submitted)
    && Fifo(s.submitted, s.log, s.pcs[s.home], s.queue)
    && DoneIsServed(s.requests, s.log, s.pcs[s.home])
    && Serial(s.disk, s.requests, s.log, d)
    && Returned(s.requests, s.returned)
    && WorkerWakes(s.sched.slots, s.pcs, s.home, s.queue)
    && WaitersWake(s.sched.slots, s.pcs, s.requests, s.pcs[s.home])
  }

  ghost predicate Init(s: System, d: Disk) {
    && OneRunning(s.sched) && |s.pcs| == MAX_THREADS && 0 <= s.home < MAX_THREADS
    && (forall j :: 0 <= j < MAX_THREADS ==>
          && !s.sched.slots[j].inBlock && s.sched.slots[j].state != Blocked && s.sched.slots[j].state != Sleeping
          && s.pcs[j] == if j == s.home then Start else Away)
    && s.sched.slots[s.home].state != Unused
    && s.worker == None && s.requests == [] && s.queue == [] && s.submitted == [] && s.log == [] && s.returned == map[]
    && s.disk == d
  }

  /** The kernel's start: thread 0 runs, and a thread has been made for the worker. */
  ghost function Boot(d: Disk): System {
    var slots: Slots := [Slot(Running, false, false)] + seq(7, _ => Slot(Unused, false, false));
    var sched := Create(Sched(slots, 0, THREAD_QUANTUM_TICKS), true);
    System(sched, seq(8, i => if i == 1 then Start else Away), 1, None, [], [], d, [], [], map[])
  }

  lemma BootInits(d: Disk)
    ensures Init(Boot(d), d)
  {
    var slots: Slots := [Slot(Running, false, false)] + seq(7, _ => Slot(Unused, false, false));
    assert FreeFrom(Sched(slots, 0, THREAD_QUANTUM_TICKS), 0) == Some(1);
  }

  lemma InitHolds(s: System, d: Disk)
    requires Init(s, d)
    ensures Inv(s, d)
  {
  }

  // ---- the scheduler keeps it ----

  /** What may happen to a thread while another one acts: it is preempted, resumed, or left alone. */
  predicate Moves(x: Slot, y: Slot) {
    || y == x
    || (x.state == Running && y == x.(state := Ready))
    || (x.state == Ready && y == Slot(Running, x.wakePending && !x.inBlock, false))
  }

  lemma MovesOk(x: Slot, y: Slot, pc: Pc)
    requires ThreadOk(x, pc) && Moves(x, y)
    ensures ThreadOk(y, pc) && (Asleep(y, pc) ==> Asleep(x, pc))
  {
  }

  lemma SwitchMoves(s: Sched, next: int, j: int)
    requires InRange(s) && ReadyAt(s, next) && 0 <= j < MAX_THREADS && next != s.current
    ensures Moves(s.slots[j], SwitchTo(s, next).slots[j])
  {
  }

  lemma TickMoves(s: Sched, j: int)
    requires (OneRunning(s) || Halted(s)) && 0 <= j < MAX_THREADS
    ensures Moves(s.slots[j], Tick(s).slots[j]) && Moves(s.slots[j], Yield(s).slots[j])
  {
    hide Distance, SwitchTo, Moves;
    var s1 := s.(quantum := THREAD_QUANTUM_TICKS);
    assert Moves(s.slots[j], s.slots[j]) by { StayMoves(s.slots[j]); }
    forall next | ReadyAt(s, next) && next != s.current
      ensures Moves(s.slots[j], SwitchTo(s, next).slots[j]) && Moves(s.slots[j], SwitchTo(s1, next).slots[j])
    {
      SwitchMoves(s, next, j);
      SwitchMoves(s1, next, j);
    }
    assert forall i :: ReadyAt(s1, i) <==> ReadyAt(s, i);
  }

  lemma StayMoves(x: Slot)
    ensures Moves(x, x)
  {
  }

  lemma ExitMoves(s: Sched, j: int)
    requires OneRunning(s) && 0 <= j < MAX_THREADS
    ensures j != s.current ==> Moves(s.slots[j], Exit(s).slots[j])
    ensures Exit(s).slots[s.current] == s.slots[s.current].(state := Unused)
  {
    hide Distance;
  }

  lemma BlockMoves(s: Sched, j: int)
    requires OneRunning(s) && 0 <= j < MAX_THREADS
    ensures j != s.current ==> Moves(s.slots[j], Block(s).slots[j])
    ensures var x := s.slots[s.current]; var y := Block(s).slots[s.current];
      y == (if x.wakePending then x.(wakePending := false) else x) || (!x.wakePending && y == x.(state := Blocked, inBlock := true))
  {
    hide Distance;
  }

  /** Only the scheduler has moved. */
  ghost predicate Rescheduled(s: System, s': System) {
    && Threaded(s) && s' == s.(sched := s'.sched) && (OneRunning(s'.sched) || Halted(s'.sched))
    && forall j :: 0 <= j < MAX_THREADS ==>
         ThreadOk(s'.sched.slots[j], s.pcs[j])
         && (Asleep(s'.sched.slots[j], s.pcs[j]) ==> Asleep(s.sched.slots[j], s.pcs[j]))
  }

  lemma RescheduledKeeps(s: System, s': System, d: Disk)
    requires Inv(s, d) && Rescheduled(s, s')
    ensures Inv(s', d)
  {
    hide OneRunning, Halted, ThreadOk, Asleep, Serial, Fifo, Owned, DoneIsServed;
  }

  lemma WakeSlot(s: Sched, i: int, j: int, pc: Pc)
    requires 0 <= i < MAX_THREADS && 0 <= j < MAX_THREADS && ThreadOk(s.slots[j], pc)
    ensures ThreadOk(Wake(s, i).slots[j], pc) && (Asleep(Wake(s, i).slots[j], pc) ==> Asleep(s.slots[j], pc))
  {
  }

  lemma CreateSlot(s: Sched, stack: bool, j: int, pc: Pc)
    requires 0 <= j < MAX_THREADS && ThreadOk(s.slots[j], pc)
    ensures ThreadOk(Create(s, stack).slots[j], pc) && (Asleep(Create(s, stack).slots[j], pc) ==> Asleep(s.slots[j], pc))
  {
  }

  lemma OthersRun(s: Sched, a: Action)
    requires OneRunning(s) || Halted(s)
    ensures a.Spurious? && 0 <= a.thread < MAX_THREADS ==> OneRunning(Wake(s, a.thread)) || Halted(Wake(s, a.thread))
    ensures a.Spawn? && OneRunning(s) ==> OneRunning(Create(s, a.stack))
  {
    hide Distance;
  }

  lemma OthersReschedule(s: System, a: Action, d: Disk)
    requires Inv(s, d) && Enabled(s, a) && !a.Proceed? && !a.Submit?
    ensures Inv(Next(s, a), d)
  {
    hide Owned, Fifo, DoneIsServed, Serial, WorkerWakes, WaitersWake, Distance, Pick, Tick, Yield, Exit, Wake, Create, Moves,
      WorkerPc;
    var s' := Next(s, a);
    TickKeeps(s.sched);
    if OneRunning(s.sched) {
      ExitKeeps(s.sched);
    }
    OthersRun(s.sched, a);
    forall j | 0 <= j < MAX_THREADS
      ensures ThreadOk(s'.sched.slots[j], s.pcs[j])
      ensures Asleep(s'.sched.slots[j], s.pcs[j]) ==> Asleep(s.sched.slots[j], s.pcs[j])
    {
      match a {
        case Timer =>
          TickMoves(s.sched, j);
          MovesOk(s.sched.slots[j], s'.sched.slots[j], s.pcs[j]);
        case GiveUp =>
          TickMoves(s.sched, j);
          MovesOk(s.sched.slots[j], s'.sched.slots[j], s.pcs[j]);
        case Quit =>
          ExitMoves(s.sched, j);
          if j != s.sched.current {
            MovesOk(s.sched.slots[j], s'.sched.slots[j], s.pcs[j]);
          }
        case Spurious(i) =>
          WakeSlot(s.sched, i, j, s.pcs[j]);
        case Spawn(stack) =>
          CreateSlot(s.sched, stack, j, s.pcs[j]);
      }
    }
    RescheduledKeeps(s, s', d);
  }

  // ---- the steps of a request ----

  lemma ThreadedStep(s: System, s': System, pc: Pc)
    requires Threaded(s) && OneRunning(s.sched) && s'.sched == s.sched && s'.home == s.home
    requires s'.pcs == s.pcs[s.sched.current := pc] && (WorkerPc(pc) <==> WorkerPc(s.pcs[s.sched.current]))
    requires s'.worker == if s'.pcs[s'.home].Start? then None else Some(s'.home)
    requires pc.WakeWorker? || s.worker.Some? ==> s'.worker.Some?
    ensures Threaded(s')
  {
    assert OneRunning(s.sched) ==> s.sched.slots[s.sched.current].state == Running;
  }

  /** Answers already given stay right while the requests served keep theirs. */
  lemma ServedStill(requests: seq<Request>, requests': seq<Request>, log: seq<Service>, d: Disk)
    requires forall k :: 0 <= k < |log| ==> ServedRight(requests, log, d, k)
    requires forall r :: r in Ids(log) && r < |requests| ==>
      r < |requests'| && requests'[r].op == requests[r].op && requests'[r].answer == requests[r].answer
    ensures forall k :: 0 <= k < |log| ==> ServedRight(requests', log, d, k)
  {
    forall k | 0 <= k < |log|
      ensures ServedRight(requests', log, d, k)
    {
      assert ServedRight(requests, log, d, k);
      assert Ids(log)[k] == log[k].id;
    }
  }

  lemma OwnedChange(requests: seq<Request>, requests': seq<Request>, pcs: seq<Pc>, i: int, pc: Pc, submitted: seq<nat>)
    requires Owned(requests, pcs, submitted) && 0 <= i < |pcs| && |requests| <= |requests'|
    requires forall r :: 0 <= r < |requests| ==>
      requests'[r].waiter == requests[r].waiter && (requests[r].done ==> requests'[r].done)
    requires forall r :: |requests| <= r < |requests'| ==> requests'[r].waiter == i
    requires OwnedAt(requests', submitted, i, pc)
    requires Waiting(pcs[i]) ==> (Waiting(pc) && pc.r == pcs[i].r) || (pcs[i].r < |requests| && requests[pcs[i].r].done)
    ensures Owned(requests', pcs[i := pc], submitted)
  {
    var pcs' := pcs[i := pc];
    forall j | 0 <= j < |pcs|
      ensures OwnedAt(requests', submitted, j, pcs'[j])
    {
      assert OwnedAt(requests, submitted, j, pcs[j]);
    }
    forall r | r in submitted
      ensures AwaitedAt(requests', pcs', r)
    {
      assert AwaitedAt(requests, pcs, r);
    }
  }

  lemma EnqueueOwned(requests: seq<Request>, pcs: seq<Pc>, i: int, submitted: seq<nat>)
    requires Owned(requests, pcs, submitted) && 0 <= i < |pcs| && pcs[i].Enqueue?
    ensures Owned(requests, pcs[i := CheckWorker(pcs[i].r)], submitted + [pcs[i].r])
  {
    var q := pcs[i].r;
    var pcs', submitted' := pcs[i := CheckWorker(q)], submitted + [q];
    assert OwnedAt(requests, submitted, i, pcs[i]);
    forall j | 0 <= j < |pcs|
      ensures OwnedAt(requests, submitted', j, pcs'[j])
    {
      assert OwnedAt(requests, submitted, j, pcs[j]);
    }
    forall r | r in submitted'
      ensures AwaitedAt(requests, pcs', r)
    {
      assert r != q ==> AwaitedAt(requests, pcs, r);
    }
  }

  lemma GapStays(pcs: seq<Pc>, i: int, pc: Pc)
    requires 0 <= i < |pcs| && SomeInGap(pcs) && (InGap(pcs[i]) ==> InGap(pc))
    ensures SomeInGap(pcs[i := pc])
  {
    var j :| 0 <= j < |pcs| && InGap(pcs[j]);
    assert InGap(pcs[i := pc][j]);
  }

  lemma IdsInRange(s: System, d: Disk)
    requires Inv(s, d)
    ensures forall r :: r in Ids(s.log) ==> r < |s.requests| && r in s.submitted
    ensures forall r :: r in s.queue ==> r < |s.requests| && r in s.submitted
    ensures s.pcs[s.home].Serve? ==> s.pcs[s.home].r < |s.requests|
    ensures s.pcs[s.home].Finish? || s.pcs[s.home].WakeWaiter? ==> s.pcs[s.home].r in Ids(s.log)
  {
    hide OneRunning, Halted, ThreadOk, DoneIsServed, Serial, Returned, WorkerWakes, WaitersWake, Distinct;
    assert forall r :: r in s.submitted ==> AwaitedAt(s.requests, s.pcs, r);
    var all := Ids(s.log) + InService(s.pcs[s.home]) + s.queue;
    assert forall r :: r in Ids(s.log) || r in s.queue ==> r in all;
    if s.pcs[s.home].Serve? {
      assert s.submitted[|s.log|] == s.pcs[s.home].r;
      assert AwaitedAt(s.requests, s.pcs, s.pcs[s.home].r);
    } else if s.log != [] {
      assert Ids(s.log)[|s.log| - 1] == s.log[|s.log| - 1].id;
    }
  }

  lemma SubmitKeeps(s: System, op: Op, d: Disk)
    requires Inv(s, d) && Enabled(s, Submit(op))
    ensures Inv(Next(s, Submit(op)), d)
  {
    hide Halted, ThreadOk, Replay, Ids, ServedRight, Fifo, Owned, WorkerWakes, WaitersWake;
    var s' := Next(s, Submit(op));
    var i := s.sched.current;
    IdsInRange(s, d);
    ThreadedStep(s, s', Enqueue(|s.requests|));
    assert |s.requests| !in s.submitted by { SubmittedBelow(s, d); }
    OwnedChange(s.requests, s'.requests, s.pcs, i, s'.pcs[i], s.submitted);
    ServedStill(s.requests, s'.requests, s.log, d);
    SubmitWakes(s, op, d);
  }

  lemma SubmitWakes(s: System, op: Op, d: Disk)
    requires Inv(s, d) && Enabled(s, Submit(op))
    ensures var s' := Next(s, Submit(op));
      WorkerWakes(s'.sched.slots, s'.pcs, s'.home, s'.queue) && WaitersWake(s'.sched.slots, s'.pcs, s'.requests, s'.pcs[s'.home])
  {
    hide Halted, ThreadOk, Serial, Ids, Fifo, Returned, DoneIsServed;
    assert forall j :: 0 <= j < MAX_THREADS ==> OwnedAt(s.requests, s.submitted, j, s.pcs[j]);
    if SomeInGap(s.pcs) {
      GapStays(s.pcs, s.sched.current, Enqueue(|s.requests|));
    }
  }

  lemma SubmittedBelow(s: System, d: Disk)
    requires Inv(s, d)
    ensures |s.requests| !in s.submitted
  {
    assert |s.requests| in s.submitted ==> AwaitedAt(s.requests, s.pcs, |s.requests|);
  }

  lemma EnqueueKeeps(s: System, d: Disk)
    requires Inv(s, d) && Enabled(s, Proceed) && s.pcs[s.sched.current].Enqueue?
    ensures Inv(Next(s, Proceed), d)
  {
    hide Halted, ThreadOk, Serial, Returned, DoneIsServed, Owned, Fifo;
    var s' := Next(s, Proceed);
    var i := s.sched.current;
    ThreadedStep(s, s', s'.pcs[i]);
    EnqueueOwned(s.requests, s.pcs, i, s.submitted);
    EnqueueFifo(s, d);
    assert InGap(s'.pcs[i]);
  }

  lemma EnqueueFifo(s: System, d: Disk)
    requires Inv(s, d) && Enabled(s, Proceed) && s.pcs[s.sched.current].Enqueue?
    ensures var r := s.pcs[s.sched.current].r; Fifo(s.submitted + [r], s.log, s.pcs[s.home], s.queue + [r])
  {
    hide Halted, ThreadOk, Serial, Returned, DoneIsServed, WorkerWakes, WaitersWake;
    assert OwnedAt(s.requests, s.submitted, s.sched.current, s.pcs[s.sched.current]);
    var r := s.pcs[s.sched.current].r;
    assert Ids(s.log) + InService(s.pcs[s.home]) + (s.queue + [r]) == s.submitted + [r];
  }

  lemma CheckWorkerKeeps(s: System, d: Disk)
    requires Inv(s, d) && Enabled(s, Proceed) && s.pcs[s.sched.current].CheckWorker?
    ensures Inv(Next(s, Proceed), d)
  {
    hide Halted, Serial, Returned, DoneIsServed, Owned, Fifo;
    var s' := Next(s, Proceed);
    var i := s.sched.current;
    ThreadedStep(s, s', s'.pcs[i]);
    SameRequest(s, s', d, i, s'.pcs[i]);
    if SomeInGap(s.pcs) && s.worker.Some? {
      GapStays(s.pcs, i, s'.pcs[i]);
    }
    assert ThreadOk(s.sched.slots[s.home], s.pcs[s.home]);
  }

  /** The thread goes on waiting for the same request. */
  lemma SameRequest(s: System, s': System, d: Disk, i: int, pc: Pc)
    requires Inv(s, d) && 0 <= i < MAX_THREADS && Waiting(s.pcs[i]) && Waiting(pc) && pc.r == s.pcs[i].r
    ensures Owned(s.requests, s.pcs[i := pc], s.submitted)
  {
    hide OneRunning, Halted, ThreadOk, Serial, Returned, DoneIsServed, Fifo, WorkerWakes, WaitersWake;
    assert OwnedAt(s.requests, s.submitted, i, s.pcs[i]);
    OwnedChange(s.requests, s.requests, s.pcs, i, pc, s.submitted);
  }

  lemma WakeWorkerKeeps(s: System, d: Disk)
    requires Inv(s, d) && Enabled(s, Proceed) && s.pcs[s.sched.current].WakeWorker?
    ensures Inv(Next(s, Proceed), d)
  {
    hide Halted, Serial, Returned, DoneIsServed, Owned, Fifo;
    var s' := Next(s, Proceed);
    var i := s.sched.current;
    SameRequest(s, s', d, i, s'.pcs[i]);
  }

  lemma TestDoneKeeps(s: System, d: Disk)
    requires Inv(s, d) && Enabled(s, Proceed) && s.pcs[s.sched.current].TestDone?
    ensures Inv(Next(s, Proceed), d)
  {
    hide Halted, Serial, DoneIsServed, Owned, Fifo;
    var s' := Next(s, Proceed);
    var i := s.sched.current;
    ThreadedStep(s, s', s'.pcs[i]);
    if s.requests[s.pcs[i].r].done {
      OwnedChange(s.requests, s.requests, s.pcs, i, Away, s.submitted);
    } else {
      SameRequest(s, s', d, i, s'.pcs[i]);
    }
    if SomeInGap(s.pcs) {
      GapStays(s.pcs, i, s'.pcs[i]);
    }
  }

  lemma BlockOnKeeps(s: System, d: Disk)
    requires Inv(s, d) && Enabled(s, Proceed) && s.pcs[s.sched.current].BlockOn?
    ensures Inv(Next(s, Proceed), d)
  {
    hide Halted, Serial, DoneIsServed, Owned, Fifo, Returned, Block, Moves;
    var s' := Next(s, Proceed);
    var i := s.sched.current;
    BlockThreads(s, d, i, s'.pcs[i]);
    SameRequest(s, s', d, i, s'.pcs[i]);
    if SomeInGap(s.pcs) {
      GapStays(s.pcs, i, s'.pcs[i]);
    }
  }

  /** thread_block, seen by all threads: nobody falls asleep but the caller, and only if it was about to. */
  lemma BlockThreads(s: System, d: Disk, i: int, pc: Pc)
    requires Threaded(s) && OneRunning(s.sched) && i == s.sched.current
    requires (s.pcs[i].BlockOn? && pc.TestDone?) || (s.pcs[i].BlockIdle? && pc.Dequeue?)
    ensures Threaded(At(s.(sched := Block(s.sched)), i, pc))
    ensures forall j :: 0 <= j < MAX_THREADS && Asleep(Block(s.sched).slots[j], s.pcs[i := pc][j]) ==>
      Asleep(s.sched.slots[j], s.pcs[j])
  {
    hide Block, Moves, Halted;
    var after := Block(s.sched).slots;
    BlockKeeps(s.sched);
    forall j | 0 <= j < MAX_THREADS
      ensures ThreadOk(after[j], s.pcs[i := pc][j])
      ensures Asleep(after[j], s.pcs[i := pc][j]) ==> Asleep(s.sched.slots[j], s.pcs[j])
    {
      BlockMoves(s.sched, j);
      if j != i {
        MovesOk(s.sched.slots[j], after[j], s.pcs[j]);
      }
    }
  }

  // ---- the steps of the worker ----

  lemma StartKeeps(s: System, d: Disk)
    requires Inv(s, d) && Enabled(s, Proceed) && s.pcs[s.sched.current].Start?
    ensures Inv(Next(s, Proceed), d)
  {
    hide Halted, Serial, Owned, Ids, Returned;
    var s' := Next(s, Proceed);
    ThreadedStep(s, s', s'.pcs[s.home]);
    WorkerOwned(s, d, s.requests, s'.pcs[s.home]);
  }

  /** What the worker does next is not about waiting for a request. */
  lemma WorkerOwned(s: System, d: Disk, requests': seq<Request>, pc: Pc)
    requires Inv(s, d) && WorkerPc(pc) && |requests'| == |s.requests|
    requires forall r :: 0 <= r < |s.requests| ==>
      requests'[r].waiter == s.requests[r].waiter && (s.requests[r].done ==> requests'[r].done)
    ensures Owned(requests', s.pcs[s.home := pc], s.submitted)
  {
    hide OneRunning, Halted, ThreadOk, Serial, Returned, DoneIsServed, Fifo, WorkerWakes, WaitersWake;
    OwnedChange(s.requests, requests', s.pcs, s.home, pc, s.submitted);
  }

  lemma DequeueKeeps(s: System, d: Disk)
    requires Inv(s, d) && Enabled(s, Proceed) && s.pcs[s.sched.current].Dequeue?
    ensures Inv(Next(s, Proceed), d)
  {
    hide Halted, Serial, Owned, Ids, Returned, Distinct;
    var s' := Next(s, Proceed);
    ThreadedStep(s, s', s'.pcs[s.home]);
    WorkerOwned(s, d, s.requests, s'.pcs[s.home]);
    if s.queue != [] {
      assert s.queue == [s.queue[0]] + s.queue[1..];
    }
  }

  lemma ServeKeeps(s: System, d: Disk)
    requires Inv(s, d) && Enabled(s, Proceed) && s.pcs[s.sched.current].Serve?
    ensures Inv(Next(s, Proceed), d)
  {
    hide Halted, Serial, Owned, Fifo, DoneIsServed;
    var s' := Next(s, Proceed);
    var r := s.pcs[s.home].r;
    ThreadedStep(s, s', s'.pcs[s.home]);
    WorkerOwned(s, d, s'.requests, s'.pcs[s.home]);
    NotYetServed(s, d);
    ServeFifo(s, d, s'.log[|s.log|]);
    ServeSerial(s, d);
  }

  lemma NotYetServed(s: System, d: Disk)
    requires Inv(s, d) && s.pcs[s.home].Serve? && s.pcs[s.home].r < |s.requests|
    ensures var r := s.pcs[s.home].r; r !in Ids(s.log) && !s.requests[r].done
  {
    hide OneRunning, Halted, ThreadOk, Serial, Owned, WorkerWakes, WaitersWake;
    var n := |s.log|;
    assert s.submitted[n] == s.pcs[s.home].r;
    assert forall k :: 0 <= k < n ==> s.submitted[k] == Ids(s.log)[k];
  }

  lemma ServeFifo(s: System, d: Disk, e: Service)
    requires Inv(s, d) && s.pcs[s.home] == Serve(e.id) && e.id !in Ids(s.log)
    ensures Fifo(s.submitted, s.log + [e], Finish(e.id), s.queue)
    ensures forall q: seq<Request> :: |q| == |s.requests| && (forall r :: 0 <= r < |q| ==> q[r].done == s.requests[r].done) ==>
      DoneIsServed(q, s.log + [e], Finish(e.id))
  {
    hide OneRunning, Halted, ThreadOk, Serial, Owned, WorkerWakes, WaitersWake;
    assert Ids(s.log + [e]) == Ids(s.log) + [e.id];
  }

  lemma ServeSerial(s: System, d: Disk)
    requires Inv(s, d) && Enabled(s, Proceed) && s.pcs[s.sched.current].Serve?
    requires s.pcs[s.home].r !in Ids(s.log)
    ensures var s' := Next(s, Proceed); Serial(s'.disk, s'.requests, s'.log, d)
  {
    hide Halted, Owned, WorkerWakes, WaitersWake, Fifo, DoneIsServed, AnswerTo, DiskAfter;
    var s' := Next(s, Proceed);
    ServedStill(s.requests, s'.requests, s.log, d);
    var n := |s.log|;
    assert s'.log[..n] == s.log;
    forall k | 0 <= k < n + 1
      ensures ServedRight(s'.requests, s'.log, d, k)
    {
      if k < n {
        assert ServedRight(s'.requests, s.log, d, k);
        assert s'.log[..k] == s.log[..k];
      }
    }
  }

  lemma FinishKeeps(s: System, d: Disk)
    requires Inv(s, d) && Enabled(s, Proceed) && s.pcs[s.sched.current].Finish?
    ensures Inv(Next(s, Proceed), d)
  {
    hide Halted, Owned, ServedRight, Replay;
    var s' := Next(s, Proceed);
    var r := s.pcs[s.home].r;
    ThreadedStep(s, s', s'.pcs[s.home]);
    WorkerOwned(s, d, s'.requests, s'.pcs[s.home]);
    ServedStill(s.requests, s'.requests, s.log, d);
    assert Ids(s.log)[|s.log| - 1] == r;
  }

  lemma WakeWaiterKeeps(s: System, d: Disk)
    requires Inv(s, d) && Enabled(s, Proceed) && s.pcs[s.sched.current].WakeWaiter?
    ensures Inv(Next(s, Proceed), d)
  {
    hide OneRunning, Halted, Threaded, Owned, Serial, Returned, Ids, WorkerWakes, WaitersWake, Wake;
    var s' := Next(s, Proceed);
    assert s.home == s.sched.current && 0 <= s.home < MAX_THREADS by { WorkerRuns(s, d); }
    WorkerOwned(s, d, s.requests, s'.pcs[s.home]);
    WakeWaiterThreads(s, d);
    WakeWaiterWakes(s, d);
  }

  lemma WorkerRuns(s: System, d: Disk)
    requires Inv(s, d) && Enabled(s, Proceed) && WorkerPc(s.pcs[s.sched.current])
    ensures s.home == s.sched.current && 0 <= s.home < MAX_THREADS
  {
    hide Halted, Serial, Returned, Ids, Fifo, Owned;
  }

  lemma WakeWaiterThreads(s: System, d: Disk)
    requires Inv(s, d) && Enabled(s, Proceed) && s.pcs[s.sched.current].WakeWaiter?
    ensures Threaded(Next(s, Proceed))
  {
    hide Halted, Serial, Returned, Ids, Fifo, Owned, DoneIsServed, WorkerWakes, WaitersWake;
  }

  /** The one thread the worker was about to wake is awake now. */
  lemma WakeWaiterWakes(s: System, d: Disk)
    requires Inv(s, d) && Enabled(s, Proceed) && s.pcs[s.sched.current].WakeWaiter?
    requires s.home == s.sched.current && 0 <= s.home < MAX_THREADS
    ensures var s' := Next(s, Proceed);
      WorkerWakes(s'.sched.slots, s'.pcs, s'.home, s'.queue) && WaitersWake(s'.sched.slots, s'.pcs, s'.requests, s'.pcs[s'.home])
  {
    hide Halted, Serial, Returned, Ids, Fifo, DoneIsServed;
    assert forall j :: 0 <= j < MAX_THREADS ==> OwnedAt(s.requests, s.submitted, j, s.pcs[j]);
  }

  lemma BlockIdleKeeps(s: System, d: Disk)
    requires Inv(s, d) && Enabled(s, Proceed) && s.pcs[s.sched.current].BlockIdle?
    ensures Inv(Next(s, Proceed), d)
  {
    hide Halted, Serial, Owned, Ids, Returned, Block, Moves;
    var s' := Next(s, Proceed);
    BlockThreads(s, d, s.home, s'.pcs[s.home]);
    WorkerOwned(s, d, s.requests, s'.pcs[s.home]);
    if SomeInGap(s.pcs) {
      GapStays(s.pcs, s.home, s'.pcs[s.home]);
    }
  }

  // ---- every run ----

  /** A thread that is not away can always take its next step: what it needs is there. */
  lemma NeverStuck(s: System, d: Disk)
    requires Inv(s, d) && OneRunning(s.sched) && !s.pcs[s.sched.current].Away?
    ensures Enabled(s, Proceed)
  {
    hide Halted, ThreadOk, WorkerWakes, WaitersWake;
    var i := s.sched.current;
    IdsInRange(s, d);
    assert OwnedAt(s.requests, s.submitted, i, s.pcs[i]);
    if s.pcs[i].TestDone? && s.requests[s.pcs[i].r].done {
      AnsweredWhenDone(s, d, s.pcs[i].r);
    }
  }

  lemma AnsweredWhenDone(s: System, d: Disk, r: nat)
    requires Inv(s, d) && r < |s.requests| && s.requests[r].done
    ensures s.requests[r].answer.Some?
  {
    hide Halted, ThreadOk, Owned, WorkerWakes, WaitersWake, Fifo;
    var k :| 0 <= k < |Ids(s.log)| && Ids(s.log)[k] == r;
    assert ServedRight(s.requests, s.log, d, k);
  }

  lemma StepKeepsInv(s: System, a: Action, d: Disk)
    requires Inv(s, d) && Enabled(s, a)
    ensures Inv(Next(s, a), d)
  {
    hide Inv, Next, Sound;
    if a.Submit? {
      SubmitKeeps(s, a.op, d);
    } else if !a.Proceed? {
      OthersReschedule(s, a, d);
    } else {
      match s.pcs[s.sched.current] {
        case Enqueue(_) => EnqueueKeeps(s, d);
        case CheckWorker(_) => CheckWorkerKeeps(s, d);
        case WakeWorker(_) => WakeWorkerKeeps(s, d);
        case TestDone(_) => TestDoneKeeps(s, d);
        case BlockOn(_) => BlockOnKeeps(s, d);
        case Start => StartKeeps(s, d);
        case Dequeue => DequeueKeeps(s, d);
        case Serve(_) => ServeKeeps(s, d);
        case Finish(_) => FinishKeeps(s, d);
        case WakeWaiter(_) => WakeWaiterKeeps(s, d);
        case BlockIdle => BlockIdleKeeps(s, d);
      }
    }
  }

  ghost predicate AllEnabled(s: System, steps: seq<Action>)
    decreases |steps|
  {
    steps == [] || (Enabled(s, steps[0]) && AllEnabled(Next(s, steps[0]), steps[1..]))
  }

  ghost function Run(s: System, steps: seq<Action>): System
    requires AllEnabled(s, steps)
    decreases |steps|
  {
    if steps == [] then s else Run(Next(s, steps[0]), steps[1..])
  }

  /** However the steps of all threads interleave with the timer, the invariant holds. */
  lemma {:induction false} RunKeepsInv(s: System, steps: seq<Action>, d: Disk)
    requires Inv(s, d) && AllEnabled(s, steps)
    ensures Inv(Run(s, steps), d)
    decreases |steps|
  {
    hide Inv, Enabled, Next;
    if steps != [] {
      StepKeepsInv(s, steps[0], d);
      RunKeepsInv(Next(s, steps[0]), steps[1..], d);
    }
  }

  /** In every run requests are served in the order they were queued, each at most once; and whatever submit has returned
      is what serving them one after the other would have answered. */
  lemma ServedOnceInOrder(s: System, steps: seq<Action>, d: Disk)
    requires Init(s, d) && AllEnabled(s, steps)
    ensures var e := Run(s, steps);
      && Ids(e.log) <= e.submitted && Distinct(e.submitted)
      && (forall r :: r in e.submitted ==> r in Ids(e.log) || r in e.queue || (0 <= e.home < |e.pcs| && e.pcs[e.home] == Serve(r)))
      && e.disk == Replay(d, e.log)
      && forall r :: r in e.returned ==>
           exists k :: 0 <= k < |e.log| && e.log[k].id == r && e.returned[r] == AnswerTo(Replay(d, e.log[..k]), e.log[k].op)
  {
    hide Init, AllEnabled, Run, Replay, AnswerTo, WorkerWakes, WaitersWake, Owned, Halted, OneRunning, ThreadOk;
    InitHolds(s, d);
    RunKeepsInv(s, steps, d);
    var e := Run(s, steps);
    forall r | r in e.returned
      ensures exists k :: 0 <= k < |e.log| && e.log[k].id == r && e.returned[r] == AnswerTo(Replay(d, e.log[..k]), e.log[k].op)
    {
      var k :| 0 <= k < |Ids(e.log)| && Ids(e.log)[k] == r;
      assert ServedRight(e.requests, e.log, d, k);
    }
  }

  /** In every run: no thread is asleep with something to do unless another is just about to wake it, and that one is
      itself runnable. */
  lemma NoLostWakeup(s: System, steps: seq<Action>, d: Disk)
    requires Init(s, d) && AllEnabled(s, steps)
    ensures var e := Run(s, steps);
      && |e.pcs| == MAX_THREADS && 0 <= e.home < MAX_THREADS
      && (e.queue != [] && Asleep(e.sched.slots[e.home], e.pcs[e.home]) ==>
            exists j :: 0 <= j < MAX_THREADS && InGap(e.pcs[j]) && Runnable(e.sched.slots[j]))
      && forall j :: (0 <= j < MAX_THREADS && Waiting(e.pcs[j]) && Asleep(e.sched.slots[j], e.pcs[j])
                      && e.pcs[j].r < |e.requests| && e.requests[e.pcs[j].r].done) ==>
           e.pcs[e.home] == WakeWaiter(e.pcs[j].r) && Runnable(e.sched.slots[e.home])
  {
    hide Init, AllEnabled, Run, Serial, Returned, Owned, Fifo, DoneIsServed, Halted, OneRunning;
    InitHolds(s, d);
    RunKeepsInv(s, steps, d);
    var e := Run(s, steps);
    assert forall j :: 0 <= j < MAX_THREADS ==> ThreadOk(e.sched.slots[j], e.pcs[j]);
    assert forall j :: 0 <= j < MAX_THREADS ==> WaiterWakes(e.sched.slots[j], e.pcs[j], e.requests, e.pcs[e.home]);
    if e.queue != [] && Asleep(e.sched.slots[e.home], e.pcs[e.home]) {
      var j :| 0 <= j < |e.pcs| && InGap(e.pcs[j]);
      assert Runnable(e.sched.slots[j]);
    }
  }

  predicate Runnable(t: Slot) { t.state == Ready || t.state == Running }

  /** If nothing can run, nothing is left to do: nobody waits and the queue is empty. */
  lemma NoDeadlock(s: System, d: Disk)
    requires Inv(s, d) && forall j :: 0 <= j < MAX_THREADS ==> !Runnable(s.sched.slots[j])
    ensures s.queue == [] && forall j :: 0 <= j < MAX_THREADS && j != s.home ==> s.pcs[j] == Away
  {
    hide OneRunning, Halted, Serial, Returned;
    assert forall j :: 0 <= j < MAX_THREADS ==> ThreadOk(s.sched.slots[j], s.pcs[j]);
    forall j | 0 <= j < MAX_THREADS && j != s.home
      ensures s.pcs[j] == Away
    {
      if s.pcs[j].TestDone? {
        NobodyForgotten(s, d, j);
      }
    }
  }

  /** A thread asleep over its request: the request is queued, being served, or done and about to be announced. */
  lemma NobodyForgotten(s: System, d: Disk, j: int)
    requires Inv(s, d) && 0 <= j < MAX_THREADS && Waiting(s.pcs[j]) && Asleep(s.sched.slots[j], s.pcs[j])
    ensures var r := s.pcs[j].r;
      r in s.queue || s.pcs[s.home] == Serve(r) || s.pcs[s.home] == Finish(r) || s.pcs[s.home] == WakeWaiter(r)
  {
    hide OneRunning, Halted, ThreadOk, Serial, Returned, WorkerWakes, Distinct;
    var r := s.pcs[j].r;
    assert OwnedAt(s.requests, s.submitted, j, s.pcs[j]) && WaiterWakes(s.sched.slots[j], s.pcs[j], s.requests, s.pcs[s.home]);
    var all := Ids(s.log) + InService(s.pcs[s.home]) + s.queue;
    assert r in all;
    assert r in Ids(s.log) || r in InService(s.pcs[s.home]) || r in s.queue;
  }

  // ---- every ready thread runs ----

  function EventOf(s: System, a: Action): Option<Event>
    requires 0 <= s.sched.current < |s.pcs|
  {
    match a
    case Timer => Some(TickEvent)
    case Spurious(j) => Some(WakeEvent(j))
    case GiveUp => Some(YieldEvent)
    case Spawn(stack) => Some(CreateEvent(stack))
    case Quit => Some(ExitEvent)
    case Submit(_) => None
    case Proceed =>
      match s.pcs[s.sched.current] {
        case WakeWorker(_) => if s.worker.Some? then Some(WakeEvent(s.worker.value)) else None
        case WakeWaiter(r) => if r < |s.requests| then Some(WakeEvent(s.requests[r].waiter)) else None
        case BlockOn(_) => Some(BlockEvent)
        case BlockIdle => Some(BlockEvent)
        case _ => None
      }
  }

  lemma NextSched(s: System, a: Action)
    requires Enabled(s, a) && InRange(s.sched)
    ensures var e := EventOf(s, a);
      if e.None? then Next(s, a).sched == s.sched
      else Possible(s.sched, e.value) && Next(s, a).sched == Step(s.sched, e.value) && (a.Timer? <==> e.value.TickEvent?)
  {
    hide Tick, Yield, Block, Exit, Wake, Create, DiskAfter, AnswerTo;
  }

  ghost function Timers(steps: seq<Action>): nat {
    if steps == [] then 0 else (if steps[0].Timer? then 1 else 0) + Timers(steps[1..])
  }

  ghost predicate GetsProcessor(s: System, steps: seq<Action>, x: int)
    requires AllEnabled(s, steps)
    decreases |steps|
  {
    s.sched.current == x || (steps != [] && GetsProcessor(Next(s, steps[0]), steps[1..], x))
  }

  lemma {:induction false} ReadyRuns(s: System, steps: seq<Action>, x: int)
    requires OneRunning(s.sched) && ReadyAt(s.sched, x) && AllEnabled(s, steps) && Timers(steps) >= TicksLeft(s.sched, x)
    ensures GetsProcessor(s, steps, x)
    decreases |steps|
  {
    hide Next, Step, Distance;
    if steps != [] {
      NextSched(s, steps[0]);
      var e := EventOf(s, steps[0]);
      if e.Some? {
        StepNearer(s.sched, e.value, x);
      }
      if Next(s, steps[0]).sched.current != x {
        ReadyRuns(Next(s, steps[0]), steps[1..], x);
      }
    }
  }

  /** A thread woken from its wait, the worker or another, has the processor again within 21 timer ticks. */
  lemma WokenRuns(s: System, steps: seq<Action>, x: int)
    requires OneRunning(s.sched) && ReadyAt(s.sched, x) && AllEnabled(s, steps) && Timers(steps) >= 21
    ensures GetsProcessor(s, steps, x)
  {
    ReadyRuns(s, steps, x);
  }

  // ---- the queue in place ----

  /** A request on the stack of the thread that waits for it, linked into the queue. */
  class IoRequest {
    const op: Op
    const waiter: int
    var done: bool
    var answer: Option<Answer>
    var next: IoRequest?

    constructor (op: Op, waiter: int)
      ensures this.op == op && this.waiter == waiter && !done && answer == None && next == null
    {
      this.op, this.waiter := op, waiter;
      done, answer, next := false, None, null;
    }
  }

  class IoQueue {
    var head: IoRequest?
    var tail: IoRequest?
    ghost var nodes: seq<IoRequest>   // from head to tail

    ghost predicate Valid()
      reads this, nodes
    {
      && (forall i, j :: 0 <= i < j < |nodes| ==> nodes[i] != nodes[j])
      && head == (if nodes == [] then null else nodes[0])
      && tail == (if nodes == [] then null else nodes[|nodes| - 1])
      && (forall i :: 0 <= i < |nodes| - 1 ==> nodes[i].next == nodes[i + 1])
      && (nodes != [] ==> nodes[|nodes| - 1].next == null)
    }

    constructor ()
      ensures Valid() && nodes == []
    {
      head, tail, nodes := null, null, [];
    }

    /** The section of enqueue with interrupts off. */
    method Append(req: IoRequest)
      requires Valid() && req !in nodes
      modifies this, req`next, nodes
      ensures Valid() && nodes == old(nodes) + [req]
      ensures forall q :: q in nodes ==> q.done == old(q.done) && q.answer == old(q.answer)
    {
      req.next := null;
      if tail != null {
        tail.next := req;
      } else {
        head := req;
      }
      tail := req;
      nodes := nodes + [req];
    }

    /** dequeue: the oldest request, or null. */
    method Take() returns (req: IoRequest?)
      requires Valid()
      modifies this
      ensures Valid()
      ensures if old(nodes) == [] then req == null && nodes == [] else req == old(nodes)[0] && nodes == old(nodes)[1..]
    {
      req := head;
      if req != null {
        head := req.next;
        if head == null {
          tail := null;
        }
        nodes := nodes[1..];
      }
    }
  }
}
