module WaitQueues {
  // sleep_on and wake_up (kernel/sched.c). The list of sleepers of a queue is nowhere
  // stored: each sleeper keeps in its local `tmp` the task that was at the head of the
  // queue before it. sleep_on is cut in two at its call of schedule.

  import opened Counting
  import opened Tasks
  import opened Scheduler

  const NONE := -1

  // `head[q]` is the queue, `tmp[t]` the local variable of task t. The rest is ghost:
  // the stacks of sleepers, deepest first, by number; the stack that each queue is
  // filling; and where each sleeper is.
  datatype Waits = Waits(
    cpu: Cpu, head: seq<int>, tmp: seq<int>, stacks: seq<seq<int>>, open: seq<int>, place: seq<(int, int)>)

  function Top(stack: seq<int>): int { if stack == [] then NONE else stack[|stack| - 1] }

  predicate At(w: Waits, a: int, i: int) { 0 <= a < |w.stacks| && 0 <= i < |w.stacks[a]| }

  predicate Sized(w: Waits) { |w.cpu.task| == |w.tmp| == |w.place| == NR_TASKS && |w.head| == |w.open| }

  // Sleepers of an open stack all sleep; of a closed one the top has been woken.
  ghost predicate SleeperOk(w: Waits, a: int, i: int)
    requires Sized(w) && At(w, a, i)
  {
    var t := w.stacks[a][i];
    1 <= t < NR_TASKS && w.place[t] == (a, i) && w.tmp[t] == (if i == 0 then NONE else w.stacks[a][i - 1]) &&
    w.cpu.task[t].Used? &&
    w.cpu.task[t].task.state == if a !in w.open && i == |w.stacks[a]| - 1 then RUNNING else UNINTERRUPTIBLE
  }

  predicate Asleep(w: Waits, t: int)
    requires Sized(w) && 0 <= t < NR_TASKS
  {
    At(w, w.place[t].0, w.place[t].1) && w.stacks[w.place[t].0][w.place[t].1] == t
  }

  ghost predicate QueueOk(w: Waits, q: int)
    requires Sized(w) && 0 <= q < |w.open|
  {
    0 <= w.open[q] < |w.stacks| && w.head[q] == Top(w.stacks[w.open[q]])
  }

  // Nobody sleeps outside the stacks.
  ghost predicate NoneLost(w: Waits)
    requires Sized(w)
  {
    forall t :: 0 <= t < NR_TASKS && w.cpu.task[t].Used? && w.cpu.task[t].task.state == UNINTERRUPTIBLE ==> Asleep(w, t)
  }

  ghost predicate Inv(w: Waits) {
    Sized(w) && CpuOk(w.cpu) && Distinct(w.open) && NoneLost(w) &&
    (forall q :: 0 <= q < |w.open| ==> QueueOk(w, q)) &&
    forall a, i :: At(w, a, i) ==> SleeperOk(w, a, i)
  }

  datatype Op = Sleep(q: int) | Resume | Wake(q: int) | Machine(event: Event)

  // When an operation can happen: sleep_on is called by a running task other than 0
  // and returns when that task is current again; the rest is timer and schedule.
  ghost predicate Enabled(w: Waits, op: Op)
    requires Inv(w)
  {
    match op
    case Sleep(q) => 0 <= q < |w.head| && Runnable(w.cpu.task, w.cpu.current) && !Asleep(w, w.cpu.current)
    case Resume => Runnable(w.cpu.task, w.cpu.current) && Asleep(w, w.cpu.current)
    case Wake(q) => 0 <= q < |w.head|
    case Machine(event) => !event.SetState?
  }

  ghost function Slept(w: Waits, q: int): Waits
    requires Inv(w) && Enabled(w, Sleep(q))
  {
    var c := w.cpu.current;
    assert QueueOk(w, q);
    w.(cpu := w.cpu.(task := WithState(w.cpu.task, c, UNINTERRUPTIBLE)),
       tmp := w.tmp[c := w.head[q]],
       head := w.head[q := c],
       stacks := w.stacks[w.open[q] := w.stacks[w.open[q]] + [c]],
       place := w.place[c := (w.open[q], |w.stacks[w.open[q]]|)])
  }

  ghost function Resumed(w: Waits): Waits
    requires Inv(w) && Enabled(w, Resume)
  {
    var c := w.cpu.current;
    var a := w.place[c].0;
    ResumerIsTop(w);
    w.(cpu := w.cpu.(task := if w.tmp[c] == NONE then w.cpu.task else WithState(w.cpu.task, w.tmp[c], RUNNING)),
       stacks := w.stacks[a := w.stacks[a][..|w.stacks[a]| - 1]])
  }

  ghost function Woken(w: Waits, q: int): Waits
    requires Inv(w) && Enabled(w, Wake(q))
  {
    assert QueueOk(w, q);
    if w.head[q] == NONE then w
    else
      assert SleeperOk(w, w.open[q], |w.stacks[w.open[q]]| - 1);
      w.(cpu := w.cpu.(task := WithState(w.cpu.task, w.head[q], RUNNING)),
         head := w.head[q := NONE],
         stacks := w.stacks + [[]],
         open := w.open[q := |w.stacks|])
  }

  ghost predicate Step(w: Waits, op: Op, w': Waits)
    requires Inv(w)
  {
    Enabled(w, op) &&
    match op
    case Sleep(q) =>
      var s := Slept(w, q);
      w' == s.(cpu := w'.cpu) && Scheduled(s.cpu.task, w'.cpu.task, w'.cpu.current)
    case Resume => w' == Resumed(w)
    case Wake(q) => w' == Woken(w, q)
    case Machine(event) => w' == w.(cpu := w'.cpu) && Next(w.cpu, event, w'.cpu)
  }

  // ---------- The invariant is kept ----------

  // Only the top of a closed stack can come back from schedule.
  lemma ResumerIsTop(w: Waits)
    requires Inv(w) && Enabled(w, Resume)
    ensures var c := w.cpu.current; var (a, i) := w.place[c];
            At(w, a, i) && a !in w.open && i == |w.stacks[a]| - 1 && w.stacks[a][i] == c &&
            w.tmp[c] == (if i == 0 then NONE else w.stacks[a][i - 1]) &&
            (i > 0 ==> 0 <= w.tmp[c] < NR_TASKS && w.cpu.task[w.tmp[c]].Used?) && (w.tmp[c] == NONE <==> i == 0)
  {
    var (a, i) := w.place[w.cpu.current];
    assert SleeperOk(w, a, i);
    if i > 0 { assert SleeperOk(w, a, i - 1); }
  }

  // Changes of counters and of `current` are invisible here.
  lemma SameStatesKeepInv(w: Waits, cpu: Cpu)
    requires Sized(w) && Distinct(w.open) && NoneLost(w) && CpuOk(cpu)
    requires forall q :: 0 <= q < |w.open| ==> QueueOk(w, q)
    requires forall a, i :: At(w, a, i) ==> SleeperOk(w, a, i)
    requires forall t :: 0 <= t < NR_TASKS ==>
               cpu.task[t].Used? == w.cpu.task[t].Used? &&
               (cpu.task[t].Used? ==> cpu.task[t].task.state == w.cpu.task[t].task.state)
    ensures Inv(w.(cpu := cpu))
  {
    var w' := w.(cpu := cpu);
    forall a, i | At(w', a, i) ensures SleeperOk(w', a, i) { assert SleeperOk(w, a, i); }
    forall q | 0 <= q < |w'.open| ensures QueueOk(w', q) { assert QueueOk(w, q); }
    forall t | 0 <= t < NR_TASKS && w'.cpu.task[t].Used? && w'.cpu.task[t].task.state == UNINTERRUPTIBLE
      ensures Asleep(w', t)
    {
      assert Asleep(w, t);
    }
  }

  lemma SleepKeepsInv(w: Waits, q: int)
    requires Inv(w) && Enabled(w, Sleep(q))
    ensures Inv(Slept(w, q))
  {
    var w', c, b := Slept(w, q), w.cpu.current, w.open[q];
    assert QueueOk(w, q);
    forall a, i | At(w', a, i) ensures SleeperOk(w', a, i) {
      if a == b && i == |w.stacks[b]| {
      } else {
        assert At(w, a, i) && SleeperOk(w, a, i);
      }
    }
    forall p | 0 <= p < |w'.open| ensures QueueOk(w', p) { assert QueueOk(w, p); }
    forall t | 0 <= t < NR_TASKS && w'.cpu.task[t].Used? && w'.cpu.task[t].task.state == UNINTERRUPTIBLE
      ensures Asleep(w', t)
    {
      if t != c { assert Asleep(w, t); }
    }
  }

  lemma ResumeKeepsInv(w: Waits)
    requires Inv(w) && Enabled(w, Resume)
    ensures Inv(Resumed(w))
  {
    ResumerIsTop(w);
    var w', c := Resumed(w), w.cpu.current;
    var (b, n) := w.place[c];
    if n > 0 { assert SleeperOk(w, b, n - 1); }
    forall a, i | At(w', a, i) ensures SleeperOk(w', a, i) {
      assert At(w, a, i) && SleeperOk(w, a, i);
    }
    forall q | 0 <= q < |w'.open| ensures QueueOk(w', q) { assert QueueOk(w, q); }
    forall t | 0 <= t < NR_TASKS && w'.cpu.task[t].Used? && w'.cpu.task[t].task.state == UNINTERRUPTIBLE
      ensures Asleep(w', t)
    {
      assert Asleep(w, t);
    }
  }

  lemma WakeKeepsInv(w: Waits, q: int)
    requires Inv(w) && Enabled(w, Wake(q))
    ensures Inv(Woken(w, q))
  {
    var w', b := Woken(w, q), w.open[q];
    assert QueueOk(w, q);
    if w.head[q] != NONE {
      forall p, r | 0 <= p < r < |w'.open| ensures w'.open[p] != w'.open[r] {
        assert QueueOk(w, p) && QueueOk(w, r);
      }
      assert b !in w'.open;
      var n := |w.stacks[b]| - 1;
      assert SleeperOk(w, b, n);
      forall a, i | At(w', a, i) ensures SleeperOk(w', a, i) {
        assert At(w, a, i) && SleeperOk(w, a, i);
        assert a != b ==> (a in w'.open <==> a in w.open) by {
          if a in w.open { var p :| 0 <= p < |w.open| && w.open[p] == a; if a != b { assert w'.open[p] == a; } }
        }
      }
      forall p | 0 <= p < |w'.open| ensures QueueOk(w', p) { assert QueueOk(w, p); }
      forall t | 0 <= t < NR_TASKS && w'.cpu.task[t].Used? && w'.cpu.task[t].task.state == UNINTERRUPTIBLE
        ensures Asleep(w', t)
      {
        assert Asleep(w, t);
      }
    }
  }

  lemma StepKeepsInv(w: Waits, op: Op, w': Waits)
    requires Inv(w) && Step(w, op, w')
    ensures Inv(w')
  {
    match op
    case Sleep(q) =>
      SleepKeepsInv(w, q);
      NextKeepsOk(Slept(w, q).cpu, Yield, w'.cpu);
      SameStatesKeepInv(Slept(w, q), w'.cpu);
    case Resume => ResumeKeepsInv(w);
    case Wake(q) => WakeKeepsInv(w, q);
    case Machine(event) =>
      NextKeepsOk(w.cpu, event, w'.cpu);
      SameStatesKeepInv(w, w'.cpu);
  }

  // ---------- Whole runs ----------

  // `Step` speaks of states that satisfy the invariant; `RunKeepsInv` shows that all of a
  // run do.
  ghost predicate IsRun(ws: seq<Waits>, ops: seq<Op>) {
    |ws| == |ops| + 1 && Inv(ws[0]) && forall j :: 0 <= j < |ops| && Inv(ws[j]) ==> Step(ws[j], ops[j], ws[j + 1])
  }

  lemma {:induction false} RunKeepsInv(ws: seq<Waits>, ops: seq<Op>, n: nat)
    requires IsRun(ws, ops) && n <= |ops|
    ensures Inv(ws[n])
  {
    if n > 0 {
      RunKeepsInv(ws, ops, n - 1);
      StepKeepsInv(ws[n - 1], ops[n - 1], ws[n]);
    }
  }

  ghost predicate Closed(w: Waits, a: int) { 0 <= a < |w.stacks| && a !in w.open }

  // The tasks of stack a that come back from sleep_on during a run, the latest first.
  ghost function BackFrom(ws: seq<Waits>, ops: seq<Op>, a: int): seq<int>
    requires IsRun(ws, ops)
    decreases |ops|
  {
    if ops == [] then [] else
      var n := |ops| - 1;
      RunKeepsInv(ws, ops, n);
      var back := BackFrom(ws[..n + 1], ops[..n], a);
      if ops[n] == Resume && ws[n].place[ws[n].cpu.current].0 == a then [ws[n].cpu.current] + back else back
  }

  lemma ClosedStackStep(w: Waits, op: Op, w': Waits, a: int)
    requires Inv(w) && Inv(w') && Step(w, op, w') && Closed(w, a)
    ensures Closed(w', a)
    ensures if op == Resume && w.place[w.cpu.current].0 == a
            then w.stacks[a] == w'.stacks[a] + [w.cpu.current] else w'.stacks[a] == w.stacks[a]
  {
    if op == Resume { ResumerIsTop(w); }
    if op.Sleep? { assert QueueOk(w, op.q); }
  }

  lemma RunPrefix(ws: seq<Waits>, ops: seq<Op>)
    requires IsRun(ws, ops) && ops != []
    ensures Inv(ws[|ops| - 1]) && Inv(ws[|ops|])
    ensures IsRun(ws[..|ops|], ops[..|ops| - 1]) && Step(ws[|ops| - 1], ops[|ops| - 1], ws[|ops|])
  {
    var n := |ops| - 1;
    RunKeepsInv(ws, ops, n);
    RunKeepsInv(ws, ops, n + 1);
    forall j | 0 <= j < n && Inv(ws[..n + 1][j]) ensures Step(ws[..n + 1][j], ops[..n][j], ws[..n + 1][j + 1]) {
      assert Step(ws[j], ops[j], ws[j + 1]);
    }
  }

  lemma RunTail(ws: seq<Waits>, ops: seq<Op>)
    requires IsRun(ws, ops) && ops != []
    ensures IsRun(ws[1..], ops[1..]) && Step(ws[0], ops[0], ws[1]) && Inv(ws[1])
  {
    StepKeepsInv(ws[0], ops[0], ws[1]);
    forall j | 0 <= j < |ops| - 1 && Inv(ws[1..][j]) ensures Step(ws[1..][j], ops[1..][j], ws[1..][j + 1]) {
      assert Step(ws[j + 1], ops[j + 1], ws[j + 2]);
    }
  }

  // Once woken, a stack of sleepers only shrinks, from the top: its tasks come back
  // each exactly once, last in first out, and the others are all still there,
  // whatever sleeps or wakes up meanwhile.
  lemma {:induction false} LastInFirstOut(ws: seq<Waits>, ops: seq<Op>, a: int)
    requires IsRun(ws, ops) && Closed(ws[0], a)
    ensures Closed(ws[|ops|], a) && ws[|ops|].stacks[a] + BackFrom(ws, ops, a) == ws[0].stacks[a]
    decreases |ops|
  {
    if ops != [] {
      var n := |ops| - 1;
      RunPrefix(ws, ops);
      LastInFirstOut(ws[..n + 1], ops[..n], a);
      ClosedStackStep(ws[n], ops[n], ws[n + 1], a);
      var back := BackFrom(ws[..n + 1], ops[..n], a);
      assert ws[n].stacks[a] + back == ws[0].stacks[a];
      if ops[n] == Resume && ws[n].place[ws[n].cpu.current].0 == a {
      }
    }
  }

  // ---------- Progress ----------

  predicate IsUserTick(op: Op) { op == Machine(Tick(true)) }

  function UserTicks(ops: seq<Op>): nat {
    if ops == [] then 0 else UserTicks(ops[1..]) + if IsUserTick(ops[0]) then 1 else 0
  }

  lemma TopIsRunnable(w: Waits, a: int)
    requires Inv(w) && Closed(w, a) && w.stacks[a] != []
    ensures Runnable(w.cpu.task, Top(w.stacks[a]))
  {
    assert SleeperOk(w, a, |w.stacks[a]| - 1);
  }

  lemma TopWaitsLess(w: Waits, op: Op, w': Waits, a: int)
    requires Inv(w) && Inv(w') && Step(w, op, w') && Closed(w, a) && w.stacks[a] != []
    requires w.cpu.current != Top(w.stacks[a]) && w'.cpu.current != Top(w.stacks[a])
    ensures Closed(w', a) && w'.stacks[a] == w.stacks[a]
    ensures Runnable(w.cpu.task, Top(w.stacks[a])) && Runnable(w'.cpu.task, Top(w.stacks[a]))
    ensures Patience(w'.cpu, Top(w.stacks[a])) + (if IsUserTick(op) then 1 else 0) <= Patience(w.cpu, Top(w.stacks[a]))
  {
    var t := Top(w.stacks[a]);
    ClosedStackStep(w, op, w', a);
    if op == Resume { ResumerIsTop(w); }
    TopIsRunnable(w, a);
    TopIsRunnable(w', a);
    match op
    case Sleep(q) =>
      var s := Slept(w, q).cpu;
      EveryTickCounts(w.cpu, SetState(w.cpu.current, UNINTERRUPTIBLE), s, t);
      ScheduleIsPatient(s, w'.cpu, t);
    case Resume =>
      if w.tmp[w.cpu.current] != NONE { EveryTickCounts(w.cpu, SetState(w.tmp[w.cpu.current], RUNNING), w'.cpu, t); }
    case Wake(q) =>
      if w.head[q] != NONE {
        assert QueueOk(w, q) && SleeperOk(w, w.open[q], |w.stacks[w.open[q]]| - 1);
        EveryTickCounts(w.cpu, SetState(w.head[q], RUNNING), w'.cpu, t);
      }
    case Machine(event) => EveryTickCounts(w.cpu, event, w'.cpu, t);
  }

  // The next sleeper in line becomes current within boundedly many user ticks.
  lemma {:induction false} NextSleeperIsServed(ws: seq<Waits>, ops: seq<Op>, a: int)
    requires IsRun(ws, ops) && Closed(ws[0], a) && ws[0].stacks[a] != []
    requires forall j :: 0 <= j < |ws| ==> ws[j].cpu.current != Top(ws[0].stacks[a])
    ensures Runnable(ws[0].cpu.task, Top(ws[0].stacks[a]))
    ensures UserTicks(ops) <= Patience(ws[0].cpu, Top(ws[0].stacks[a]))
    decreases |ops|
  {
    TopIsRunnable(ws[0], a);
    if ops == [] {
      SumInBounds(ws[0].cpu.task, NR_TASKS);
    } else {
      RunTail(ws, ops);
      TopWaitsLess(ws[0], ops[0], ws[1], a);
      NextSleeperIsServed(ws[1..], ops[1..], a);
    }
  }

  // A task inside sleep_on runs in kernel mode: before it goes on, nothing but an
  // interrupt can come in.
  ghost predicate KernelMode(ws: seq<Waits>, ops: seq<Op>) {
    |ws| == |ops| + 1 && forall j :: 0 <= j < |ops| && Inv(ws[j]) ==> Busy(ws[j], ops[j])
  }

  ghost predicate Busy(w: Waits, op: Op)
    requires Inv(w)
  {
    Asleep(w, w.cpu.current) ==> op == Resume || op.Wake? || op == Machine(Tick(false))
  }

  lemma KernelTail(ws: seq<Waits>, ops: seq<Op>)
    requires KernelMode(ws, ops) && ops != []
    ensures KernelMode(ws[1..], ops[1..])
  {
    forall j | 0 <= j < |ops| - 1 && Inv(ws[1..][j]) ensures Busy(ws[1..][j], ops[1..][j]) {
      assert Busy(ws[j + 1], ops[j + 1]);
    }
  }

  lemma SameLongestWait(w: Waits, op: Op, w': Waits)
    requires Inv(w) && Inv(w') && Step(w, op, w')
    ensures LongestWait(w'.cpu.task) == LongestWait(w.cpu.task)
  {
    if op == Resume { ResumerIsTop(w); }
    if op.Wake? && w.head[op.q] != NONE {
      assert QueueOk(w, op.q) && SleeperOk(w, w.open[op.q], |w.stacks[w.open[op.q]]| - 1);
    }
    SamePriorities(w.cpu.task, w'.cpu.task);
  }

  // User ticks until the whole of a woken stack has come back.
  ghost function Draining(w: Waits, a: int): int
    requires Inv(w) && Closed(w, a)
  {
    if w.stacks[a] == [] then 0 else
      TopIsRunnable(w, a);
      (if w.cpu.current == Top(w.stacks[a]) then 0 else Patience(w.cpu, Top(w.stacks[a]))) +
      (|w.stacks[a]| - 1) * LongestWait(w.cpu.task)
  }

  lemma DrainingIsBounded(w: Waits, a: int)
    requires Inv(w) && Closed(w, a)
    ensures 0 <= Draining(w, a) <= |w.stacks[a]| * LongestWait(w.cpu.task)
  {
    var n, b := |w.stacks[a]|, LongestWait(w.cpu.task);
    if n > 0 {
      TopIsRunnable(w, a);
      PatienceIsBounded(w.cpu, Top(w.stacks[a]));
      assert n * b == (n - 1) * b + b;
      assert (n - 1) * b >= 0;
    }
  }

  lemma TopGoesOn(w: Waits, op: Op, w': Waits, a: int)
    requires Inv(w) && Inv(w') && Step(w, op, w') && Busy(w, op) && Closed(w, a) && w.stacks[a] != []
    requires w.cpu.current == Top(w.stacks[a])
    ensures Closed(w', a) && Draining(w', a) <= Draining(w, a) && !IsUserTick(op)
  {
    assert SleeperOk(w, a, |w.stacks[a]| - 1);
    ClosedStackStep(w, op, w', a);
    SameLongestWait(w, op, w');
    if op == Resume { DrainingIsBounded(w', a); }
  }

  lemma DrainingFalls(w: Waits, op: Op, w': Waits, a: int)
    requires Inv(w) && Inv(w') && Step(w, op, w') && Busy(w, op) && Closed(w, a) && w.stacks[a] != []
    ensures Closed(w', a) && Draining(w', a) + (if IsUserTick(op) then 1 else 0) <= Draining(w, a)
  {
    var t := Top(w.stacks[a]);
    ClosedStackStep(w, op, w', a);
    SameLongestWait(w, op, w');
    if w.cpu.current == t {
      TopGoesOn(w, op, w', a);
    } else {
      if op == Resume { ResumerIsTop(w); }
      assert w'.stacks[a] == w.stacks[a];
      if w'.cpu.current != t {
        TopWaitsLess(w, op, w', a);
      } else {
        TopIsRunnable(w, a);
        PatienceIsBounded(w.cpu, t);
      }
    }
  }

  lemma {:induction false} DrainsInTime(ws: seq<Waits>, ops: seq<Op>, a: int)
    requires IsRun(ws, ops) && KernelMode(ws, ops) && Closed(ws[0], a)
    requires 0 <= a < |ws[|ops|].stacks| && ws[|ops|].stacks[a] != []
    ensures UserTicks(ops) <= Draining(ws[0], a)
    decreases |ops|
  {
    if ops == [] {
      DrainingIsBounded(ws[0], a);
    } else {
      RunTail(ws, ops);
      LastInFirstOut(ws, ops, a);
      KernelTail(ws, ops);
      assert Busy(ws[0], ops[0]);
      DrainingFalls(ws[0], ops[0], ws[1], a);
      DrainsInTime(ws[1..], ops[1..], a);
    }
  }

  // Everybody in a woken stack comes back within so many user ticks.
  lemma StackDrains(ws: seq<Waits>, ops: seq<Op>, a: int)
    requires IsRun(ws, ops) && KernelMode(ws, ops) && Closed(ws[0], a)
    requires UserTicks(ops) > |ws[0].stacks[a]| * LongestWait(ws[0].cpu.task)
    ensures BackFrom(ws, ops, a) == ws[0].stacks[a]
  {
    LastInFirstOut(ws, ops, a);
    DrainingIsBounded(ws[0], a);
    if ws[|ops|].stacks[a] != [] { DrainsInTime(ws, ops, a); }
  }

  lemma WakeUpCloses(w: Waits, q: int, w': Waits)
    requires Inv(w) && Step(w, Wake(q), w') && w.head[q] != NONE
    ensures var a := w.open[q];
            0 <= a < |w.stacks| && Closed(w', a) && w'.stacks[a] == w.stacks[a] && w.head[q] == Top(w.stacks[a]) &&
            Runnable(w'.cpu.task, w.head[q])
  {
    var a := w.open[q];
    assert QueueOk(w, q) && SleeperOk(w, a, |w.stacks[a]| - 1);
    assert forall r :: 0 <= r < |w.open| && r != q ==> w.open[r] != a;
  }

  // wake_up closes the stack of the queue's sleepers and makes its top runnable. From then
  // on each of them comes back exactly once, last in first out, and all of them do within
  // the ticks that one longest wait for each amounts to.
  lemma WakeUpWakesAll(ws: seq<Waits>, ops: seq<Op>, q: int)
    requires IsRun(ws, ops) && ops != [] && ops[0] == Wake(q) && 0 <= q < |ws[0].head| && ws[0].head[q] != NONE
    ensures IsRun(ws[1..], ops[1..])
    ensures var a := ws[0].open[q];
            0 <= a < |ws[0].stacks| && a < |ws[|ops|].stacks| &&
            ws[0].head[q] == Top(ws[0].stacks[a]) && Runnable(ws[1].cpu.task, ws[0].head[q]) &&
            ws[|ops|].stacks[a] + BackFrom(ws[1..], ops[1..], a) == ws[0].stacks[a] &&
            (KernelMode(ws, ops) && UserTicks(ops) > |ws[0].stacks[a]| * LongestWait(ws[0].cpu.task) ==>
               BackFrom(ws[1..], ops[1..], a) == ws[0].stacks[a])
  {
    var a := ws[0].open[q];
    RunTail(ws, ops);
    WakeUpCloses(ws[0], q, ws[1]);
    LastInFirstOut(ws[1..], ops[1..], a);
    SameLongestWait(ws[0], ops[0], ws[1]);
    if KernelMode(ws, ops) && UserTicks(ops) > |ws[0].stacks[a]| * LongestWait(ws[0].cpu.task) {
      KernelTail(ws, ops);
      StackDrains(ws[1..], ops[1..], a);
    }
  }

  // ---------- The code ----------

  class WaitQueues {
    const cpu: Processor
    var head: seq<int>
    var tmp: seq<int>
    ghost var stacks: seq<seq<int>>
    ghost var open: seq<int>
    ghost var place: seq<(int, int)>

    ghost function State(): Waits
      reads this, cpu
    {
      Waits(cpu.State(), head, tmp, stacks, open, place)
    }

    constructor (cpu: Processor, queues: nat)
      requires CpuOk(cpu.State())
      requires forall t :: 0 <= t < NR_TASKS && cpu.task[t].Used? ==> cpu.task[t].task.state != UNINTERRUPTIBLE
      ensures Inv(State()) && this.cpu == cpu && |head| == queues && forall q :: 0 <= q < queues ==> head[q] == NONE
    {
      this.cpu := cpu;
      head := seq(queues, q => NONE);
      tmp := seq(NR_TASKS, t => NONE);
      stacks := seq(queues, q => []);
      open := seq(queues, q => q);
      place := seq(NR_TASKS, t => (NONE, NONE));
    }

    // sleep_on up to and including its call of schedule.
    method SleepOn(q: int)
      requires Inv(State()) && Enabled(State(), Sleep(q))
      modifies this, cpu
      ensures Step(old(State()), Sleep(q), State()) && Inv(State())
    {
      ghost var was := State();
      assert QueueOk(was, q);
      var current := cpu.current;
      tmp := tmp[current := head[q]];
      head := head[q := current];
      cpu.task := WithState(cpu.task, current, UNINTERRUPTIBLE);
      place := place[current := (open[q], |stacks[open[q]]|)];
      stacks := stacks[open[q] := stacks[open[q]] + [current]];
      assert State() == Slept(was, q);
      SleepKeepsInv(was, q);
      cpu.Schedule();
      StepKeepsInv(was, Sleep(q), State());
    }

    // The rest of sleep_on.
    method FinishSleep()
      requires Inv(State()) && Enabled(State(), Resume)
      modifies this, cpu
      ensures Step(old(State()), Resume, State()) && Inv(State())
    {
      ghost var was := State();
      ResumerIsTop(was);
      var sleeper := tmp[cpu.current];
      if sleeper != NONE {
        cpu.task := WithState(cpu.task, sleeper, RUNNING);
      }
      ghost var a := place[cpu.current].0;
      stacks := stacks[a := stacks[a][..|stacks[a]| - 1]];
      assert State() == Resumed(was);
      StepKeepsInv(was, Resume, State());
    }

    method WakeUp(q: int)
      requires Inv(State()) && Enabled(State(), Wake(q))
      modifies this, cpu
      ensures Step(old(State()), Wake(q), State()) && Inv(State())
    {
      ghost var was := State();
      assert QueueOk(was, q);
      if head[q] != NONE {
        assert SleeperOk(was, open[q], |stacks[open[q]]| - 1);
        cpu.task := WithState(cpu.task, head[q], RUNNING);
        head := head[q := NONE];
        open := open[q := |stacks|];
        stacks := stacks + [[]];
      }
      assert State() == Woken(was, q);
      StepKeepsInv(was, Wake(q), State());
    }

    // do_timer while others sleep.
    method Timer(user: bool)
      requires Inv(State())
      modifies cpu
      ensures Step(old(State()), Machine(Tick(user)), State()) && Inv(State())
    {
      ghost var was := State();
      cpu.DoTimer(user);
      StepKeepsInv(was, Machine(Tick(user)), State());
    }
  }
}
