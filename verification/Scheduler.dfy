// schedule and do_timer (kernel/sched.c).
module Scheduler {
  import opened Arithmetic
  import opened Tasks

  predicate Runnable(task: seq<Slot>, i: int) {
    1 <= i < |task| && task[i].Used? && task[i].task.state == RUNNING
  }

  predicate SlotSane(s: Slot) {
    s.Used? ==> s.task.priority >= 1 && 0 <= s.task.counter <= 2 * s.task.priority - 1
  }

  predicate Sane(task: seq<Slot>) {
    |task| == NR_TASKS && task[0].Used? && forall i :: 0 <= i < NR_TASKS ==> SlotSane(task[i])
  }

  // The runnable task with the largest counter, the highest-numbered one among
  // equals; task 0 if none is runnable.
  ghost predicate Best(task: seq<Slot>, next: int) {
    if next == 0 then forall i :: 1 <= i < |task| ==> !Runnable(task, i)
    else Runnable(task, next) &&
         forall i :: Runnable(task, i) ==>
           task[i].task.counter < task[next].task.counter ||
             (task[i].task.counter == task[next].task.counter && i <= next)
  }

  // Every runnable task has used up its time.
  ghost predicate Exhausted(task: seq<Slot>) {
    (exists i :: Runnable(task, i)) && forall i :: Runnable(task, i) ==> task[i].task.counter == 0
  }

  function Refill(s: Slot): Slot {
    if s.Empty? then s else Used(s.task.(counter := s.task.counter / 2 + s.task.priority))
  }

  // The recomputation, which passes over task 0.
  function Refilled(task: seq<Slot>): seq<Slot> {
    seq(|task|, i requires 0 <= i < |task| => if i == 0 then task[i] else Refill(task[i]))
  }

  // One call of schedule.
  ghost predicate Scheduled(task: seq<Slot>, task': seq<Slot>, next: int) {
    task' == (if Exhausted(task) then Refilled(task) else task) && 0 <= next < |task'| && Best(task', next)
  }

  datatype Cpu = Cpu(task: seq<Slot>, current: int)

  ghost predicate CpuOk(s: Cpu) {
    Sane(s.task) && 0 <= s.current < NR_TASKS && s.task[s.current].Used?
  }

  datatype Event =
    | Tick(user: bool)                       // the timer, in user or kernel mode
    | Yield                                  // the current task calls schedule
    | SetState(i: int, state: TaskState)     // somebody sleeps or is woken

  function WithCounter(task: seq<Slot>, i: int, c: int): seq<Slot>
    requires 0 <= i < |task| && task[i].Used?
  {
    task[i := Used(task[i].task.(counter := c))]
  }

  function WithState(task: seq<Slot>, i: int, state: TaskState): seq<Slot>
    requires 0 <= i < |task| && task[i].Used?
  {
    task[i := Used(task[i].task.(state := state))]
  }

  ghost predicate Next(s: Cpu, e: Event, s': Cpu)
    requires CpuOk(s)
  {
    match e
    case Tick(user) =>
      var left := s.task[s.current].task.counter - 1;
      if left > 0 then s' == s.(task := WithCounter(s.task, s.current, left))
      else if !user then s' == s.(task := WithCounter(s.task, s.current, 0))
      else Scheduled(WithCounter(s.task, s.current, 0), s'.task, s'.current)
    case Yield => Scheduled(s.task, s'.task, s'.current)
    case SetState(i, state) =>
      0 <= i < NR_TASKS && s.task[i].Used? && s' == s.(task := WithState(s.task, i, state))
  }

  class Processor {
    var task: seq<Slot>
    var current: int

    ghost function State(): Cpu
      reads this
    {
      Cpu(task, current)
    }

    method Schedule()
      requires Sane(task)
      modifies this
      ensures Scheduled(old(task), task, current)
      ensures Sane(task)
    {
      ghost var was, rounds := task, 0;
      while true
        invariant 0 <= rounds <= 1 && Sane(task)
        invariant task == (if rounds == 0 then was else Refilled(was)) && (rounds == 1 ==> Exhausted(was))
        decreases 1 - rounds
      {
        var c, next, i := -1, 0, NR_TASKS - 1;
        while i > 0
          invariant 0 <= i < NR_TASKS
          invariant if next == 0 then c == -1 else next > i && Runnable(task, next) && c == task[next].task.counter
          invariant forall j :: Runnable(task, j) && j > i ==>
                      task[j].task.counter < c || (task[j].task.counter == c && j <= next)
        {
          if task[i].Used? {
            if task[i].task.state == RUNNING && task[i].task.counter > c {
              c := task[i].task.counter;
              next := i;
            }
          }
          i := i - 1;
        }
        if c != 0 {
          current := next;
          break;
        }
        assert Runnable(task, next);
        RefilledIsReady(was, next);
        ghost var oldTask := task;
        var p := NR_TASKS - 1;
        while p > 0
          invariant 0 <= p < NR_TASKS && |task| == NR_TASKS
          invariant forall j :: 0 <= j < NR_TASKS ==> task[j] == if j > p then Refill(oldTask[j]) else oldTask[j]
        {
          if task[p].Used? {
            task := WithCounter(task, p, task[p].task.counter / 2 + task[p].task.priority);
          }
          p := p - 1;
        }
        assert task == Refilled(oldTask);
        RefillKeepsSane(oldTask);
        rounds := rounds + 1;
      }
    }

    // The part of do_timer after the timer list; `user` is cpl != 0.
    method DoTimer(user: bool)
      requires CpuOk(State())
      modifies this
      ensures Next(old(State()), Tick(user), State())
      ensures CpuOk(State())
    {
      var left := task[current].task.counter - 1;
      if left > 0 {
        task := WithCounter(task, current, left);
        return;
      }
      task := WithCounter(task, current, 0);
      if !user {
        return;
      }
      Schedule();
    }
  }

  // ---------- Counters ----------

  // A counter stays below twice the priority, however long a task sleeps.
  lemma RefillKeepsSane(task: seq<Slot>)
    requires Sane(task)
    ensures Sane(Refilled(task))
  {
  }

  // After one recomputation some runnable task has time, so schedule never
  // recomputes twice.
  lemma RefilledIsReady(task: seq<Slot>, i: int)
    requires Sane(task) && Runnable(task, i)
    ensures Runnable(Refilled(task), i) && Refilled(task)[i].task.counter >= 1 && !Exhausted(Refilled(task))
  {
  }

  // ---------- Fairness ----------

  function Time(s: Slot): int { if s.Used? then s.task.counter else 0 }

  // Summed counters of the first n slots.
  function Sum(task: seq<Slot>, n: nat): int
    requires n <= |task|
  {
    if n == 0 then 0 else Sum(task, n - 1) + Time(task[n - 1])
  }

  // What the counters of tasks 1 .. n-1 can sum to at most.
  function MaxSum(task: seq<Slot>, n: nat): int
    requires n <= |task|
  {
    if n <= 1 then 0
    else MaxSum(task, n - 1) + if task[n - 1].Used? then 2 * task[n - 1].task.priority - 1 else 0
  }

  // User ticks that task t may still have to wait for.
  ghost function Patience(s: Cpu, t: int): int
    requires CpuOk(s) && Runnable(s.task, t)
  {
    Sum(s.task, NR_TASKS) + (if s.task[s.current].task.counter == 0 then 1 else 0) +
    (if s.task[t].task.counter == 0 then MaxSum(s.task, NR_TASKS) + 1 else 0)
  }

  lemma {:induction false} SumUpdate(task: seq<Slot>, i: int, s: Slot, n: nat)
    requires 0 <= i < |task| && n <= |task|
    ensures Sum(task[i := s], n) == Sum(task, n) + if i < n then Time(s) - Time(task[i]) else 0
  {
    if n > 0 { SumUpdate(task, i, s, n - 1); }
  }

  lemma {:induction false} SameMaxSum(a: seq<Slot>, b: seq<Slot>, n: nat)
    requires n <= |a| == |b|
    requires forall i :: 0 <= i < |a| ==>
               a[i].Used? == b[i].Used? && (a[i].Used? ==> a[i].task.priority == b[i].task.priority)
    ensures MaxSum(a, n) == MaxSum(b, n)
  {
    if n > 1 { SameMaxSum(a, b, n - 1); }
  }

  lemma {:induction false} SumInBounds(task: seq<Slot>, n: nat)
    requires Sane(task) && 1 <= n <= NR_TASKS
    ensures Time(task[0]) <= Sum(task, n) <= Time(task[0]) + MaxSum(task, n)
  {
    if n > 1 {
      SumInBounds(task, n - 1);
      assert SlotSane(task[n - 1]);
    } else {
      assert Sum(task, 0) == 0;
    }
  }

  // A call of schedule that does not choose t leaves t at most as long to wait; the
  // last term is the unit gained when the task that called had no time left.
  lemma ScheduleIsPatient(s: Cpu, s': Cpu, t: int)
    requires CpuOk(s) && CpuOk(s') && Runnable(s.task, t) && Scheduled(s.task, s'.task, s'.current) && s'.current != t
    ensures Runnable(s'.task, t)
    ensures Patience(s', t) + (if s.task[s.current].task.counter == 0 then 1 else 0) <= Patience(s, t)
  {
    SumInBounds(s.task, NR_TASKS);
    SumInBounds(s'.task, NR_TASKS);
    SameMaxSum(s.task, s'.task, NR_TASKS);
    if Exhausted(s.task) {
      RefilledIsReady(s.task, t);
    } else {
      assert Best(s.task, s'.current) && Runnable(s.task, t);
    }
    assert s'.task[s'.current].task.counter > 0;
  }

  lemma EveryTickCounts(s: Cpu, e: Event, s': Cpu, t: int)
    requires CpuOk(s) && CpuOk(s') && Runnable(s.task, t) && Runnable(s'.task, t) && s.current != t && s'.current != t
    requires Next(s, e, s')
    ensures Patience(s', t) + (if e == Tick(true) then 1 else 0) <= Patience(s, t)
  {
    match e
    case Tick(user) =>
      var left := s.task[s.current].task.counter - 1;
      var c := if left > 0 then left else 0;
      var ticked := s.(task := WithCounter(s.task, s.current, c));
      SumUpdate(s.task, s.current, ticked.task[s.current], NR_TASKS);
      SameMaxSum(s.task, ticked.task, NR_TASKS);
      if left <= 0 && user { ScheduleIsPatient(ticked, s', t); }
    case Yield => ScheduleIsPatient(s, s', t);
    case SetState(i, state) =>
      SumUpdate(s.task, i, s'.task[i], NR_TASKS);
      SameMaxSum(s.task, s'.task, NR_TASKS);
  }

  lemma NextKeepsOk(s: Cpu, e: Event, s': Cpu)
    requires CpuOk(s) && Next(s, e, s')
    ensures CpuOk(s')
  {
    if e.Tick? {
      RefillKeepsSane(WithCounter(s.task, s.current, 0));
    } else if e.Yield? {
      RefillKeepsSane(s.task);
    }
  }

  // `Next` speaks of states that satisfy `CpuOk`; `NextKeepsOk` shows that all of a run do.
  ghost predicate IsRun(ss: seq<Cpu>, es: seq<Event>) {
    |ss| == |es| + 1 && CpuOk(ss[0]) && forall j :: 0 <= j < |es| && CpuOk(ss[j]) ==> Next(ss[j], es[j], ss[j + 1])
  }

  function UserTicks(es: seq<Event>): nat {
    if es == [] then 0 else UserTicks(es[1..]) + if es[0] == Tick(true) then 1 else 0
  }

  ghost predicate Passed(ss: seq<Cpu>, t: int) {
    forall j :: 0 <= j < |ss| ==> Runnable(ss[j].task, t) && ss[j].current != t
  }

  // Over every run in which task t stays runnable and is not chosen, the number of
  // user ticks is bounded by what the first state says.
  lemma {:induction false} NoRunnableTaskStarves(ss: seq<Cpu>, es: seq<Event>, t: int)
    requires IsRun(ss, es) && Passed(ss, t)
    ensures UserTicks(es) <= Patience(ss[0], t)
    ensures Patience(ss[0], t) <= Time(ss[0].task[0]) + 2 * MaxSum(ss[0].task, NR_TASKS) + 2
    decreases |es|
  {
    assert CpuOk(ss[0]) && Runnable(ss[0].task, t);
    SumInBounds(ss[0].task, NR_TASKS);
    if es != [] {
      assert Next(ss[0], es[0], ss[1]) && Passed(ss[1..], t);
      NextKeepsOk(ss[0], es[0], ss[1]);
      EveryTickCounts(ss[0], es[0], ss[1], t);
      assert IsRun(ss[1..], es[1..]) by {
        forall j | 0 <= j < |es| - 1 && CpuOk(ss[1..][j]) ensures Next(ss[1..][j], es[1..][j], ss[1..][j + 1]) {
          assert Next(ss[j + 1], es[j + 1], ss[j + 2]);
        }
      }
      NoRunnableTaskStarves(ss[1..], es[1..], t);
    }
  }

  // Only a user tick or a call of schedule takes the processor away.
  lemma {:induction false} KernelKeepsProcessor(ss: seq<Cpu>, es: seq<Event>, n: nat)
    requires IsRun(ss, es) && n <= |es| && forall j :: 0 <= j < n ==> es[j] == Tick(false) || es[j].SetState?
    ensures CpuOk(ss[n]) && ss[n].current == ss[0].current
  {
    if n > 0 {
      KernelKeepsProcessor(ss, es, n - 1);
      NextKeepsOk(ss[n - 1], es[n - 1], ss[n]);
    }
  }

  // The longest wait that any state allows: it depends on the priorities only.
  function LongestWait(task: seq<Slot>): int
    requires |task| == NR_TASKS && task[0].Used?
  {
    2 * task[0].task.priority + 2 * MaxSum(task, NR_TASKS) + 1
  }

  lemma PatienceIsBounded(s: Cpu, t: int)
    requires CpuOk(s) && Runnable(s.task, t)
    ensures 1 <= Patience(s, t) <= LongestWait(s.task)
  {
    SumInBounds(s.task, NR_TASKS);
    assert SlotSane(s.task[0]);
    if s.task[s.current].task.counter > 0 { CounterInSum(s.task, s.current, NR_TASKS); }
  }

  lemma {:induction false} CounterInSum(task: seq<Slot>, i: int, n: nat)
    requires Sane(task) && 0 <= i < n <= NR_TASKS && task[i].Used?
    ensures 0 <= task[i].task.counter <= Sum(task, n)
  {
    if n > 1 {
      SumInBounds(task, n - 1);
      assert SlotSane(task[0]) && SlotSane(task[n - 1]) && SlotSane(task[i]);
      MaxSumNotNegative(task, n - 1);
      if i < n - 1 { CounterInSum(task, i, n - 1); }
    } else {
      assert SlotSane(task[0]) && Sum(task, 0) == 0;
    }
  }

  lemma {:induction false} MaxSumNotNegative(task: seq<Slot>, n: nat)
    requires Sane(task) && n <= NR_TASKS
    ensures MaxSum(task, n) >= 0
  {
    if n > 1 {
      MaxSumNotNegative(task, n - 1);
      assert SlotSane(task[n - 1]);
    }
  }

  lemma SamePriorities(a: seq<Slot>, b: seq<Slot>)
    requires |a| == |b| == NR_TASKS && a[0].Used?
    requires forall i :: 0 <= i < |a| ==>
               a[i].Used? == b[i].Used? && (a[i].Used? ==> a[i].task.priority == b[i].task.priority)
    ensures LongestWait(a) == LongestWait(b)
  {
    SameMaxSum(a, b, NR_TASKS);
  }

  // ---------- Sleepers ----------

  lemma HalvedGap(g: int, gap: int, w: int, d: int)
    requires (2 * gap == g || 2 * gap == g + 1) && w >= 1 && (g - 1) * w < d <= g * w
    ensures (gap - 1) * (2 * w) < d <= gap * (2 * w)
  {
    assert gap * (2 * w) == (2 * gap) * w && (gap - 1) * (2 * w) == (2 * gap - 2) * w;
    if 2 * gap == g {
      assert (g - 2) * w == (g - 1) * w - w;
    } else {
      assert (g + 1) * w == g * w + w;
    }
  }

  // How far a task's counter is from twice its priority.
  function Gap(s: Slot): int
    requires s.Used?
  {
    2 * s.task.priority - s.task.counter
  }

  // Does this step recompute the counters?
  ghost predicate Recomputes(s: Cpu, e: Event)
    requires CpuOk(s)
  {
    match e
    case Tick(user) =>
      user && s.task[s.current].task.counter <= 1 && Exhausted(WithCounter(s.task, s.current, 0))
    case Yield => Exhausted(s.task)
    case SetState(_, _) => false
  }

  // The recomputations of the first n steps of a run.
  ghost function Recomputations(ss: seq<Cpu>, es: seq<Event>, n: nat): nat
    requires IsRun(ss, es) && n <= |es|
  {
    if n == 0 then 0 else
      RunIsOk(ss, es, n - 1);
      Recomputations(ss, es, n - 1) + if Recomputes(ss[n - 1], es[n - 1]) then 1 else 0
  }

  lemma {:induction false} RunIsOk(ss: seq<Cpu>, es: seq<Event>, n: nat)
    requires IsRun(ss, es) && n <= |es|
    ensures CpuOk(ss[n])
  {
    if n > 0 {
      RunIsOk(ss, es, n - 1);
      NextKeepsOk(ss[n - 1], es[n - 1], ss[n]);
    }
  }

  // Task i is neither runnable nor the current task.
  ghost predicate Sleeps(s: Cpu, i: int) {
    1 <= i < |s.task| && s.task[i].Used? && !Runnable(s.task, i) && s.current != i
  }

  // ... in the first n + 1 states.
  ghost predicate SleepsOn(ss: seq<Cpu>, i: int, n: nat) {
    n < |ss| && Sleeps(ss[0], i) && Sleeps(ss[n], i) && forall j :: 0 <= j < n ==> Sleeps(ss[j], i)
  }

  // The gap of a sleeper is halved, rounding up, by every recomputation, and by nothing
  // else.
  lemma StepOfSleeper(s: Cpu, e: Event, s': Cpu, i: int)
    requires CpuOk(s) && Next(s, e, s') && Sleeps(s, i) && Sleeps(s', i)
    ensures s'.task[i].task.priority == s.task[i].task.priority
    ensures var g, gap := Gap(s.task[i]), Gap(s'.task[i]);
            if Recomputes(s, e) then 2 * gap == g || 2 * gap == g + 1 else gap == g
  {
    assert SlotSane(s.task[i]);
  }

  // Over every run in which a task sleeps, k recomputations halve its gap k times.
  lemma {:induction false} SleeperApproachesBound(ss: seq<Cpu>, es: seq<Event>, i: int, n: nat)
    requires IsRun(ss, es) && n <= |es| && SleepsOn(ss, i, n)
    ensures ss[n].task[i].task.priority == ss[0].task[i].task.priority
    ensures var w, gap := Pow2(Recomputations(ss, es, n)), Gap(ss[n].task[i]);
            (gap - 1) * w < Gap(ss[0].task[i]) <= gap * w
  {
    if n > 0 {
      SleeperApproachesBound(ss, es, i, n - 1);
      RunIsOk(ss, es, n - 1);
      StepOfSleeper(ss[n - 1], es[n - 1], ss[n], i);
      var g, gap, w := Gap(ss[n - 1].task[i]), Gap(ss[n].task[i]), Pow2(Recomputations(ss, es, n - 1));
      if Recomputes(ss[n - 1], es[n - 1]) { HalvedGap(g, gap, w, Gap(ss[0].task[i])); }
    }
  }

  // So a task that sleeps long enough has the largest counter that `Sane` allows, and
  // keeps it.
  lemma SleeperReachesBound(ss: seq<Cpu>, es: seq<Event>, i: int, n: nat)
    requires IsRun(ss, es) && n <= |es| && SleepsOn(ss, i, n)
    requires Pow2(Recomputations(ss, es, n)) >= 2 * ss[0].task[i].task.priority
    ensures ss[n].task[i].task.counter == 2 * ss[0].task[i].task.priority - 1
  {
    SleeperApproachesBound(ss, es, i, n);
    RunIsOk(ss, es, n);
    assert SlotSane(ss[0].task[i]) && SlotSane(ss[n].task[i]);
    ScaleOrder(Gap(ss[n].task[i]) - 1, 1, Pow2(Recomputations(ss, es, n)));
  }
}
