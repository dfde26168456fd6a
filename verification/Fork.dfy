module Fork {
  // find_empty_process, copy_mem and copy_process (kernel/fork.c): fork as a
  // transaction on the page tables and the task table.

  import opened Counting
  import opened Paging
  import MemoryManager
  import Scheduler
  import opened Tasks

  const MAX_PID := 0x7fff_ffff
  const EAGAIN := -11

  // ++last_pid on a 32-bit long, negative values replaced by 1.
  function NextPid(pid: int): int { if pid == MAX_PID then 1 else pid + 1 }

  predicate PidTaken(task: seq<Slot>, pid: int) { exists s <- task :: s.Used? && s.task.pid == pid }

  // The j-th pid tried after `start`.
  function Candidate(start: int, j: nat): int {
    if start + j <= MAX_PID then start + j else start + j - MAX_PID
  }

  function Pids(task: seq<Slot>): (r: set<int>)
    ensures forall p :: p in r <==> PidTaken(task, p)
    ensures |r| <= |task|
  {
    if task == [] then {} else
      var rest := Pids(task[1..]);
      assert forall s :: s in task <==> s == task[0] || s in task[1..];
      if task[0].Used? then rest + {task[0].task.pid} else rest
  }

  // Task slot nr and its part of the page directory.
  ghost predicate SlotOk(vm: VM, task: seq<Slot>, nr: int)
    requires Inv(vm) && |task| == NR_TASKS && 1 <= nr < NR_TASKS
  {
    match task[nr]
    case Empty => forall d :: DIRS_PER_TASK * nr <= d < DIRS_PER_TASK * (nr + 1) ==> vm.dir[d] == NONE
    case Used(t) => t.page in vm.held && t.dirs <= DIRS_PER_TASK && t.pid > 0
  }

  ghost predicate TasksOk(vm: VM, task: seq<Slot>, lastPid: int) {
    Inv(vm) && |task| == NR_TASKS && 0 <= lastPid <= MAX_PID &&
    task[0].Used? && task[0].task.dirs == 1 && task[0].task.pid == 0 && task[0].task.page < LOW_PAGES &&
    (forall nr :: 1 <= nr < NR_TASKS ==> SlotOk(vm, task, nr)) &&
    (forall a, b :: 0 <= a < b < NR_TASKS && task[a].Used? && task[b].Used? ==>
       task[a].task.pid != task[b].task.pid && task[a].task.page != task[b].task.page)
  }

  // Are there pages for copies of the task's first n page tables?
  ghost predicate EnoughFor(vm: VM, current: int, n: nat)
    requires Sized(vm)
  {
    |MemoryManager.FreePages(vm)| >= MemoryManager.Tables(vm.dir, DIRS_PER_TASK * current, n)
  }

  // ... and one for the task structure?
  ghost predicate EnoughToFork(vm: VM, task: seq<Slot>, current: int)
    requires Sized(vm) && 0 <= current < |task| && task[current].Used?
  {
    |MemoryManager.FreePages(vm)| >= 1 + MemoryManager.Tables(vm.dir, DIRS_PER_TASK * current, task[current].task.dirs)
  }

  class Processes {
    const mm: MemoryManager.Manager
    var task: seq<Slot>
    var lastPid: int

    ghost predicate Valid()
      reads this, mm
    {
      TasksOk(mm.Vm(), task, lastPid)
    }

    // sched_init: task 0 alone, on memory that has just been initialized.
    constructor (mm: MemoryManager.Manager, init: Task)
      requires Inv(mm.Vm()) && init.pid == 0 && init.dirs == 1 && init.page < LOW_PAGES
      requires forall d :: DIRS_PER_TASK <= d < DIRS ==> mm.pgDir[d] == NONE
      ensures Valid() && this.mm == mm && lastPid == 0 && task[0] == Used(init)
      ensures forall i :: 1 <= i < NR_TASKS ==> task[i] == Empty
    {
      this.mm := mm;
      task := [Used(init)] + seq(NR_TASKS - 1, i => Empty);
      lastPid := 0;
    }

    // An unused pid in lastPid, and a free slot or EAGAIN. `tried` are the pids
    // passed over.
    method FindEmptyProcess() returns (nr: int, ghost tried: seq<int>)
      requires Valid()
      modifies `lastPid
      ensures Valid() && lastPid > 0 && !PidTaken(task, lastPid)
      ensures nr == EAGAIN <==> forall i :: 1 <= i < NR_TASKS ==> task[i].Used?
      ensures nr != EAGAIN ==> 1 <= nr < NR_TASKS && task[nr] == Empty && forall i :: 1 <= i < nr ==> task[i].Used?
      ensures |tried| < 65 && lastPid == Candidate(old(lastPid), |tried| + 1)
      ensures forall j :: 0 <= j < |tried| ==> tried[j] == Candidate(old(lastPid), j + 1) && PidTaken(task, tried[j])
    {
      tried := [];
      ghost var start := lastPid;
      while true
        invariant 0 <= lastPid <= MAX_PID && lastPid == Candidate(start, |tried|) && |tried| <= 64
        invariant forall j :: 0 <= j < |tried| ==> tried[j] == Candidate(start, j + 1) && PidTaken(task, tried[j])
        decreases 65 - |tried|
      {
        lastPid := NextPid(lastPid);
        var i := 0;
        while i < NR_TASKS
          invariant 0 <= i <= NR_TASKS
          invariant forall j :: 0 <= j < i ==> !(task[j].Used? && task[j].task.pid == lastPid)
        {
          if task[i].Used? && task[i].task.pid == lastPid {
            break;
          }
          i := i + 1;
        }
        if i == NR_TASKS {
          break;
        }
        assert task[i] in task;
        tried := tried + [lastPid];
        TriedAreFew(task, tried, start);
      }
      nr := 1;
      while nr < NR_TASKS
        invariant 1 <= nr <= NR_TASKS
        invariant forall i :: 1 <= i < nr ==> task[i].Used?
      {
        if task[nr].Empty? {
          return;
        }
        nr := nr + 1;
      }
      nr := EAGAIN;
    }

    // copy_mem: the child's page tables, or none at all.
    method CopyMem(nr: int, current: int, n: nat) returns (ok: bool)
      requires Inv(mm.Vm()) && 0 <= current < NR_TASKS && 1 <= nr < NR_TASKS && current != nr
      requires n <= DIRS_PER_TASK && (current == 0 ==> n == 1)
      requires forall d :: DIRS_PER_TASK * nr <= d < DIRS_PER_TASK * (nr + 1) ==> mm.pgDir[d] == NONE
      modifies mm
      ensures Inv(mm.Vm()) && mm.held == old(mm.held) && mm.reserved == old(mm.reserved)
      ensures forall d :: 0 <= d < DIRS && !(DIRS_PER_TASK * nr <= d < DIRS_PER_TASK * nr + n) ==>
                mm.pgDir[d] == old(mm.pgDir)[d]
      ensures ok ==> MemoryManager.ForkSeen(old(mm.Vm()), mm.Vm(), current, nr, n)
      ensures ok ==> MemoryManager.SameTables(old(mm.pgDir), mm.pgDir, DIRS_PER_TASK * current, DIRS_PER_TASK * nr, n)
      ensures !ok ==> exists half ::
                MemoryManager.OnlyChildChanged(old(mm.Vm()), half, DIRS_PER_TASK * nr, n) && MemoryManager.Full(half)
      ensures !ok ==> mm.memMap == old(mm.memMap) && mm.pgDir == old(mm.pgDir)
      ensures !ok ==> MemoryManager.SameViews(old(mm.Vm()), mm.Vm())
      ensures ok <==> EnoughFor(old(mm.Vm()), current, n)
    {
      ghost var was := mm.Vm();
      ok := mm.CopyPageTables(DIRS_PER_TASK * current, DIRS_PER_TASK * nr, n);
      if ok {
        MemoryManager.ForkCopiesView(was, mm.Vm(), current, nr, n);
      } else {
        ghost var half := mm.Vm();
        mm.FreePageTables(DIRS_PER_TASK * nr, n);
        RollbackRestores(was, half, mm.Vm(), DIRS_PER_TASK * nr, n);
      }
    }

    // copy_process: the child of `current` in slot nr, or EAGAIN.
    method CopyProcess(nr: int, current: int) returns (r: int)
      requires Valid() && 1 <= nr < NR_TASKS && task[nr] == Empty && !PidTaken(task, lastPid) && lastPid > 0
      requires 0 <= current < NR_TASKS && task[current].Used?
      modifies this`task, mm
      ensures Valid() && mm.reserved == old(mm.reserved)
      ensures r == EAGAIN ==> task == old(task) && Restored(old(mm.Vm()), mm.Vm())
      ensures r != EAGAIN ==> r == lastPid && Forked(old(mm.Vm()), mm.Vm(), old(task), task, nr, current, r)
      ensures r == EAGAIN <==> !EnoughToFork(old(mm.Vm()), old(task), current)
    {
      ghost var was, tasks := mm.Vm(), task;
      var p := mm.GetFreePage();
      if p == 0 {
        MemoryManager.FullHasNoFreePage(was);
        return EAGAIN;
      }
      MemoryManager.HoldKeepsViews(was, p);
      MemoryManager.HoldTakesOne(was, p);
      FreeMeansUnused(was, p);
      ghost var held := mm.Vm();
      var child := task[current].task.(page := p, state := UNINTERRUPTIBLE, pid := lastPid,
                                       father := task[current].task.pid, counter := task[current].task.priority);
      task := task[nr := Used(child)];
      TaskFits(was, tasks, lastPid, current);
      assert SlotOk(was, tasks, nr);
      var ok := CopyMem(nr, current, child.dirs);
      if !ok {
        Abandon(nr, p, was, tasks);
        return EAGAIN;
      }
      task := task[nr := Used(child.(state := RUNNING))];
      TaskAdded(was, mm.Vm(), tasks, lastPid, nr, child.(state := RUNNING));
      assert task == tasks[nr := Used(child.(state := RUNNING))];
      r := lastPid;
    }

    // The way out when memory is out: the slot is emptied and the task's page freed.
    method Abandon(nr: int, p: int, ghost was: VM, ghost tasks: seq<Slot>)
      requires TasksOk(was, tasks, lastPid) && 1 <= nr < NR_TASKS && tasks[nr] == Empty && |task| == NR_TASKS
      requires task == tasks[nr := task[nr]]
      requires LOW_PAGES <= p < PHYS_PAGES && was.memMap[p - LOW_PAGES] == 0
      requires p !in was.held && mm.held == was.held + {p}
      requires mm.memMap == was.memMap[p - LOW_PAGES := 1] && mm.pgDir == was.dir
      requires MemoryManager.SameViews(was, mm.Vm())
      modifies this`task, mm
      ensures Valid() && task == tasks && Restored(was, mm.Vm()) && mm.reserved == old(mm.reserved)
    {
      task := task[nr := Empty];
      assert task == tasks;
      ghost var back := mm.Vm();
      mm.ReleasePage(p);
      SameTasks(was, mm.Vm(), task, lastPid);
    }

    // sys_fork.
    method SysFork(current: int) returns (r: int)
      requires Valid() && 0 <= current < NR_TASKS && task[current].Used?
      modifies this, mm
      ensures Valid() && mm.reserved == old(mm.reserved)
      ensures r == EAGAIN ==> task == old(task) && Restored(old(mm.Vm()), mm.Vm())
      ensures r != EAGAIN ==> r > 0 && !PidTaken(old(task), r)
      ensures r != EAGAIN ==>
                exists nr :: 1 <= nr < NR_TASKS && Forked(old(mm.Vm()), mm.Vm(), old(task), task, nr, current, r)
      ensures r == EAGAIN <==>
                !EnoughToFork(old(mm.Vm()), old(task), current) || forall i :: 1 <= i < NR_TASKS ==> old(task)[i].Used?
    {
      var nr, tried := FindEmptyProcess();
      if nr < 0 {
        return nr;
      }
      r := CopyProcess(nr, current);
    }
  }

  // A fork that failed: nothing is different but write permissions.
  ghost predicate Restored(was: VM, vm: VM) {
    vm.memMap == was.memMap && vm.dir == was.dir && vm.held == was.held && MemoryManager.SameViews(was, vm)
  }

  // A fork that succeeded: one new runnable task, with a page of its own, which sees
  // what its parent sees.
  ghost predicate Forked(was: VM, vm: VM, tasks: seq<Slot>, task: seq<Slot>, nr: int, current: int, pid: int) {
    |tasks| == |task| == NR_TASKS && 0 <= nr < NR_TASKS && 0 <= current < NR_TASKS && tasks[current].Used? &&
    tasks[nr] == Empty && task == tasks[nr := task[nr]] && task[nr].Used? &&
    (var parent, child := tasks[current].task, task[nr].task;
     child == Task(child.page, pid, parent.pid, RUNNING, parent.priority, parent.priority, parent.dirs) &&
     child.page !in was.held && vm.held == was.held + {child.page} &&
     MemoryManager.ForkSeen(was, vm, current, nr, parent.dirs))
  }

  // The child starts with a full time slice, inside the scheduler's bound.
  lemma ForkKeepsSane(was: VM, vm: VM, tasks: seq<Slot>, task: seq<Slot>, nr: int, current: int, pid: int)
    requires Forked(was, vm, tasks, task, nr, current, pid) && nr != 0 && Scheduler.Sane(tasks)
    ensures Scheduler.Sane(task)
    ensures Scheduler.Runnable(task, nr)
  {
    assert Scheduler.SlotSane(tasks[current]);
    forall i | 0 <= i < NR_TASKS ensures Scheduler.SlotSane(task[i]) {
      assert Scheduler.SlotSane(tasks[i]);
    }
  }

  lemma TaskFits(vm: VM, task: seq<Slot>, lastPid: int, current: int)
    requires TasksOk(vm, task, lastPid) && 0 <= current < NR_TASKS && task[current].Used?
    ensures task[current].task.dirs <= DIRS_PER_TASK
  {
    if current > 0 { assert SlotOk(vm, task, current); }
  }

  lemma SameTasks(was: VM, vm: VM, task: seq<Slot>, lastPid: int)
    requires TasksOk(was, task, lastPid) && Inv(vm) && vm.held == was.held && vm.dir == was.dir
    ensures TasksOk(vm, task, lastPid)
  {
    forall i | 1 <= i < NR_TASKS ensures SlotOk(vm, task, i) {
      assert SlotOk(was, task, i);
    }
  }

  lemma TaskAdded(was: VM, vm: VM, tasks: seq<Slot>, lastPid: int, nr: int, child: Task)
    requires TasksOk(was, tasks, lastPid) && Inv(vm) && 1 <= nr < NR_TASKS && tasks[nr] == Empty
    requires child.pid == lastPid > 0 && !PidTaken(tasks, lastPid) && child.dirs <= DIRS_PER_TASK
    requires child.page !in was.held && vm.held == was.held + {child.page} && LOW_PAGES <= child.page
    requires forall d :: 0 <= d < DIRS && !(DIRS_PER_TASK * nr <= d < DIRS_PER_TASK * (nr + 1)) ==>
             vm.dir[d] == was.dir[d]
    ensures TasksOk(vm, tasks[nr := Used(child)], lastPid)
  {
    var task := tasks[nr := Used(child)];
    forall i | 1 <= i < NR_TASKS ensures SlotOk(vm, task, i) {
      assert SlotOk(was, tasks, i);
    }
    forall i | 0 <= i < NR_TASKS && i != nr && task[i].Used?
      ensures task[i].task.pid != child.pid && task[i].task.page != child.page
    {
      assert tasks[i] in tasks;
      if i > 0 { assert SlotOk(was, tasks, i); }
    }
  }

  // At most as many pids are passed over as there are tasks.
  lemma TriedAreFew(task: seq<Slot>, tried: seq<int>, start: int)
    requires |task| == NR_TASKS && |tried| <= 65 && 0 <= start <= MAX_PID
    requires forall j :: 0 <= j < |tried| ==> tried[j] == Candidate(start, j + 1) && PidTaken(task, tried[j])
    ensures |tried| <= NR_TASKS
  {
    DistinctSize(tried);
    SubsetSize(Elements(tried), Pids(task));
  }

  // Freeing the child's tables undoes a half-way copy.
  lemma RollbackRestores(was: VM, half: VM, vm: VM, to: int, n: nat)
    requires Inv(was) && MemoryManager.OnlyChildChanged(was, half, to, n)
    requires DIRS_PER_TASK <= to && to + n <= DIRS && forall d :: to <= d < to + n ==> was.dir[d] == NONE
    requires Inv(vm) && vm.held == half.held && vm.reserved == half.reserved && vm.pages == half.pages
    requires forall d :: 0 <= d < DIRS ==> vm.dir[d] == if to <= d < to + n then NONE else half.dir[d]
    requires forall d, k :: IsSlot(d, k) && !(to <= d < to + n) ==> Entry(vm, d, k) == Entry(half, d, k)
    ensures vm.memMap == was.memMap && vm.dir == was.dir && MemoryManager.SameViews(was, vm)
  {
    forall d, k | IsSlot(d, k) ensures PageAt(vm, d, k) == PageAt(was, d, k) {
      if !(to <= d < to + n) {
        assert MemoryManager.WeakerEntry(Entry(was, d, k), Entry(half, d, k));
      }
    }
    assert vm.dir == was.dir;
    MemMapDetermined(was, vm);
    forall t, i, k | MemoryManager.IsPlace(t, i, k)
      ensures MemoryManager.View(vm, t, i, k) == MemoryManager.View(was, t, i, k)
    {
      var d := DIRS_PER_TASK * t + i;
      assert PageAt(vm, d, k) == PageAt(was, d, k);
      if PageAt(was, d, k) != NONE { MemoryManager.ViewedPagesInUse(was, t, i, k); }
    }
  }
}
