module CopyOnWrite {
  // Whole runs of the memory manager: copy_mem (kernel/fork.c), write faults, user
  // writes and free_page_tables (mm/memory.c), in any order and of any length, against
  // a system that copies all memory at every fork.

  import opened Options
  import opened Paging
  import opened MemoryManager
  import Fork
  import opened Tasks

  datatype Op =
    | CopyMem(parent: int, child: int, n: nat)      // the first n directory entries of parent
    | WriteFault(t: int, i: int, k: int)
    | UserWrite(t: int, i: int, k: int, offset: nat, value: bv8)
    | FreeTables(t: int, n: nat)

  // Refused: the kernel is never called like this, or the processor reports an address
  // that is not mapped.
  datatype Outcome = Done | Refused | OutOfMemory

  datatype Event = Event(op: Op, outcome: Outcome)

  // ---------- Private copies ----------

  // Does the event set what task t reads at page k of its directory entry i?
  predicate Sets(e: Event, t: int, i: int, k: int) {
    e.outcome.Done? &&
    match e.op
    case CopyMem(_, child, n) => t == child && i < n
    case WriteFault(_, _, _) => false
    case UserWrite(u, x, y, _, _) => (t, i, k) == (u, x, y)
    case FreeTables(u, n) => t == u && i < n
  }

  // What task t reads there if every fork copied all memory.
  ghost function EagerView(vm: VM, log: seq<Event>, t: int, i: int, k: int): Option<Page>
    requires Inv(vm) && IsPlace(t, i, k)
    decreases |log|
  {
    if log == [] then View(vm, t, i, k) else
      var before, e := log[..|log| - 1], log[|log| - 1];
      if !Sets(e, t, i, k) then EagerView(vm, before, t, i, k) else
        match e.op
        case CopyMem(parent, _, _) => if IsPlace(parent, i, k) then EagerView(vm, before, parent, i, k) else None
        case UserWrite(_, _, _, offset, value) =>
          var page := EagerView(vm, before, t, i, k);
          if page.Some? && offset < PAGE_SIZE then Some(Poke(page.value, offset, value)) else page
        case _ => None
  }

  predicate TaskTable(dir: seq<int>, t: int, i: int) { HasTable(dir, DIRS_PER_TASK * t + i) }

  // Does task t have a table at its directory entry i after these events?
  predicate EagerTable(dir: seq<int>, log: seq<Event>, t: int, i: int)
    decreases |log|
  {
    if log == [] then TaskTable(dir, t, i) else
      var before, e := log[..|log| - 1], log[|log| - 1];
      if e.outcome.Done? && e.op.CopyMem? && t == e.op.child && i < e.op.n then EagerTable(dir, before, e.op.parent, i)
      else if e.outcome.Done? && e.op.FreeTables? && t == e.op.t && i < e.op.n then false
      else EagerTable(dir, before, t, i)
  }

  // May the operation follow these events?
  ghost predicate Allowed(vm: VM, log: seq<Event>, op: Op)
    requires Inv(vm)
  {
    match op
    case CopyMem(parent, child, n) =>
      0 <= parent < NR_TASKS && 1 <= child < NR_TASKS && parent != child && n <= DIRS_PER_TASK &&
      (parent == 0 ==> n == 1) && forall i :: 0 <= i < DIRS_PER_TASK ==> !EagerTable(vm.dir, log, child, i)
    case WriteFault(t, i, k) => t >= 1 && IsPlace(t, i, k) && EagerView(vm, log, t, i, k).Some?
    case UserWrite(t, i, k, offset, _) =>
      t >= 1 && IsPlace(t, i, k) && EagerView(vm, log, t, i, k).Some? && offset < PAGE_SIZE
    case FreeTables(t, n) => 1 <= t < NR_TASKS && n <= DIRS_PER_TASK
  }

  // ---------- One operation of the code ----------

  // Memory ran out on the way.
  ghost predicate RanOut(vm: VM, op: Op)
    requires Inv(vm) && Allowed(vm, [], op)
  {
    match op
    case CopyMem(_, child, n) => exists half :: OnlyChildChanged(vm, half, DIRS_PER_TASK * child, n) && Full(half)
    case WriteFault(t, i, k) => NeedsCopy(vm, DIRS_PER_TASK * t + i, k) && Full(vm)
    case UserWrite(t, i, k, _, _) => NeedsCopy(vm, DIRS_PER_TASK * t + i, k) && Full(vm)
    case FreeTables(_, _) => false
  }

  ghost predicate ViewsFollow(vm: VM, e: Event, vm': VM) {
    Inv(vm) && Inv(vm') &&
    forall t, i, k :: IsPlace(t, i, k) ==> View(vm', t, i, k) == EagerView(vm, [e], t, i, k)
  }

  predicate TablesFollow(dir: seq<int>, e: Event, dir': seq<int>) {
    forall t, i :: 0 <= t < NR_TASKS && 0 <= i < DIRS_PER_TASK ==> TaskTable(dir', t, i) == EagerTable(dir, [e], t, i)
  }

  // What one operation does. Only write permissions tell a failed one.
  ghost predicate Performed(vm: VM, e: Event, vm': VM) {
    Inv(vm) && ViewsFollow(vm, e, vm') && TablesFollow(vm.dir, e, vm'.dir) &&
    vm'.held == vm.held && vm'.reserved == vm.reserved &&
    (e.outcome.Refused? <==> !Allowed(vm, [], e.op)) &&
    (e.outcome.Refused? ==> vm' == vm) &&
    (e.outcome.OutOfMemory? ==> RanOut(vm, e.op) && vm'.memMap == vm.memMap && vm'.dir == vm.dir)
  }

  method Execute(kernel: Fork.Processes, op: Op) returns (r: Outcome)
    requires Inv(kernel.mm.Vm())
    modifies kernel.mm
    ensures Performed(old(kernel.mm.Vm()), Event(op, r), kernel.mm.Vm())
  {
    match op
    case CopyMem(parent, child, n) => r := ExecuteCopyMem(kernel, parent, child, n);
    case WriteFault(t, i, k) => r := ExecuteWriteFault(kernel.mm, t, i, k);
    case UserWrite(t, i, k, offset, value) => r := ExecuteUserWrite(kernel.mm, t, i, k, offset, value);
    case FreeTables(t, n) => r := ExecuteFreeTables(kernel.mm, t, n);
  }

  method ExecuteCopyMem(kernel: Fork.Processes, parent: int, child: int, n: nat) returns (r: Outcome)
    requires Inv(kernel.mm.Vm())
    modifies kernel.mm
    ensures Performed(old(kernel.mm.Vm()), Event(CopyMem(parent, child, n), r), kernel.mm.Vm())
  {
    ghost var was := kernel.mm.Vm();
    ghost var op := CopyMem(parent, child, n);
    if !(0 <= parent < NR_TASKS && 1 <= child < NR_TASKS && parent != child && n <= DIRS_PER_TASK &&
         (parent == 0 ==> n == 1)) {
      return Refused;
    }
    if i :| 0 <= i < DIRS_PER_TASK && TaskTable(kernel.mm.pgDir, child, i) {
      assert EagerTable(was.dir, [], child, i);
      return Refused;
    }
    NoTables(was.dir, child);
    var ok := kernel.CopyMem(child, parent, n);
    r := if ok then Done else OutOfMemory;
    if ok {
      ForkFollows(was, kernel.mm.Vm(), parent, child, n);
    } else {
      SameFollow(was, Event(op, r), kernel.mm.Vm());
    }
  }

  method ExecuteWriteFault(mm: Manager, t: int, i: int, k: int) returns (r: Outcome)
    requires Inv(mm.Vm())
    modifies mm
    ensures Performed(old(mm.Vm()), Event(WriteFault(t, i, k), r), mm.Vm())
  {
    ghost var was := mm.Vm();
    r := Ready(mm, t, i, k);
    if r.Done? && !mm.tables[mm.pgDir[DIRS_PER_TASK * t + i]][k].writable {
      mm.UnWpPage(DIRS_PER_TASK * t + i, k);
    }
    SameFollow(was, Event(WriteFault(t, i, k), r), mm.Vm());
  }

  method ExecuteUserWrite(mm: Manager, t: int, i: int, k: int, offset: nat, value: bv8) returns (r: Outcome)
    requires Inv(mm.Vm())
    modifies mm
    ensures Performed(old(mm.Vm()), Event(UserWrite(t, i, k, offset, value), r), mm.Vm())
  {
    ghost var was := mm.Vm();
    if offset >= PAGE_SIZE {
      return Refused;
    }
    r := Ready(mm, t, i, k);
    if r.Done? {
      mm.UserWrite(t, i, k, offset, value);
    } else {
      SameFollow(was, Event(UserWrite(t, i, k, offset, value), r), mm.Vm());
    }
  }

  // Can task t write there?
  method Ready(mm: Manager, t: int, i: int, k: int) returns (r: Outcome)
    requires Inv(mm.Vm())
    ensures r.Refused? <==> !Allowed(mm.Vm(), [], WriteFault(t, i, k))
    ensures r.OutOfMemory? <==> Allowed(mm.Vm(), [], WriteFault(t, i, k)) && RanOut(mm.Vm(), WriteFault(t, i, k))
  {
    var d := DIRS_PER_TASK * t + i;
    if !(t >= 1 && IsPlace(t, i, k)) || mm.pgDir[d] == NONE || mm.tables[mm.pgDir[d]][k].Absent? {
      return Refused;
    }
    assert EntryOk(mm.Vm(), d, k);
    var e := mm.tables[mm.pgDir[d]][k];
    var shared := e.page < LOW_PAGES || mm.memMap[e.page - LOW_PAGES] != 1;
    if !e.writable && shared && forall j :: 0 <= j < |mm.memMap| ==> mm.memMap[j] != 0 {
      return OutOfMemory;
    }
    r := Done;
  }

  method ExecuteFreeTables(mm: Manager, t: int, n: nat) returns (r: Outcome)
    requires Inv(mm.Vm())
    modifies mm
    ensures Performed(old(mm.Vm()), Event(FreeTables(t, n), r), mm.Vm())
  {
    ghost var was := mm.Vm();
    if !(1 <= t < NR_TASKS && n <= DIRS_PER_TASK) {
      return Refused;
    }
    mm.FreePageTables(DIRS_PER_TASK * t, n);
    ReleaseDropsView(was, mm.Vm(), t, n);
    r := Done;
  }

  lemma NoTables(dir: seq<int>, child: int)
    requires |dir| == DIRS && 0 <= child < NR_TASKS
    requires forall i :: 0 <= i < DIRS_PER_TASK ==> !TaskTable(dir, child, i)
    ensures forall d :: DIRS_PER_TASK * child <= d < DIRS_PER_TASK * (child + 1) ==> dir[d] == NONE
  {
    forall d | DIRS_PER_TASK * child <= d < DIRS_PER_TASK * (child + 1) ensures dir[d] == NONE {
      assert !TaskTable(dir, child, d - DIRS_PER_TASK * child);
    }
  }

  // Nothing to be seen of an operation that sets nothing.
  lemma SameFollow(vm: VM, e: Event, vm': VM)
    requires SameViews(vm, vm') && vm'.dir == vm.dir && (e.op.WriteFault? || !e.outcome.Done?)
    ensures ViewsFollow(vm, e, vm') && TablesFollow(vm.dir, e, vm'.dir)
  {
  }

  lemma ForkFollows(vm: VM, vm': VM, parent: int, child: int, n: nat)
    requires ForkSeen(vm, vm', parent, child, n) && n <= DIRS_PER_TASK
    requires SameTables(vm.dir, vm'.dir, DIRS_PER_TASK * parent, DIRS_PER_TASK * child, n)
    requires forall d :: 0 <= d < DIRS && !(DIRS_PER_TASK * child <= d < DIRS_PER_TASK * child + n) ==>
             vm'.dir[d] == vm.dir[d]
    ensures ViewsFollow(vm, Event(CopyMem(parent, child, n), Done), vm')
    ensures TablesFollow(vm.dir, Event(CopyMem(parent, child, n), Done), vm'.dir)
  {
    forall t, i | 0 <= t < NR_TASKS && 0 <= i < DIRS_PER_TASK
      ensures TaskTable(vm'.dir, t, i) == TaskTable(vm.dir, if t == child && i < n then parent else t, i)
    {
      var d := DIRS_PER_TASK * t + i;
      if t == child && i < n {
        assert HasTable(vm'.dir, d) == HasTable(vm.dir, DIRS_PER_TASK * parent + (d - DIRS_PER_TASK * child));
      } else {
        assert vm'.dir[d] == vm.dir[d];
      }
    }
  }

  // ---------- Whole runs ----------

  // The state agrees with the private copies.
  ghost predicate Agrees(was: VM, log: seq<Event>, vm: VM) {
    Inv(was) && Inv(vm) &&
    (forall t, i, k :: IsPlace(t, i, k) ==> View(vm, t, i, k) == EagerView(was, log, t, i, k)) &&
    forall t, i :: 0 <= t < NR_TASKS && 0 <= i < DIRS_PER_TASK ==>
      TaskTable(vm.dir, t, i) == EagerTable(was.dir, log, t, i)
  }

  lemma SameAllowed(was: VM, log: seq<Event>, vm: VM, op: Op)
    requires Agrees(was, log, vm)
    ensures Allowed(was, log, op) <==> Allowed(vm, [], op)
  {
    if op.CopyMem? && 0 <= op.child < NR_TASKS {
      forall i | 0 <= i < DIRS_PER_TASK
        ensures EagerTable(was.dir, log, op.child, i) == EagerTable(vm.dir, [], op.child, i)
      {
        assert TaskTable(vm.dir, op.child, i) == EagerTable(was.dir, log, op.child, i);
      }
    }
  }

  // Whatever the code does next, the private copies do too.
  lemma AgreesOneMore(was: VM, log: seq<Event>, vm: VM, e: Event, vm': VM)
    requires Agrees(was, log, vm) && Performed(vm, e, vm')
    ensures Agrees(was, log + [e], vm')
    ensures e.outcome.Refused? <==> !Allowed(was, log, e.op)
  {
    SameAllowed(was, log, vm, e.op);
    forall t, i, k | IsPlace(t, i, k) ensures View(vm', t, i, k) == EagerView(was, log + [e], t, i, k) {
      ViewOneMore(was, log, vm, e, t, i, k);
    }
    forall t, i | 0 <= t < NR_TASKS && 0 <= i < DIRS_PER_TASK
      ensures TaskTable(vm'.dir, t, i) == EagerTable(was.dir, log + [e], t, i)
    {
      TableOneMore(was, log, vm, e, t, i);
    }
  }

  lemma ViewOneMore(was: VM, log: seq<Event>, vm: VM, e: Event, t: int, i: int, k: int)
    requires Agrees(was, log, vm) && IsPlace(t, i, k)
    ensures EagerView(was, log + [e], t, i, k) == EagerView(vm, [e], t, i, k)
  {
    assert (log + [e])[..|log|] == log && [e][..0] == [];
    assert View(vm, t, i, k) == EagerView(was, log, t, i, k);
    if e.op.CopyMem? && IsPlace(e.op.parent, i, k) {
      assert View(vm, e.op.parent, i, k) == EagerView(was, log, e.op.parent, i, k);
    }
  }

  lemma TableOneMore(was: VM, log: seq<Event>, vm: VM, e: Event, t: int, i: int)
    requires Agrees(was, log, vm) && 0 <= t < NR_TASKS && 0 <= i < DIRS_PER_TASK
    requires e.outcome.Done? && e.op.CopyMem? ==> 0 <= e.op.parent < NR_TASKS
    ensures EagerTable(was.dir, log + [e], t, i) == EagerTable(vm.dir, [e], t, i)
  {
    assert (log + [e])[..|log|] == log && [e][..0] == [];
    assert TaskTable(vm.dir, t, i) == EagerTable(was.dir, log, t, i);
    if e.op.CopyMem? && 0 <= e.op.parent < NR_TASKS {
      assert TaskTable(vm.dir, e.op.parent, i) == EagerTable(was.dir, log, e.op.parent, i);
    }
  }

  // mem_map counts mappings exactly and stays small, and only a sole owner may write.
  ghost predicate CountsExact(vm: VM) {
    Sized(vm) &&
    (forall p :: LOW_PAGES <= p < PHYS_PAGES && p !in vm.reserved ==> 0 <= Count(vm, p) <= NR_TASKS - 1) &&
    forall d, k :: IsUser(d, k) && Entry(vm, d, k).Present? ==>
      var p := Entry(vm, d, k).page;
      p < PHYS_PAGES && (p >= LOW_PAGES ==> Count(vm, p) == |Refs(vm, p)|) &&
      (Writable(vm, d, k) ==> p >= LOW_PAGES && Refs(vm, p) == {(d, k)})
  }

  lemma CountsAreExact(vm: VM)
    requires Inv(vm)
    ensures CountsExact(vm)
  {
    forall p | LOW_PAGES <= p < PHYS_PAGES && p !in vm.reserved ensures 0 <= Count(vm, p) <= NR_TASKS - 1 {
      CountsStaySmall(vm, p);
    }
    forall d, k | IsUser(d, k) && Entry(vm, d, k).Present?
      ensures var p := Entry(vm, d, k).page;
              p < PHYS_PAGES && (p >= LOW_PAGES ==> Count(vm, p) == |Refs(vm, p)|) &&
              (Writable(vm, d, k) ==> p >= LOW_PAGES && Refs(vm, p) == {(d, k)})
    {
      EntryIsExact(vm, d, k);
    }
  }

  lemma EntryIsExact(vm: VM, d: int, k: int)
    requires Inv(vm) && IsUser(d, k) && Entry(vm, d, k).Present?
    ensures var p := Entry(vm, d, k).page;
            p < PHYS_PAGES && (p >= LOW_PAGES ==> Count(vm, p) == |Refs(vm, p)|) &&
            (Writable(vm, d, k) ==> p >= LOW_PAGES && Refs(vm, p) == {(d, k)})
  {
    var p := Entry(vm, d, k).page;
    assert EntryOk(vm, d, k);
    if p >= LOW_PAGES { MappedMeansCounted(vm, d, k); }
    if Writable(vm, d, k) {
      forall x | x in Refs(vm, p) ensures x == (d, k) { SoleOwner(vm, x.0, x.1, d, k); }
      assert (d, k) in Refs(vm, p);
    }
  }

  // Copy-on-write is indistinguishable from copying: whatever the operations, each
  // task reads what its own private memory would hold.
  method Run(kernel: Fork.Processes, ops: seq<Op>) returns (log: seq<Event>)
    requires Inv(kernel.mm.Vm())
    modifies kernel.mm
    ensures |log| == |ops| && forall j :: 0 <= j < |ops| ==> log[j].op == ops[j]
    ensures forall j :: 0 <= j < |ops| ==>
              (log[j].outcome.Refused? <==> !Allowed(old(kernel.mm.Vm()), log[..j], ops[j]))
    ensures Agrees(old(kernel.mm.Vm()), log, kernel.mm.Vm()) && CountsExact(kernel.mm.Vm())
    ensures kernel.mm.held == old(kernel.mm.held) && kernel.mm.reserved == old(kernel.mm.reserved)
  {
    ghost var was := kernel.mm.Vm();
    log := [];
    var j := 0;
    while j < |ops|
      invariant 0 <= j <= |ops| && |log| == j && Agrees(was, log, kernel.mm.Vm())
      invariant forall m :: 0 <= m < j ==> log[m].op == ops[m]
      invariant forall m :: 0 <= m < j ==> (log[m].outcome.Refused? <==> !Allowed(was, log[..m], ops[m]))
      invariant kernel.mm.held == was.held && kernel.mm.reserved == was.reserved
    {
      ghost var before := kernel.mm.Vm();
      var r := Execute(kernel, ops[j]);
      AgreesOneMore(was, log, before, Event(ops[j], r), kernel.mm.Vm());
      assert (log + [Event(ops[j], r)])[..j] == log;
      assert forall m :: 0 <= m < j ==> (log + [Event(ops[j], r)])[..m] == log[..m];
      log := log + [Event(ops[j], r)];
      j := j + 1;
    }
    CountsAreExact(kernel.mm.Vm());
  }

  // ---------- Isolation ----------

  // What others do to their memory is never seen.
  lemma {:induction false} OthersAreNotSeen(vm: VM, before: seq<Event>, after: seq<Event>, t: int, i: int, k: int)
    requires Inv(vm) && IsPlace(t, i, k) && forall e <- after :: !Sets(e, t, i, k)
    ensures EagerView(vm, before + after, t, i, k) == EagerView(vm, before, t, i, k)
    decreases |after|
  {
    if after == [] {
      assert before + after == before;
    } else {
      var rest := after[..|after| - 1];
      assert (before + after)[..|before + after| - 1] == before + rest;
      assert (before + after)[|before + after| - 1] == after[|after| - 1] && after[|after| - 1] in after;
      assert forall e <- rest :: e in after;
      OthersAreNotSeen(vm, before, rest, t, i, k);
    }
  }

  // A child keeps what its parent held at the fork, whatever the parent writes later.
  lemma ChildKeepsSnapshot(
    vm: VM, before: seq<Event>, parent: int, child: int, n: nat, after: seq<Event>, i: int, k: int)
    requires Inv(vm) && IsPlace(child, i, k) && i < n && IsPlace(parent, i, k)
    requires forall e <- after :: !Sets(e, child, i, k)
    ensures EagerView(vm, before + [Event(CopyMem(parent, child, n), Done)] + after, child, i, k) ==
            EagerView(vm, before, parent, i, k)
  {
    var fork := [Event(CopyMem(parent, child, n), Done)];
    OthersAreNotSeen(vm, before + fork, after, child, i, k);
    assert (before + fork)[..|before|] == before;
  }
}
