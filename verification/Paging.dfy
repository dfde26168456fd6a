module Paging {
  // Physical pages, page tables and copy-on-write (mm/memory.c), on values: the
  // invariant and the single assignments that the loops of the source are made of.
  // Module MemoryManager runs the loops.
  //
  // Addresses are page numbers. Physical page p >= LOW_PAGES is counted in
  // mem_map[p - LOW_PAGES]. Task t owns the page-directory entries 16t .. 16t+15.

  import opened Counting
  import opened Tasks

  const PAGE_SIZE := 4096
  const PAGING_PAGES := 3840
  const LOW_PAGES := 256
  const PHYS_PAGES := 4096
  const USED := 100
  const NONE := -1
  const DIRS := 1024
  const ENTRIES := 1024
  const DIRS_PER_TASK := 16
  const KERNEL_ENTRIES := 160     // 640K, what a fork from task 0 copies

  type Page = p: seq<bv8> | |p| == PAGE_SIZE witness seq(PAGE_SIZE, i => 0)

  datatype Pte = Absent | Present(page: nat, writable: bool)

  function ReadOnly(e: Pte): Pte { if e.Present? then e.(writable := false) else e }

  datatype VM = VM(
    memMap: seq<int>,            // mem_map
    dir: seq<int>,               // page directory: page of the table, or NONE
    tables: seq<seq<Pte>>,       // what each physical page holds when read as a table
    pages: seq<Page>,            // what each physical page holds when read as data
    ghost held: set<int>,        // pages the kernel holds, such as task structures
    ghost reserved: set<int>)    // pages mem_init marks USED for good

  ghost predicate Sized(vm: VM) {
    |vm.memMap| == PAGING_PAGES && |vm.dir| == DIRS && |vm.tables| == PHYS_PAGES && |vm.pages| == PHYS_PAGES &&
    (forall p :: 0 <= p < PHYS_PAGES ==> |vm.tables[p]| == ENTRIES) &&
    (forall d :: 0 <= d < DIRS ==> vm.dir[d] == NONE || 0 <= vm.dir[d] < PHYS_PAGES)
  }

  ghost function Count(vm: VM, p: int): int
    requires Sized(vm) && LOW_PAGES <= p < PHYS_PAGES
  {
    vm.memMap[p - LOW_PAGES]
  }

  predicate IsSlot(d: int, k: int) { 0 <= d < DIRS && 0 <= k < ENTRIES }

  predicate IsUser(d: int, k: int) { DIRS_PER_TASK <= d < DIRS && 0 <= k < ENTRIES }

  ghost function Entry(vm: VM, d: int, k: int): Pte
    requires Sized(vm) && IsSlot(d, k)
  {
    if vm.dir[d] == NONE then Absent else vm.tables[vm.dir[d]][k]
  }

  ghost function PageAt(vm: VM, d: int, k: int): int
    requires Sized(vm) && IsSlot(d, k)
  {
    var e := Entry(vm, d, k);
    if e.Present? then e.page else NONE
  }

  // The user page-table entries that map physical page p.
  ghost function Refs(vm: VM, p: int): set<(int, int)>
    requires Sized(vm)
  {
    set d, k | DIRS_PER_TASK <= d < DIRS && 0 <= k < ENTRIES && PageAt(vm, d, k) == p :: (d, k)
  }

  ghost predicate IsTable(vm: VM, p: int) { exists d :: 0 <= d < |vm.dir| && vm.dir[d] == p }

  // ---------- The invariant ----------

  ghost predicate DirsOk(vm: VM)
    requires Sized(vm)
  {
    (forall d :: 0 <= d < DIRS && vm.dir[d] != NONE ==> (vm.dir[d] < LOW_PAGES <==> d < DIRS_PER_TASK)) &&
    (forall d, e :: 0 <= d < e < DIRS && vm.dir[d] != NONE ==> vm.dir[d] != vm.dir[e])
  }

  ghost predicate EntryOk(vm: VM, d: int, k: int)
    requires Sized(vm) && IsSlot(d, k)
  {
    var e := Entry(vm, d, k);
    e.Present? ==>
      e.page < PHYS_PAGES &&
      (d == 0 && k < KERNEL_ENTRIES ==> e.page < LOW_PAGES) &&
      (d >= DIRS_PER_TASK && e.writable ==> e.page >= LOW_PAGES && vm.memMap[e.page - LOW_PAGES] == 1)
  }

  // mem_map counts the user entries of a data page; page tables and pages of the
  // kernel count once and are mapped by nobody.
  ghost predicate CountOk(vm: VM, p: int)
    requires Sized(vm) && LOW_PAGES <= p < PHYS_PAGES
  {
    var c := vm.memMap[p - LOW_PAGES];
    if p in vm.reserved then c == USED && p !in vm.held && !IsTable(vm, p) && Refs(vm, p) == {}
    else if p in vm.held then c == 1 && !IsTable(vm, p) && Refs(vm, p) == {}
    else if IsTable(vm, p) then c == 1 && Refs(vm, p) == {}
    else c == |Refs(vm, p)|
  }

  // A counted page sits at the same place in every task that maps it.
  ghost predicate SamePlace(vm: VM)
    requires Sized(vm)
  {
    forall d, k, e, j :: IsUser(d, k) && IsUser(e, j) && PageAt(vm, d, k) == PageAt(vm, e, j) >= LOW_PAGES ==>
      d % DIRS_PER_TASK == e % DIRS_PER_TASK && k == j
  }

  ghost predicate EntriesOk(vm: VM)
    requires Sized(vm)
  {
    forall d, k :: IsSlot(d, k) ==> EntryOk(vm, d, k)
  }

  ghost predicate CountsOk(vm: VM)
    requires Sized(vm)
  {
    forall p :: LOW_PAGES <= p < PHYS_PAGES ==> CountOk(vm, p)
  }

  ghost predicate Inv(vm: VM) {
    Sized(vm) && DirsOk(vm) && EntriesOk(vm) && CountsOk(vm) && SamePlace(vm) &&
    forall p :: p in vm.held || p in vm.reserved ==> LOW_PAGES <= p < PHYS_PAGES
  }

  // ---------- Consequences ----------

  lemma {:induction false} TaskSlots(i: int, k: int, n: nat)
    ensures |set t | 1 <= t <= n :: (DIRS_PER_TASK * t + i, k)| <= n
  {
    if n > 0 {
      TaskSlots(i, k, n - 1);
      assert (set t | 1 <= t <= n :: (DIRS_PER_TASK * t + i, k)) ==
             (set t | 1 <= t <= n - 1 :: (DIRS_PER_TASK * t + i, k)) + {(DIRS_PER_TASK * n + i, k)};
    }
  }

  // A data page is mapped at most once per task, so its count never reaches the
  // byte's limit.
  lemma CountsStaySmall(vm: VM, p: int)
    requires Inv(vm) && LOW_PAGES <= p < PHYS_PAGES && p !in vm.reserved
    ensures 0 <= vm.memMap[p - LOW_PAGES] <= NR_TASKS - 1
  {
    assert CountOk(vm, p);
    if Refs(vm, p) != {} {
      var r :| r in Refs(vm, p);
      var i := r.0 % DIRS_PER_TASK;
      var places := set t | 1 <= t <= 63 :: (DIRS_PER_TASK * t + i, r.1);
      forall x | x in Refs(vm, p) ensures x in places {
        assert IsUser(x.0, x.1) && IsUser(r.0, r.1);
        var t := x.0 / DIRS_PER_TASK;
        assert x == (DIRS_PER_TASK * t + i, r.1) && 1 <= t <= 63;
      }
      SubsetSize(Refs(vm, p), places);
      TaskSlots(i, r.1, 63);
    }
  }

  lemma MappedMeansCounted(vm: VM, d: int, k: int)
    requires Inv(vm) && IsUser(d, k) && PageAt(vm, d, k) >= LOW_PAGES
    ensures var p := PageAt(vm, d, k);
            p < PHYS_PAGES && p !in vm.reserved && p !in vm.held && !IsTable(vm, p) &&
            vm.memMap[p - LOW_PAGES] == |Refs(vm, p)| > 0
  {
    var p := PageAt(vm, d, k);
    assert EntryOk(vm, d, k) && CountOk(vm, p);
    assert (d, k) in Refs(vm, p);
  }

  // Who maps a page of count 1.
  lemma SoleOwner(vm: VM, d: int, k: int, e: int, j: int)
    requires Inv(vm) && IsUser(d, k) && IsUser(e, j)
    requires PageAt(vm, d, k) == PageAt(vm, e, j) >= LOW_PAGES
    requires vm.memMap[PageAt(vm, d, k) - LOW_PAGES] == 1
    ensures (d, k) == (e, j)
  {
    var p := PageAt(vm, d, k);
    MappedMeansCounted(vm, d, k);
    assert {(d, k), (e, j)} <= Refs(vm, p);
    SubsetSize({(d, k), (e, j)}, Refs(vm, p));
  }

  // mem_map is determined by who maps what.
  lemma MemMapDetermined(a: VM, b: VM)
    requires Inv(a) && Inv(b) && a.dir == b.dir && a.held == b.held && a.reserved == b.reserved
    requires forall d, k :: IsUser(d, k) ==> PageAt(a, d, k) == PageAt(b, d, k)
    ensures a.memMap == b.memMap
  {
    forall i | 0 <= i < PAGING_PAGES ensures a.memMap[i] == b.memMap[i] {
      var p := i + LOW_PAGES;
      assert CountOk(a, p) && CountOk(b, p);
      assert Refs(a, p) == Refs(b, p);
      assert IsTable(a, p) == IsTable(b, p);
    }
  }

  // ---------- Single assignments ----------

  ghost function SetEntry(vm: VM, d: int, k: int, e: Pte): VM
    requires Sized(vm) && IsSlot(d, k) && vm.dir[d] != NONE
  {
    vm.(tables := vm.tables[vm.dir[d] := vm.tables[vm.dir[d]][k := e]])
  }

  ghost function SetCount(vm: VM, p: int, c: int): VM
    requires Sized(vm) && LOW_PAGES <= p < PHYS_PAGES
  {
    vm.(memMap := vm.memMap[p - LOW_PAGES := c])
  }

  lemma SetEntryFrame(vm: VM, d: int, k: int, e: Pte)
    requires Sized(vm) && DirsOk(vm) && IsSlot(d, k) && vm.dir[d] != NONE
    ensures Sized(SetEntry(vm, d, k, e)) && DirsOk(SetEntry(vm, d, k, e))
    ensures forall x, y :: IsSlot(x, y) ==>
              Entry(SetEntry(vm, d, k, e), x, y) == if (x, y) == (d, k) then e else Entry(vm, x, y)
  {
  }

  // One user entry changes its page.
  lemma RefsAfter(vm: VM, vm': VM, d: int, k: int, p: int)
    requires Sized(vm) && Sized(vm') && IsUser(d, k)
    requires forall x, y :: IsUser(x, y) && (x, y) != (d, k) ==> PageAt(vm', x, y) == PageAt(vm, x, y)
    ensures Refs(vm', p) == Refs(vm, p) - {(d, k)} + (if PageAt(vm', d, k) == p then {(d, k)} else {})
    ensures (d, k) in Refs(vm, p) <==> PageAt(vm, d, k) == p
  {
  }

  // Counts when entry (d, k) moves from page o to page n (NONE for neither); n may
  // have been a page of the kernel.
  ghost predicate Moves(vm: VM, vm': VM, d: int, k: int, o: int, n: int) {
    Sized(vm) && Sized(vm') && IsUser(d, k) && o != n &&
    PageAt(vm, d, k) == o && PageAt(vm', d, k) == n &&
    (forall x, y :: IsUser(x, y) && (x, y) != (d, k) ==> PageAt(vm', x, y) == PageAt(vm, x, y)) &&
    vm'.dir == vm.dir && vm'.reserved == vm.reserved && vm'.held == vm.held - {n} &&
    (n >= LOW_PAGES ==> n !in vm.reserved && !IsTable(vm, n)) &&
    (o >= LOW_PAGES ==> o !in vm.reserved && o !in vm.held && !IsTable(vm, o)) &&
    forall q :: LOW_PAGES <= q < PHYS_PAGES ==>
      Count(vm', q) == Count(vm, q) - (if q == o then 1 else 0) + (if q == n && n !in vm.held then 1 else 0)
  }

  lemma CountAfter(vm: VM, vm': VM, d: int, k: int, o: int, n: int, q: int)
    requires Moves(vm, vm', d, k, o, n) && LOW_PAGES <= q < PHYS_PAGES && CountOk(vm, q)
    ensures CountOk(vm', q)
  {
    RefsAfter(vm, vm', d, k, q);
    assert IsTable(vm', q) == IsTable(vm, q) && Count(vm, q) == vm.memMap[q - LOW_PAGES];
    assert Count(vm', q) == vm'.memMap[q - LOW_PAGES];
    if q == o {
      assert |Refs(vm', q)| == |Refs(vm, q)| - 1;
    } else if q == n {
      assert |Refs(vm', q)| == |Refs(vm, q)| + 1;
    } else {
      assert Refs(vm', q) == Refs(vm, q);
    }
  }

  lemma RefsSame(vm: VM, vm': VM, p: int)
    requires Sized(vm) && Sized(vm')
    requires forall x, y :: IsUser(x, y) ==> PageAt(vm', x, y) == PageAt(vm, x, y)
    ensures Refs(vm', p) == Refs(vm, p)
  {
  }

  // copy_page_tables on one present entry.
  ghost function CopyEntry(vm: VM, d: int, e: int, k: int): VM
    requires Sized(vm) && DirsOk(vm) && IsSlot(d, k) && IsSlot(e, k) && vm.dir[d] != NONE && vm.dir[e] != NONE
    requires Entry(vm, d, k).Present? && Entry(vm, d, k).page < PHYS_PAGES
  {
    var thisPage := ReadOnly(Entry(vm, d, k));
    var vm1 := SetEntry(vm, e, k, thisPage);
    if thisPage.page < LOW_PAGES then vm1
    else SetCount(SetEntry(vm1, d, k, thisPage), thisPage.page, vm.memMap[thisPage.page - LOW_PAGES] + 1)
  }

  ghost predicate CanCopy(vm: VM, d: int, e: int, k: int) {
    Inv(vm) && IsSlot(d, k) && IsUser(e, k) && vm.dir[d] != NONE && vm.dir[e] != NONE && d != e &&
    d % DIRS_PER_TASK == e % DIRS_PER_TASK && Entry(vm, e, k) == Absent && Entry(vm, d, k).Present? &&
    (IsUser(d, k) || (d == 0 && k < KERNEL_ENTRIES))
  }

  lemma CopyEntryFrame(vm: VM, d: int, e: int, k: int)
    requires CanCopy(vm, d, e, k)
    ensures Entry(vm, d, k).page < PHYS_PAGES
    ensures var vm' := CopyEntry(vm, d, e, k);
            Sized(vm') && DirsOk(vm') && vm'.dir == vm.dir && vm'.pages == vm.pages &&
            vm'.held == vm.held && vm'.reserved == vm.reserved &&
            Entry(vm', e, k) == ReadOnly(Entry(vm, d, k)) &&
            Entry(vm', d, k) ==
              (if Entry(vm, d, k).page < LOW_PAGES then Entry(vm, d, k) else ReadOnly(Entry(vm, d, k))) &&
            forall x, y :: IsSlot(x, y) && (x, y) != (d, k) && (x, y) != (e, k) ==> Entry(vm', x, y) == Entry(vm, x, y)
  {
    assert EntryOk(vm, d, k);
    var src := ReadOnly(Entry(vm, d, k));
    SetEntryFrame(vm, e, k, src);
    SetEntryFrame(SetEntry(vm, e, k, src), d, k, src);
  }

  lemma CopyEntryKeepsCounts(vm: VM, d: int, e: int, k: int)
    requires CanCopy(vm, d, e, k)
    ensures Entry(vm, d, k).page < PHYS_PAGES && Sized(CopyEntry(vm, d, e, k)) && CountsOk(CopyEntry(vm, d, e, k))
  {
    CopyEntryFrame(vm, d, e, k);
    var vm', p := CopyEntry(vm, d, e, k), Entry(vm, d, k).page;
    if p >= LOW_PAGES { MappedMeansCounted(vm, d, k); }
    assert Moves(vm, vm', e, k, NONE, p);
    forall q | LOW_PAGES <= q < PHYS_PAGES ensures CountOk(vm', q) {
      CountAfter(vm, vm', e, k, NONE, p, q);
    }
  }

  lemma CopyEntryKeepsEntries(vm: VM, d: int, e: int, k: int)
    requires CanCopy(vm, d, e, k)
    ensures Entry(vm, d, k).page < PHYS_PAGES && Sized(CopyEntry(vm, d, e, k)) && EntriesOk(CopyEntry(vm, d, e, k))
  {
    CopyEntryFrame(vm, d, e, k);
    var vm', p := CopyEntry(vm, d, e, k), Entry(vm, d, k).page;
    assert EntryOk(vm, d, k);
    forall x, y | IsSlot(x, y) ensures EntryOk(vm', x, y) {
      assert EntryOk(vm, x, y);
      if IsUser(x, y) && PageAt(vm, x, y) == p >= LOW_PAGES && Entry(vm, x, y).writable {
        SoleOwner(vm, x, y, d, k);
      }
    }
  }

  lemma CopyEntryKeepsInv(vm: VM, d: int, e: int, k: int)
    requires CanCopy(vm, d, e, k)
    ensures Entry(vm, d, k).page < PHYS_PAGES && Inv(CopyEntry(vm, d, e, k))
  {
    CopyEntryFrame(vm, d, e, k);
    CopyEntryKeepsCounts(vm, d, e, k);
    CopyEntryKeepsEntries(vm, d, e, k);
    assert EntryOk(vm, d, k);
  }

  // free_page_tables on one entry.
  ghost function FreeEntry(vm: VM, d: int, k: int): VM
    requires Sized(vm) && IsSlot(d, k) && vm.dir[d] != NONE && PageAt(vm, d, k) < PHYS_PAGES
  {
    var p := PageAt(vm, d, k);
    var vm1 := SetEntry(vm, d, k, Absent);
    if p >= LOW_PAGES then SetCount(vm1, p, vm.memMap[p - LOW_PAGES] - 1) else vm1
  }

  lemma FreeEntryFrame(vm: VM, d: int, k: int)
    requires Inv(vm) && IsUser(d, k) && vm.dir[d] != NONE
    ensures PageAt(vm, d, k) < PHYS_PAGES
    ensures var vm' := FreeEntry(vm, d, k);
            Sized(vm') && DirsOk(vm') && vm'.dir == vm.dir && vm'.pages == vm.pages &&
            vm'.held == vm.held && vm'.reserved == vm.reserved &&
            forall x, y :: IsSlot(x, y) ==> Entry(vm', x, y) == if (x, y) == (d, k) then Absent else Entry(vm, x, y)
  {
    assert EntryOk(vm, d, k);
    SetEntryFrame(vm, d, k, Absent);
  }

  lemma FreeEntryKeepsCounts(vm: VM, d: int, k: int)
    requires Inv(vm) && IsUser(d, k) && vm.dir[d] != NONE
    ensures PageAt(vm, d, k) < PHYS_PAGES && Sized(FreeEntry(vm, d, k)) && CountsOk(FreeEntry(vm, d, k))
  {
    FreeEntryFrame(vm, d, k);
    var vm', p := FreeEntry(vm, d, k), PageAt(vm, d, k);
    if p >= LOW_PAGES { MappedMeansCounted(vm, d, k); }
    if p != NONE { assert Moves(vm, vm', d, k, p, NONE); }
    forall q | LOW_PAGES <= q < PHYS_PAGES ensures CountOk(vm', q) {
      assert CountOk(vm, q);
      if p != NONE {
        CountAfter(vm, vm', d, k, p, NONE, q);
      } else {
        RefsSame(vm, vm', q);
        assert IsTable(vm', q) == IsTable(vm, q);
      }
    }
  }

  lemma FreeEntryKeepsInv(vm: VM, d: int, k: int)
    requires Inv(vm) && IsUser(d, k) && vm.dir[d] != NONE
    ensures PageAt(vm, d, k) < PHYS_PAGES && Inv(FreeEntry(vm, d, k))
  {
    FreeEntryFrame(vm, d, k);
    FreeEntryKeepsCounts(vm, d, k);
    var vm', p := FreeEntry(vm, d, k), PageAt(vm, d, k);
    forall x, y | IsSlot(x, y) ensures EntryOk(vm', x, y) {
      assert EntryOk(vm, x, y);
      if IsUser(x, y) && PageAt(vm, x, y) == p >= LOW_PAGES && Entry(vm, x, y).writable {
        SoleOwner(vm, x, y, d, k);
      }
    }
  }

  const ZERO: Page := seq(PAGE_SIZE, i => 0)

  // get_free_page: page p, zeroed, now belongs to the kernel. A zeroed page read as
  // a table holds absent entries.
  ghost function Hold(vm: VM, p: int): VM
    requires Sized(vm) && LOW_PAGES <= p < PHYS_PAGES
  {
    SetCount(vm, p, 1).(
      tables := vm.tables[p := seq(ENTRIES, i => Absent)],
      pages := vm.pages[p := ZERO],
      held := vm.held + {p})
  }

  lemma FreeMeansUnused(vm: VM, p: int)
    requires Inv(vm) && LOW_PAGES <= p < PHYS_PAGES && vm.memMap[p - LOW_PAGES] == 0
    ensures p !in vm.held && p !in vm.reserved && !IsTable(vm, p) && Refs(vm, p) == {}
  {
    assert CountOk(vm, p);
  }

  lemma HoldKeepsInv(vm: VM, p: int)
    requires Inv(vm) && LOW_PAGES <= p < PHYS_PAGES && vm.memMap[p - LOW_PAGES] == 0
    ensures Inv(Hold(vm, p))
    ensures forall x, y :: IsSlot(x, y) ==> Entry(Hold(vm, p), x, y) == Entry(vm, x, y)
  {
    FreeMeansUnused(vm, p);
    var vm' := Hold(vm, p);
    forall q | LOW_PAGES <= q < PHYS_PAGES ensures CountOk(vm', q) {
      assert CountOk(vm, q) && IsTable(vm', q) == IsTable(vm, q);
      RefsSame(vm, vm', q);
    }
    forall x, y | IsSlot(x, y) ensures EntryOk(vm', x, y) {
      assert EntryOk(vm, x, y);
    }
  }

  // free_page on a page of the kernel.
  ghost function Unhold(vm: VM, p: int): VM
    requires Sized(vm) && LOW_PAGES <= p < PHYS_PAGES
  {
    SetCount(vm, p, vm.memMap[p - LOW_PAGES] - 1).(held := vm.held - {p})
  }

  lemma UnholdKeepsInv(vm: VM, p: int)
    requires Inv(vm) && p in vm.held
    ensures Inv(Unhold(vm, p))
    ensures forall x, y :: IsSlot(x, y) ==> Entry(Unhold(vm, p), x, y) == Entry(vm, x, y)
  {
    var vm' := Unhold(vm, p);
    assert CountOk(vm, p);
    forall q | LOW_PAGES <= q < PHYS_PAGES ensures CountOk(vm', q) {
      assert CountOk(vm, q) && IsTable(vm', q) == IsTable(vm, q);
      RefsSame(vm, vm', q);
    }
    forall x, y | IsSlot(x, y) ensures EntryOk(vm', x, y) {
      assert EntryOk(vm, x, y);
      assert IsUser(x, y) && PageAt(vm, x, y) == p ==> (x, y) in Refs(vm, p);
    }
  }

  // A zeroed page of the kernel becomes the page table of directory entry d.
  ghost function LinkTable(vm: VM, d: int, p: int): VM
    requires Sized(vm) && 0 <= d < DIRS
  {
    vm.(dir := vm.dir[d := p], held := vm.held - {p})
  }

  lemma LinkTableKeepsInv(vm: VM, d: int, p: int)
    requires Inv(vm) && DIRS_PER_TASK <= d < DIRS && vm.dir[d] == NONE && p in vm.held
    requires forall k :: 0 <= k < ENTRIES ==> vm.tables[p][k] == Absent
    ensures Inv(LinkTable(vm, d, p))
    ensures forall x, y :: IsSlot(x, y) ==> Entry(LinkTable(vm, d, p), x, y) == Entry(vm, x, y)
  {
    var vm' := LinkTable(vm, d, p);
    assert CountOk(vm, p);
    forall q | LOW_PAGES <= q < PHYS_PAGES ensures CountOk(vm', q) {
      assert CountOk(vm, q);
      assert IsTable(vm', q) == (q == p || IsTable(vm, q)) by {
        if q == p { assert vm'.dir[d] == p; }
        if IsTable(vm, q) { var x :| 0 <= x < DIRS && vm.dir[x] == q; assert vm'.dir[x] == q; }
      }
      RefsSame(vm, vm', q);
    }
    forall x, y | IsSlot(x, y) ensures EntryOk(vm', x, y) {
      assert EntryOk(vm, x, y);
    }
  }

  // free_page on an emptied page table, and clearing its directory entry.
  ghost function DropTable(vm: VM, d: int): VM
    requires Sized(vm) && 0 <= d < DIRS && LOW_PAGES <= vm.dir[d]
  {
    SetCount(vm, vm.dir[d], vm.memMap[vm.dir[d] - LOW_PAGES] - 1).(dir := vm.dir[d := NONE])
  }

  lemma DropTableKeepsInv(vm: VM, d: int)
    requires Inv(vm) && DIRS_PER_TASK <= d < DIRS && vm.dir[d] != NONE
    requires forall k :: 0 <= k < ENTRIES ==> Entry(vm, d, k) == Absent
    ensures LOW_PAGES <= vm.dir[d] && Inv(DropTable(vm, d))
    ensures forall x, y :: IsSlot(x, y) ==> Entry(DropTable(vm, d), x, y) == Entry(vm, x, y)
  {
    var vm', p := DropTable(vm, d), vm.dir[d];
    assert CountOk(vm, p) && IsTable(vm, p);
    forall q | LOW_PAGES <= q < PHYS_PAGES ensures CountOk(vm', q) {
      assert CountOk(vm, q);
      assert IsTable(vm', q) == (q != p && IsTable(vm, q)) by {
        if q != p && IsTable(vm, q) { var x :| 0 <= x < DIRS && vm.dir[x] == q; assert vm'.dir[x] == q; }
      }
      RefsSame(vm, vm', q);
    }
    forall x, y | IsSlot(x, y) ensures EntryOk(vm', x, y) {
      assert EntryOk(vm, x, y);
      assert IsUser(x, y) && PageAt(vm, x, y) == p ==> (x, y) in Refs(vm, p);
    }
  }

  // un_wp_page on a shared or low page: page p, held by the kernel so far, becomes
  // the task's own copy.
  ghost function CopyPage(vm: VM, d: int, k: int, p: int): VM
    requires Sized(vm) && IsSlot(d, k) && vm.dir[d] != NONE && 0 <= PageAt(vm, d, k) < PHYS_PAGES
    requires 0 <= p < PHYS_PAGES
  {
    var oldPage := PageAt(vm, d, k);
    var vm1 := if oldPage >= LOW_PAGES then SetCount(vm, oldPage, vm.memMap[oldPage - LOW_PAGES] - 1) else vm;
    SetEntry(vm1, d, k, Present(p, true)).(pages := vm.pages[p := vm.pages[oldPage]], held := vm.held - {p})
  }

  ghost predicate CanCopyPage(vm: VM, d: int, k: int, p: int) {
    Inv(vm) && IsUser(d, k) && PageAt(vm, d, k) != NONE && p in vm.held &&
    (PageAt(vm, d, k) >= LOW_PAGES ==> vm.memMap[PageAt(vm, d, k) - LOW_PAGES] != 1)
  }

  lemma CopyPageFrame(vm: VM, d: int, k: int, p: int)
    requires CanCopyPage(vm, d, k, p)
    ensures 0 <= PageAt(vm, d, k) < PHYS_PAGES
    ensures var vm' := CopyPage(vm, d, k, p);
            Sized(vm') && DirsOk(vm') && vm'.dir == vm.dir && vm'.reserved == vm.reserved &&
            forall x, y :: IsSlot(x, y) ==>
              Entry(vm', x, y) == if (x, y) == (d, k) then Present(p, true) else Entry(vm, x, y)
    ensures forall x, y :: IsUser(x, y) ==> PageAt(vm, x, y) != p
  {
    assert EntryOk(vm, d, k) && CountOk(vm, p);
    SetEntryFrame(vm, d, k, Present(p, true));
    var vm1 := SetEntry(vm, d, k, Present(p, true));
    forall x, y | IsSlot(x, y)
      ensures Entry(CopyPage(vm, d, k, p), x, y) == if (x, y) == (d, k) then Present(p, true) else Entry(vm, x, y)
    {
      assert Entry(CopyPage(vm, d, k, p), x, y) == Entry(vm1, x, y);
    }
    forall x, y | IsUser(x, y) ensures PageAt(vm, x, y) != p {
      assert (x, y) !in Refs(vm, p);
    }
  }

  lemma CopyPageKeepsCounts(vm: VM, d: int, k: int, p: int)
    requires CanCopyPage(vm, d, k, p)
    ensures 0 <= PageAt(vm, d, k) < PHYS_PAGES
    ensures Sized(CopyPage(vm, d, k, p)) && CountsOk(CopyPage(vm, d, k, p))
  {
    CopyPageFrame(vm, d, k, p);
    var vm', o := CopyPage(vm, d, k, p), PageAt(vm, d, k);
    assert CountOk(vm, p);
    if o >= LOW_PAGES { MappedMeansCounted(vm, d, k); }
    assert Moves(vm, vm', d, k, o, p);
    forall q | LOW_PAGES <= q < PHYS_PAGES ensures CountOk(vm', q) {
      CountAfter(vm, vm', d, k, o, p, q);
    }
  }

  lemma CopyPageKeepsInv(vm: VM, d: int, k: int, p: int)
    requires CanCopyPage(vm, d, k, p)
    ensures 0 <= PageAt(vm, d, k) < PHYS_PAGES && Inv(CopyPage(vm, d, k, p))
  {
    CopyPageFrame(vm, d, k, p);
    CopyPageKeepsCounts(vm, d, k, p);
    var vm', o := CopyPage(vm, d, k, p), PageAt(vm, d, k);
    assert CountOk(vm, p) && CountOk(vm', p);
    forall x, y | IsSlot(x, y) ensures EntryOk(vm', x, y) {
      assert EntryOk(vm, x, y);
    }
  }

  // un_wp_page on a page mapped once: the entry only becomes writable.
  lemma UnprotectKeepsInv(vm: VM, d: int, k: int)
    requires Inv(vm) && IsUser(d, k) && PageAt(vm, d, k) >= LOW_PAGES
    requires vm.memMap[PageAt(vm, d, k) - LOW_PAGES] == 1
    ensures var vm' := SetEntry(vm, d, k, Entry(vm, d, k).(writable := true));
            Inv(vm') && forall x, y :: IsSlot(x, y) ==> PageAt(vm', x, y) == PageAt(vm, x, y)
  {
    var e := Entry(vm, d, k).(writable := true);
    var vm' := SetEntry(vm, d, k, e);
    SetEntryFrame(vm, d, k, e);
    assert EntryOk(vm, d, k);
    forall q | LOW_PAGES <= q < PHYS_PAGES ensures CountOk(vm', q) {
      assert CountOk(vm, q) && IsTable(vm', q) == IsTable(vm, q);
      RefsSame(vm, vm', q);
    }
    forall x, y | IsSlot(x, y) ensures EntryOk(vm', x, y) {
      assert EntryOk(vm, x, y);
    }
  }
}
