module MemoryManager {
  // The loops of mm/memory.c over mem_map, the page directory and the page tables.

  import opened Options
  import opened Paging
  import opened Tasks

  // Does task t own this page of its 64 MB, page k of directory entry i? Task 0
  // reaches only the first 640K.
  predicate IsPlace(t: int, i: int, k: int) {
    0 <= t < NR_TASKS && 0 <= i < DIRS_PER_TASK && 0 <= k < ENTRIES && (t == 0 ==> i == 0 && k < KERNEL_ENTRIES)
  }

  // What task t reads there.
  ghost function View(vm: VM, t: int, i: int, k: int): Option<Page>
    requires Inv(vm) && 0 <= t < NR_TASKS && 0 <= i < DIRS_PER_TASK && 0 <= k < ENTRIES
  {
    var p := PageAt(vm, DIRS_PER_TASK * t + i, k);
    assert EntryOk(vm, DIRS_PER_TASK * t + i, k);
    if IsPlace(t, i, k) && p != NONE then Some(vm.pages[p]) else None
  }

  // Same views everywhere.
  ghost predicate SameViews(vm: VM, vm': VM) {
    Inv(vm) && Inv(vm') &&
    forall t, i, k :: 0 <= t < NR_TASKS && 0 <= i < DIRS_PER_TASK && 0 <= k < ENTRIES ==>
      View(vm', t, i, k) == View(vm, t, i, k)
  }

  // Pages that hold someone's data: low memory and every page in use.
  ghost predicate InUse(vm: VM, p: int)
    requires Sized(vm)
  {
    0 <= p < LOW_PAGES || (LOW_PAGES <= p < PHYS_PAGES && vm.memMap[p - LOW_PAGES] != 0)
  }

  predicate WeakerEntry(e: Pte, e': Pte) {
    e' == e || (e.Present? && e.page >= LOW_PAGES && e' == ReadOnly(e))
  }

  class Manager {
    var memMap: seq<int>
    var pgDir: seq<int>
    var tables: seq<seq<Pte>>
    var pages: seq<Page>
    ghost var held: set<int>
    ghost var reserved: set<int>

    ghost function Vm(): VM
      reads this
    {
      VM(memMap, pgDir, tables, pages, held, reserved)
    }

    // mem_init, on the page directory head.asm leaves behind: four tables that map
    // 16 MB onto itself.
    constructor (startMem: int, endMem: int)
      requires LOW_PAGES <= startMem <= endMem <= PHYS_PAGES
      ensures Inv(Vm()) && held == {}
      ensures forall i :: 0 <= i < PAGING_PAGES ==>
                memMap[i] == if startMem <= i + LOW_PAGES < endMem then 0 else USED
      ensures forall d :: 0 <= d < DIRS ==> pgDir[d] == BootDir(d)
    {
      var map0: seq<int> := [];
      while |map0| < PAGING_PAGES
        invariant |map0| <= PAGING_PAGES && forall i :: 0 <= i < |map0| ==> map0[i] == USED
      {
        map0 := map0 + [USED];
      }
      var i := startMem - LOW_PAGES;
      var left := endMem - startMem;
      while left > 0
        invariant 0 <= left && i + left == endMem - LOW_PAGES && |map0| == PAGING_PAGES
        invariant startMem - LOW_PAGES <= i
        invariant forall j :: 0 <= j < PAGING_PAGES ==>
                    map0[j] == if startMem - LOW_PAGES <= j < i then 0 else USED
      {
        map0 := map0[i := 0];
        i, left := i + 1, left - 1;
      }
      memMap := map0;
      pgDir := seq(DIRS, d => BootDir(d));
      tables := seq(PHYS_PAGES, p => BootTable(p));
      pages := seq(PHYS_PAGES, p => ZERO);
      held := {};
      reserved := UsedPages(map0);
      new;
      BootIsInv(Vm());
    }

    // The last free page, zeroed; 0 if there is none.
    method GetFreePage() returns (p: int)
      requires Inv(Vm())
      modifies this
      ensures Inv(Vm())
      ensures p == 0 ==> Vm() == old(Vm()) && forall i :: 0 <= i < PAGING_PAGES ==> memMap[i] != 0
      ensures p != 0 ==> LOW_PAGES <= p < PHYS_PAGES && old(memMap)[p - LOW_PAGES] == 0 && Vm() == Hold(old(Vm()), p)
      ensures p != 0 ==> forall i :: p - LOW_PAGES < i < PAGING_PAGES ==> memMap[i] != 0
    {
      var ecx := PAGING_PAGES;
      while ecx > 0 && memMap[ecx - 1] != 0
        invariant 0 <= ecx <= PAGING_PAGES
        invariant forall i :: ecx <= i < PAGING_PAGES ==> memMap[i] != 0
      {
        ecx := ecx - 1;
      }
      if ecx == 0 {
        return 0;
      }
      p := ecx - 1 + LOW_PAGES;
      HoldKeepsInv(Vm(), p);
      memMap := memMap[p - LOW_PAGES := 1];
      tables := tables[p := seq(ENTRIES, i => Absent)];
      pages := pages[p := ZERO];
      held := held + {p};
    }

    // free_page, called on a page that is not free.
    method FreePage(p: int)
      requires |memMap| == PAGING_PAGES && 0 <= p < PHYS_PAGES
      requires p >= LOW_PAGES ==> memMap[p - LOW_PAGES] > 0
      modifies `memMap
      ensures memMap == if p < LOW_PAGES then old(memMap)
                        else old(memMap)[p - LOW_PAGES := old(memMap)[p - LOW_PAGES] - 1]
    {
      if p < LOW_PAGES {
        return;
      }
      memMap := memMap[p - LOW_PAGES := memMap[p - LOW_PAGES] - 1];
    }

    // free_page on a page of the kernel.
    method ReleasePage(p: int)
      requires Inv(Vm()) && p in held
      modifies `memMap, `held
      ensures Inv(Vm()) && Vm() == Unhold(old(Vm()), p)
    {
      UnholdKeepsInv(Vm(), p);
      assert CountOk(Vm(), p);
      FreePage(p);
      held := held - {p};
    }

    // The inner loop of free_page_tables.
    method FreeEntries(dir: int)
      requires Inv(Vm()) && DIRS_PER_TASK <= dir < DIRS && pgDir[dir] != NONE
      modifies `memMap, `tables
      ensures FreeProgress(old(Vm()), Vm(), dir, ENTRIES)
    {
      var nr := 0;
      ghost var was := Vm();
      while nr < ENTRIES
        invariant 0 <= nr <= ENTRIES && FreeProgress(was, Vm(), dir, nr)
      {
        ghost var vm := Vm();
        FreeEntryProgress(was, vm, dir, nr);
        var e := tables[pgDir[dir]][nr];
        if e.Present? {
          if e.page >= LOW_PAGES { MappedMeansCounted(vm, dir, nr); }
          FreePage(e.page);
        }
        tables := tables[pgDir[dir] := tables[pgDir[dir]][nr := Absent]];
        assert Vm() == FreeEntry(vm, dir, nr);
        nr := nr + 1;
      }
    }

    // One table of free_page_tables: its entries and the table itself.
    method FreeTable(dir: int)
      requires Inv(Vm()) && DIRS_PER_TASK <= dir < DIRS && pgDir[dir] != NONE
      modifies `memMap, `pgDir, `tables
      ensures Inv(Vm())
      ensures pgDir == old(pgDir)[dir := NONE]
      ensures forall d, k :: IsSlot(d, k) && d != dir ==> Entry(Vm(), d, k) == Entry(old(Vm()), d, k)
    {
      FreeEntries(dir);
      DropTableKeepsInv(Vm(), dir);
      assert IsTable(Vm(), pgDir[dir]) && CountOk(Vm(), pgDir[dir]);
      FreePage(pgDir[dir]);
      pgDir := pgDir[dir := NONE];
    }

    // free_page_tables on n directory entries from `from`; panics are excluded by
    // the requires (task 0's entries are not freed).
    method FreePageTables(from: int, n: nat)
      requires Inv(Vm()) && DIRS_PER_TASK <= from && from + n <= DIRS
      modifies `memMap, `pgDir, `tables
      ensures Inv(Vm())
      ensures forall d :: 0 <= d < DIRS ==> pgDir[d] == if from <= d < from + n then NONE else old(pgDir)[d]
      ensures forall d, k :: IsSlot(d, k) && !(from <= d < from + n) ==> Entry(Vm(), d, k) == Entry(old(Vm()), d, k)
    {
      var dir := from;
      ghost var was := Vm();
      while dir < from + n
        invariant from <= dir <= from + n && Inv(Vm())
        invariant forall d :: 0 <= d < DIRS ==> pgDir[d] == if from <= d < dir then NONE else was.dir[d]
        invariant forall d, k :: IsSlot(d, k) && !(from <= d < dir) ==> Entry(Vm(), d, k) == Entry(was, d, k)
      {
        if pgDir[dir] != NONE {
          FreeTable(dir);
        }
        dir := dir + 1;
      }
    }

    // copy_page_tables: a page table for directory entry d. False if memory is out.
    method NewTable(d: int) returns (ok: bool)
      requires Inv(Vm()) && DIRS_PER_TASK <= d < DIRS && pgDir[d] == NONE
      modifies this
      ensures if ok then TableAdded(old(Vm()), Vm(), d) else Vm() == old(Vm()) && Full(Vm())
    {
      ghost var was := Vm();
      var p := GetFreePage();
      if p == 0 {
        return false;
      }
      HoldKeepsInv(was, p);
      FreeMeansUnused(was, p);
      LinkTableKeepsInv(Vm(), d, p);
      pgDir := pgDir[d := p];
      held := held - {p};
      ok := true;
    }

    // One entry: the child's is read-only, and so is the parent's from now on, unless the
    // page is in low memory.
    method CopyOneEntry(from: int, to: int, i: int)
      requires CanCopy(Vm(), from, to, i)
      modifies `memMap, `tables
      ensures Entry(old(Vm()), from, i).page < PHYS_PAGES && Vm() == CopyEntry(old(Vm()), from, to, i)
    {
      assert EntryOk(Vm(), from, i);
      var thisPage := tables[pgDir[from]][i];
      if thisPage.page >= LOW_PAGES { MappedMeansCounted(Vm(), from, i); }
      thisPage := thisPage.(writable := false);
      tables := tables[pgDir[to] := tables[pgDir[to]][i := thisPage]];
      if thisPage.page >= LOW_PAGES {
        tables := tables[pgDir[from] := tables[pgDir[from]][i := thisPage]];
        memMap := memMap[thisPage.page - LOW_PAGES := memMap[thisPage.page - LOW_PAGES] + 1];
      }
    }

    // The inner loop of copy_page_tables: nr entries of one table.
    method CopyTable(from: int, to: int, nr: nat)
      requires Inv(Vm()) && 0 <= from < DIRS && DIRS_PER_TASK <= to < DIRS && from != to
      requires from % DIRS_PER_TASK == to % DIRS_PER_TASK
      requires (from == 0 || DIRS_PER_TASK <= from) && nr == Nr(from)
      requires pgDir[from] != NONE && pgDir[to] != NONE
      requires forall k :: 0 <= k < ENTRIES ==> Entry(Vm(), to, k) == Absent
      modifies `memMap, `tables
      ensures TableCopied(old(Vm()), Vm(), from, to, nr)
    {
      var i := 0;
      ghost var was := Vm();
      while i < nr
        invariant 0 <= i <= nr && CopyProgress(was, Vm(), from, to, i)
      {
        if tables[pgDir[from]][i].Present? {
          assert CanCopy(Vm(), from, to, i);
          CopyEntryProgress(was, Vm(), from, to, i);
          CopyOneEntry(from, to, i);
        }
        i := i + 1;
      }
    }

    // One round of the outer loop of copy_page_tables.
    method CopyDirEntry(from: int, to: int, n: nat, i: nat, ghost was: VM) returns (ok: bool)
      requires Inv(was) && CanFork(was, from, to, n) && i < n
      requires OnlyChildChanged(was, Vm(), to, n) && Copied(was, Vm(), from, to, n, i)
      modifies this
      ensures OnlyChildChanged(was, Vm(), to, n)
      ensures if ok then Copied(was, Vm(), from, to, n, i + 1) else Full(Vm()) && Vm() == old(Vm())
      ensures pgDir == old(pgDir)[to + i := pgDir[to + i]]
      ensures ok ==> (pgDir[to + i] == NONE <==> old(pgDir)[from + i] == NONE)
      ensures !ok ==> pgDir[from + i] != NONE
    {
      if pgDir[from + i] != NONE {
        ok := CopyOneTable(from, to, n, i, was);
      } else {
        SkippedOne(was, Vm(), from, to, n, i);
        ok := true;
      }
    }

    method CopyOneTable(from: int, to: int, n: nat, i: nat, ghost was: VM) returns (ok: bool)
      requires Inv(was) && CanFork(was, from, to, n) && i < n && |pgDir| == DIRS && pgDir[from + i] != NONE
      requires OnlyChildChanged(was, Vm(), to, n) && Copied(was, Vm(), from, to, n, i)
      modifies this
      ensures OnlyChildChanged(was, Vm(), to, n)
      ensures if ok then Copied(was, Vm(), from, to, n, i + 1) else Full(Vm()) && Vm() == old(Vm())
      ensures pgDir == old(pgDir)[to + i := pgDir[to + i]] && (ok ==> pgDir[to + i] != NONE)
    {
      ghost var before := Vm();
      ok := NewTable(to + i);
      if ok {
        NewTableChangesChildOnly(was, before, Vm(), to, n, i);
        ghost var linked := Vm();
        TableIsReady(was, before, linked, from, to, n, i);
        CopyTable(from + i, to + i, Nr(from));
        CopiedOneMore(was, before, linked, Vm(), from, to, n, i);
      }
    }

    // copy_page_tables on n directory entries. False if memory ran out half-way, which
    // it does exactly if there are fewer free pages than tables to copy.
    method CopyPageTables(from: int, to: int, n: nat) returns (ok: bool)
      requires Inv(Vm()) && CanFork(Vm(), from, to, n)
      modifies this
      ensures OnlyChildChanged(old(Vm()), Vm(), to, n)
      ensures if ok then Copied(old(Vm()), Vm(), from, to, n, n) else Full(Vm())
      ensures ok ==> SameTables(old(pgDir), pgDir, from, to, n)
      ensures ok <==> |FreePages(old(Vm()))| >= Tables(old(pgDir), from, n)
    {
      ghost var was := Vm();
      var i := 0;
      ok := true;
      while i < n && ok
        invariant 0 <= i <= n && OnlyChildChanged(was, Vm(), to, n)
        invariant if ok then CopiedSoFar(was, Vm(), from, to, n, i) else RanOutOfPages(was, Vm(), from, n)
        decreases n - i
      {
        ok := CopyRound(from, to, n, i, was);
        i := i + 1;
      }
      if ok { CopyTakesTables(was, Vm(), from, to, n, n); }
    }

    method CopyRound(from: int, to: int, n: nat, i: nat, ghost was: VM) returns (ok: bool)
      requires Inv(was) && CanFork(was, from, to, n) && i < n
      requires OnlyChildChanged(was, Vm(), to, n) && CopiedSoFar(was, Vm(), from, to, n, i)
      modifies this
      ensures OnlyChildChanged(was, Vm(), to, n)
      ensures if ok then CopiedSoFar(was, Vm(), from, to, n, i + 1) else RanOutOfPages(was, Vm(), from, n)
    {
      ghost var before := Vm();
      assert before.dir[from + i] == was.dir[from + i];
      ok := CopyDirEntry(from, to, n, i, was);
      if ok {
        OneMoreTable(was.dir, before.dir, pgDir, from, to, i);
      } else {
        TooFewPages(was, Vm(), from, to, n, i);
      }
    }

    // The entry gets its own copy of its page.
    method MoveToCopy(d: int, k: int, newPage: int)
      requires Sized(Vm()) && IsSlot(d, k) && pgDir[d] != NONE && 0 <= PageAt(Vm(), d, k) < PHYS_PAGES
      requires 0 <= newPage < PHYS_PAGES
      modifies `memMap, `tables, `pages, `held
      ensures Vm() == CopyPage(old(Vm()), d, k, newPage)
    {
      var oldPage := tables[pgDir[d]][k].page;
      if oldPage >= LOW_PAGES {
        memMap := memMap[oldPage - LOW_PAGES := memMap[oldPage - LOW_PAGES] - 1];
      }
      tables := tables[pgDir[d] := tables[pgDir[d]][k := Present(newPage, true)]];
      pages := pages[newPage := pages[oldPage]];
      held := held - {newPage};
    }

    // get_free_page and the rest of un_wp_page, for a page that is shared or low.
    method CopyOnWrite(d: int, k: int)
      requires Inv(Vm()) && IsUser(d, k) && PageAt(Vm(), d, k) != NONE
      requires PageAt(Vm(), d, k) >= LOW_PAGES ==> memMap[PageAt(Vm(), d, k) - LOW_PAGES] != 1
      requires !Full(Vm())
      modifies this
      ensures SameViews(old(Vm()), Vm()) && Writable(Vm(), d, k)
      ensures pgDir == old(pgDir) && held == old(held) && reserved == old(reserved)
    {
      ghost var was := Vm();
      assert EntryOk(was, d, k);
      if PageAt(was, d, k) >= LOW_PAGES { MappedMeansCounted(was, d, k); }
      var newPage := GetFreePage();
      ghost var vm := Vm();
      HoldKeepsInv(was, newPage);
      HoldKeepsViews(was, newPage);
      MoveToCopy(d, k, newPage);
      assert held == was.held by { assert CountOk(was, newPage); }
      CopyPageKeepsInv(vm, d, k, newPage);
      CopyPageKeepsViews(vm, d, k, newPage);
    }

    // un_wp_page. The caller guarantees a free page when one is needed.
    method UnWpPage(d: int, k: int)
      requires Inv(Vm()) && IsUser(d, k) && PageAt(Vm(), d, k) != NONE
      requires NeedsCopy(Vm(), d, k) ==> !Full(Vm())
      modifies this
      ensures SameViews(old(Vm()), Vm()) && Writable(Vm(), d, k)
      ensures pgDir == old(pgDir) && held == old(held) && reserved == old(reserved)
    {
      var oldPage := tables[pgDir[d]][k].page;
      assert EntryOk(Vm(), d, k);
      if oldPage >= LOW_PAGES && memMap[oldPage - LOW_PAGES] == 1 {
        ghost var was := Vm();
        UnprotectKeepsInv(was, d, k);
        SetEntryFrame(was, d, k, Entry(was, d, k).(writable := true));
        tables := tables[pgDir[d] := tables[pgDir[d]][k := tables[pgDir[d]][k].(writable := true)]];
        return;
      }
      CopyOnWrite(d, k);
    }

    // A user write of task t >= 1 to a mapped page: the processor faults on a
    // read-only entry, do_wp_page runs, and the write is repeated.
    method UserWrite(t: int, i: int, k: int, offset: nat, value: bv8)
      requires Inv(Vm()) && IsPlace(t, i, k) && t >= 1 && offset < PAGE_SIZE
      requires View(Vm(), t, i, k).Some?
      requires NeedsCopy(Vm(), DIRS_PER_TASK * t + i, k) ==> !Full(Vm())
      modifies this
      ensures Inv(Vm()) && pgDir == old(pgDir) && held == old(held) && reserved == old(reserved)
      ensures WriteSeen(old(Vm()), Vm(), t, i, k, offset, value)
    {
      var d := DIRS_PER_TASK * t + i;
      if !tables[pgDir[d]][k].writable {
        UnWpPage(d, k);
      }
      var p := tables[pgDir[d]][k].page;
      assert EntryOk(Vm(), d, k);
      StoreIsPrivate(Vm(), t, i, k, offset, value);
      pages := pages[p := Poke(pages[p], offset, value)];
    }
  }

  // ---------- Boot ----------

  function BootDir(d: int): int { if 0 <= d < 4 then d + 1 else NONE }

  function BootTable(p: int): seq<Pte> {
    if 1 <= p < 5 then seq(ENTRIES, k requires 0 <= k < ENTRIES => Present(ENTRIES * (p - 1) + k, true))
    else seq(ENTRIES, k => Absent)
  }

  function UsedPages(memMap: seq<int>): set<int> {
    set i | 0 <= i < |memMap| && memMap[i] == USED :: i + LOW_PAGES
  }

  lemma BootIsInv(vm: VM)
    requires vm.dir == seq(DIRS, d => BootDir(d)) && vm.tables == seq(PHYS_PAGES, p => BootTable(p))
    requires |vm.pages| == PHYS_PAGES && |vm.memMap| == PAGING_PAGES && vm.held == {}
    requires forall i :: 0 <= i < PAGING_PAGES ==> vm.memMap[i] == 0 || vm.memMap[i] == USED
    requires vm.reserved == UsedPages(vm.memMap)
    ensures Inv(vm)
  {
    assert forall d, k :: IsUser(d, k) ==> PageAt(vm, d, k) == NONE;
    forall d, k | IsSlot(d, k) ensures EntryOk(vm, d, k) {
      if d < 4 { assert Entry(vm, d, k) == Present(ENTRIES * d + k, true); }
    }
    forall p | LOW_PAGES <= p < PHYS_PAGES ensures CountOk(vm, p) {
      assert Refs(vm, p) == {};
      assert vm.memMap[p - LOW_PAGES] == USED <==> p in vm.reserved;
    }
  }

  // ---------- Views ----------

  ghost predicate Writable(vm: VM, d: int, k: int)
    requires Sized(vm) && IsSlot(d, k)
  {
    Entry(vm, d, k).Present? && Entry(vm, d, k).writable
  }

  // Is no page free?
  ghost predicate Full(vm: VM) { forall i :: 0 <= i < |vm.memMap| ==> vm.memMap[i] != 0 }

  // Will un_wp_page take a new page?
  ghost predicate NeedsCopy(vm: VM, d: int, k: int)
    requires Inv(vm) && IsUser(d, k) && PageAt(vm, d, k) != NONE
  {
    assert EntryOk(vm, d, k);
    var p := PageAt(vm, d, k);
    !Writable(vm, d, k) && !(p >= LOW_PAGES && vm.memMap[p - LOW_PAGES] == 1)
  }

  lemma ViewedPagesInUse(vm: VM, t: int, i: int, k: int)
    requires Inv(vm) && IsPlace(t, i, k) && PageAt(vm, DIRS_PER_TASK * t + i, k) != NONE
    ensures InUse(vm, PageAt(vm, DIRS_PER_TASK * t + i, k))
  {
    var d := DIRS_PER_TASK * t + i;
    assert EntryOk(vm, d, k);
    if t >= 1 && PageAt(vm, d, k) >= LOW_PAGES { MappedMeansCounted(vm, d, k); }
  }

  lemma HoldKeepsViews(vm: VM, p: int)
    requires Inv(vm) && LOW_PAGES <= p < PHYS_PAGES && vm.memMap[p - LOW_PAGES] == 0
    ensures Inv(Hold(vm, p)) && SameViews(vm, Hold(vm, p))
  {
    HoldKeepsInv(vm, p);
    forall t, i, k | IsPlace(t, i, k) ensures View(Hold(vm, p), t, i, k) == View(vm, t, i, k) {
      if PageAt(vm, DIRS_PER_TASK * t + i, k) != NONE { ViewedPagesInUse(vm, t, i, k); }
    }
  }

  lemma CopyPageKeepsViews(vm: VM, d: int, k: int, p: int)
    requires CanCopyPage(vm, d, k, p)
    ensures 0 <= PageAt(vm, d, k) < PHYS_PAGES && SameViews(vm, CopyPage(vm, d, k, p))
  {
    CopyPageFrame(vm, d, k, p);
    CopyPageKeepsInv(vm, d, k, p);
    var vm' := CopyPage(vm, d, k, p);
    forall t, i, j | IsPlace(t, i, j) ensures View(vm', t, i, j) == View(vm, t, i, j) {
      var x := DIRS_PER_TASK * t + i;
      assert EntryOk(vm, x, j);
      if (x, j) != (d, k) {
        assert PageAt(vm', x, j) == PageAt(vm, x, j);
        assert t >= 1 ==> IsUser(x, j);
      }
    }
  }

  function Poke(page: Page, offset: nat, value: bv8): Page
    requires offset < PAGE_SIZE
  {
    page[offset := value]
  }

  ghost function Stored(vm: VM, p: int, offset: nat, value: bv8): VM
    requires Sized(vm) && 0 <= p < PHYS_PAGES && offset < PAGE_SIZE
  {
    vm.(pages := vm.pages[p := Poke(vm.pages[p], offset, value)])
  }

  // Task t, and nobody else, sees its write.
  ghost predicate WriteSeen(vm: VM, vm': VM, t: int, i: int, k: int, offset: nat, value: bv8) {
    Inv(vm) && Inv(vm') && IsPlace(t, i, k) && View(vm, t, i, k).Some? && offset < PAGE_SIZE &&
    forall u, x, y :: IsPlace(u, x, y) ==>
      View(vm', u, x, y) ==
        if (u, x, y) == (t, i, k) then Some(Poke(View(vm, t, i, k).value, offset, value)) else View(vm, u, x, y)
  }

  // A writable entry is the only one that maps its page.
  lemma StoreIsPrivate(vm: VM, t: int, i: int, k: int, offset: nat, value: bv8)
    requires Inv(vm) && IsPlace(t, i, k) && t >= 1 && offset < PAGE_SIZE
    requires Writable(vm, DIRS_PER_TASK * t + i, k)
    ensures var p := PageAt(vm, DIRS_PER_TASK * t + i, k);
            0 <= p < PHYS_PAGES && WriteSeen(vm, Stored(vm, p, offset, value), t, i, k, offset, value)
  {
    var d := DIRS_PER_TASK * t + i;
    assert EntryOk(vm, d, k);
    var p := PageAt(vm, d, k);
    var vm' := Stored(vm, p, offset, value);
    StoreKeepsInv(vm, p, offset, value);
    forall u, x, y | IsPlace(u, x, y)
      ensures View(vm', u, x, y) ==
        if (u, x, y) == (t, i, k) then Some(Poke(View(vm, t, i, k).value, offset, value)) else View(vm, u, x, y)
    {
      var e := DIRS_PER_TASK * u + x;
      assert EntryOk(vm, e, y);
      assert PageAt(vm', e, y) == PageAt(vm, e, y);
      if PageAt(vm, e, y) == p {
        SoleOwner(vm, e, y, d, k);
      }
    }
  }

  lemma StoreKeepsInv(vm: VM, p: int, offset: nat, value: bv8)
    requires Inv(vm) && 0 <= p < PHYS_PAGES && offset < PAGE_SIZE
    ensures Inv(Stored(vm, p, offset, value))
  {
    var vm' := Stored(vm, p, offset, value);
    forall x, y | IsSlot(x, y) ensures Entry(vm', x, y) == Entry(vm, x, y) && EntryOk(vm', x, y) {
      assert EntryOk(vm, x, y);
    }
    forall q | LOW_PAGES <= q < PHYS_PAGES ensures CountOk(vm', q) {
      assert CountOk(vm, q) && IsTable(vm', q) == IsTable(vm, q);
      RefsSame(vm, vm', q);
    }
  }

  // A fork gives the child the parent's view and leaves every other view alone.
  lemma ForkCopiesView(was: VM, vm: VM, parent: int, child: int, n: nat)
    requires Inv(was) && 0 <= parent < NR_TASKS && 1 <= child < NR_TASKS
    requires CanFork(was, DIRS_PER_TASK * parent, DIRS_PER_TASK * child, n)
    requires OnlyChildChanged(was, vm, DIRS_PER_TASK * child, n)
    requires Copied(was, vm, DIRS_PER_TASK * parent, DIRS_PER_TASK * child, n, n)
    ensures ForkSeen(was, vm, parent, child, n)
  {
    forall t, i, k | IsPlace(t, i, k)
      ensures View(vm, t, i, k) == if t == child && i < n then View(was, parent, i, k) else View(was, t, i, k)
    {
      var d := DIRS_PER_TASK * t + i;
      assert EntryOk(vm, d, k) && EntryOk(was, d, k);
      if t == child && i < n {
        var e := DIRS_PER_TASK * parent + i;
        assert EntryOk(was, e, k);
        assert Entry(vm, d, k) == if k < Nr(DIRS_PER_TASK * parent) then ReadOnly(Entry(was, e, k)) else Absent;
        if IsPlace(parent, i, k) && PageAt(was, e, k) != NONE { ViewedPagesInUse(was, parent, i, k); }
      } else {
        assert WeakerEntry(Entry(was, d, k), Entry(vm, d, k));
        if PageAt(was, d, k) != NONE { ViewedPagesInUse(was, t, i, k); }
      }
    }
  }

  ghost predicate ForkSeen(was: VM, vm: VM, parent: int, child: int, n: nat) {
    Inv(was) && Inv(vm) && 0 <= parent < NR_TASKS && 0 <= child < NR_TASKS &&
    forall t, i, k :: IsPlace(t, i, k) ==>
      View(vm, t, i, k) == if t == child && i < n then View(was, parent, i, k) else View(was, t, i, k)
  }

  // free_page_tables takes the view of these pages away and no other.
  lemma ReleaseDropsView(was: VM, vm: VM, t: int, n: nat)
    requires Inv(was) && Inv(vm) && 1 <= t < NR_TASKS && n <= DIRS_PER_TASK && vm.pages == was.pages
    requires forall d :: 0 <= d < DIRS ==>
               vm.dir[d] == if DIRS_PER_TASK * t <= d < DIRS_PER_TASK * t + n then NONE else was.dir[d]
    requires forall d, k :: IsSlot(d, k) && !(DIRS_PER_TASK * t <= d < DIRS_PER_TASK * t + n) ==>
               Entry(vm, d, k) == Entry(was, d, k)
    ensures ReleaseSeen(was, vm, t, n)
  {
    forall u, i, k | IsPlace(u, i, k)
      ensures View(vm, u, i, k) == if u == t && i < n then None else View(was, u, i, k)
    {
      assert IsSlot(DIRS_PER_TASK * u + i, k);
    }
  }

  ghost predicate ReleaseSeen(was: VM, vm: VM, t: int, n: nat) {
    Inv(was) && Inv(vm) && 0 <= t < NR_TASKS &&
    forall u, i, k :: IsPlace(u, i, k) ==>
      View(vm, u, i, k) == if u == t && i < n then None else View(was, u, i, k)
  }

  // ---------- The loops ----------

  // Directory entry d has got an empty page table.
  ghost predicate TableAdded(was: VM, vm: VM, d: int) {
    Sized(was) && Inv(vm) && vm.held == was.held && vm.reserved == was.reserved && 0 <= d < DIRS &&
    vm.dir[d] != NONE && vm.dir == was.dir[d := vm.dir[d]] &&
    (forall x, k :: IsSlot(x, k) ==> Entry(vm, x, k) == Entry(was, x, k)) &&
    forall p :: InUse(was, p) ==> InUse(vm, p) && vm.pages[p] == was.pages[p]
  }

  // The table of `to` is a read-only copy of the first nr entries of that of `from`.
  ghost predicate TableCopied(was: VM, vm: VM, from: int, to: int, nr: nat) {
    Sized(was) && Inv(vm) && 0 <= from < DIRS && 0 <= to < DIRS &&
    vm.dir == was.dir && vm.pages == was.pages && vm.held == was.held && vm.reserved == was.reserved &&
    (forall p :: InUse(was, p) ==> InUse(vm, p)) &&
    (forall k :: 0 <= k < ENTRIES ==>
       Entry(vm, to, k) == if k < nr then ReadOnly(Entry(was, from, k)) else Absent) &&
    (forall k :: 0 <= k < ENTRIES ==> WeakerEntry(Entry(was, from, k), Entry(vm, from, k))) &&
    forall d, k :: IsSlot(d, k) && d != from && d != to ==> Entry(vm, d, k) == Entry(was, d, k)
  }

  // The loop of free_page_tables has done the first i entries.
  ghost predicate FreeProgress(was: VM, vm: VM, dir: int, i: int) {
    Sized(was) && Inv(vm) && vm.dir == was.dir && vm.held == was.held && vm.reserved == was.reserved &&
    vm.pages == was.pages &&
    forall d, k :: IsSlot(d, k) ==> Entry(vm, d, k) == if d == dir && k < i then Absent else Entry(was, d, k)
  }

  lemma FreeEntryProgress(was: VM, vm: VM, dir: int, i: int)
    requires FreeProgress(was, vm, dir, i) && DIRS_PER_TASK <= dir < DIRS && vm.dir[dir] != NONE && 0 <= i < ENTRIES
    ensures FreeProgress(was, FreeEntry(vm, dir, i), dir, i + 1)
    ensures Entry(vm, dir, i).Present? ==> Entry(vm, dir, i).page < PHYS_PAGES
  {
    FreeEntryKeepsInv(vm, dir, i);
    FreeEntryFrame(vm, dir, i);
    assert EntryOk(vm, dir, i);
  }

  // The loop of copy_page_tables has done the first i entries.
  ghost predicate CopyProgress(was: VM, vm: VM, from: int, to: int, i: int) {
    Sized(was) && Inv(vm) && 0 <= from < DIRS && 0 <= to < DIRS &&
    vm.dir == was.dir && vm.pages == was.pages && vm.held == was.held && vm.reserved == was.reserved &&
    (forall p :: InUse(was, p) ==> InUse(vm, p)) &&
    (forall k :: 0 <= k < ENTRIES ==> Entry(vm, to, k) == if k < i then ReadOnly(Entry(was, from, k)) else Absent) &&
    (forall k :: 0 <= k < ENTRIES ==>
       if k < i then WeakerEntry(Entry(was, from, k), Entry(vm, from, k))
         else Entry(vm, from, k) == Entry(was, from, k)) &&
    forall d, k :: IsSlot(d, k) && d != from && d != to ==> Entry(vm, d, k) == Entry(was, d, k)
  }

  lemma CopyEntryProgress(was: VM, vm: VM, from: int, to: int, i: int)
    requires CopyProgress(was, vm, from, to, i) && CanCopy(vm, from, to, i)
    ensures Entry(vm, from, i).page < PHYS_PAGES && CopyProgress(was, CopyEntry(vm, from, to, i), from, to, i + 1)
  {
    CopyEntryFrame(vm, from, to, i);
    CopyEntryKeepsInv(vm, from, to, i);
    var vm', page := CopyEntry(vm, from, to, i), Entry(vm, from, i).page;
    if page >= LOW_PAGES { MappedMeansCounted(vm, from, i); }
    forall p | InUse(was, p) ensures InUse(vm', p) {
      assert InUse(vm, p);
    }
  }

  // How many entries of each table a fork copies.
  function Nr(from: int): nat { if from == 0 then KERNEL_ENTRIES else ENTRIES }

  // The arguments copy_mem passes: n directory entries of a task (only the first of
  // task 0) and a task slot whose entries are unused.
  ghost predicate CanFork(vm: VM, from: int, to: int, n: nat) {
    Sized(vm) && n <= DIRS_PER_TASK && from % DIRS_PER_TASK == 0 && to % DIRS_PER_TASK == 0 &&
    0 <= from < DIRS && DIRS_PER_TASK <= to < DIRS && from != to && (from == 0 ==> n == 1) &&
    forall d :: to <= d < to + n ==> vm.dir[d] == NONE
  }

  predicate HasTable(dir: seq<int>, d: int) { 0 <= d < |dir| && dir[d] != NONE }

  // The n directory entries at `to` have tables where those at `from` had them.
  predicate SameTables(was: seq<int>, dir: seq<int>, from: int, to: int, n: nat) {
    forall d :: to <= d < to + n ==> HasTable(dir, d) == HasTable(was, from + (d - to))
  }

  lemma OneMoreTable(was: seq<int>, before: seq<int>, dir: seq<int>, from: int, to: int, i: nat)
    requires SameTables(was, before, from, to, i) && |was| == |before| == DIRS
    requires 0 <= to && to + i < DIRS && 0 <= from && from + i < DIRS && before[from + i] == was[from + i]
    requires |dir| == DIRS && dir == before[to + i := dir[to + i]]
    requires dir[to + i] == NONE <==> before[from + i] == NONE
    ensures SameTables(was, dir, from, to, i + 1)
  {
    forall d | to <= d < to + i + 1 ensures HasTable(dir, d) == HasTable(was, from + (d - to)) {
      if d < to + i { assert HasTable(before, d) == HasTable(was, from + (d - to)); }
    }
  }

  // Nothing but directory entries [to, to+n) has changed, apart from write permissions.
  ghost predicate OnlyChildChanged(was: VM, vm: VM, to: int, n: nat) {
    Sized(was) && Inv(vm) && vm.held == was.held && vm.reserved == was.reserved &&
    (forall d :: 0 <= d < DIRS && !(to <= d < to + n) ==> vm.dir[d] == was.dir[d]) &&
    (forall d, k :: IsSlot(d, k) && !(to <= d < to + n) ==> WeakerEntry(Entry(was, d, k), Entry(vm, d, k))) &&
    forall p :: InUse(was, p) ==> InUse(vm, p) && vm.pages[p] == was.pages[p]
  }

  // The first i of the n directory entries are copied, the others still unused.
  ghost predicate Copied(was: VM, vm: VM, from: int, to: int, n: nat, i: nat)
    requires Sized(was) && Sized(vm) && CanFork(was, from, to, n)
  {
    (forall d :: to + i <= d < to + n ==> vm.dir[d] == NONE) &&
    forall d, k :: to <= d < to + i && 0 <= k < ENTRIES && d < to + n ==>
      Entry(vm, d, k) == if k < Nr(from) then ReadOnly(Entry(was, from + (d - to), k)) else Absent
  }

  lemma NewTableChangesChildOnly(was: VM, before: VM, vm: VM, to: int, n: nat, i: nat)
    requires Inv(was) && OnlyChildChanged(was, before, to, n) && i < n && 0 <= to && to + n <= DIRS
    requires TableAdded(before, vm, to + i)
    ensures OnlyChildChanged(was, vm, to, n)
  {
  }

  lemma TableIsReady(was: VM, before: VM, vm: VM, from: int, to: int, n: nat, i: nat)
    requires Inv(was) && CanFork(was, from, to, n) && i < n && OnlyChildChanged(was, before, to, n)
    requires Copied(was, before, from, to, n, i) && TableAdded(before, vm, to + i) && before.dir[from + i] != NONE
    ensures 0 <= from + i < DIRS && DIRS_PER_TASK <= to + i < DIRS && from + i != to + i
    ensures (from + i) % DIRS_PER_TASK == (to + i) % DIRS_PER_TASK && (from + i == 0 || DIRS_PER_TASK <= from + i)
    ensures Nr(from) == Nr(from + i) && vm.dir[from + i] != NONE && vm.dir[to + i] != NONE
    ensures forall d, k :: d == to + i && 0 <= k < ENTRIES ==> Entry(vm, d, k) == Absent
  {
    DirsOfFork(from, to, i);
    assert before.dir[to + i] == NONE;
    forall d, k | d == to + i && 0 <= k < ENTRIES ensures Entry(vm, d, k) == Absent { assert IsSlot(d, k); }
  }

  lemma DirsOfFork(from: int, to: int, i: nat)
    requires from % DIRS_PER_TASK == 0 && to % DIRS_PER_TASK == 0 && i < DIRS_PER_TASK
    requires 0 <= from < DIRS && DIRS_PER_TASK <= to < DIRS
    ensures from + i < DIRS && to + i < DIRS && (from + i) % DIRS_PER_TASK == (to + i) % DIRS_PER_TASK == i
    ensures from > 0 ==> from >= DIRS_PER_TASK
  {
  }

  lemma SkippedOne(was: VM, vm: VM, from: int, to: int, n: nat, i: nat)
    requires Inv(was) && CanFork(was, from, to, n) && i < n && OnlyChildChanged(was, vm, to, n) &&
             Copied(was, vm, from, to, n, i)
    requires vm.dir[from + i] == NONE
    ensures Copied(was, vm, from, to, n, i + 1)
  {
    forall d, k | to <= d < to + i + 1 && 0 <= k < ENTRIES
      ensures Entry(vm, d, k) == if k < Nr(from) then ReadOnly(Entry(was, from + (d - to), k)) else Absent
    {
      assert IsSlot(d, k);
    }
  }

  lemma CopiedTableIsCopied(was: VM, before: VM, linked: VM, vm: VM, from: int, to: int, n: nat, i: nat, d: int, k: int)
    requires Inv(was) && CanFork(was, from, to, n) && i < n
    requires OnlyChildChanged(was, before, to, n) && Copied(was, before, from, to, n, i)
    requires TableAdded(before, linked, to + i) && TableCopied(linked, vm, from + i, to + i, Nr(from))
    requires to <= d < to + i + 1 && 0 <= k < ENTRIES
    ensures Entry(vm, d, k) == if k < Nr(from) then ReadOnly(Entry(was, from + (d - to), k)) else Absent
  {
    assert IsSlot(from + i, k) && IsSlot(d, k);
    assert WeakerEntry(Entry(was, from + i, k), Entry(before, from + i, k));
  }

  lemma CopiedOneMore(was: VM, before: VM, linked: VM, vm: VM, from: int, to: int, n: nat, i: nat)
    requires Inv(was) && CanFork(was, from, to, n) && i < n
    requires OnlyChildChanged(was, before, to, n) && Copied(was, before, from, to, n, i)
    requires OnlyChildChanged(was, linked, to, n) && TableAdded(before, linked, to + i)
    requires TableCopied(linked, vm, from + i, to + i, Nr(from))
    ensures OnlyChildChanged(was, vm, to, n) && Copied(was, vm, from, to, n, i + 1)
  {
    forall d, k | to <= d < to + i + 1 && 0 <= k < ENTRIES
      ensures Entry(vm, d, k) == if k < Nr(from) then ReadOnly(Entry(was, from + (d - to), k)) else Absent
    {
      CopiedTableIsCopied(was, before, linked, vm, from, to, n, i, d, k);
    }
    forall d, k | IsSlot(d, k) && !(to <= d < to + n) ensures WeakerEntry(Entry(was, d, k), Entry(vm, d, k)) {
      assert WeakerEntry(Entry(was, d, k), Entry(before, d, k));
    }
  }

  // ---------- When a copy succeeds ----------

  ghost predicate IsFree(vm: VM, p: int)
    requires Sized(vm)
  {
    LOW_PAGES <= p < PHYS_PAGES && vm.memMap[p - LOW_PAGES] == 0
  }

  ghost function FreePages(vm: VM): set<int>
    requires Sized(vm)
  {
    set p | LOW_PAGES <= p < PHYS_PAGES && IsFree(vm, p)
  }

  lemma FullHasNoFreePage(vm: VM)
    requires Sized(vm)
    ensures Full(vm) <==> FreePages(vm) == {}
  {
    if FreePages(vm) == {} {
      forall i | 0 <= i < PAGING_PAGES ensures vm.memMap[i] != 0 { assert i + LOW_PAGES !in FreePages(vm); }
    }
  }

  lemma HoldTakesOne(vm: VM, p: int)
    requires Sized(vm) && IsFree(vm, p)
    ensures Sized(Hold(vm, p)) && |FreePages(vm)| == |FreePages(Hold(vm, p))| + 1
  {
    assert p in FreePages(vm);
    assert FreePages(Hold(vm, p)) == FreePages(vm) - {p};
  }

  // How many of the n directory entries have a table.
  function Tables(dir: seq<int>, from: int, n: nat): nat {
    if n == 0 then 0 else Tables(dir, from, n - 1) + if HasTable(dir, from + n - 1) then 1 else 0
  }

  // The pages of these tables.
  function TablePages(dir: seq<int>, from: int, n: nat): set<int> {
    if n == 0 then {} else
      TablePages(dir, from, n - 1) + if HasTable(dir, from + n - 1) then {dir[from + n - 1]} else {}
  }

  ghost predicate TableWithin(dir: seq<int>, from: int, n: nat, p: int) {
    exists d :: from <= d < from + n && HasTable(dir, d) && dir[d] == p
  }

  lemma {:induction false} TablePagesAre(dir: seq<int>, from: int, n: nat, p: int)
    ensures p in TablePages(dir, from, n) <==> TableWithin(dir, from, n, p)
  {
    if n > 0 {
      TablePagesAre(dir, from, n - 1, p);
      if TableWithin(dir, from, n, p) {
        var d :| from <= d < from + n && HasTable(dir, d) && dir[d] == p;
        if d < from + n - 1 { assert TableWithin(dir, from, n - 1, p); }
      }
      if TableWithin(dir, from, n - 1, p) {
        var d :| from <= d < from + n - 1 && HasTable(dir, d) && dir[d] == p;
        assert TableWithin(dir, from, n, p);
      }
    }
  }

  lemma {:induction false} CountTables(vm: VM, from: int, n: nat)
    requires Sized(vm) && DirsOk(vm) && 0 <= from && from + n <= DIRS
    ensures |TablePages(vm.dir, from, n)| == Tables(vm.dir, from, n)
  {
    if n > 0 {
      CountTables(vm, from, n - 1);
      TablePagesAre(vm.dir, from, n - 1, vm.dir[from + n - 1]);
    }
  }

  lemma {:induction false} SameTablesCount(was: seq<int>, dir: seq<int>, from: int, to: int, n: nat)
    requires SameTables(was, dir, from, to, n)
    ensures Tables(dir, to, n) == Tables(was, from, n)
  {
    if n > 0 {
      SameTablesCount(was, dir, from, to, n - 1);
      assert HasTable(dir, to + n - 1) == HasTable(was, from + n - 1);
    }
  }

  lemma {:induction false} MoreTables(dir: seq<int>, from: int, i: nat, n: nat)
    requires i <= n
    ensures Tables(dir, from, i) <= Tables(dir, from, n)
  {
    if i < n { MoreTables(dir, from, i, n - 1); }
  }

  // A page of main memory is free if nothing of the following uses it.
  lemma FreeMeans(vm: VM, p: int)
    requires Inv(vm) && LOW_PAGES <= p < PHYS_PAGES
    ensures p in FreePages(vm) <==>
              p !in vm.reserved && p !in vm.held && !IsTable(vm, p) &&
              forall d, k :: IsUser(d, k) ==> PageAt(vm, d, k) != p
  {
    assert CountOk(vm, p);
    if Refs(vm, p) != {} {
      var slot :| slot in Refs(vm, p);
      assert IsUser(slot.0, slot.1) && PageAt(vm, slot.0, slot.1) == p;
    } else {
      forall d, k | IsUser(d, k) ensures PageAt(vm, d, k) != p { assert (d, k) !in Refs(vm, p); }
    }
  }

  // The child maps nothing that the parent does not map.
  lemma ChildMapsParentsPages(was: VM, vm: VM, from: int, to: int, n: nat, i: nat, d: int, k: int)
    requires Inv(was) && CanFork(was, from, to, n) && i <= n
    requires OnlyChildChanged(was, vm, to, n) && Copied(was, vm, from, to, n, i)
    requires IsUser(d, k) && to <= d < to + n && PageAt(vm, d, k) >= LOW_PAGES
    ensures from != 0 && IsUser(from + (d - to), k) && PageAt(was, from + (d - to), k) == PageAt(vm, d, k)
  {
    assert vm.dir[d] != NONE;
    assert EntryOk(was, from + (d - to), k);
  }

  lemma PageBeforeAndAfter(was: VM, vm: VM, from: int, to: int, n: nat, i: nat, p: int)
    requires Inv(was) && CanFork(was, from, to, n) && i <= n
    requires OnlyChildChanged(was, vm, to, n) && Copied(was, vm, from, to, n, i)
    requires LOW_PAGES <= p < PHYS_PAGES
    ensures (exists d, k :: IsUser(d, k) && PageAt(was, d, k) == p) <==>
            (exists d, k :: IsUser(d, k) && PageAt(vm, d, k) == p)
  {
    if d, k :| IsUser(d, k) && PageAt(was, d, k) == p {
      assert WeakerEntry(Entry(was, d, k), Entry(vm, d, k));
      assert PageAt(vm, d, k) == p;
    }
    if d, k :| IsUser(d, k) && PageAt(vm, d, k) == p {
      if to <= d < to + n {
        ChildMapsParentsPages(was, vm, from, to, n, i, d, k);
      } else {
        assert WeakerEntry(Entry(was, d, k), Entry(vm, d, k));
        assert PageAt(was, d, k) == p;
      }
    }
  }

  lemma TableBeforeAndAfter(was: VM, vm: VM, to: int, n: nat, p: int)
    requires Inv(was) && OnlyChildChanged(was, vm, to, n) && 0 <= to && to + n <= DIRS
    requires forall d :: to <= d < to + n ==> was.dir[d] == NONE
    requires 0 <= p
    ensures IsTable(vm, p) <==> IsTable(was, p) || p in TablePages(vm.dir, to, n)
    ensures !(IsTable(was, p) && p in TablePages(vm.dir, to, n))
  {
    TablePagesAre(vm.dir, to, n, p);
    if d :| 0 <= d < |was.dir| && was.dir[d] == p { assert vm.dir[d] == p; }
    if d :| 0 <= d < |vm.dir| && vm.dir[d] == p {
      if to <= d < to + n { assert HasTable(vm.dir, d); } else { assert was.dir[d] == p; }
    }
  }

  lemma PageTaken(was: VM, vm: VM, from: int, to: int, n: nat, i: nat, p: int)
    requires Inv(was) && CanFork(was, from, to, n) && i <= n && LOW_PAGES <= p < PHYS_PAGES
    requires OnlyChildChanged(was, vm, to, n) && Copied(was, vm, from, to, n, i)
    ensures p in FreePages(was) <==> p in FreePages(vm) || p in TablePages(vm.dir, to, n)
    ensures !(p in FreePages(vm) && p in TablePages(vm.dir, to, n))
  {
    FreeMeans(was, p);
    FreeMeans(vm, p);
    TableBeforeAndAfter(was, vm, to, n, p);
    PageBeforeAndAfter(was, vm, from, to, n, i, p);
    if IsTable(vm, p) { assert CountOk(vm, p) && forall d, k :: IsUser(d, k) ==> (d, k) !in Refs(vm, p); }
  }

  lemma {:induction false} NoMoreTables(dir: seq<int>, from: int, i: nat, n: nat)
    requires i <= n && forall d :: from + i <= d < from + n ==> !HasTable(dir, d)
    ensures TablePages(dir, from, n) == TablePages(dir, from, i)
  {
    if i < n { NoMoreTables(dir, from, i, n - 1); }
  }

  // What a copy takes are the pages of the new tables.
  lemma CopyTakesTables(was: VM, vm: VM, from: int, to: int, n: nat, i: nat)
    requires Inv(was) && CanFork(was, from, to, n) && i <= n && SameTables(was.dir, vm.dir, from, to, i)
    requires OnlyChildChanged(was, vm, to, n) && Copied(was, vm, from, to, n, i)
    ensures |FreePages(was)| == |FreePages(vm)| + Tables(was.dir, from, i)
  {
    var taken := TablePages(vm.dir, to, n);
    NoMoreTables(vm.dir, to, i, n);
    forall p | p in taken ensures LOW_PAGES <= p < PHYS_PAGES { TablePagesAre(vm.dir, to, n, p); }
    forall p: int | LOW_PAGES <= p < PHYS_PAGES
      ensures (p in FreePages(was) <==> p in FreePages(vm) || p in taken) && !(p in FreePages(vm) && p in taken)
    {
      PageTaken(was, vm, from, to, n, i, p);
    }
    assert FreePages(was) == FreePages(vm) + taken && FreePages(vm) !! taken;
    CountTables(vm, to, i);
    SameTablesCount(was.dir, vm.dir, from, to, i);
  }

  ghost predicate CopiedSoFar(was: VM, vm: VM, from: int, to: int, n: nat, i: nat)
    requires Sized(was) && Sized(vm) && CanFork(was, from, to, n)
  {
    Copied(was, vm, from, to, n, i) && SameTables(was.dir, vm.dir, from, to, i)
  }

  ghost predicate RanOutOfPages(was: VM, vm: VM, from: int, n: nat)
    requires Sized(was)
  {
    Full(vm) && |FreePages(was)| < Tables(was.dir, from, n)
  }

  lemma TooFewPages(was: VM, vm: VM, from: int, to: int, n: nat, i: nat)
    requires Inv(was) && CanFork(was, from, to, n) && i < n && SameTables(was.dir, vm.dir, from, to, i)
    requires OnlyChildChanged(was, vm, to, n) && Copied(was, vm, from, to, n, i)
    requires Full(vm) && was.dir[from + i] != NONE
    ensures |FreePages(was)| < Tables(was.dir, from, n)
  {
    CopyTakesTables(was, vm, from, to, n, i);
    FullHasNoFreePage(vm);
    MoreTables(was.dir, from, i + 1, n);
  }
}
