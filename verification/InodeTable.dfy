module InodeTable {
  // The inode table (fs/inode.c): iget, iput and get_empty_inode of any number of
  // processes, interleaved at the points where they sleep.

  import opened Counting

  const NR_INODE := 32
  const ROOT_INO := 1
  const NONE := -1

  // The fields of struct m_inode that decide what happens to an entry.
  datatype Entry = Entry(dev: int, num: int, count: int, lock: bool, dirt: bool, mount: bool, nlinks: int)

  const ZERO := Entry(0, 0, 0, false, false, false, 0)

  // ---------- Activities ----------

  // What happens after iput of an inode.
  datatype Then =
    | Finish
    | Return(e: int, dev: int, nr: int)          // iget returns e
    | Rescan(dev: int, nr: int, empty: int)      // iget goes on in the mounted file system

  // One call of iget, up to the release of the reference it returned: where it sleeps, or
  // is about to run on.
  datatype Act =
    | Gone
    | Picking(dev: int, nr: int, e: int)             // get_empty_inode waits for entry e
    | PickWriting(dev: int, nr: int, e: int)         // ... and writes it back
    | Scanning(dev: int, nr: int, empty: int)        // iget searches the table
    | Matched(dev: int, nr: int, empty: int, e: int) // ... and waits for the entry found
    | Reading(e: int, dev: int, nr: int)             // read_inode
    | Holding(e: int, dev: int, nr: int)             // the caller uses the inode
    | Putting(e: int, k: Then)                       // iput waits
    | PutWriting(e: int, k: Then)                    // ... and writes the inode back
    | Freeing(e: int, k: Then)                       // ... and truncates it

  function Entries(k: Then): set<int> {
    match k
    case Finish => {}
    case Return(e, _, _) => {e}
    case Rescan(_, _, empty) => {empty}
  }

  // The entries on which an activity has a reference.
  function Refs(a: Act): set<int> {
    match a
    case Scanning(_, _, empty) => {empty}
    case Matched(_, _, empty, _) => {empty}
    case Reading(e, _, _) => {e}
    case Holding(e, _, _) => {e}
    case Putting(e, k) => {e} + Entries(k)
    case PutWriting(e, k) => {e} + Entries(k)
    case Freeing(e, k) => {e} + Entries(k)
    case _ => {}
  }

  // The entry an activity keeps in reserve for a new inode.
  function Spare(a: Act): int {
    match a
    case Scanning(_, _, empty) => empty
    case Matched(_, _, empty, _) => empty
    case Putting(_, k) => if k.Rescan? then k.empty else NONE
    case PutWriting(_, k) => if k.Rescan? then k.empty else NONE
    case Freeing(_, k) => if k.Rescan? then k.empty else NONE
    case _ => NONE
  }

  // The inode an activity has been promised, if any.
  function Named(a: Act): (int, int, int) {
    match a
    case Reading(e, dev, nr) => (e, dev, nr)
    case Holding(e, dev, nr) => (e, dev, nr)
    case Putting(_, k) => if k.Return? then (k.e, k.dev, k.nr) else (NONE, 0, 0)
    case PutWriting(_, k) => if k.Return? then (k.e, k.dev, k.nr) else (NONE, 0, 0)
    case Freeing(_, k) => if k.Return? then (k.e, k.dev, k.nr) else (NONE, 0, 0)
    case _ => (NONE, 0, 0)
  }

  function Goal(a: Act): int {
    match a
    case Picking(dev, _, _) => dev
    case PickWriting(dev, _, _) => dev
    case Scanning(dev, _, _) => dev
    case Matched(dev, _, _, _) => dev
    case Putting(_, k) => if k.Rescan? then k.dev else 1
    case PutWriting(_, k) => if k.Rescan? then k.dev else 1
    case Freeing(_, k) => if k.Rescan? then k.dev else 1
    case _ => 1
  }

  // ---------- The invariant ----------

  // `users[e]` are the activities with a reference on entry e.
  datatype Table = Table(entries: seq<Entry>, acts: seq<Act>, users: seq<set<int>>)

  predicate IsEntry(e: int) { 0 <= e < NR_INODE }

  predicate Same(a: Entry, b: Entry) { a.dev == b.dev && a.num == b.num }

  // No inode of a device is in the table twice.
  ghost predicate Unique(t: Table) {
    forall i, j :: 0 <= i < j < |t.entries| && t.entries[i].dev != 0 ==> !Same(t.entries[i], t.entries[j])
  }

  ghost predicate UsersOk(t: Table, e: int)
    requires |t.entries| == |t.users| == NR_INODE && IsEntry(e)
  {
    t.entries[e].count == |t.users[e]| && forall p :: p in t.users[e] <==> 0 <= p < |t.acts| && e in Refs(t.acts[p])
  }

  ghost predicate ActOk(t: Table, p: int)
    requires |t.entries| == |t.users| == NR_INODE && 0 <= p < |t.acts|
  {
    var a := t.acts[p];
    Goal(a) != 0 && (forall e :: e in Refs(a) ==> IsEntry(e)) &&
    (a.Picking? || a.PickWriting? || a.Matched? ==> IsEntry(a.e)) &&
    (Spare(a) != NONE ==> IsEntry(Spare(a)) && t.entries[Spare(a)].dev == 0 && t.users[Spare(a)] == {p}) &&
    (var (e, dev, nr) := Named(a);
     e != NONE ==> IsEntry(e) && dev != 0 && t.entries[e].dev == dev && t.entries[e].num == nr) &&
    (a.Putting? || a.PutWriting? || a.Freeing? ==> a.e !in Entries(a.k) && (a.Freeing? ==> t.entries[a.e].dev != 0))
  }

  ghost predicate Inv(t: Table) {
    |t.entries| == |t.users| == NR_INODE && Unique(t) &&
    (forall e :: IsEntry(e) ==> UsersOk(t, e)) && forall p :: 0 <= p < |t.acts| ==> ActOk(t, p)
  }

  // ---------- Steps ----------

  datatype Op =
    | Iget(dev: int, nr: int, e: int)     // a new call; get_empty_inode looks at e first
    | Repick(p: int, e: int)              // e was taken meanwhile
    | PickWrite(p: int) | PickWritten(p: int)
    | Claim(p: int)
    | Scan(p: int)
    | Recheck(p: int, mounted: int)       // the device mounted there, if it is a mount point
    | ReadDone(p: int, nlinks: int)
    | Touch(p: int, nlinks: int, mount: bool)
    | Put(p: int)
    | PutStep(p: int) | PutWritten(p: int)
    | Free(p: int)
    | Lock(e: int) | Unlock(e: int)       // somebody else writes the inode back

  // An entry for (dev, nr), or NONE.
  ghost predicate Match(entries: seq<Entry>, dev: int, nr: int, m: int) {
    if m == NONE then forall i :: 0 <= i < |entries| ==> !(entries[i].dev == dev && entries[i].num == nr)
    else 0 <= m < |entries| && entries[m].dev == dev && entries[m].num == nr
  }

  function SetEntry(t: Table, e: int, v: Entry): Table
    requires |t.entries| == NR_INODE && IsEntry(e)
  {
    t.(entries := t.entries[e := v])
  }

  function SetAct(t: Table, p: int, a: Act): Table
    requires 0 <= p < |t.acts|
  {
    t.(acts := t.acts[p := a])
  }

  // count++ and count-- by activity p
  function Hold(t: Table, e: int, p: int): Table
    requires |t.entries| == |t.users| == NR_INODE && IsEntry(e)
  {
    t.(entries := t.entries[e := t.entries[e].(count := t.entries[e].count + 1)],
      users := t.users[e := t.users[e] + {p}])
  }

  function Drop(t: Table, e: int, p: int): Table
    requires |t.entries| == |t.users| == NR_INODE && IsEntry(e)
  {
    t.(entries := t.entries[e := t.entries[e].(count := t.entries[e].count - 1)],
      users := t.users[e := t.users[e] - {p}])
  }

  function Resume(k: Then): Act {
    match k
    case Finish => Gone
    case Return(e, dev, nr) => Holding(e, dev, nr)
    case Rescan(dev, nr, empty) => Scanning(dev, nr, empty)
  }

  function SetLock(t: Table, e: int, lock: bool, dirt: bool): Table
    requires |t.entries| == NR_INODE && IsEntry(e)
  {
    SetEntry(t, e, t.entries[e].(lock := lock, dirt := dirt))
  }

  ghost predicate IgetStep(t: Table, op: Op, t': Table)
    requires Inv(t) && op.Iget?
  {
    op.dev != 0 && IsEntry(op.e) && t.entries[op.e].count == 0 &&
    t' == t.(acts := t.acts + [Picking(op.dev, op.nr, op.e)])
  }

  // get_empty_inode after a wait.
  ghost predicate PickStep(t: Table, op: Op, t': Table)
    requires Inv(t) && (op.Repick? || op.PickWrite? || op.Claim?)
  {
    0 <= op.p < |t.acts| && t.acts[op.p].Picking? && ActOk(t, op.p) &&
    var a := t.acts[op.p];
    var v := t.entries[a.e];
    !v.lock &&
    if op.PickWrite? then
      v.dirt && t' == SetAct(SetLock(t, a.e, true, true), op.p, PickWriting(a.dev, a.nr, a.e))
    else if op.Repick? then
      !v.dirt && v.count != 0 && IsEntry(op.e) && t.entries[op.e].count == 0 &&
      t' == SetAct(t, op.p, Picking(a.dev, a.nr, op.e))
    else
      !v.dirt && v.count == 0 && t' == SetAct(Hold(SetEntry(t, a.e, ZERO), a.e, op.p), op.p, Scanning(a.dev, a.nr, a.e))
  }

  // One pass of iget over the table.
  ghost predicate ScanStep(t: Table, p: int, t': Table)
    requires Inv(t)
  {
    0 <= p < |t.acts| && t.acts[p].Scanning? && ActOk(t, p) &&
    var Scanning(dev, nr, empty) := t.acts[p];
    exists m :: Match(t.entries, dev, nr, m) &&
      t' == if m != NONE then SetAct(t, p, Matched(dev, nr, empty, m))
            else
              SetAct(SetEntry(t, empty, t.entries[empty].(dev := dev, num := nr, lock := true)), p,
                Reading(empty, dev, nr))
  }

  // iget after wait_on_inode.
  ghost predicate RecheckStep(t: Table, p: int, mounted: int, t': Table)
    requires Inv(t)
  {
    0 <= p < |t.acts| && t.acts[p].Matched? && ActOk(t, p) &&
    var Matched(dev, nr, empty, e) := t.acts[p];
    !t.entries[e].lock &&
    if t.entries[e].dev != dev || t.entries[e].num != nr then t' == SetAct(t, p, Scanning(dev, nr, empty))
    else if t.entries[e].mount && mounted != 0 then
      t' == SetAct(Hold(t, e, p), p, Putting(e, Rescan(mounted, ROOT_INO, empty)))
    else t' == SetAct(Hold(t, e, p), p, Putting(empty, Return(e, dev, nr)))
  }

  // iput after a wait.
  ghost predicate PutStepOk(t: Table, p: int, t': Table)
    requires Inv(t)
  {
    0 <= p < |t.acts| && t.acts[p].Putting? && ActOk(t, p) &&
    var Putting(e, k) := t.acts[p];
    var v := t.entries[e];
    assert e in Refs(t.acts[p]);
    !v.lock &&
    if v.dev == 0 || v.count > 1 then t' == SetAct(Drop(t, e, p), p, Resume(k))
    else if v.nlinks == 0 then t' == SetAct(t, p, Freeing(e, k))
    else if v.dirt then t' == SetAct(SetLock(t, e, true, true), p, PutWriting(e, k))
    else t' == SetAct(Drop(t, e, p), p, Resume(k))
  }

  // iput after write_inode.
  ghost predicate PutWrittenStep(t: Table, p: int, t': Table)
    requires Inv(t)
  {
    0 <= p < |t.acts| && t.acts[p].PutWriting? && ActOk(t, p) &&
    var PutWriting(e, k) := t.acts[p];
    assert e in Refs(t.acts[p]);
    t' == SetAct(SetLock(t, e, false, false), p, Putting(e, k))
  }

  // free_inode, which panics unless it has the only reference and nothing links to it.
  ghost predicate FreeStep(t: Table, p: int, t': Table)
    requires Inv(t)
  {
    0 <= p < |t.acts| && t.acts[p].Freeing? && ActOk(t, p) &&
    var Freeing(e, k) := t.acts[p];
    assert e in Refs(t.acts[p]);
    t.entries[e].count <= 1 && t.entries[e].nlinks == 0 &&
    t' == SetAct(Drop(SetEntry(t, e, ZERO.(count := 1)), e, p), p, Resume(k))
  }

  ghost predicate Step(t: Table, op: Op, t': Table)
    requires Inv(t)
  {
    match op
    case Iget(_, _, _) => IgetStep(t, op, t')
    case Repick(_, _) => PickStep(t, op, t')
    case PickWrite(_) => PickStep(t, op, t')
    case Claim(_) => PickStep(t, op, t')
    case PickWritten(p) =>
      0 <= p < |t.acts| && t.acts[p].PickWriting? && ActOk(t, p) &&
      t' == SetAct(SetLock(t, t.acts[p].e, false, false), p, Picking(t.acts[p].dev, t.acts[p].nr, t.acts[p].e))
    case Scan(p) => ScanStep(t, p, t')
    case Recheck(p, mounted) => RecheckStep(t, p, mounted, t')
    case ReadDone(p, nlinks) =>
      0 <= p < |t.acts| && t.acts[p].Reading? && ActOk(t, p) &&
      var Reading(e, dev, nr) := t.acts[p];
      t' == SetAct(SetEntry(t, e, t.entries[e].(lock := false, nlinks := nlinks)), p, Holding(e, dev, nr))
    case Touch(p, nlinks, mount) =>
      0 <= p < |t.acts| && t.acts[p].Holding? && ActOk(t, p) &&
      t' == SetEntry(t, t.acts[p].e, t.entries[t.acts[p].e].(dirt := true, nlinks := nlinks, mount := mount))
    case Put(p) =>
      0 <= p < |t.acts| && t.acts[p].Holding? && t' == SetAct(t, p, Putting(t.acts[p].e, Finish))
    case PutStep(p) => PutStepOk(t, p, t')
    case PutWritten(p) => PutWrittenStep(t, p, t')
    case Free(p) => FreeStep(t, p, t')
    case Lock(e) => IsEntry(e) && !t.entries[e].lock && t' == SetLock(t, e, true, t.entries[e].dirt)
    case Unlock(e) => IsEntry(e) && t' == SetLock(t, e, false, false)
  }

  // ---------- The invariant is kept ----------

  // Activity p has the references of a instead of those of old.
  ghost predicate UserMove(t: Table, t': Table, p: int, was: Act, a: Act, e: int)
    requires |t.entries| == |t.users| == |t'.entries| == |t'.users| == NR_INODE && IsEntry(e)
  {
    t'.users[e] == (if e in Refs(a) then t.users[e] + {p} else t.users[e] - {p}) &&
    t'.entries[e].count == t.entries[e].count + (if e in Refs(a) then 1 else 0) - (if e in Refs(was) then 1 else 0)
  }

  // What makes a step of activity p harmless: entries used by others keep their inode,
  // and it takes references only on unused entries or entries with an inode.
  ghost predicate Harmless(t: Table, t': Table, p: int, a: Act)
    requires Inv(t) && 0 <= p < |t.acts|
  {
    |t'.entries| == |t'.users| == NR_INODE && t'.acts == t.acts[p := a] &&
    (forall e :: IsEntry(e) ==> UserMove(t, t', p, t.acts[p], a, e)) &&
    (forall e :: IsEntry(e) && t.users[e] - {p} != {} ==> Same(t.entries[e], t'.entries[e])) &&
    forall e :: IsEntry(e) && e in Refs(a) && e !in Refs(t.acts[p]) ==> t.users[e] == {} || t.entries[e].dev != 0
  }

  lemma HarmlessKeepsUsers(t: Table, t': Table, p: int, a: Act, e: int)
    requires Inv(t) && 0 <= p < |t.acts| && Harmless(t, t', p, a) && IsEntry(e)
    ensures UsersOk(t', e)
  {
    assert UsersOk(t, e) && UserMove(t, t', p, t.acts[p], a, e);
    assert p in t.users[e] <==> e in Refs(t.acts[p]);
  }

  lemma OthersEntryKept(t: Table, t': Table, p: int, a: Act, q: int, e: int)
    requires Inv(t) && 0 <= p < |t.acts| && Harmless(t, t', p, a) && 0 <= q < |t.acts| && q != p
    requires e in Refs(t.acts[q])
    ensures IsEntry(e) && Same(t.entries[e], t'.entries[e])
  {
    assert ActOk(t, q);
    assert UsersOk(t, e) && q in t.users[e] - {p};
  }

  lemma OthersSpareKept(t: Table, t': Table, p: int, a: Act, q: int)
    requires Inv(t) && 0 <= p < |t.acts| && Harmless(t, t', p, a) && 0 <= q < |t.acts| && q != p
    requires Spare(t.acts[q]) != NONE
    ensures IsEntry(Spare(t.acts[q])) && t'.users[Spare(t.acts[q])] == {q}
  {
    assert ActOk(t, q);
    var e := Spare(t.acts[q]);
    assert UserMove(t, t', p, t.acts[p], a, e) && UsersOk(t, e);
    assert p !in t.users[e];
  }

  lemma HarmlessKeepsAct(t: Table, t': Table, p: int, a: Act, q: int)
    requires Inv(t) && 0 <= p < |t.acts| && Harmless(t, t', p, a) && 0 <= q < |t.acts| && q != p
    ensures ActOk(t', q)
  {
    assert ActOk(t, q);
    var b := t.acts[q];
    if Named(b).0 != NONE { OthersEntryKept(t, t', p, a, q, Named(b).0); }
    if b.Freeing? { OthersEntryKept(t, t', p, a, q, b.e); }
    if Spare(b) != NONE {
      OthersEntryKept(t, t', p, a, q, Spare(b));
      OthersSpareKept(t, t', p, a, q);
    }
  }

  lemma HarmlessKeepsInv(t: Table, t': Table, p: int, a: Act)
    requires Inv(t) && 0 <= p < |t.acts| && Harmless(t, t', p, a) && ActOk(t', p) && Unique(t')
    ensures Inv(t')
  {
    forall e | IsEntry(e) ensures UsersOk(t', e) { HarmlessKeepsUsers(t, t', p, a, e); }
    forall q | 0 <= q < |t'.acts| ensures ActOk(t', q) {
      if q != p { HarmlessKeepsAct(t, t', p, a, q); }
    }
  }

  // At most entry c gets another inode, one that is not in the table.
  lemma OneChangeKeepsUnique(t: Table, t': Table, c: int)
    requires |t.entries| == |t'.entries| == NR_INODE && Unique(t)
    requires forall e :: IsEntry(e) && e != c ==> Same(t.entries[e], t'.entries[e])
    requires IsEntry(c) && t'.entries[c].dev != 0 ==>
               forall e :: IsEntry(e) && e != c ==> !Same(t.entries[e], t'.entries[c])
    ensures Unique(t')
  {
    forall i, j | 0 <= i < j < NR_INODE && t'.entries[i].dev != 0 ensures !Same(t'.entries[i], t'.entries[j]) {
      if i != c && j != c { assert !Same(t.entries[i], t.entries[j]); }
    }
  }

  // Nothing changes but the activity, locks, dirt and the like.
  ghost predicate Relabelled(t: Table, t': Table, p: int, a: Act)
    requires Inv(t) && 0 <= p < |t.acts|
  {
    |t'.entries| == NR_INODE && t'.users == t.users && t'.acts == t.acts[p := a] && Refs(a) == Refs(t.acts[p]) &&
    forall e :: IsEntry(e) ==> Same(t.entries[e], t'.entries[e]) && t'.entries[e].count == t.entries[e].count
  }

  lemma RelabelKeepsInv(t: Table, t': Table, p: int, a: Act)
    requires Inv(t) && 0 <= p < |t.acts| && Relabelled(t, t', p, a) && ActOk(t', p)
    ensures Inv(t')
  {
    forall e | IsEntry(e) ensures UserMove(t, t', p, t.acts[p], a, e) {
      assert UsersOk(t, e);
    }
    OneChangeKeepsUnique(t, t', NONE);
    HarmlessKeepsInv(t, t', p, a);
  }

  lemma HoldIsHarmless(t: Table, t': Table, p: int, e: int, a: Act)
    requires Inv(t) && 0 <= p < |t.acts| && IsEntry(e) && t' == SetAct(Hold(t, e, p), p, a)
    requires Refs(a) == Refs(t.acts[p]) + {e} && e !in Refs(t.acts[p]) && t.entries[e].dev != 0
    ensures Harmless(t, t', p, a)
  {
    forall x | IsEntry(x) ensures UserMove(t, t', p, t.acts[p], a, x) && Same(t.entries[x], t'.entries[x]) {
      assert UsersOk(t, x);
    }
  }

  lemma HoldKeepsInv(t: Table, t': Table, p: int, e: int, a: Act)
    requires Inv(t) && 0 <= p < |t.acts| && IsEntry(e) && t' == SetAct(Hold(t, e, p), p, a) && ActOk(t', p)
    requires Refs(a) == Refs(t.acts[p]) + {e} && e !in Refs(t.acts[p]) && t.entries[e].dev != 0
    ensures Inv(t')
  {
    HoldIsHarmless(t, t', p, e, a);
    assert forall x :: IsEntry(x) ==> Same(t.entries[x], t'.entries[x]);
    OneChangeKeepsUnique(t, t', NONE);
    HarmlessKeepsInv(t, t', p, a);
  }

  lemma DropIsHarmless(t: Table, t': Table, p: int, e: int, a: Act)
    requires Inv(t) && 0 <= p < |t.acts| && IsEntry(e) && t' == SetAct(Drop(t, e, p), p, a)
    requires Refs(a) == Refs(t.acts[p]) - {e} && e in Refs(t.acts[p])
    ensures Harmless(t, t', p, a)
  {
    forall x | IsEntry(x) ensures UserMove(t, t', p, t.acts[p], a, x) {
      assert UsersOk(t, x);
    }
  }

  lemma DropKeepsInv(t: Table, t': Table, p: int, e: int, a: Act)
    requires Inv(t) && 0 <= p < |t.acts| && IsEntry(e) && t' == SetAct(Drop(t, e, p), p, a) && ActOk(t', p)
    requires Refs(a) == Refs(t.acts[p]) - {e} && e in Refs(t.acts[p])
    ensures Inv(t')
  {
    DropIsHarmless(t, t', p, e, a);
    OneChangeKeepsUnique(t, t', NONE);
    HarmlessKeepsInv(t, t', p, a);
  }

  // An unreferenced entry is wiped and claimed.
  lemma ClaimKeepsInv(t: Table, t': Table, p: int, e: int, dev: int, nr: int)
    requires Inv(t) && 0 <= p < |t.acts| && IsEntry(e) && t.entries[e].count == 0 && Refs(t.acts[p]) == {} && dev != 0
    requires t' == SetAct(Hold(SetEntry(t, e, ZERO), e, p), p, Scanning(dev, nr, e))
    ensures Inv(t')
  {
    assert UsersOk(t, e) && t.users[e] == {};
    var a := Scanning(dev, nr, e);
    forall x | IsEntry(x) ensures UserMove(t, t', p, t.acts[p], a, x) {
      assert UsersOk(t, x);
    }
    OneChangeKeepsUnique(t, t', e);
    HarmlessKeepsInv(t, t', p, a);
  }

  // The spare entry becomes the inode that the scan has not found.
  lemma NameKeepsInv(t: Table, t': Table, p: int, dev: int, nr: int, e: int)
    requires Inv(t) && 0 <= p < |t.acts| && t.acts[p] == Scanning(dev, nr, e) && ActOk(t, p) &&
             Match(t.entries, dev, nr, NONE)
    requires t' == SetAct(SetEntry(t, e, t.entries[e].(dev := dev, num := nr, lock := true)), p, Reading(e, dev, nr))
    ensures Inv(t')
  {
    var a := Reading(e, dev, nr);
    forall x | IsEntry(x) ensures UserMove(t, t', p, t.acts[p], a, x) {
      assert UsersOk(t, x);
    }
    OneChangeKeepsUnique(t, t', e);
    assert t.users[e] - {p} == {};
    HarmlessKeepsInv(t, t', p, a);
  }

  lemma ResumeIsOk(t: Table, t': Table, p: int, e: int, k: Then)
    requires Inv(t) && 0 <= p < |t.acts| && t.acts[p] == Freeing(e, k) && ActOk(t, p) && IsEntry(e)
    requires t' == SetAct(Drop(SetEntry(t, e, ZERO.(count := 1)), e, p), p, Resume(k))
    ensures ActOk(t', p)
  {
  }

  lemma ResumeRefs(e: int, k: Then)
    requires e !in Entries(k)
    ensures Refs(Resume(k)) == Refs(Freeing(e, k)) - {e} == Entries(k)
  {
  }

  lemma WipeIsHarmless(t: Table, t': Table, p: int, e: int, k: Then)
    requires Inv(t) && 0 <= p < |t.acts| && t.acts[p] == Freeing(e, k) && IsEntry(e) && e !in Entries(k)
    requires t.users[e] == {p} && t.entries[e].count == 1
    requires t' == SetAct(Drop(SetEntry(t, e, ZERO.(count := 1)), e, p), p, Resume(k))
    ensures Harmless(t, t', p, Resume(k))
  {
    ResumeRefs(e, k);
    forall x | IsEntry(x)
      ensures UserMove(t, t', p, t.acts[p], Resume(k), x) && (x != e ==> Same(t.entries[x], t'.entries[x]))
    {
      assert UsersOk(t, x);
    }
    assert t.users[e] - {p} == {};
  }

  // free_inode wipes an entry that only this activity uses.
  lemma WipeKeepsInv(t: Table, t': Table, p: int, e: int, k: Then)
    requires Inv(t) && 0 <= p < |t.acts| && t.acts[p] == Freeing(e, k) && ActOk(t, p) && IsEntry(e) &&
             t.entries[e].count <= 1
    requires t' == SetAct(Drop(SetEntry(t, e, ZERO.(count := 1)), e, p), p, Resume(k))
    ensures Inv(t')
  {
    assert e in Refs(t.acts[p]) && UsersOk(t, e) && p in t.users[e];
    SubsetSize({p}, t.users[e]);
    WipeIsHarmless(t, t', p, e, k);
    OneChangeKeepsUnique(t, t', e);
    ResumeIsOk(t, t', p, e, k);
    HarmlessKeepsInv(t, t', p, Resume(k));
  }

  lemma PickKeepsInv(t: Table, op: Op, t': Table)
    requires Inv(t) && (op.Repick? || op.PickWrite? || op.Claim?) && PickStep(t, op, t')
    ensures Inv(t')
  {
    var a := t.acts[op.p];
    if op.Claim? { ClaimKeepsInv(t, t', op.p, a.e, a.dev, a.nr); } else { RelabelKeepsInv(t, t', op.p, t'.acts[op.p]); }
  }

  lemma ScanKeepsInv(t: Table, p: int, t': Table)
    requires Inv(t) && ScanStep(t, p, t')
    ensures Inv(t')
  {
    var Scanning(dev, nr, empty) := t.acts[p];
    if t'.acts[p].Reading? { NameKeepsInv(t, t', p, dev, nr, empty); } else { RelabelKeepsInv(t, t', p, t'.acts[p]); }
  }

  // The entry was given to another inode meanwhile.
  lemma RescanKeepsInv(t: Table, p: int, mounted: int, t': Table)
    requires Inv(t) && RecheckStep(t, p, mounted, t') && t'.acts[p].Scanning?
    ensures Inv(t')
  {
    assert ActOk(t, p);
    RelabelKeepsInv(t, t', p, t'.acts[p]);
  }

  lemma MatchKeepsInv(t: Table, p: int, mounted: int, t': Table)
    requires Inv(t) && RecheckStep(t, p, mounted, t') && !t'.acts[p].Scanning?
    ensures Inv(t')
  {
    assert ActOk(t, p) && t.acts[p].e != t.acts[p].empty;
    HoldKeepsInv(t, t', p, t.acts[p].e, t'.acts[p]);
  }

  lemma RecheckKeepsInv(t: Table, p: int, mounted: int, t': Table)
    requires Inv(t) && RecheckStep(t, p, mounted, t')
    ensures Inv(t')
  {
    if t'.acts[p].Scanning? {
      RescanKeepsInv(t, p, mounted, t');
    } else {
      MatchKeepsInv(t, p, mounted, t');
    }
  }

  lemma PutKeepsInv(t: Table, p: int, t': Table)
    requires Inv(t) && PutStepOk(t, p, t')
    ensures Inv(t')
  {
    assert ActOk(t, p);
    var Putting(e, k) := t.acts[p];
    if t'.acts[p].Freeing? || t'.acts[p].PutWriting? {
      RelabelKeepsInv(t, t', p, t'.acts[p]);
    } else {
      DropKeepsInv(t, t', p, e, Resume(k));
    }
  }

  lemma FreeKeepsInv(t: Table, p: int, t': Table)
    requires Inv(t) && FreeStep(t, p, t')
    ensures Inv(t')
  {
    assert ActOk(t, p);
    WipeKeepsInv(t, t', p, t.acts[p].e, t.acts[p].k);
  }

  lemma IgetKeepsInv(t: Table, op: Op, t': Table)
    requires Inv(t) && op.Iget? && IgetStep(t, op, t')
    ensures Inv(t')
  {
    forall e | IsEntry(e) ensures UsersOk(t', e) { assert UsersOk(t, e); }
    forall q | 0 <= q < |t'.acts| ensures ActOk(t', q) {
      if q < |t.acts| { assert ActOk(t, q); }
    }
  }

  // Locks, dirt, link counts and mount flags do not matter.
  lemma FlagsKeepInv(t: Table, t': Table)
    requires Inv(t) && |t'.entries| == NR_INODE && t'.users == t.users && t'.acts == t.acts
    requires forall e :: IsEntry(e) ==> Same(t.entries[e], t'.entries[e]) && t'.entries[e].count == t.entries[e].count
    ensures Inv(t')
  {
    OneChangeKeepsUnique(t, t', NONE);
    forall e | IsEntry(e) ensures UsersOk(t', e) { assert UsersOk(t, e); }
    forall q | 0 <= q < |t'.acts| ensures ActOk(t', q) { assert ActOk(t, q); }
  }

  lemma PickWrittenKeepsInv(t: Table, p: int, t': Table)
    requires Inv(t) && Step(t, PickWritten(p), t')
    ensures Inv(t')
  {
    assert ActOk(t, p);
    RelabelKeepsInv(t, t', p, t'.acts[p]);
  }

  lemma ReadDoneKeepsInv(t: Table, p: int, nlinks: int, t': Table)
    requires Inv(t) && Step(t, ReadDone(p, nlinks), t')
    ensures Inv(t')
  {
    assert ActOk(t, p);
    RelabelKeepsInv(t, t', p, t'.acts[p]);
  }

  lemma PutCallKeepsInv(t: Table, p: int, t': Table)
    requires Inv(t) && Step(t, Put(p), t')
    ensures Inv(t')
  {
    assert ActOk(t, p);
    RelabelKeepsInv(t, t', p, t'.acts[p]);
  }

  lemma PutWrittenRelabels(t: Table, p: int, t': Table)
    requires Inv(t) && PutWrittenStep(t, p, t')
    ensures Relabelled(t, t', p, Putting(t.acts[p].e, t.acts[p].k))
  {
    assert ActOk(t, p) && t.acts[p].e in Refs(t.acts[p]);
  }

  lemma PutWrittenKeepsInv(t: Table, p: int, t': Table)
    requires Inv(t) && PutWrittenStep(t, p, t')
    ensures Inv(t')
  {
    PutWrittenRelabels(t, p, t');
    assert ActOk(t, p);
    RelabelKeepsInv(t, t', p, Putting(t.acts[p].e, t.acts[p].k));
  }

  lemma StepKeepsInv(t: Table, op: Op, t': Table)
    requires Inv(t) && Step(t, op, t')
    ensures Inv(t')
  {
    match op
    case Iget(_, _, _) => IgetKeepsInv(t, op, t');
    case Repick(_, _) => PickKeepsInv(t, op, t');
    case PickWrite(_) => PickKeepsInv(t, op, t');
    case Claim(_) => PickKeepsInv(t, op, t');
    case PickWritten(p) => PickWrittenKeepsInv(t, p, t');
    case Scan(p) => ScanKeepsInv(t, p, t');
    case Recheck(p, mounted) => RecheckKeepsInv(t, p, mounted, t');
    case ReadDone(p, nlinks) => ReadDoneKeepsInv(t, p, nlinks, t');
    case Touch(_, _, _) => FlagsKeepInv(t, t');
    case Put(p) => PutCallKeepsInv(t, p, t');
    case PutStep(p) => PutKeepsInv(t, p, t');
    case PutWritten(p) => PutWrittenKeepsInv(t, p, t');
    case Free(p) => FreeKeepsInv(t, p, t');
    case Lock(_) => FlagsKeepInv(t, t');
    case Unlock(_) => FlagsKeepInv(t, t');
  }

  // ---------- Whole runs ----------

  // `Step` speaks of tables that satisfy the invariant; `RunKeepsInv` shows that all
  // tables of a run do.
  ghost predicate IsRun(ts: seq<Table>, ops: seq<Op>) {
    |ts| == |ops| + 1 && forall j :: 0 <= j < |ops| && Inv(ts[j]) ==> Step(ts[j], ops[j], ts[j + 1])
  }

  // The table at boot, before any call.
  predicate Boot(t: Table) {
    t.entries == seq(NR_INODE, i => ZERO) && t.acts == [] && t.users == seq(NR_INODE, i => {})
  }

  lemma BootIsInv(t: Table)
    requires Boot(t)
    ensures Inv(t)
  {
    forall e | IsEntry(e) ensures UsersOk(t, e) {}
  }

  lemma {:induction false} RunKeepsInv(ts: seq<Table>, ops: seq<Op>, n: nat)
    requires IsRun(ts, ops) && Inv(ts[0]) && n <= |ops|
    ensures Inv(ts[n])
  {
    if n > 0 {
      RunKeepsInv(ts, ops, n - 1);
      StepKeepsInv(ts[n - 1], ops[n - 1], ts[n]);
    }
  }

  // Does call p, which wants inode w, now find a file system mounted on it?
  ghost predicate Crosses(t: Table, op: Op, p: int, w: (int, int))
    requires Inv(t) && 0 <= p < |t.acts|
  {
    op.Recheck? && op.p == p && op.mounted != 0 && t.acts[p].Matched? &&
    (assert ActOk(t, p);
     var v := t.entries[t.acts[p].e];
     v.dev == w.0 && v.num == w.1 && v.mount)
  }

  // The inode that call p was asked for, or the root of the last file system mounted on
  // the way there.
  ghost function Wanted(ts: seq<Table>, ops: seq<Op>, n: nat, p: int): (int, int)
    requires IsRun(ts, ops) && Boot(ts[0]) && n <= |ops| && 0 <= p < |ts[n].acts|
  {
    BootIsInv(ts[0]);
    RunKeepsInv(ts, ops, n - 1);
    if p >= |ts[n - 1].acts| then
      assert Step(ts[n - 1], ops[n - 1], ts[n]);
      NewCall(ts[n - 1], ops[n - 1], ts[n], p);
      (ops[n - 1].dev, ops[n - 1].nr)
    else
      var w := Wanted(ts, ops, n - 1, p);
      if Crosses(ts[n - 1], ops[n - 1], p, w) then (ops[n - 1].mounted, ROOT_INO) else w
  }

  // What an activity is on its way to or has reached, if anything.
  ghost predicate Pursues(a: Act, w: (int, int)) {
    match a
    case Gone => true
    case Picking(dev, nr, _) => (dev, nr) == w
    case PickWriting(dev, nr, _) => (dev, nr) == w
    case Scanning(dev, nr, _) => (dev, nr) == w
    case Matched(dev, nr, _, _) => (dev, nr) == w
    case Reading(_, dev, nr) => (dev, nr) == w
    case Holding(_, dev, nr) => (dev, nr) == w
    case Putting(_, k) => k.Finish? || (k.dev, k.nr) == w
    case PutWriting(_, k) => k.Finish? || (k.dev, k.nr) == w
    case Freeing(_, k) => k.Finish? || (k.dev, k.nr) == w
  }

  lemma NewCall(t: Table, op: Op, t': Table, p: int)
    requires Inv(t) && Step(t, op, t') && |t.acts| <= p < |t'.acts|
    ensures op.Iget? && t'.acts[p] == Picking(op.dev, op.nr, op.e)
  {
  }

  lemma PickPursues(t: Table, op: Op, t': Table, p: int, w: (int, int))
    requires Inv(t) && (op.Repick? || op.PickWrite? || op.Claim?) && PickStep(t, op, t')
    requires 0 <= p < |t.acts| && Pursues(t.acts[p], w)
    ensures |t'.acts| >= |t.acts| && Pursues(t'.acts[p], w)
  {
  }

  lemma CallPursues(t: Table, op: Op, t': Table, p: int, w: (int, int))
    requires Inv(t) && Step(t, op, t') && 0 <= p < |t.acts| && Pursues(t.acts[p], w)
    requires op.Iget? || op.PickWritten?
    ensures |t'.acts| >= |t.acts| && Pursues(t'.acts[p], w)
  {
  }

  lemma LookPursues(t: Table, op: Op, t': Table, p: int, w: (int, int))
    requires Inv(t) && Step(t, op, t') && 0 <= p < |t.acts| && Pursues(t.acts[p], w)
    requires op.Scan? || op.Recheck?
    ensures |t'.acts| >= |t.acts|
    ensures Pursues(t'.acts[p], if Crosses(t, op, p, w) then (op.mounted, ROOT_INO) else w)
  {
  }

  lemma PutPursues(t: Table, op: Op, t': Table, p: int, w: (int, int))
    requires Inv(t) && Step(t, op, t') && 0 <= p < |t.acts| && Pursues(t.acts[p], w)
    requires op.Put? || op.PutStep? || op.PutWritten? || op.Free?
    ensures |t'.acts| >= |t.acts| && Pursues(t'.acts[p], w)
  {
  }

  lemma FlagsPursue(t: Table, op: Op, t': Table, p: int, w: (int, int))
    requires Inv(t) && Step(t, op, t') && 0 <= p < |t.acts| && Pursues(t.acts[p], w)
    requires op.ReadDone? || op.Touch? || op.Lock? || op.Unlock?
    ensures |t'.acts| >= |t.acts| && Pursues(t'.acts[p], w)
  {
  }

  lemma StepPursues(t: Table, op: Op, t': Table, p: int, w: (int, int))
    requires Inv(t) && Step(t, op, t') && 0 <= p < |t.acts| && Pursues(t.acts[p], w)
    ensures |t'.acts| >= |t.acts|
    ensures Pursues(t'.acts[p], if Crosses(t, op, p, w) then (op.mounted, ROOT_INO) else w)
  {
    if op.Scan? || op.Recheck? {
      LookPursues(t, op, t', p, w);
    } else if op.Put? || op.PutStep? || op.PutWritten? || op.Free? {
      PutPursues(t, op, t', p, w);
    } else if op.ReadDone? || op.Touch? || op.Lock? || op.Unlock? {
      FlagsPursue(t, op, t', p, w);
    } else if op.Iget? || op.PickWritten? {
      CallPursues(t, op, t', p, w);
    } else {
      PickPursues(t, op, t', p, w);
    }
  }

  // Every call goes for the inode it was asked for, through the mounts it crosses.
  lemma {:induction false} CallsPursueWanted(ts: seq<Table>, ops: seq<Op>, n: nat, p: int)
    requires IsRun(ts, ops) && Boot(ts[0]) && n <= |ops| && 0 <= p < |ts[n].acts|
    ensures Pursues(ts[n].acts[p], Wanted(ts, ops, n, p))
  {
    BootIsInv(ts[0]);
    RunKeepsInv(ts, ops, n - 1);
    assert Step(ts[n - 1], ops[n - 1], ts[n]);
    if p >= |ts[n - 1].acts| {
      NewCall(ts[n - 1], ops[n - 1], ts[n], p);
    } else {
      CallsPursueWanted(ts, ops, n - 1, p);
      StepPursues(ts[n - 1], ops[n - 1], ts[n], p, Wanted(ts, ops, n - 1, p));
    }
  }

  // The entry that iget returned is referenced and still holds the inode wanted.
  ghost predicate Found(t: Table, p: int, w: (int, int))
    requires 0 <= p < |t.acts| && t.acts[p].Holding?
  {
    var e := t.acts[p].e;
    0 <= e < |t.entries| && t.entries[e].dev == w.0 && t.entries[e].num == w.1 && t.entries[e].count > 0
  }

  // Over every interleaving of calls since boot, no inode is ever in the table twice,
  // and every caller finds in its entry the inode that it asked for.
  lemma NoInodeTwice(ts: seq<Table>, ops: seq<Op>, n: nat)
    requires IsRun(ts, ops) && Boot(ts[0]) && n <= |ops|
    ensures Unique(ts[n])
    ensures forall p :: 0 <= p < |ts[n].acts| && ts[n].acts[p].Holding? ==> Found(ts[n], p, Wanted(ts, ops, n, p))
  {
    BootIsInv(ts[0]);
    RunKeepsInv(ts, ops, n);
    var t := ts[n];
    forall p | 0 <= p < |t.acts| && t.acts[p].Holding? ensures Found(t, p, Wanted(ts, ops, n, p)) {
      assert ActOk(t, p) && t.acts[p].e in Refs(t.acts[p]) && UsersOk(t, t.acts[p].e);
      assert p in t.users[t.acts[p].e];
      CallsPursueWanted(ts, ops, n, p);
    }
  }

  // When an entry changes its inode: it is claimed, unreferenced, clean and unlocked; or
  // it is a claimed one that is being filled; or its last user frees the inode, which has
  // no links.
  ghost predicate MayChange(t: Table, op: Op, e: int)
    requires Inv(t) && IsEntry(e)
  {
    if op.Claim? then t.entries[e].count == 0 && !t.entries[e].dirt && !t.entries[e].lock
    else if op.Scan? then t.entries[e].dev == 0 && t.users[e] == {op.p}
    else op.Free? && t.users[e] == {op.p} && t.entries[e].nlinks == 0
  }

  lemma ClaimChanges(t: Table, op: Op, t': Table, e: int)
    requires Inv(t) && op.Claim? && PickStep(t, op, t') && IsEntry(e) && !Same(t.entries[e], t'.entries[e])
    ensures MayChange(t, op, e)
  {
  }

  lemma ScanChanges(t: Table, p: int, t': Table, e: int)
    requires Inv(t) && ScanStep(t, p, t') && IsEntry(e) && !Same(t.entries[e], t'.entries[e])
    ensures MayChange(t, Scan(p), e)
  {
    assert ActOk(t, p);
  }

  lemma FreeChanges(t: Table, p: int, t': Table, e: int)
    requires Inv(t) && FreeStep(t, p, t') && IsEntry(e) && !Same(t.entries[e], t'.entries[e])
    ensures MayChange(t, Op.Free(p), e)
  {
    assert ActOk(t, p) && e in Refs(t.acts[p]) && UsersOk(t, e) && p in t.users[e];
    SubsetSize({p}, t.users[e]);
  }

  lemma PickDoesNotChange(t: Table, op: Op, t': Table, e: int)
    requires Inv(t) && Step(t, op, t') && IsEntry(e) && (op.Iget? || op.Repick? || op.PickWrite? || op.PickWritten?)
    ensures |t'.entries| == NR_INODE && Same(t.entries[e], t'.entries[e])
  {
  }

  lemma PutDoesNotChange(t: Table, op: Op, t': Table, e: int)
    requires Inv(t) && Step(t, op, t') && IsEntry(e) && (op.Put? || op.PutStep? || op.PutWritten?)
    ensures |t'.entries| == NR_INODE && Same(t.entries[e], t'.entries[e])
  {
  }

  lemma RecheckDoesNotChange(t: Table, op: Op, t': Table, e: int)
    requires Inv(t) && Step(t, op, t') && IsEntry(e) && (op.Recheck?)
    ensures |t'.entries| == NR_INODE && Same(t.entries[e], t'.entries[e])
  {
  }

  lemma FlagsDoNotChange(t: Table, op: Op, t': Table, e: int)
    requires Inv(t) && Step(t, op, t') && IsEntry(e) && (op.ReadDone? || op.Touch? || op.Lock? || op.Unlock?)
    ensures |t'.entries| == NR_INODE && Same(t.entries[e], t'.entries[e])
  {
  }

  lemma OthersDoNotChange(t: Table, op: Op, t': Table, e: int)
    requires Inv(t) && Step(t, op, t') && IsEntry(e) && !op.Claim? && !op.Scan? && !op.Free?
    ensures |t'.entries| == NR_INODE && Same(t.entries[e], t'.entries[e])
  {
    if op.Put? || op.PutStep? || op.PutWritten? {
      PutDoesNotChange(t, op, t', e);
    } else if op.Recheck? {
      RecheckDoesNotChange(t, op, t', e);
    } else if op.ReadDone? || op.Touch? || op.Lock? || op.Unlock? {
      FlagsDoNotChange(t, op, t', e);
    } else {
      PickDoesNotChange(t, op, t', e);
    }
  }

  lemma WhenIdentityChanges(t: Table, op: Op, t': Table, e: int)
    requires Inv(t) && Step(t, op, t') && Inv(t') && IsEntry(e) && !Same(t.entries[e], t'.entries[e])
    ensures MayChange(t, op, e)
  {
    if op.Claim? {
      ClaimChanges(t, op, t', e);
    } else if op.Scan? {
      ScanChanges(t, op.p, t', e);
    } else if op.Free? {
      FreeChanges(t, op.p, t', e);
    } else {
      OthersDoNotChange(t, op, t', e);
    }
  }

  // ---------- Deleted files ----------

  lemma OnlyUser(t: Table, e: int, p: int)
    requires Inv(t) && IsEntry(e) && p in t.users[e]
    ensures t.entries[e].count <= 1 <==> t.users[e] == {p}
  {
    assert UsersOk(t, e);
    SubsetSize({p}, t.users[e]);
  }

  // The last user of an inode gives it up: a file without links is released, one with
  // links is written back if it has changed; any other user just leaves.
  lemma LastUserDecides(t: Table, p: int, t': Table)
    requires Inv(t) && PutStepOk(t, p, t')
    ensures var e := t.acts[p].e;
            var last := IsEntry(e) && t.entries[e].dev != 0 && t.users[e] == {p};
            (t'.acts[p].Freeing? <==> last && t.entries[e].nlinks == 0) &&
            (t'.acts[p].PutWriting? <==> last && t.entries[e].nlinks != 0 && t.entries[e].dirt) &&
            (!t'.acts[p].Freeing? && !t'.acts[p].PutWriting? ==> t'.users[e] == t.users[e] - {p})
  {
    var e := t.acts[p].e;
    assert ActOk(t, p) && e in Refs(t.acts[p]) && UsersOk(t, e);
    OnlyUser(t, e, p);
  }

  lemma FreeingOthers(t: Table, op: Op, t': Table, p: int)
    requires Inv(t) && Step(t, op, t') && 0 <= p < |t.acts| && op != PutStep(p) && op != Op.Free(p)
    ensures |t'.acts| >= |t.acts| && (t.acts[p].Freeing? || t'.acts[p].Freeing? ==> t'.acts[p] == t.acts[p])
  {
  }

  // The last user of an entry without links is about to give it up.
  ghost predicate Releases(t: Table, p: int, a: Act)
    requires 0 <= p < |t.acts| && a.Freeing?
  {
    |t.entries| == |t.users| == NR_INODE && IsEntry(a.e) && t.acts[p] == Putting(a.e, a.k) &&
    t.entries[a.e].dev != 0 && t.entries[a.e].nlinks == 0 && t.users[a.e] == {p}
  }

  lemma FreeingStep(t: Table, op: Op, t': Table, p: int)
    requires Inv(t) && Step(t, op, t') && 0 <= p < |t'.acts| && t'.acts[p].Freeing?
    ensures p < |t.acts| && (t.acts[p] == t'.acts[p] || (op == PutStep(p) && Releases(t, p, t'.acts[p])))
  {
    if p >= |t.acts| {
      NewCall(t, op, t', p);
    } else if op == PutStep(p) {
      FreeBeginsHere(t, p, t');
    } else if op != Op.Free(p) {
      FreeingOthers(t, op, t', p);
    }
  }

  lemma FreeBeginsHere(t: Table, p: int, t': Table)
    requires Inv(t) && PutStepOk(t, p, t') && t'.acts[p].Freeing?
    ensures Releases(t, p, t'.acts[p])
  {
    assert ActOk(t, p) && t.acts[p].e in Refs(t.acts[p]);
    LastUserDecides(t, p, t');
  }

  // A release is begun by the last user of an inode without links, over every run.
  lemma {:induction false} FreeBegins(ts: seq<Table>, ops: seq<Op>, n: nat, p: int) returns (m: nat)
    requires IsRun(ts, ops) && Boot(ts[0]) && n <= |ops| && 0 <= p < |ts[n].acts| && ts[n].acts[p].Freeing?
    ensures m < n && ops[m] == PutStep(p) && p < |ts[m].acts| && Releases(ts[m], p, ts[n].acts[p])
    ensures forall j :: m < j <= n ==> p < |ts[j].acts| && ts[j].acts[p] == ts[n].acts[p]
  {
    BootIsInv(ts[0]);
    RunKeepsInv(ts, ops, n - 1);
    assert Step(ts[n - 1], ops[n - 1], ts[n]);
    FreeingStep(ts[n - 1], ops[n - 1], ts[n], p);
    if ts[n - 1].acts[p] == ts[n].acts[p] { m := FreeBegins(ts, ops, n - 1, p); } else { m := n - 1; }
  }

  // It ends with the entry wiped, still without links and with no other user.
  lemma FreeEnds(t: Table, op: Op, t': Table, p: int)
    requires Inv(t) && Step(t, op, t') && 0 <= p < |t.acts| && t.acts[p].Freeing?
    ensures |t'.acts| >= |t.acts| && IsEntry(t.acts[p].e)
    ensures t'.acts[p] != t.acts[p] ==>
              op == Op.Free(p) &&
              var e := t.acts[p].e;
              t.users[e] == {p} && t.entries[e].nlinks == 0 && t'.entries[e] == ZERO && t'.users[e] == {}
  {
    var e := t.acts[p].e;
    assert ActOk(t, p) && e in Refs(t.acts[p]) && UsersOk(t, e);
    OnlyUser(t, e, p);
    if op != Op.Free(p) { FreeingOthers(t, op, t', p); }
  }

  // An inode with links leaves the table only when a new call claims its unused entry.
  lemma LinkedLeavesByClaim(t: Table, op: Op, t': Table, e: int)
    requires Inv(t) && Step(t, op, t') && Inv(t') && IsEntry(e)
    requires t.entries[e].dev != 0 && t.entries[e].nlinks != 0 && !Same(t.entries[e], t'.entries[e])
    ensures op.Claim? && t.users[e] == {}
  {
    WhenIdentityChanges(t, op, t', e);
    assert UsersOk(t, e);
  }

  // ---------- What iget does ----------

  // The spare entry is used exactly if no entry holds the inode.
  lemma ScanDecides(t: Table, p: int, t': Table)
    requires Inv(t) && ScanStep(t, p, t')
    ensures var Scanning(dev, nr, empty) := t.acts[p];
            (t'.acts[p].Reading? <==>
               forall i :: 0 <= i < NR_INODE ==> !(t.entries[i].dev == dev && t.entries[i].num == nr)) &&
            (t'.acts[p].Reading? ==>
               t'.acts[p].e == empty && t'.entries[empty].dev == dev && t'.entries[empty].num == nr)
  {
    assert ActOk(t, p);
  }

  // After the wait the entry is used exactly if it still holds the inode.
  lemma RecheckDecides(t: Table, p: int, mounted: int, t': Table)
    requires Inv(t) && RecheckStep(t, p, mounted, t')
    ensures var Matched(dev, nr, empty, e) := t.acts[p];
            IsEntry(e) && |t'.users| == NR_INODE &&
            var here := t.entries[e].dev == dev && t.entries[e].num == nr;
            t'.users[e] == (if here then t.users[e] + {p} else t.users[e]) &&
            (t'.acts[p].Scanning? <==> !here) &&
            (t'.acts[p] == Putting(empty, Return(e, dev, nr)) <==> here && !(t.entries[e].mount && mounted != 0))
  {
    assert ActOk(t, p);
  }

  // Whoever locks an entry to read or write its inode unlocks it again.
  lemma TransfersUnlock(t: Table, op: Op, t': Table, e: int)
    requires Inv(t) && Step(t, op, t') && (op.ReadDone? || op.PutWritten? || op.PickWritten?)
    requires 0 <= op.p < |t.acts| && (t.acts[op.p].Reading? || t.acts[op.p].PutWriting? || t.acts[op.p].PickWriting?)
    requires e == t.acts[op.p].e
    ensures IsEntry(e) && |t'.entries| == NR_INODE && !t'.entries[e].lock
    ensures !op.ReadDone? ==> !t'.entries[e].dirt
  {
    assert ActOk(t, op.p);
    if op.PutWritten? { PutWrittenRelabels(t, op.p, t'); }
  }

  // ---------- Finding an entry ----------

  function Turn(last: int, k: int): (e: int)
    ensures IsEntry(e)
  {
    (last + k) % NR_INODE
  }

  predicate Unused(v: Entry) { v.count == 0 }

  predicate Ready(v: Entry) { v.count == 0 && !v.dirt && !v.lock }

  lemma NextTurn(last: int, i: nat)
    requires IsEntry(last) && i < NR_INODE
    ensures Turn(last, i + 1) == if Turn(last, i) + 1 >= NR_INODE then 0 else Turn(last, i) + 1
  {
  }

  lemma TurnOf(last: int, e: int) returns (k: int)
    requires IsEntry(last) && IsEntry(e)
    ensures 1 <= k <= NR_INODE && Turn(last, k) == e
  {
    k := if e > last then e - last else e - last + NR_INODE;
  }

  // The loop of get_empty_inode: the first ready entry after last_inode, or else the last
  // unreferenced one; NONE, where the source panics, if all are referenced.
  method PickEmpty(entries: seq<Entry>, last: int) returns (inode: int, last': int)
    requires |entries| == NR_INODE && IsEntry(last)
    ensures IsEntry(last')
    ensures inode == NONE <==> forall e :: IsEntry(e) ==> !Unused(entries[e])
    ensures inode != NONE ==> IsEntry(inode) && Unused(entries[inode])
    ensures (exists e :: IsEntry(e) && Ready(entries[e])) ==>
              exists k :: 1 <= k <= NR_INODE && inode == last' == Turn(last, k) && Ready(entries[inode]) &&
                forall j :: 1 <= j < k ==> !Ready(entries[Turn(last, j)])
  {
    inode, last' := NONE, last;
    var i := 0;
    while i < NR_INODE
      invariant 0 <= i <= NR_INODE && last' == Turn(last, i)
      invariant forall j :: 1 <= j <= i ==> !Ready(entries[Turn(last, j)])
      invariant inode == NONE ==> forall j :: 1 <= j <= i ==> !Unused(entries[Turn(last, j)])
      invariant inode != NONE ==> IsEntry(inode) && Unused(entries[inode])
    {
      NextTurn(last, i);
      last' := last' + 1;
      if last' >= NR_INODE {
        last' := 0;
      }
      if entries[last'].count == 0 {
        inode := last';
        if !entries[inode].dirt && !entries[inode].lock {
          return;
        }
      }
      i := i + 1;
    }
    forall e | IsEntry(e) ensures !Ready(entries[e]) && (inode == NONE ==> !Unused(entries[e])) {
      var k := TurnOf(last, e);
    }
  }

  // One pass of iget over the table.
  method Find(entries: seq<Entry>, dev: int, nr: int) returns (m: int)
    ensures Match(entries, dev, nr, m)
    ensures m != NONE ==> forall i :: 0 <= i < m ==> !(entries[i].dev == dev && entries[i].num == nr)
  {
    m := 0;
    while m < |entries|
      invariant 0 <= m <= |entries| && forall i :: 0 <= i < m ==> !(entries[i].dev == dev && entries[i].num == nr)
    {
      if entries[m].dev == dev && entries[m].num == nr {
        return;
      }
      m := m + 1;
    }
    m := NONE;
  }

  // ---------- Inodes on disk ----------

  const INODES_PER_BLOCK := 32

  // Where inode nr is stored: block and place in the block.
  function BlockOf(maps: nat, nr: int): int { 2 + maps + (nr - 1) / INODES_PER_BLOCK }

  function PlaceOf(nr: int): int { (nr - 1) % INODES_PER_BLOCK }

  predicate OnDisk<T>(disk: seq<seq<T>>, maps: nat, nr: int) {
    nr >= 1 && BlockOf(maps, nr) < |disk| && |disk[BlockOf(maps, nr)]| == INODES_PER_BLOCK
  }

  // The copy in read_inode and in write_inode; `maps` counts the bitmap blocks.
  function ReadInode<T>(disk: seq<seq<T>>, maps: nat, nr: int): T
    requires OnDisk(disk, maps, nr)
  {
    disk[BlockOf(maps, nr)][PlaceOf(nr)]
  }

  function WriteInode<T>(disk: seq<seq<T>>, maps: nat, nr: int, v: T): seq<seq<T>>
    requires OnDisk(disk, maps, nr)
  {
    disk[BlockOf(maps, nr) := disk[BlockOf(maps, nr)][PlaceOf(nr) := v]]
  }

  // The inodes follow one another behind the boot block, the super-block and the bitmaps.
  lemma InodesFollowMaps(maps: nat, nr: int)
    requires nr >= 1
    ensures INODES_PER_BLOCK * BlockOf(maps, nr) + PlaceOf(nr) == INODES_PER_BLOCK * (2 + maps) + (nr - 1)
    ensures 0 <= PlaceOf(nr) < INODES_PER_BLOCK
  {
  }

  // What is read is what was written last under that number.
  lemma ReadAfterWrite<T>(disk: seq<seq<T>>, maps: nat, a: int, v: T, b: int)
    requires OnDisk(disk, maps, a) && OnDisk(disk, maps, b)
    ensures OnDisk(WriteInode(disk, maps, a, v), maps, b)
    ensures ReadInode(WriteInode(disk, maps, a, v), maps, b) == if a == b then v else ReadInode(disk, maps, b)
  {
    assert a != b ==> BlockOf(maps, a) != BlockOf(maps, b) || PlaceOf(a) != PlaceOf(b);
  }
}
