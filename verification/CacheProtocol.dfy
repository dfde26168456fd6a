// The block cache as a protocol: getblk, bread, brelse and sync_dev
// (fs/buffer.c), what free_block does to it (fs/bitmap.c), make_request and
// add_request (kernel/blk_drv/ll_rw_blk.c) and end_request (kernel/blk_drv/blk.h),
// with any number of activities interleaved at their sleep points and with the disk's
// interrupts.
//
// Every code path between two sleeps is one step. An activity that sleeps may be
// resumed at any time and re-tests its condition, which covers every schedule and
// every spurious wake-up. sync_dev may also be interrupted between any two buffers; the
// sync_inodes that it calls is covered by running that path as an activity of its own.
//
// This module holds the states, the steps and the invariant; BufferCache has the
// theorems about whole runs.
module CacheProtocol {
  import Elevator

  type Sector = int
  // The two sectors of a block.
  type Data = d: seq<Sector> | |d| == 2 witness [0, 0]

  datatype Block = Block(dev: nat, nr: nat)

  datatype Buffer = Buffer(id: Block, uptodate: bool, dirt: bool, count: nat, lock: bool, data: Data)

  // A request in the device queue: `done` sectors of it have been transferred.
  datatype Request = Request(cmd: int, bh: nat, slot: nat, done: nat)

  // What happens after sync_dev: it returns, or getblk goes on with its victim b.
  datatype Then = Return | Reuse(b: nat, blk: Block)

  // Where an activity stands. The states with a block are on behalf of a bread of it.
  datatype Activity =
    | Idle
    | Get(blk: Block)                       // at getblk's label `repeat`
    | HashWait(b: nat, blk: Block)          // found and counted, waits for the lock
    | Victim(b: nat, blk: Block)            // chose b to reuse, waits for the lock
    | ReadLock(b: nat, blk: Block)          // lock_buffer on behalf of READ
    | ReadSlot(b: nat, blk: Block)          // owns the lock, needs a request slot
    | ReadWait(b: nat, blk: Block)          // waits for the data
    | Hold(b: nat, blk: Block)              // bread has returned b
    | Release(b: nat, blk: Block)           // brelse, waits for the lock
    | Sync(dev: nat, i: nat, second: bool, k: Then)       // sync_dev comes to buffer i
    | WriteSlot(b: nat, dev: nat, second: bool, k: Then)  // owns the lock, needs a slot
    | FreeGet(blk: Block)                   // free_block, in get_hash_table
    | FreeWait(b: nat, blk: Block)          // ... found and counted, waits for the lock
    | Kept(b: nat, blk: Block)              // ... found b in use and kept its reference
    | Failed                                // bread returned NULL, or a panic

  datatype State = State(
    buffers: seq<Buffer>,
    acts: seq<Activity>,
    queue: seq<Request>,
    disk: map<Block, Data>)

  // ---------- find_buffer, slots, keys ----------

  function Find(bs: seq<Buffer>, blk: Block): (i: nat)
    ensures i <= |bs|
    ensures i < |bs| ==> bs[i].id == blk
    ensures forall j :: 0 <= j < i ==> bs[j].id != blk
  {
    if bs == [] || bs[0].id == blk then 0 else 1 + Find(bs[1..], blk)
  }

  predicate SlotFree(q: seq<Request>, slot: nat) {
    forall r <- q :: r.slot != slot
  }

  // The free slot with the highest index below limit, or limit if all are taken.
  function TopFree(q: seq<Request>, limit: nat, i: nat): (slot: nat)
    requires i <= limit
    ensures slot < i || slot == limit
    ensures slot < limit ==> SlotFree(q, slot)
  {
    if i == 0 then limit
    else if SlotFree(q, i - 1) then i - 1
    else TopFree(q, limit, i - 1)
  }

  function KeyOf(cmd: int, blk: Block): Elevator.Key { Elevator.Key(cmd, blk.dev, 2 * blk.nr) }

  predicate QueueRefers(q: seq<Request>, bs: seq<Buffer>) {
    forall r <- q :: r.bh < |bs|
  }

  function Keys(q: seq<Request>, bs: seq<Buffer>): (k: seq<Elevator.Key>)
    requires QueueRefers(q, bs)
    ensures |k| == |q|
  {
    seq(|q|, i requires 0 <= i < |q| => assert q[i] in q; KeyOf(q[i].cmd, bs[q[i].bh].id))
  }

  function Enqueue(q: seq<Request>, bs: seq<Buffer>, r: Request): seq<Request>
    requires QueueRefers(q, bs) && r.bh < |bs|
  {
    if q == [] then [r]
    else Elevator.Splice(q, Elevator.Slot(Keys(q, bs), KeyOf(r.cmd, bs[r.bh].id), 0), r)
  }

  predicate Queued(q: seq<Request>, b: nat) { exists r <- q :: r.bh == b }

  // ---------- Steps ----------

  function SetAct(s: State, t: nat, a: Activity): State
    requires t < |s.acts|
  {
    s.(acts := s.acts[t := a])
  }

  function SetBuf(s: State, b: nat, buf: Buffer): State
    requires b < |s.buffers|
  {
    s.(buffers := s.buffers[b := buf])
  }

  // Fill a slot and add the request; add_request clears b_dirt.
  function Submit(s: State, cmd: int, b: nat, slot: nat): State
    requires b < |s.buffers| && QueueRefers(s.queue, s.buffers)
  {
    SetBuf(s, b, s.buffers[b].(dirt := false)).(
      queue := Enqueue(s.queue, s.buffers, Request(cmd, b, slot, 0)))
  }

  // getblk's last lines: the buffer changes identity.
  function Claim(s: State, b: nat, blk: Block): State
    requires b < |s.buffers|
  {
    SetBuf(s, b, s.buffers[b].(id := blk, count := 1, dirt := false, uptodate := false))
  }

  // free_block's brelse of a buffer that nobody else holds: what it caches is lost.
  function Discard(s: State, b: nat): State
    requires b < |s.buffers|
  {
    SetBuf(s, b, s.buffers[b].(count := 0, dirt := false, uptodate := false))
  }

  datatype Event =
    | CallBread(t: nat, blk: Block)
    | CallSync(t: nat, dev: nat)
    | Resume(t: nat, choice: nat)      // `choice` is what the free-list scan picked
    | Modify(t: nat, data: Data)       // a client changes data it holds and sets b_dirt
    | CallBrelse(t: nat)
    | CallFree(t: nat, blk: Block)     // free_block
    | ReadSector                       // one sector goes from disk to the head's buffer
    | WriteSector                      // one sector goes from the head's buffer to disk
    | WriteFault(junk: Sector)         // a failed write: the sector may hold anything
    | Complete                         // end_request(1)

  predicate Wellformed(s: State) {
    QueueRefers(s.queue, s.buffers) &&
    (forall r <- s.queue :: r.done <= 2 && s.buffers[r.bh].id in s.disk) &&
    (forall a <- s.acts :: RefersOk(s, a))
  }

  predicate ThenOk(s: State, k: Then) {
    k.Reuse? ==> k.b < |s.buffers| && k.blk in s.disk && k.blk.dev != 0
  }

  predicate RefersOk(s: State, a: Activity) {
    match a
    case Idle | Failed => true
    case Get(blk) => blk in s.disk && blk.dev != 0
    case FreeGet(blk) => blk in s.disk && blk.dev != 0
    case Sync(_, i, _, k) => i <= |s.buffers| && ThenOk(s, k)
    case WriteSlot(b, _, _, k) => b < |s.buffers| && ThenOk(s, k)
    case _ => a.b < |s.buffers| && a.blk in s.disk && a.blk.dev != 0
  }

  predicate AllReferenced(bs: seq<Buffer>) { forall b <- bs :: b.count > 0 }

  predicate Enabled(s: State, e: Event) {
    Wellformed(s) &&
    match e
    case CallBread(t, blk) => t < |s.acts| && s.acts[t].Idle? && blk in s.disk && blk.dev != 0
    case CallSync(t, dev) => t < |s.acts| && s.acts[t].Idle?
    case Resume(t, choice) =>
      t < |s.acts| && !s.acts[t].Idle? && !s.acts[t].Hold? && !s.acts[t].Kept? && !s.acts[t].Failed? &&
      (s.acts[t].Get? ==> AllReferenced(s.buffers) || (choice < |s.buffers| && s.buffers[choice].count == 0))
    case Modify(t, data) => t < |s.acts| && s.acts[t].Hold?
    case CallBrelse(t) => t < |s.acts| && s.acts[t].Hold?
    case CallFree(t, blk) => t < |s.acts| && s.acts[t].Idle? && blk in s.disk && blk.dev != 0
    case ReadSector => s.queue != [] && s.queue[0].cmd == Elevator.READ && s.queue[0].done < 2
    case WriteSector => s.queue != [] && s.queue[0].cmd == Elevator.WRITE && s.queue[0].done < 2
    case WriteFault(_) => s.queue != [] && s.queue[0].cmd == Elevator.WRITE && s.queue[0].done < 2
    case Complete => s.queue != [] && s.queue[0].done == 2
  }

  function Next(s: State, e: Event): State
    requires Enabled(s, e)
  {
    match e
    case CallBread(t, blk) => SetAct(s, t, Get(blk))
    case CallSync(t, dev) => SetAct(s, t, Sync(dev, 0, false, Return))
    case Resume(t, choice) => ResumeStep(s, t, choice)
    case Modify(t, data) =>
      var b := s.acts[t].b;
      assert s.acts[t] in s.acts;
      SetBuf(s, b, s.buffers[b].(data := data, dirt := true))
    case CallBrelse(t) => SetAct(s, t, Release(s.acts[t].b, s.acts[t].blk))
    case CallFree(t, blk) => SetAct(s, t, FreeGet(blk))
    case ReadSector =>
      var r := s.queue[0];
      var buf := s.buffers[r.bh];
      SetBuf(s, r.bh, buf.(data := buf.data[r.done := s.disk[buf.id][r.done]])).(
        queue := s.queue[0 := r.(done := r.done + 1)])
    case WriteSector =>
      var r := s.queue[0];
      var buf := s.buffers[r.bh];
      s.(disk := s.disk[buf.id := s.disk[buf.id][r.done := buf.data[r.done]]],
         queue := s.queue[0 := r.(done := r.done + 1)])
    case WriteFault(junk) =>
      var r := s.queue[0];
      var buf := s.buffers[r.bh];
      s.(disk := s.disk[buf.id := s.disk[buf.id][r.done := junk]])
    case Complete =>
      var b := s.queue[0].bh;
      SetBuf(s, b, s.buffers[b].(uptodate := true, lock := false)).(queue := s.queue[1..])
  }

  function After(k: Then): Activity { if k.Reuse? then Victim(k.b, k.blk) else Idle }

  // Run activity t until it sleeps or returns.
  function ResumeStep(s: State, t: nat, choice: nat): State
    requires Enabled(s, Resume(t, choice))
  {
    assert s.acts[t] in s.acts;
    match s.acts[t]
    case Get(blk) =>
      var i := Find(s.buffers, blk);
      if i < |s.buffers| then
        SetAct(SetBuf(s, i, s.buffers[i].(count := s.buffers[i].count + 1)), t, HashWait(i, blk))
      else if AllReferenced(s.buffers) then s                       // sleep on buffer_wait
      else SetAct(s, t, Victim(choice, blk))
    case HashWait(b, blk) =>
      if s.buffers[b].lock then s
      else if s.buffers[b].id == blk then
        SetAct(s, t, if s.buffers[b].uptodate then Hold(b, blk) else ReadLock(b, blk))
      else if s.buffers[b].count > 0 then
        SetAct(SetBuf(s, b, s.buffers[b].(count := s.buffers[b].count - 1)), t, Get(blk))
      else SetAct(s, t, Failed)
    case Victim(b, blk) =>
      if s.buffers[b].lock then s
      else if s.buffers[b].count > 0 then SetAct(s, t, Get(blk))
      else if s.buffers[b].dirt then SetAct(s, t, Sync(s.buffers[b].id.dev, 0, false, Reuse(b, blk)))
      else if Find(s.buffers, blk) < |s.buffers| then SetAct(s, t, Get(blk))
      else SetAct(Claim(s, b, blk), t, ReadLock(b, blk))
    case ReadLock(b, blk) =>
      if s.buffers[b].lock then s
      else if s.buffers[b].uptodate then SetAct(s, t, ReadWait(b, blk))
      else SetAct(SetBuf(s, b, s.buffers[b].(lock := true)), t, ReadSlot(b, blk))
    case ReadSlot(b, blk) =>
      var limit := Elevator.SlotLimit(Elevator.READ);
      var slot := TopFree(s.queue, limit, limit);
      if slot == limit then s                                       // sleep on wait_for_request
      else SetAct(Submit(s, Elevator.READ, b, slot), t, ReadWait(b, blk))
    case ReadWait(b, blk) =>
      if s.buffers[b].lock then s
      else SetAct(s, t, if s.buffers[b].uptodate then Hold(b, blk) else Failed)
    case Release(b, blk) =>
      if s.buffers[b].lock then s
      else if s.buffers[b].count == 0 then SetAct(s, t, Failed)     // panic
      else SetAct(SetBuf(s, b, s.buffers[b].(count := s.buffers[b].count - 1)), t, Idle)
    case Sync(dev, i, second, k) =>
      if i == |s.buffers| then SetAct(s, t, if second then After(k) else Sync(dev, 0, true, k))
      else if s.buffers[i].id.dev != dev then SetAct(s, t, Sync(dev, i + 1, second, k))
      else if s.buffers[i].lock then s
      else if !s.buffers[i].dirt then SetAct(s, t, Sync(dev, i + 1, second, k))
      else SetAct(SetBuf(s, i, s.buffers[i].(lock := true)), t, WriteSlot(i, dev, second, k))
    case WriteSlot(b, dev, second, k) =>
      var limit := Elevator.SlotLimit(Elevator.WRITE);
      var slot := TopFree(s.queue, limit, limit);
      if slot == limit then s
      else SetAct(Submit(s, Elevator.WRITE, b, slot), t, Sync(dev, b + 1, second, k))
    case FreeGet(blk) =>
      var i := Find(s.buffers, blk);
      if i == |s.buffers| then SetAct(s, t, Idle)
      else SetAct(SetBuf(s, i, s.buffers[i].(count := s.buffers[i].count + 1)), t, FreeWait(i, blk))
    case FreeWait(b, blk) =>
      if s.buffers[b].lock then s
      else if s.buffers[b].id == blk then
        if s.buffers[b].count != 1 then SetAct(s, t, Kept(b, blk)) else SetAct(Discard(s, b), t, Idle)
      else if s.buffers[b].count > 0 then
        SetAct(SetBuf(s, b, s.buffers[b].(count := s.buffers[b].count - 1)), t, FreeGet(blk))
      else SetAct(s, t, Failed)
    case _ => s
  }

  // ---------- What every state satisfies ----------

  // Does an activity own a reference to buffer b?
  predicate Pins(a: Activity, b: nat) {
    (a.HashWait? || a.ReadLock? || a.ReadSlot? || a.ReadWait? || a.Hold? || a.Release? || a.FreeWait? || a.Kept?) &&
    a.b == b
  }

  // Does an activity own b's lock without having queued b?
  predicate OwnsLock(a: Activity, b: nat) {
    (a.ReadSlot? || a.WriteSlot?) && a.b == b
  }

  function Refs(acts: seq<Activity>, b: nat): nat {
    if acts == [] then 0 else (if Pins(acts[0], b) then 1 else 0) + Refs(acts[1..], b)
  }

  predicate Agree(d: Data, e: Data, n: nat) { forall i :: 0 <= i < n && i < 2 ==> d[i] == e[i] }

  // A queued request against its buffer and the disk.
  predicate RequestOk(buf: Buffer, disk: map<Block, Data>, r: Request) {
    buf.lock && buf.id.dev != 0 && buf.id in disk && r.done <= 2 &&
    (r.cmd == Elevator.READ || r.cmd == Elevator.WRITE) && r.slot < Elevator.SlotLimit(r.cmd) &&
    (r.cmd == Elevator.READ ==> !buf.uptodate && Agree(buf.data, disk[buf.id], r.done)) &&
    (r.cmd == Elevator.WRITE ==> buf.uptodate && (!buf.dirt ==> Agree(buf.data, disk[buf.id], r.done)))
  }

  predicate BufferOk(s: State, b: nat)
    requires b < |s.buffers|
  {
    var buf := s.buffers[b];
    buf.count == Refs(s.acts, b) &&
    (buf.dirt ==> buf.uptodate) && (buf.uptodate ==> buf.id.dev != 0) &&
    (buf.id.dev != 0 ==> buf.id in s.disk) &&
    (buf.uptodate && !buf.dirt && !Queued(s.queue, b) ==> buf.data == s.disk[buf.id])
  }

  predicate HasBuffer(a: Activity) { !a.Idle? && !a.Get? && !a.FreeGet? && !a.Failed? && !a.Sync? }

  predicate ActOk(s: State, a: Activity) {
    RefersOk(s, a) && !a.Failed? &&
    (HasBuffer(a) ==>
       (Pins(a, a.b) ==> s.buffers[a.b].id == a.blk) &&
       (OwnsLock(a, a.b) ==> s.buffers[a.b].lock && !Queued(s.queue, a.b)) &&
       (a.Hold? || a.Release? || a.WriteSlot? ==> s.buffers[a.b].uptodate) &&
       (a.WriteSlot? ==> s.buffers[a.b].dirt) &&
       (a.ReadSlot? ==> !s.buffers[a.b].uptodate) &&
       (a.ReadWait? ==> s.buffers[a.b].uptodate || Queued(s.queue, a.b)))
  }

  predicate Unique(bs: seq<Buffer>) {
    forall i, j :: 0 <= i < j < |bs| && bs[i].id == bs[j].id ==> bs[i].id.dev == 0
  }

  predicate LockOwnersDiffer(acts: seq<Activity>) {
    forall t, u :: 0 <= t < u < |acts| && (acts[t].ReadSlot? || acts[t].WriteSlot?) ==> !OwnsLock(acts[u], acts[t].b)
  }

  predicate RequestsDiffer(q: seq<Request>) {
    forall i, j :: 0 <= i < j < |q| ==> q[i].bh != q[j].bh && q[i].slot != q[j].slot
  }

  predicate QueueOk(s: State) {
    QueueRefers(s.queue, s.buffers) && RequestsDiffer(s.queue) &&
    (forall r <- s.queue :: RequestOk(s.buffers[r.bh], s.disk, r)) &&
    Elevator.Shape(Keys(s.queue, s.buffers))
  }

  predicate BuffersOk(s: State) { forall b :: 0 <= b < |s.buffers| ==> BufferOk(s, b) }

  predicate ActsOk(s: State) { forall t :: 0 <= t < |s.acts| ==> ActOk(s, s.acts[t]) }

  predicate Inv(s: State) {
    Unique(s.buffers) && LockOwnersDiffer(s.acts) && QueueOk(s) && BuffersOk(s) && ActsOk(s)
  }

  // buffer_init and blk_dev_init.
  predicate Initial(s: State) {
    (forall b <- s.buffers :: b.id.dev == 0 && !b.uptodate && !b.dirt && b.count == 0 && !b.lock) &&
    (forall a <- s.acts :: a.Idle?) && s.queue == []
  }

  // ---------- Every step keeps the invariant ----------

  lemma {:induction false} RefsUpdate(acts: seq<Activity>, t: nat, a: Activity, b: nat)
    requires t < |acts|
    ensures Refs(acts[t := a], b) + (if Pins(acts[t], b) then 1 else 0) ==
            Refs(acts, b) + (if Pins(a, b) then 1 else 0)
  {
    if t == 0 {
      assert acts[t := a][1..] == acts[1..];
    } else {
      assert acts[t := a][1..] == acts[1..][t - 1 := a];
      RefsUpdate(acts[1..], t - 1, a, b);
    }
  }

  lemma {:induction false} PinnedMeansReferenced(acts: seq<Activity>, t: nat, b: nat)
    requires t < |acts| && Pins(acts[t], b)
    ensures Refs(acts, b) > 0
  {
    if t > 0 { PinnedMeansReferenced(acts[1..], t - 1, b); }
  }

  lemma UnreferencedMeansUnpinned(acts: seq<Activity>, t: nat, b: nat)
    requires t < |acts| && Refs(acts, b) == 0
    ensures !Pins(acts[t], b)
  {
    if Pins(acts[t], b) { PinnedMeansReferenced(acts, t, b); }
  }

  lemma KeysFollowIdentities(q: seq<Request>, bs: seq<Buffer>, bs': seq<Buffer>)
    requires QueueRefers(q, bs) && |bs| == |bs'|
    requires forall r <- q :: bs[r.bh].id == bs'[r.bh].id
    ensures Keys(q, bs) == Keys(q, bs')
  {
    assert forall i :: 0 <= i < |q| ==> q[i] in q;
  }

  lemma ActStepKeepsInv(s: State, t: nat, a: Activity)
    requires Inv(s) && t < |s.acts| && ActOk(s, a) && !a.ReadSlot? && !a.WriteSlot?
    requires forall b :: 0 <= b < |s.buffers| ==> Pins(a, b) == Pins(s.acts[t], b)
    ensures Inv(SetAct(s, t, a))
  {
    forall b | 0 <= b < |s.buffers| ensures BufferOk(SetAct(s, t, a), b) {
      assert BufferOk(s, b);
      RefsUpdate(s.acts, t, a, b);
    }
  }

  lemma CountStepKeepsInv(s: State, t: nat, b: nat, count: nat, a: Activity)
    requires Inv(s) && t < |s.acts| && b < |s.buffers| && ActOk(s, a) && !a.ReadSlot? && !a.WriteSlot?
    requires forall c :: 0 <= c < |s.buffers| && c != b ==> Pins(a, c) == Pins(s.acts[t], c)
    requires count + (if Pins(s.acts[t], b) then 1 else 0) == s.buffers[b].count + (if Pins(a, b) then 1 else 0)
    ensures Inv(SetAct(SetBuf(s, b, s.buffers[b].(count := count)), t, a))
  {
    var s' := SetAct(SetBuf(s, b, s.buffers[b].(count := count)), t, a);
    CountsDoNotMatter(s, s');
    forall c | 0 <= c < |s'.buffers| ensures BufferOk(s', c) {
      assert BufferOk(s, c);
      RefsUpdate(s.acts, t, a, c);
    }
    forall u | 0 <= u < |s'.acts| ensures ActOk(s', s'.acts[u]) {
      assert ActOk(s, s'.acts[u]);
    }
  }

  lemma CountsDoNotMatter(s: State, s': State)
    requires QueueOk(s) && Unique(s.buffers) && s'.queue == s.queue && s'.disk == s.disk
    requires |s'.buffers| == |s.buffers|
    requires forall b :: 0 <= b < |s.buffers| ==> s'.buffers[b] == s.buffers[b].(count := s'.buffers[b].count)
    ensures QueueOk(s') && Unique(s'.buffers)
  {
    KeysFollowIdentities(s.queue, s.buffers, s'.buffers);
  }

  lemma LockStepKeepsInv(s: State, t: nat, b: nat, a: Activity)
    requires Inv(s) && t < |s.acts| && b < |s.buffers| && !s.buffers[b].lock
    requires (a.ReadSlot? || a.WriteSlot?) && a.b == b
    requires forall c :: 0 <= c < |s.buffers| ==> Pins(a, c) == Pins(s.acts[t], c)
    requires RefersOk(s, a) && (a.ReadSlot? ==> s.buffers[b].id == a.blk && !s.buffers[b].uptodate)
    requires a.WriteSlot? ==> s.buffers[b].uptodate && s.buffers[b].dirt
    ensures Inv(SetAct(SetBuf(s, b, s.buffers[b].(lock := true)), t, a))
  {
    var s' := SetAct(SetBuf(s, b, s.buffers[b].(lock := true)), t, a);
    assert !Queued(s.queue, b);
    KeysFollowIdentities(s.queue, s.buffers, s'.buffers);
    forall c | 0 <= c < |s'.buffers| ensures BufferOk(s', c) {
      assert BufferOk(s, c);
      RefsUpdate(s.acts, t, a, c);
    }
    forall u | 0 <= u < |s'.acts| ensures ActOk(s', s'.acts[u]) {
      if u != t { assert ActOk(s, s.acts[u]); }
    }
    forall u, v | 0 <= u < v < |s'.acts| && (s'.acts[u].ReadSlot? || s'.acts[u].WriteSlot?)
      ensures !OwnsLock(s'.acts[v], s'.acts[u].b)
    {
      assert ActOk(s, s.acts[u]) && ActOk(s, s.acts[v]);
    }
  }

  lemma ClaimKeepsInv(s: State, t: nat, b: nat, blk: Block)
    requires Inv(s) && t < |s.acts| && b < |s.buffers| && s.acts[t] == Victim(b, blk)
    requires !s.buffers[b].lock && s.buffers[b].count == 0 && !s.buffers[b].dirt
    requires Find(s.buffers, blk) == |s.buffers|
    ensures Inv(SetAct(Claim(s, b, blk), t, ReadLock(b, blk)))
  {
    var s' := SetAct(Claim(s, b, blk), t, ReadLock(b, blk));
    assert ActOk(s, s.acts[t]) && BufferOk(s, b);
    assert !Queued(s.queue, b);
    KeysFollowIdentities(s.queue, s.buffers, s'.buffers);
    forall c | 0 <= c < |s'.buffers| ensures BufferOk(s', c) {
      assert BufferOk(s, c);
      RefsUpdate(s.acts, t, ReadLock(b, blk), c);
    }
    forall u | 0 <= u < |s'.acts| ensures ActOk(s', s'.acts[u]) {
      if u != t {
        assert ActOk(s, s.acts[u]);
        UnreferencedMeansUnpinned(s.acts, u, b);
      }
    }
  }

  lemma EnqueuedAt(q: seq<Request>, bs: seq<Buffer>, r: Request) returns (p: nat)
    requires QueueRefers(q, bs) && r.bh < |bs|
    ensures p <= |q| && Enqueue(q, bs, r) == q[..p] + [r] + q[p..]
  {
    p := if q == [] then 0 else Elevator.Slot(Keys(q, bs), KeyOf(r.cmd, bs[r.bh].id), 0) + 1;
  }

  lemma EnqueuedMembers(q: seq<Request>, bs: seq<Buffer>, r: Request)
    requires QueueRefers(q, bs) && r.bh < |bs|
    ensures forall x :: x in Enqueue(q, bs, r) <==> x in q || x == r
  {
    var p := EnqueuedAt(q, bs, r);
    assert q == q[..p] + q[p..];
  }

  lemma EnqueuedBuffers(q: seq<Request>, bs: seq<Buffer>, r: Request, b: nat)
    requires QueueRefers(q, bs) && r.bh < |bs|
    ensures Queued(Enqueue(q, bs, r), b) <==> Queued(q, b) || b == r.bh
  {
    EnqueuedMembers(q, bs, r);
    var q' := Enqueue(q, bs, r);
    if Queued(q, b) { var x :| x in q && x.bh == b; assert x in q'; }
    if Queued(q', b) { var x :| x in q' && x.bh == b; assert x in q || x == r; }
    assert r in q';
  }

  lemma EnqueueKeepsDiffer(q: seq<Request>, bs: seq<Buffer>, r: Request)
    requires QueueRefers(q, bs) && r.bh < |bs|
    requires RequestsDiffer(q) && !Queued(q, r.bh) && SlotFree(q, r.slot)
    ensures RequestsDiffer(Enqueue(q, bs, r))
  {
    var p := EnqueuedAt(q, bs, r);
    var q' := q[..p] + [r] + q[p..];
    assert forall i :: 0 <= i < |q| ==> q[i] in q;
    forall i, j | 0 <= i < j < |q'| ensures q'[i].bh != q'[j].bh && q'[i].slot != q'[j].slot {
      var i', j' := if i > p then i - 1 else i, if j > p then j - 1 else j;
      assert i != p ==> q'[i] == q[i'];
      assert j != p ==> q'[j] == q[j'];
    }
  }

  // The queue of requests is the elevator's queue of keys.
  lemma EnqueueIsInsert(q: seq<Request>, bs: seq<Buffer>, r: Request)
    requires QueueRefers(q, bs) && r.bh < |bs|
    ensures QueueRefers(Enqueue(q, bs, r), bs)
    ensures Keys(Enqueue(q, bs, r), bs) == Elevator.Insert(Keys(q, bs), KeyOf(r.cmd, bs[r.bh].id))
  {
    EnqueuedMembers(q, bs, r);
    if q != [] { KeysOfSplice(q, bs, Elevator.Slot(Keys(q, bs), KeyOf(r.cmd, bs[r.bh].id), 0), r); }
  }

  lemma KeysOfSplice(q: seq<Request>, bs: seq<Buffer>, p: nat, r: Request)
    requires p < |q| && QueueRefers(q, bs) && r.bh < |bs| && QueueRefers(Elevator.Splice(q, p, r), bs)
    ensures Keys(Elevator.Splice(q, p, r), bs) == Elevator.Splice(Keys(q, bs), p, KeyOf(r.cmd, bs[r.bh].id))
  {
    var q', ks' := Elevator.Splice(q, p, r), Elevator.Splice(Keys(q, bs), p, KeyOf(r.cmd, bs[r.bh].id));
    forall i | 0 <= i < |q'| ensures Keys(q', bs)[i] == ks'[i] {
      assert q'[i] == if i <= p then q[i] else if i == p + 1 then r else q[i - 1];
    }
  }

  // One locked buffer per block makes the elevator's keys distinct.
  lemma NewKeyIsFresh(s: State, cmd: int, b: nat)
    requires QueueOk(s) && Unique(s.buffers) && b < |s.buffers| && !Queued(s.queue, b)
    requires s.buffers[b].id.dev != 0
    ensures KeyOf(cmd, s.buffers[b].id) !in Keys(s.queue, s.buffers)
  {
    var ks := Keys(s.queue, s.buffers);
    forall i | 0 <= i < |ks| ensures ks[i] != KeyOf(cmd, s.buffers[b].id) {
      var c := s.queue[i].bh;
      assert s.queue[i] in s.queue;
      assert c != b;
      assert s.buffers[c].id != s.buffers[b].id;
    }
  }

  lemma SubmitKeepsQueue(s: State, cmd: int, b: nat, slot: nat)
    requires Inv(s) && b < |s.buffers| && !Queued(s.queue, b) && s.buffers[b].lock
    requires cmd == if s.buffers[b].uptodate then Elevator.WRITE else Elevator.READ
    requires s.buffers[b].id.dev != 0 && s.buffers[b].id in s.disk
    requires slot < Elevator.SlotLimit(cmd) && SlotFree(s.queue, slot)
    ensures QueueOk(Submit(s, cmd, b, slot))
  {
    var s' := Submit(s, cmd, b, slot);
    var r := Request(cmd, b, slot, 0);
    NewKeyIsFresh(s, cmd, b);
    EnqueueIsInsert(s.queue, s.buffers, r);
    EnqueuedMembers(s.queue, s.buffers, r);
    EnqueueKeepsDiffer(s.queue, s.buffers, r);
    KeysFollowIdentities(s'.queue, s.buffers, s'.buffers);
    Elevator.InsertKeepsOneDescent(Keys(s.queue, s.buffers), KeyOf(cmd, s.buffers[b].id));
    forall x <- s'.queue ensures RequestOk(s'.buffers[x.bh], s'.disk, x) {
      if x != r { assert x in s.queue && x.bh != b; }
    }
  }

  // Where the owner of a lock goes on when its request is queued.
  function AfterSubmit(a: Activity): Activity
    requires a.ReadSlot? || a.WriteSlot?
  {
    if a.ReadSlot? then ReadWait(a.b, a.blk) else Sync(a.dev, a.b + 1, a.second, a.k)
  }

  lemma SubmitKeepsBuffers(s: State, t: nat, cmd: int, b: nat, slot: nat, a: Activity)
    requires Inv(s) && t < |s.acts| && b < |s.buffers| && OwnsLock(s.acts[t], b)
    requires a == AfterSubmit(s.acts[t])
    ensures BuffersOk(SetAct(Submit(s, cmd, b, slot), t, a))
  {
    var s' := SetAct(Submit(s, cmd, b, slot), t, a);
    forall c | 0 <= c < |s'.buffers| ensures BufferOk(s', c) {
      assert BufferOk(s, c);
      RefsUpdate(s.acts, t, a, c);
      EnqueuedBuffers(s.queue, s.buffers, Request(cmd, b, slot, 0), c);
    }
  }

  lemma SubmitKeepsActs(s: State, t: nat, cmd: int, b: nat, slot: nat, a: Activity)
    requires Inv(s) && t < |s.acts| && b < |s.buffers| && OwnsLock(s.acts[t], b)
    requires a == AfterSubmit(s.acts[t])
    ensures ActsOk(SetAct(Submit(s, cmd, b, slot), t, a))
  {
    var s' := SetAct(Submit(s, cmd, b, slot), t, a);
    assert ActOk(s, s.acts[t]);
    EnqueuedBuffers(s.queue, s.buffers, Request(cmd, b, slot, 0), b);
    forall u | 0 <= u < |s'.acts| && u != t ensures ActOk(s', s'.acts[u]) {
      var o := s.acts[u];
      assert ActOk(s, o) && !OwnsLock(o, b);
      if HasBuffer(o) {
        EnqueuedBuffers(s.queue, s.buffers, Request(cmd, b, slot, 0), o.b);
      }
    }
  }

  lemma SubmitKeepsInv(s: State, t: nat, cmd: int, b: nat, slot: nat, a: Activity)
    requires Inv(s) && t < |s.acts| && b < |s.buffers| && OwnsLock(s.acts[t], b)
    requires cmd == if s.acts[t].ReadSlot? then Elevator.READ else Elevator.WRITE
    requires slot < Elevator.SlotLimit(cmd) && SlotFree(s.queue, slot)
    requires a == AfterSubmit(s.acts[t])
    ensures Inv(SetAct(Submit(s, cmd, b, slot), t, a))
  {
    assert ActOk(s, s.acts[t]) && BufferOk(s, b);
    SubmitKeepsQueue(s, cmd, b, slot);
    SubmitKeepsBuffers(s, t, cmd, b, slot, a);
    SubmitKeepsActs(s, t, cmd, b, slot, a);
  }

  lemma ModifyKeepsInv(s: State, t: nat, data: Data)
    requires Inv(s) && Enabled(s, Modify(t, data))
    ensures Inv(Next(s, Modify(t, data)))
  {
    var s' := Next(s, Modify(t, data));
    assert ActOk(s, s.acts[t]);
    KeysFollowIdentities(s.queue, s.buffers, s'.buffers);
    forall c | 0 <= c < |s'.buffers| ensures BufferOk(s', c) {
      assert BufferOk(s, c);
    }
    forall u | 0 <= u < |s'.acts| ensures ActOk(s', s'.acts[u]) {
      assert ActOk(s, s.acts[u]);
    }
  }

  lemma SectorStepKeepsQueue(s: State, e: Event)
    requires Inv(s) && Enabled(s, e) && (e.ReadSector? || e.WriteSector? || e.WriteFault?)
    ensures QueueOk(Next(s, e))
  {
    var s' := Next(s, e);
    var b := s.queue[0].bh;
    assert s.queue[0] in s.queue;
    KeysFollowIdentities(s.queue, s.buffers, s'.buffers);
    assert Keys(s'.queue, s'.buffers) == Keys(s.queue, s.buffers);
    forall i | 0 <= i < |s'.queue| ensures RequestOk(s'.buffers[s'.queue[i].bh], s'.disk, s'.queue[i]) {
      assert s.queue[i] in s.queue;
      if i > 0 {
        var c := s.queue[i].bh;
        assert c != b && s.buffers[c].id != s.buffers[b].id;
      }
    }
  }

  lemma SectorStepKeepsInv(s: State, e: Event)
    requires Inv(s) && Enabled(s, e) && (e.ReadSector? || e.WriteSector? || e.WriteFault?)
    ensures Inv(Next(s, e))
  {
    var s' := Next(s, e);
    var b := s.queue[0].bh;
    assert s.queue[0] in s.queue;
    SectorStepKeepsQueue(s, e);
    HeadStepKeepsQueued(s.queue, s'.queue);
    forall c | 0 <= c < |s'.buffers| ensures BufferOk(s', c) {
      assert BufferOk(s, c) && Queued(s.queue, b);
    }
    forall u | 0 <= u < |s'.acts| ensures ActOk(s', s'.acts[u]) {
      assert ActOk(s, s.acts[u]);
    }
  }

  lemma HeadStepKeepsQueued(q: seq<Request>, q': seq<Request>)
    requires |q| == |q'| && forall i :: 0 <= i < |q| ==> q[i].bh == q'[i].bh
    ensures forall c :: Queued(q', c) <==> Queued(q, c)
  {
    forall c ensures Queued(q', c) <==> Queued(q, c) {
      if Queued(q, c) { var i :| 0 <= i < |q| && q[i].bh == c; assert q'[i] in q'; }
      if Queued(q', c) { var i :| 0 <= i < |q'| && q'[i].bh == c; assert q[i] in q; }
    }
  }

  lemma CompleteKeepsQueue(s: State)
    requires Inv(s) && Enabled(s, Complete)
    ensures QueueOk(Next(s, Complete))
  {
    var s' := Next(s, Complete);
    Elevator.ApplyKeepsShape(Keys(s.queue, s.buffers), Elevator.Finish);
    assert Keys(s'.queue, s.buffers) == Keys(s.queue, s.buffers)[1..];
    KeysFollowIdentities(s'.queue, s.buffers, s'.buffers);
    forall r <- s'.queue ensures RequestOk(s'.buffers[r.bh], s'.disk, r) {
      var i :| 0 <= i < |s'.queue| && s'.queue[i] == r;
      assert r == s.queue[i + 1] && r in s.queue;
    }
  }

  lemma CompleteKeepsInv(s: State)
    requires Inv(s) && Enabled(s, Complete)
    ensures Inv(Next(s, Complete))
  {
    var s' := Next(s, Complete);
    var b := s.queue[0].bh;
    assert s.queue[0] in s.queue && BufferOk(s, b);
    CompleteKeepsQueue(s);
    forall c | 0 <= c < |s'.buffers| ensures BufferOk(s', c) {
      assert BufferOk(s, c);
    }
    forall u | 0 <= u < |s'.acts| ensures ActOk(s', s'.acts[u]) {
      var o := s.acts[u];
      assert ActOk(s, o);
    }
  }

  // find_buffer found the block, and its buffer is counted.
  lemma FoundKeepsInv(s: State, t: nat, i: nat, a: Activity)
    requires Inv(s) && t < |s.acts| && i < |s.buffers| && (s.acts[t].Get? || s.acts[t].FreeGet?)
    requires a == if s.acts[t].Get? then HashWait(i, s.acts[t].blk) else FreeWait(i, s.acts[t].blk)
    requires s.buffers[i].id == s.acts[t].blk
    ensures Inv(SetAct(SetBuf(s, i, s.buffers[i].(count := s.buffers[i].count + 1)), t, a))
  {
    assert ActOk(s, s.acts[t]);
    CountStepKeepsInv(s, t, i, s.buffers[i].count + 1, a);
  }

  lemma ResumeLookupKeepsInv(s: State, t: nat, choice: nat)
    requires Inv(s) && Enabled(s, Resume(t, choice)) && (s.acts[t].Get? || s.acts[t].HashWait?)
    ensures Inv(ResumeStep(s, t, choice))
  {
    assert ActOk(s, s.acts[t]);
    match s.acts[t]
    case Get(blk) =>
      var i := Find(s.buffers, blk);
      if i < |s.buffers| {
        FoundKeepsInv(s, t, i, HashWait(i, blk));
      } else if !AllReferenced(s.buffers) {
        ActStepKeepsInv(s, t, Victim(choice, blk));
      }
    case HashWait(b, blk) =>
      if !s.buffers[b].lock {
        ActStepKeepsInv(s, t, if s.buffers[b].uptodate then Hold(b, blk) else ReadLock(b, blk));
      }
  }

  lemma ResumeVictimKeepsInv(s: State, t: nat, choice: nat)
    requires Inv(s) && Enabled(s, Resume(t, choice)) && s.acts[t].Victim?
    ensures Inv(ResumeStep(s, t, choice))
  {
    assert ActOk(s, s.acts[t]);
    var b, blk := s.acts[t].b, s.acts[t].blk;
    if s.buffers[b].lock {
    } else if s.buffers[b].count > 0 {
      ActStepKeepsInv(s, t, Get(blk));
    } else if s.buffers[b].dirt {
      ActStepKeepsInv(s, t, Sync(s.buffers[b].id.dev, 0, false, Reuse(b, blk)));
    } else if Find(s.buffers, blk) < |s.buffers| {
      ActStepKeepsInv(s, t, Get(blk));
    } else {
      ClaimKeepsInv(s, t, b, blk);
    }
  }

  lemma ResumeReadKeepsInv(s: State, t: nat, choice: nat)
    requires Inv(s) && Enabled(s, Resume(t, choice))
    requires s.acts[t].ReadLock? || s.acts[t].ReadSlot? || s.acts[t].ReadWait?
    ensures Inv(ResumeStep(s, t, choice))
  {
    assert ActOk(s, s.acts[t]);
    match s.acts[t]
    case ReadLock(b, blk) =>
      if s.buffers[b].lock {
      } else if s.buffers[b].uptodate {
        ActStepKeepsInv(s, t, ReadWait(b, blk));
      } else {
        LockStepKeepsInv(s, t, b, ReadSlot(b, blk));
      }
    case ReadSlot(b, blk) =>
      var limit := Elevator.SlotLimit(Elevator.READ);
      var slot := TopFree(s.queue, limit, limit);
      if slot < limit { SubmitKeepsInv(s, t, Elevator.READ, b, slot, ReadWait(b, blk)); }
    case ReadWait(b, blk) =>
      if !s.buffers[b].lock {
        assert !Queued(s.queue, b);
        ActStepKeepsInv(s, t, Hold(b, blk));
      }
  }

  lemma ResumeReleaseKeepsInv(s: State, t: nat, choice: nat)
    requires Inv(s) && Enabled(s, Resume(t, choice)) && s.acts[t].Release?
    ensures Inv(ResumeStep(s, t, choice))
  {
    var b := s.acts[t].b;
    assert ActOk(s, s.acts[t]) && BufferOk(s, b);
    PinnedMeansReferenced(s.acts, t, b);
    if !s.buffers[b].lock { CountStepKeepsInv(s, t, b, s.buffers[b].count - 1, Idle); }
  }

  lemma ResumeSyncKeepsInv(s: State, t: nat, choice: nat)
    requires Inv(s) && Enabled(s, Resume(t, choice)) && s.acts[t].Sync?
    ensures Inv(ResumeStep(s, t, choice))
  {
    assert ActOk(s, s.acts[t]);
    var Sync(dev, i, second, k) := s.acts[t];
    if i == |s.buffers| {
      ActStepKeepsInv(s, t, if second then After(k) else Sync(dev, 0, true, k));
    } else if s.buffers[i].id.dev == dev && s.buffers[i].lock {
    } else if s.buffers[i].id.dev == dev && s.buffers[i].dirt {
      assert BufferOk(s, i);
      LockStepKeepsInv(s, t, i, WriteSlot(i, dev, second, k));
    } else {
      ActStepKeepsInv(s, t, Sync(dev, i + 1, second, k));
    }
  }

  lemma ResumeWriteKeepsInv(s: State, t: nat, choice: nat)
    requires Inv(s) && Enabled(s, Resume(t, choice)) && s.acts[t].WriteSlot?
    ensures Inv(ResumeStep(s, t, choice))
  {
    assert ActOk(s, s.acts[t]);
    var limit := Elevator.SlotLimit(Elevator.WRITE);
    var slot := TopFree(s.queue, limit, limit);
    if slot < limit { SubmitKeepsInv(s, t, Elevator.WRITE, s.acts[t].b, slot, AfterSubmit(s.acts[t])); }
  }

  // The only reference to b is activity t's.
  lemma OnlyPin(acts: seq<Activity>, t: nat, b: nat)
    requires t < |acts| && Pins(acts[t], b) && Refs(acts, b) == 1
    ensures forall u :: 0 <= u < |acts| && u != t ==> !Pins(acts[u], b)
  {
    var acts' := acts[t := Idle];
    RefsUpdate(acts, t, Idle, b);
    forall u | 0 <= u < |acts| && u != t ensures !Pins(acts[u], b) {
      UnreferencedMeansUnpinned(acts', u, b);
    }
  }

  lemma DiscardKeepsInv(s: State, t: nat, b: nat, blk: Block)
    requires Inv(s) && t < |s.acts| && b < |s.buffers| && s.acts[t] == FreeWait(b, blk)
    requires !s.buffers[b].lock && s.buffers[b].count == 1
    ensures Inv(SetAct(Discard(s, b), t, Idle))
  {
    var s' := SetAct(Discard(s, b), t, Idle);
    assert ActOk(s, s.acts[t]) && BufferOk(s, b);
    assert !Queued(s.queue, b);
    OnlyPin(s.acts, t, b);
    KeysFollowIdentities(s.queue, s.buffers, s'.buffers);
    forall c | 0 <= c < |s'.buffers| ensures BufferOk(s', c) {
      assert BufferOk(s, c);
      RefsUpdate(s.acts, t, Idle, c);
    }
    forall u | 0 <= u < |s'.acts| ensures ActOk(s', s'.acts[u]) {
      if u != t { assert ActOk(s, s.acts[u]); }
    }
  }

  lemma ResumeFreeGetKeepsInv(s: State, t: nat, choice: nat)
    requires Inv(s) && Enabled(s, Resume(t, choice)) && s.acts[t].FreeGet?
    ensures Inv(ResumeStep(s, t, choice))
  {
    assert ActOk(s, s.acts[t]);
    var blk := s.acts[t].blk;
    var i := Find(s.buffers, blk);
    if i == |s.buffers| {
      assert ResumeStep(s, t, choice) == SetAct(s, t, Idle);
      ActStepKeepsInv(s, t, Idle);
    } else {
      var s1 := SetBuf(s, i, s.buffers[i].(count := s.buffers[i].count + 1));
      assert ResumeStep(s, t, choice) == SetAct(s1, t, FreeWait(i, blk));
      FoundKeepsInv(s, t, i, FreeWait(i, blk));
    }
  }

  lemma ResumeFreeWaitKeepsInv(s: State, t: nat, choice: nat)
    requires Inv(s) && Enabled(s, Resume(t, choice)) && s.acts[t].FreeWait?
    ensures Inv(ResumeStep(s, t, choice))
  {
    assert ActOk(s, s.acts[t]);
    var b, blk := s.acts[t].b, s.acts[t].blk;
    if s.buffers[b].lock {
    } else if s.buffers[b].count != 1 {
      ActStepKeepsInv(s, t, Kept(b, blk));
    } else {
      DiscardKeepsInv(s, t, b, blk);
    }
  }

  lemma ResumeKeepsInv(s: State, t: nat, choice: nat)
    requires Inv(s) && Enabled(s, Resume(t, choice))
    ensures Inv(ResumeStep(s, t, choice))
  {
    match s.acts[t]
    case Get(_) => ResumeLookupKeepsInv(s, t, choice);
    case HashWait(_, _) => ResumeLookupKeepsInv(s, t, choice);
    case Victim(_, _) => ResumeVictimKeepsInv(s, t, choice);
    case ReadLock(_, _) => ResumeReadKeepsInv(s, t, choice);
    case ReadSlot(_, _) => ResumeReadKeepsInv(s, t, choice);
    case ReadWait(_, _) => ResumeReadKeepsInv(s, t, choice);
    case Release(_, _) => ResumeReleaseKeepsInv(s, t, choice);
    case FreeGet(_) => ResumeFreeGetKeepsInv(s, t, choice);
    case FreeWait(_, _) => ResumeFreeWaitKeepsInv(s, t, choice);
    case Sync(_, _, _, _) => ResumeSyncKeepsInv(s, t, choice);
    case _ => ResumeWriteKeepsInv(s, t, choice);
  }

  lemma InitialIsInv(s: State)
    requires Initial(s)
    ensures Inv(s)
  {
    forall b | 0 <= b < |s.buffers| ensures BufferOk(s, b) {
      assert s.buffers[b] in s.buffers;
      NobodyRefers(s.acts, b);
    }
    forall t | 0 <= t < |s.acts| ensures ActOk(s, s.acts[t]) {
      assert s.acts[t] in s.acts;
    }
  }

  lemma {:induction false} NobodyRefers(acts: seq<Activity>, b: nat)
    requires forall a <- acts :: a.Idle?
    ensures Refs(acts, b) == 0
  {
    if acts != [] {
      assert acts[0] in acts;
      NobodyRefers(acts[1..], b);
    }
  }

  // Buffer identity, counts, locks and the device queue stay consistent in every
  // step of every activity and of the disk.
  lemma StepKeepsInv(s: State, e: Event)
    requires Inv(s) && Enabled(s, e)
    ensures Inv(Next(s, e))
  {
    match e
    case CallBread(t, blk) => ActStepKeepsInv(s, t, Get(blk));
    case CallSync(t, dev) => ActStepKeepsInv(s, t, Sync(dev, 0, false, Return));
    case Resume(t, choice) => ResumeKeepsInv(s, t, choice);
    case Modify(t, data) => ModifyKeepsInv(s, t, data);
    case CallBrelse(t) =>
      assert ActOk(s, s.acts[t]);
      ActStepKeepsInv(s, t, Release(s.acts[t].b, s.acts[t].blk));
    case CallFree(t, blk) => ActStepKeepsInv(s, t, FreeGet(blk));
    case Complete => CompleteKeepsInv(s);
    case _ => SectorStepKeepsInv(s, e);
  }
}
