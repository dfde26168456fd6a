module BufferCache {
  // What the block cache guarantees over every run of the protocol in CacheProtocol:
  // it is transparent, buffers keep their identity while they are used, and its device
  // queue is a run of the elevator.

  import opened CacheProtocol

  // ---------- Transparency ----------

  // The contents a reader of the block is entitled to: the cached data if it is
  // up to date, else the disk's.
  function Logical(s: State, blk: Block): Data
    requires blk in s.disk
  {
    var i := Find(s.buffers, blk);
    if i < |s.buffers| && s.buffers[i].uptodate then s.buffers[i].data else s.disk[blk]
  }

  lemma TheBuffer(bs: seq<Buffer>, blk: Block, i: nat)
    requires Unique(bs) && blk.dev != 0 && i < |bs| && bs[i].id == blk
    ensures Find(bs, blk) == i
  {
  }

  // A step that leaves every identity alone and changes at most what the request
  // or the client owns.
  lemma SameIdentitySameView(s: State, s': State, blk: Block)
    requires Unique(s.buffers) && |s'.buffers| == |s.buffers| && blk.dev != 0
    requires forall i :: 0 <= i < |s.buffers| ==> s'.buffers[i].id == s.buffers[i].id
    requires blk in s.disk && blk in s'.disk
    requires forall i :: 0 <= i < |s.buffers| && s.buffers[i].id == blk ==>
               s'.buffers[i].uptodate == s.buffers[i].uptodate &&
               (if s.buffers[i].uptodate then s'.buffers[i].data == s.buffers[i].data
                else s'.disk[blk] == s.disk[blk])
    requires (forall i :: 0 <= i < |s.buffers| ==> s.buffers[i].id != blk) ==> s'.disk[blk] == s.disk[blk]
    ensures Logical(s', blk) == Logical(s, blk)
  {
    var i, i' := Find(s.buffers, blk), Find(s'.buffers, blk);
    if i < |s.buffers| {
      assert Unique(s'.buffers);
      TheBuffer(s'.buffers, blk, i);
    } else {
      assert i' == |s.buffers|;
    }
  }

  lemma ClaimKeepsView(s: State, b: nat, blk: Block, any: Block)
    requires Inv(s) && b < |s.buffers| && any in s.disk && any.dev != 0 && blk.dev != 0
    requires !s.buffers[b].lock && !s.buffers[b].dirt && Find(s.buffers, blk) == |s.buffers|
    ensures Logical(Claim(s, b, blk), any) == Logical(s, any)
  {
    var s' := Claim(s, b, blk);
    var i := Find(s.buffers, any);
    assert BufferOk(s, b) && !Queued(s.queue, b) && Unique(s'.buffers);
    if any == blk {
      TheBuffer(s'.buffers, blk, b);
    } else if i == b {
      assert forall j :: 0 <= j < |s'.buffers| ==> s'.buffers[j].id != any;
    } else if i < |s.buffers| {
      TheBuffer(s'.buffers, any, i);
    }
  }

  // Is activity t about to take over its victim?
  predicate Claims(s: State, t: nat)
    requires Wellformed(s) && t < |s.acts|
  {
    var a := s.acts[t];
    assert a in s.acts;
    a.Victim? && !s.buffers[a.b].lock && s.buffers[a.b].count == 0 && !s.buffers[a.b].dirt &&
    Find(s.buffers, a.blk) == |s.buffers|
  }

  // Is activity t about to throw away what its buffer caches?
  predicate Discards(s: State, t: nat)
    requires Wellformed(s) && t < |s.acts|
  {
    var a := s.acts[t];
    assert a in s.acts;
    a.FreeWait? && !s.buffers[a.b].lock && s.buffers[a.b].id == a.blk && s.buffers[a.b].count == 1
  }

  lemma VictimFrame(s: State, t: nat, choice: nat)
    requires Enabled(s, Resume(t, choice)) && s.acts[t].Victim?
    ensures ResumeStep(s, t, choice).disk == s.disk
    ensures if Claims(s, t) then s.acts[t].b < |s.buffers| &&
              ResumeStep(s, t, choice).buffers == Claim(s, s.acts[t].b, s.acts[t].blk).buffers
            else ResumeStep(s, t, choice).buffers == s.buffers
  {
    assert s.acts[t] in s.acts;
  }

  lemma SlotFrame(s: State, t: nat, choice: nat)
    requires Enabled(s, Resume(t, choice)) && (s.acts[t].ReadSlot? || s.acts[t].WriteSlot?)
    ensures ResumeStep(s, t, choice).disk == s.disk && SameContents(s.buffers, ResumeStep(s, t, choice).buffers)
  {
    assert s.acts[t] in s.acts;
  }

  lemma DiscardFrame(s: State, t: nat, choice: nat)
    requires Enabled(s, Resume(t, choice)) && s.acts[t].FreeWait?
    ensures ResumeStep(s, t, choice).disk == s.disk
    ensures if Discards(s, t) then s.acts[t].b < |s.buffers| &&
              ResumeStep(s, t, choice).buffers == Discard(s, s.acts[t].b).buffers
            else SameContents(s.buffers, ResumeStep(s, t, choice).buffers)
  {
    assert s.acts[t] in s.acts;
  }

  lemma OtherFrame(s: State, t: nat, choice: nat)
    requires Enabled(s, Resume(t, choice)) && !s.acts[t].Victim? && !s.acts[t].FreeWait?
    ensures ResumeStep(s, t, choice).disk == s.disk && SameContents(s.buffers, ResumeStep(s, t, choice).buffers)
  {
    assert s.acts[t] in s.acts;
    if s.acts[t].ReadSlot? || s.acts[t].WriteSlot? {
      SlotFrame(s, t, choice);
    } else {
      match s.acts[t]
      case Get(_) =>
      case HashWait(_, _) =>
      case ReadLock(_, _) =>
      case Release(_, _) =>
      case Sync(_, _, _, _) =>
      case FreeGet(_) =>
      case _ =>
    }
  }

  lemma ResumeFrame(s: State, t: nat, choice: nat)
    requires Enabled(s, Resume(t, choice))
    ensures ResumeStep(s, t, choice).disk == s.disk
    ensures Claims(s, t) ==>
              s.acts[t].b < |s.buffers| &&
              ResumeStep(s, t, choice).buffers == Claim(s, s.acts[t].b, s.acts[t].blk).buffers
    ensures Discards(s, t) ==>
              s.acts[t].b < |s.buffers| && ResumeStep(s, t, choice).buffers == Discard(s, s.acts[t].b).buffers
    ensures !Claims(s, t) && !Discards(s, t) ==> SameContents(s.buffers, ResumeStep(s, t, choice).buffers)
  {
    if s.acts[t].Victim? {
      VictimFrame(s, t, choice);
    } else if s.acts[t].FreeWait? {
      DiscardFrame(s, t, choice);
    } else {
      OtherFrame(s, t, choice);
    }
  }

  predicate SameContents(bs: seq<Buffer>, bs': seq<Buffer>) {
    |bs'| == |bs| &&
    forall i :: 0 <= i < |bs| ==>
      bs'[i].id == bs[i].id && bs'[i].uptodate == bs[i].uptodate && bs'[i].data == bs[i].data
  }

  lemma DiscardSetsView(s: State, b: nat, blk: Block)
    requires Inv(s) && b < |s.buffers| && blk in s.disk && blk.dev != 0
    ensures Logical(Discard(s, b), blk) == if s.buffers[b].id == blk then s.disk[blk] else Logical(s, blk)
  {
    var s' := Discard(s, b);
    assert Unique(s'.buffers);
    if s.buffers[b].id == blk {
      TheBuffer(s'.buffers, blk, b);
    } else {
      SameIdentitySameView(s, s', blk);
    }
  }

  lemma ResumeKeepsView(s: State, t: nat, choice: nat, blk: Block)
    requires Inv(s) && Enabled(s, Resume(t, choice)) && blk in s.disk && blk.dev != 0
    ensures ResumeStep(s, t, choice).disk == s.disk
    ensures Logical(ResumeStep(s, t, choice), blk) ==
            if Discards(s, t) && s.acts[t].blk == blk then s.disk[blk] else Logical(s, blk)
  {
    ResumeFrame(s, t, choice);
    if Claims(s, t) {
      assert ActOk(s, s.acts[t]);
      ClaimKeepsView(s, s.acts[t].b, s.acts[t].blk, blk);
    } else if Discards(s, t) {
      var s', s1 := ResumeStep(s, t, choice), Discard(s, s.acts[t].b);
      DiscardSetsView(s, s.acts[t].b, blk);
      assert s'.buffers == s1.buffers && s'.disk == s1.disk;
    } else {
      SameIdentitySameView(s, ResumeStep(s, t, choice), blk);
    }
  }

  lemma ModifySetsView(s: State, t: nat, data: Data, blk: Block)
    requires Inv(s) && Enabled(s, Modify(t, data)) && blk in s.disk && blk.dev != 0
    ensures Logical(Next(s, Modify(t, data)), blk) == if s.acts[t].blk == blk then data else Logical(s, blk)
  {
    var s' := Next(s, Modify(t, data));
    var b := s.acts[t].b;
    assert ActOk(s, s.acts[t]) && Unique(s'.buffers);
    if s.acts[t].blk == blk {
      TheBuffer(s'.buffers, blk, b);
    } else {
      SameIdentitySameView(s, s', blk);
    }
  }

  lemma DiskStepKeepsView(s: State, e: Event, blk: Block)
    requires Inv(s) && Enabled(s, e) && blk in s.disk && blk.dev != 0
    requires e.ReadSector? || e.WriteSector? || e.WriteFault? || e.Complete?
    ensures Next(s, e).disk.Keys == s.disk.Keys
    ensures Logical(Next(s, e), blk) == Logical(s, blk)
  {
    var s' := Next(s, e);
    var r := s.queue[0];
    assert r in s.queue && RequestOk(s.buffers[r.bh], s.disk, r);
    if e.Complete? && s.buffers[r.bh].id == blk {
      assert Unique(s'.buffers);
      TheBuffer(s.buffers, blk, r.bh);
      TheBuffer(s'.buffers, blk, r.bh);
      var d, onDisk := s.buffers[r.bh].data, s.disk[blk];
      if r.cmd == Elevator.READ {
        assert d[0] == onDisk[0] && d[1] == onDisk[1];
        assert d == onDisk;
      }
    } else {
      SameIdentitySameView(s, s', blk);
    }
  }

  datatype Write = Write(blk: Block, data: Data)

  // What a step does to the blocks its clients see: Modify writes one, and free_block
  // puts one back to what the disk holds.
  function WritesOf(s: State, e: Event): seq<Write>
    requires Enabled(s, e)
  {
    if e.Modify? then [Write(s.acts[e.t].blk, e.data)]
    else if e.Resume? && Discards(s, e.t) then DiscardWrite(s, e.t)
    else []
  }

  function DiscardWrite(s: State, t: nat): seq<Write>
    requires Wellformed(s) && t < |s.acts| && Discards(s, t)
  {
    assert s.acts[t] in s.acts;
    [Write(s.acts[t].blk, s.disk[s.acts[t].blk])]
  }

  // What a plain disk holds at blk after these writes.
  function LastWritten(initial: Data, ws: seq<Write>, blk: Block): Data
    decreases |ws|
  {
    if ws == [] then initial
    else LastWritten(if ws[0].blk == blk then ws[0].data else initial, ws[1..], blk)
  }

  // The logical block map changes only where a client writes, and where free_block
  // throws away what the cache has of a block that nobody uses.
  lemma StepIsTransparent(s: State, e: Event, blk: Block)
    requires Inv(s) && Enabled(s, e) && blk in s.disk && blk.dev != 0
    ensures Next(s, e).disk.Keys == s.disk.Keys
    ensures Logical(Next(s, e), blk) ==
            if e.Modify? && s.acts[e.t].blk == blk then e.data
            else if e.Resume? && Discards(s, e.t) && s.acts[e.t].blk == blk then s.disk[blk]
            else Logical(s, blk)
  {
    match e
    case CallBread(t, b) => SameIdentitySameView(s, Next(s, e), blk);
    case CallSync(t, dev) => SameIdentitySameView(s, Next(s, e), blk);
    case CallBrelse(t) => SameIdentitySameView(s, Next(s, e), blk);
    case CallFree(t, b) => SameIdentitySameView(s, Next(s, e), blk);
    case Resume(t, choice) => ResumeKeepsView(s, t, choice, blk);
    case Modify(t, data) => ModifySetsView(s, t, data, blk);
    case _ => DiskStepKeepsView(s, e, blk);
  }

  // free_block never throws data away under somebody who uses the buffer.
  lemma DiscardsOnlyUnused(s: State, t: nat, u: nat)
    requires Inv(s) && t < |s.acts| && Discards(s, t) && u < |s.acts| && u != t
    ensures !Pins(s.acts[u], s.acts[t].b)
  {
    assert ActOk(s, s.acts[t]) && BufferOk(s, s.acts[t].b);
    OnlyPin(s.acts, t, s.acts[t].b);
  }

  // ---------- Whole runs ----------

  predicate RunEnabled(s: State, es: seq<Event>)
    decreases |es|
  {
    es == [] || (Enabled(s, es[0]) && RunEnabled(Next(s, es[0]), es[1..]))
  }

  function Run(s: State, es: seq<Event>): State
    requires RunEnabled(s, es)
    decreases |es|
  {
    if es == [] then s else Run(Next(s, es[0]), es[1..])
  }

  // The writes of a run, in order.
  function Writes(s: State, es: seq<Event>): seq<Write>
    requires RunEnabled(s, es)
    decreases |es|
  {
    if es == [] then [] else WritesOf(s, es[0]) + Writes(Next(s, es[0]), es[1..])
  }

  lemma {:induction false} RunKeepsInv(s: State, es: seq<Event>)
    requires Inv(s) && RunEnabled(s, es)
    ensures Inv(Run(s, es)) && Run(s, es).disk.Keys == s.disk.Keys
    decreases |es|
  {
    if es != [] {
      StepKeepsInv(s, es[0]);
      StepKeepsDisk(s, es[0]);
      RunKeepsInv(Next(s, es[0]), es[1..]);
    }
  }

  lemma StepKeepsDisk(s: State, e: Event)
    requires Inv(s) && Enabled(s, e)
    ensures Next(s, e).disk.Keys == s.disk.Keys
  {
    if e.Resume? {
      ResumeFrame(s, e.t, e.choice);
    } else if s.queue != [] {
      assert s.queue[0] in s.queue;
    }
  }

  // The cache agrees with the plain disk it speeds up, over every interleaving.
  lemma {:induction false} CacheIsTransparent(s: State, es: seq<Event>, blk: Block)
    requires Inv(s) && RunEnabled(s, es) && blk in s.disk && blk.dev != 0
    ensures blk in Run(s, es).disk
    ensures Logical(Run(s, es), blk) == LastWritten(Logical(s, blk), Writes(s, es), blk)
    decreases |es|
  {
    if es != [] {
      var s' := Next(s, es[0]);
      StepKeepsInv(s, es[0]);
      StepIsTransparent(s, es[0], blk);
      CacheIsTransparent(s', es[1..], blk);
      var ws := WritesOf(s, es[0]);
      if ws != [] {
        assert Writes(s, es)[0] == ws[0];
        assert Writes(s, es)[1..] == Writes(s', es[1..]);
      } else {
        assert Writes(s, es) == Writes(s', es[1..]);
      }
    }
  }

  // A bread that has returned holds the block's last written contents.
  lemma BreadReturnsLastWrite(s: State, es: seq<Event>, t: nat)
    requires Initial(s) && RunEnabled(s, es)
    requires t < |Run(s, es).acts| && Run(s, es).acts[t].Hold?
    ensures var a := Run(s, es).acts[t];
            a.b < |Run(s, es).buffers| && a.blk in s.disk &&
            Run(s, es).buffers[a.b].id == a.blk &&
            Run(s, es).buffers[a.b].data == LastWritten(s.disk[a.blk], Writes(s, es), a.blk)
  {
    InitialIsInv(s);
    RunKeepsInv(s, es);
    var f := Run(s, es);
    var a := f.acts[t];
    assert ActOk(f, a);
    CacheIsTransparent(s, es, a.blk);
    TheBuffer(f.buffers, a.blk, a.b);
    assert forall i :: 0 <= i < |s.buffers| ==> s.buffers[i] in s.buffers && s.buffers[i].id.dev == 0;
  }

  // A block whose buffer, if it has one, is clean and unlocked is up to date on the disk.
  lemma SyncedDiskIsCurrent(s: State, blk: Block)
    requires Inv(s) && forall b <- s.buffers :: b.id == blk ==> !b.dirt && !b.lock
    requires blk in s.disk && blk.dev != 0
    ensures s.disk[blk] == Logical(s, blk)
  {
    var i := Find(s.buffers, blk);
    if i < |s.buffers| {
      assert BufferOk(s, i) && s.buffers[i] in s.buffers;
    }
  }

  // ---------- Identity ----------

  // A buffer changes identity only when it is unreferenced, clean and unlocked, and
  // then its contents are on the disk.
  lemma IdentityChangesOnlyWhenFree(s: State, e: Event, b: nat)
    requires Inv(s) && Enabled(s, e) && b < |s.buffers|
    ensures |Next(s, e).buffers| == |s.buffers|
    ensures Next(s, e).buffers[b].id != s.buffers[b].id ==> Reusable(s, b)
  {
    assert BufferOk(s, b);
    if e.Resume? {
      assert s.acts[e.t] in s.acts;
      ResumeFrame(s, e.t, e.choice);
    }
  }

  // Nobody refers to the buffer and the disk already has what it holds.
  predicate Reusable(s: State, b: nat)
    requires b < |s.buffers|
  {
    var buf := s.buffers[b];
    buf.count == 0 && !buf.dirt && !buf.lock && !Queued(s.queue, b) &&
    (buf.uptodate ==> buf.id in s.disk && s.disk[buf.id] == buf.data)
  }

  // In every reachable state: one buffer per block, a waiting activity's buffer is
  // still the one it found (getblk's recheck succeeds), no bread fails, no brelse
  // panics, and the request served has a locked buffer.
  lemma ReachableStatesAreSane(s: State, es: seq<Event>)
    requires Initial(s) && RunEnabled(s, es)
    ensures Unique(Run(s, es).buffers)
    ensures forall a <- Run(s, es).acts ::
              !a.Failed? &&
              (a.HashWait? || a.FreeWait? ==> a.b < |Run(s, es).buffers| && Run(s, es).buffers[a.b].id == a.blk) &&
              (a.Release? ==> a.b < |Run(s, es).buffers| && Run(s, es).buffers[a.b].count > 0)
    ensures forall r <- Run(s, es).queue :: r.bh < |Run(s, es).buffers| && Run(s, es).buffers[r.bh].lock
  {
    InitialIsInv(s);
    RunKeepsInv(s, es);
    var f := Run(s, es);
    forall a <- f.acts ensures ActOk(f, a) && (a.Release? ==> f.buffers[a.b].count > 0) {
      var t :| 0 <= t < |f.acts| && f.acts[t] == a;
      assert ActOk(f, f.acts[t]);
      if a.Release? {
        PinnedMeansReferenced(f.acts, t, a.b);
        assert BufferOk(f, a.b);
      }
    }
  }

  // ---------- The device queue ----------

  // Does the step fill a request slot?
  predicate Submits(s: State, e: Event)
    requires Enabled(s, e)
  {
    e.Resume? && (s.acts[e.t].ReadSlot? || s.acts[e.t].WriteSlot?) &&
    var limit := Elevator.SlotLimit(SubmitCmd(s.acts[e.t]));
    TopFree(s.queue, limit, limit) < limit
  }

  function SubmitCmd(a: Activity): int { if a.ReadSlot? then Elevator.READ else Elevator.WRITE }

  function SubmitKey(s: State, e: Event): Elevator.Key
    requires Enabled(s, e) && Submits(s, e)
  {
    assert s.acts[e.t] in s.acts;
    KeyOf(SubmitCmd(s.acts[e.t]), s.buffers[s.acts[e.t].b].id)
  }

  // The elevator operation a step performs, if any.
  function OpOf(s: State, e: Event): seq<Elevator.Op>
    requires Enabled(s, e)
  {
    if e.Complete? then [Elevator.Finish]
    else if Submits(s, e) then [Elevator.Add(SubmitKey(s, e))]
    else []
  }

  function Ops(s: State, es: seq<Event>): seq<Elevator.Op>
    requires RunEnabled(s, es)
    decreases |es|
  {
    if es == [] then [] else OpOf(s, es[0]) + Ops(Next(s, es[0]), es[1..])
  }

  lemma QueuedIdentitiesKept(s: State, e: Event)
    requires Inv(s) && Enabled(s, e)
    ensures |Next(s, e).buffers| == |s.buffers|
    ensures forall r <- s.queue :: Next(s, e).buffers[r.bh].id == s.buffers[r.bh].id
  {
    if e.Resume? { ResumeFrame(s, e.t, e.choice); }
    forall r <- s.queue ensures Next(s, e).buffers[r.bh].id == s.buffers[r.bh].id {
      IdentityChangesOnlyWhenFree(s, e, r.bh);
    }
  }

  // The request a step submits.
  function Submitted(s: State, e: Event): Request
    requires Enabled(s, e) && Submits(s, e)
  {
    var a := s.acts[e.t];
    var limit := Elevator.SlotLimit(SubmitCmd(a));
    Request(SubmitCmd(a), a.b, TopFree(s.queue, limit, limit), 0)
  }

  lemma SubmitEnqueues(s: State, e: Event)
    requires Enabled(s, e) && Submits(s, e)
    ensures Submitted(s, e).bh < |s.buffers| && Next(s, e).queue == Enqueue(s.queue, s.buffers, Submitted(s, e))
    ensures |Next(s, e).buffers| == |s.buffers|
    ensures forall i :: 0 <= i < |s.buffers| ==> Next(s, e).buffers[i].id == s.buffers[i].id
  {
    assert s.acts[e.t] in s.acts;
  }

  lemma SubmitIsAdd(s: State, e: Event)
    requires Inv(s) && Enabled(s, e) && Submits(s, e)
    ensures SubmitKey(s, e) !in Keys(s.queue, s.buffers)
    ensures QueueRefers(Next(s, e).queue, Next(s, e).buffers)
    ensures Keys(Next(s, e).queue, Next(s, e).buffers) ==
            Elevator.Insert(Keys(s.queue, s.buffers), SubmitKey(s, e))
  {
    var a := s.acts[e.t];
    assert ActOk(s, a) && BufferOk(s, a.b);
    NewKeyIsFresh(s, SubmitCmd(a), a.b);
    SubmitEnqueues(s, e);
    EnqueueIsInsert(s.queue, s.buffers, Submitted(s, e));
    KeysFollowIdentities(Next(s, e).queue, s.buffers, Next(s, e).buffers);
  }

  // The requests of two queues are for the same commands and buffers.
  predicate SameRequests(q: seq<Request>, q': seq<Request>) {
    |q'| == |q| && forall i :: 0 <= i < |q| ==> q'[i].cmd == q[i].cmd && q'[i].bh == q[i].bh
  }

  lemma ResumeKeepsBuffersQueued(s: State, t: nat, choice: nat)
    requires Enabled(s, Resume(t, choice)) && !Submits(s, Resume(t, choice))
    ensures ResumeStep(s, t, choice).queue == s.queue
  {
    assert s.acts[t] in s.acts;
    if s.acts[t].ReadSlot? || s.acts[t].WriteSlot? {
    } else {
      match s.acts[t]
      case Get(_) =>
      case HashWait(_, _) =>
      case Victim(_, _) =>
      case Sync(_, _, _, _) =>
      case ReadLock(_, _) =>
      case ReadWait(_, _) =>
      case Release(_, _) =>
      case FreeWait(_, _) =>
      case _ =>
    }
  }

  lemma OtherStepsKeepBuffersQueued(s: State, e: Event)
    requires Inv(s) && Enabled(s, e) && !Submits(s, e) && !e.Complete?
    ensures SameRequests(s.queue, Next(s, e).queue)
  {
    if e.Resume? { ResumeKeepsBuffersQueued(s, e.t, e.choice); }
  }

  lemma OtherStepsKeepKeys(s: State, e: Event)
    requires Inv(s) && Enabled(s, e) && !Submits(s, e) && !e.Complete?
    ensures QueueRefers(Next(s, e).queue, Next(s, e).buffers)
    ensures Keys(Next(s, e).queue, Next(s, e).buffers) == Keys(s.queue, s.buffers)
  {
    StepKeepsInv(s, e);
    QueuedIdentitiesKept(s, e);
    OtherStepsKeepBuffersQueued(s, e);
    assert forall i :: 0 <= i < |s.queue| ==> s.queue[i] in s.queue;
  }

  // The device queue of the running cache is a run of the elevator, so
  // Elevator.NoStarvation and Elevator.BoundedBypass hold of it.
  lemma StepRunsElevator(s: State, e: Event)
    requires Inv(s) && Enabled(s, e)
    ensures QueueRefers(Next(s, e).queue, Next(s, e).buffers)
    ensures Elevator.LegalRun(Keys(s.queue, s.buffers), OpOf(s, e))
    ensures Elevator.Final(Keys(s.queue, s.buffers), OpOf(s, e)) == Keys(Next(s, e).queue, Next(s, e).buffers)
  {
    var ks := Keys(s.queue, s.buffers);
    if e.Complete? {
      ElevatorOneStep(ks, Elevator.Finish);
    } else if Submits(s, e) {
      SubmitIsAdd(s, e);
      ElevatorOneStep(ks, Elevator.Add(SubmitKey(s, e)));
    } else {
      OtherStepsKeepKeys(s, e);
    }
  }

  lemma ElevatorOneStep(ks: seq<Elevator.Key>, op: Elevator.Op)
    requires Elevator.Legal(ks, op)
    ensures Elevator.LegalRun(ks, [op]) && Elevator.Final(ks, [op]) == Elevator.Apply(ks, op)
  {
  }

  lemma {:induction false} ElevatorSplit(ks: seq<Elevator.Key>, a: seq<Elevator.Op>, b: seq<Elevator.Op>)
    requires Elevator.LegalRun(ks, a) && Elevator.LegalRun(Elevator.Final(ks, a), b)
    ensures Elevator.LegalRun(ks, a + b)
    ensures Elevator.Final(ks, a + b) == Elevator.Final(Elevator.Final(ks, a), b)
    decreases |a|
  {
    if a == [] {
      assert a + b == b;
    } else {
      assert (a + b)[1..] == a[1..] + b;
      ElevatorSplit(Elevator.Apply(ks, a[0]), a[1..], b);
    }
  }

  lemma {:induction false} RunIsElevatorRun(s: State, es: seq<Event>)
    requires Inv(s) && RunEnabled(s, es)
    ensures QueueRefers(Run(s, es).queue, Run(s, es).buffers)
    ensures Elevator.LegalRun(Keys(s.queue, s.buffers), Ops(s, es))
    ensures Elevator.Final(Keys(s.queue, s.buffers), Ops(s, es)) == Keys(Run(s, es).queue, Run(s, es).buffers)
    decreases |es|
  {
    if es != [] {
      StepKeepsInv(s, es[0]);
      StepRunsElevator(s, es[0]);
      RunIsElevatorRun(Next(s, es[0]), es[1..]);
      ElevatorSplit(Keys(s.queue, s.buffers), OpOf(s, es[0]), Ops(Next(s, es[0]), es[1..]));
    }
  }

  // The keys of the requests that a run completes, in order.
  function Completed(s: State, es: seq<Event>): seq<Elevator.Key>
    requires RunEnabled(s, es)
    decreases |es|
  {
    if es == [] then [] else CompletedBy(s, es[0]) + Completed(Next(s, es[0]), es[1..])
  }

  function CompletedBy(s: State, e: Event): seq<Elevator.Key>
    requires Enabled(s, e)
  {
    if e.Complete? then assert s.queue[0] in s.queue; [KeyOf(s.queue[0].cmd, s.buffers[s.queue[0].bh].id)] else []
  }

  lemma {:induction false} ServedSplit(ks: seq<Elevator.Key>, a: seq<Elevator.Op>, b: seq<Elevator.Op>)
    requires Elevator.LegalRun(ks, a) && Elevator.LegalRun(Elevator.Final(ks, a), b)
    requires Elevator.LegalRun(ks, a + b)
    ensures Elevator.Served(ks, a + b) == Elevator.Served(ks, a) + Elevator.Served(Elevator.Final(ks, a), b)
    decreases |a|
  {
    if a == [] {
      assert a + b == b;
    } else {
      assert (a + b)[1..] == a[1..] + b;
      ServedSplit(Elevator.Apply(ks, a[0]), a[1..], b);
    }
  }

  lemma StepCompletes(s: State, e: Event)
    requires Inv(s) && Enabled(s, e)
    ensures Elevator.LegalRun(Keys(s.queue, s.buffers), OpOf(s, e))
    ensures Elevator.Served(Keys(s.queue, s.buffers), OpOf(s, e)) == CompletedBy(s, e)
  {
    StepRunsElevator(s, e);
    var ks, ops := Keys(s.queue, s.buffers), OpOf(s, e);
    if ops != [] {
      assert ops[1..] == [];
      assert Elevator.Served(Elevator.Apply(ks, ops[0]), ops[1..]) == [];
    }
  }

  // The order of completion is the one the elevator serves.
  lemma {:induction false} CompletedIsServed(s: State, es: seq<Event>)
    requires Inv(s) && RunEnabled(s, es)
    ensures Elevator.LegalRun(Keys(s.queue, s.buffers), Ops(s, es))
    ensures Elevator.Served(Keys(s.queue, s.buffers), Ops(s, es)) == Completed(s, es)
    decreases |es|
  {
    RunIsElevatorRun(s, es);
    if es != [] {
      StepKeepsInv(s, es[0]);
      StepRunsElevator(s, es[0]);
      StepCompletes(s, es[0]);
      CompletedIsServed(Next(s, es[0]), es[1..]);
      ServedSplit(Keys(s.queue, s.buffers), OpOf(s, es[0]), Ops(Next(s, es[0]), es[1..]));
    }
  }

  function CommandKeys(cmd: int, blks: set<Block>): set<Elevator.Key> {
    set blk <- blks :: KeyOf(cmd, blk)
  }

  // All keys that requests for these blocks can have.
  function BlockKeys(blks: set<Block>): set<Elevator.Key> {
    CommandKeys(Elevator.READ, blks) + CommandKeys(Elevator.WRITE, blks)
  }

  lemma {:induction false} CommandKeysSize(cmd: int, blks: set<Block>)
    ensures |CommandKeys(cmd, blks)| <= |blks|
    decreases |blks|
  {
    if blks != {} {
      var blk :| blk in blks;
      CommandKeysSize(cmd, blks - {blk});
      assert CommandKeys(cmd, blks) == CommandKeys(cmd, blks - {blk}) + {KeyOf(cmd, blk)};
    } else {
      assert CommandKeys(cmd, blks) == {};
    }
  }

  lemma SubmitsForDiskBlocks(s: State, e: Event)
    requires Inv(s) && Enabled(s, e) && Submits(s, e)
    ensures SubmitKey(s, e) in BlockKeys(s.disk.Keys)
  {
    var a := s.acts[e.t];
    assert ActOk(s, a) && BufferOk(s, a.b);
    assert s.buffers[a.b].id in s.disk.Keys;
  }

  lemma {:induction false} RunSubmitsForDiskBlocks(s: State, es: seq<Event>)
    requires Inv(s) && RunEnabled(s, es)
    ensures Elevator.AddsIn(Ops(s, es), BlockKeys(s.disk.Keys))
    decreases |es|
  {
    if es != [] {
      StepKeepsInv(s, es[0]);
      StepKeepsDisk(s, es[0]);
      RunSubmitsForDiskBlocks(Next(s, es[0]), es[1..]);
      if Submits(s, es[0]) { SubmitsForDiskBlocks(s, es[0]); }
    }
  }

  lemma QueuedKeysAreOfDisk(s: State)
    requires Inv(s)
    ensures Elevator.KeysIn(Keys(s.queue, s.buffers), BlockKeys(s.disk.Keys))
  {
    var ks := Keys(s.queue, s.buffers);
    forall i | 0 <= i < |ks| ensures ks[i] in BlockKeys(s.disk.Keys) {
      assert s.queue[i] in s.queue;
      assert RequestOk(s.buffers[s.queue[i].bh], s.disk, s.queue[i]);
      assert s.buffers[s.queue[i].bh].id in s.disk.Keys;
    }
  }

  // Whatever the activities submit after a request, from its submission to its own
  // completion the disk serves at most two ascending sweeps, so at most four requests
  // for each block of the disk.
  lemma SubmittedRequestsAreServedInTime(s: State, e: Event, es: seq<Event>)
    requires Inv(s) && Enabled(s, e) && Submits(s, e) && RunEnabled(Next(s, e), es)
    ensures Elevator.Descents(Elevator.UpTo(Completed(Next(s, e), es), SubmitKey(s, e))) <= 1
    ensures |Elevator.UpTo(Completed(Next(s, e), es), SubmitKey(s, e))| <= 4 * |s.disk|
  {
    StepKeepsInv(s, e);
    StepKeepsDisk(s, e);
    SubmitIsAdd(s, e);
    CompletedIsServed(Next(s, e), es);
    QueuedKeysAreOfDisk(s);
    SubmitsForDiskBlocks(s, e);
    RunSubmitsForDiskBlocks(Next(s, e), es);
    var ks, ops := Keys(s.queue, s.buffers), Ops(Next(s, e), es);
    Elevator.NoStarvation(ks, SubmitKey(s, e), ops);
    Elevator.BoundedBypass(ks, SubmitKey(s, e), ops, BlockKeys(s.disk.Keys));
    CommandKeysSize(Elevator.READ, s.disk.Keys);
    CommandKeysSize(Elevator.WRITE, s.disk.Keys);
  }

  // Writes cannot fill the queue: when a read has to sleep for a slot, all of the
  // last third is taken by reads.
  lemma ReadsSleepOnlyBehindReads(s: State, j: nat)
    requires Inv(s) && NoSlotFor(s.queue, Elevator.READ)
    requires Elevator.SlotLimit(Elevator.WRITE) <= j < Elevator.SlotLimit(Elevator.READ)
    ensures exists r <- s.queue :: r.slot == j && r.cmd == Elevator.READ
  {
    NoneFree(s.queue, 32, 32, j);
    var r :| r in s.queue && r.slot == j;
    assert RequestOk(s.buffers[r.bh], s.disk, r);
  }

  // make_request found every slot open to cmd taken and sleeps.
  predicate NoSlotFor(q: seq<Request>, cmd: int) {
    TopFree(q, Elevator.SlotLimit(cmd), Elevator.SlotLimit(cmd)) == Elevator.SlotLimit(cmd)
  }

  lemma {:induction false} NoneFree(q: seq<Request>, limit: nat, i: nat, j: nat)
    requires j < i <= limit && TopFree(q, limit, i) == limit
    ensures !SlotFree(q, j)
  {
    if j < i - 1 { NoneFree(q, limit, i - 1, j); }
  }
}
