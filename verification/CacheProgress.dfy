module CacheProgress {
  // What the calls of the block cache achieve, over every run of the protocol in
  // CacheProtocol: sync_dev brings the blocks of its device to the disk, and every call
  // goes on whenever nothing keeps it asleep and comes to its end.

  import Elevator
  import opened BufferCache
  import opened CacheProtocol

  // ---------- sync_dev ----------

  // Has the sync_dev of this activity still to come to buffer b?
  predicate ToCome(a: Activity, dev: nat, b: nat) {
    (a.Sync? && a.dev == dev && (!a.second || a.i <= b)) ||
    (a.WriteSlot? && a.dev == dev && (!a.second || a.b <= b))
  }

  // If the block is cached and dirty, then activity t has still to come to its buffer.
  ghost predicate InHand(s: State, t: nat, blk: Block) {
    t < |s.acts| &&
    forall b :: 0 <= b < |s.buffers| && s.buffers[b].id == blk && s.buffers[b].dirt ==> ToCome(s.acts[t], blk.dev, b)
  }

  // Only Modify makes a block dirty.
  lemma DirtComesFromModify(s: State, e: Event, b: nat)
    requires Inv(s) && Enabled(s, e) && b < |s.buffers| && !e.Modify?
    ensures |Next(s, e).buffers| == |s.buffers|
    ensures Next(s, e).buffers[b].dirt ==> s.buffers[b].dirt && Next(s, e).buffers[b].id == s.buffers[b].id
  {
    IdentityChangesOnlyWhenFree(s, e, b);
    if e.Resume? { ResumeMakesNothingDirty(s, e.t, e.choice, b); }
  }

  lemma ResumeMakesNothingDirty(s: State, t: nat, choice: nat, b: nat)
    requires Inv(s) && Enabled(s, Resume(t, choice)) && b < |s.buffers|
    ensures |ResumeStep(s, t, choice).buffers| == |s.buffers|
    ensures ResumeStep(s, t, choice).buffers[b].dirt ==> s.buffers[b].dirt
  {
    assert ActOk(s, s.acts[t]);
    match s.acts[t]
    case Get(_) =>
    case HashWait(_, _) =>
    case Victim(_, _) =>
    case ReadLock(_, _) =>
    case ReadSlot(_, _) =>
    case ReadWait(_, _) =>
    case Release(_, _) =>
    case WriteSlot(_, _, _, _) =>
    case Sync(_, _, _, _) =>
    case FreeGet(_) =>
    case FreeWait(_, _) =>
    case _ =>
  }

  lemma SyncStepKeepsInHand(s: State, t: nat, choice: nat, blk: Block)
    requires Inv(s) && Enabled(s, Resume(t, choice)) && InHand(s, t, blk) && blk.dev != 0
    ensures InHand(ResumeStep(s, t, choice), t, blk)
  {
    var s' := ResumeStep(s, t, choice);
    forall b | 0 <= b < |s'.buffers| && s'.buffers[b].id == blk && s'.buffers[b].dirt
      ensures ToCome(s'.acts[t], blk.dev, b)
    {
      DirtComesFromModify(s, Resume(t, choice), b);
      assert ToCome(s.acts[t], blk.dev, b);
    }
  }

  lemma OtherStepKeepsAct(s: State, e: Event, t: nat)
    requires Enabled(s, e) && t < |s.acts| && !(e.Resume? && e.t == t) && !s.acts[t].Idle? && !s.acts[t].Hold?
    ensures |Next(s, e).acts| == |s.acts| && Next(s, e).acts[t] == s.acts[t]
  {
    if e.Resume? { ResumeSetsOwnAct(s, e.t, e.choice); }
  }

  lemma ResumeSetsOwnAct(s: State, t: nat, choice: nat)
    requires Enabled(s, Resume(t, choice))
    ensures var acts := ResumeStep(s, t, choice).acts; |acts| == |s.acts| && acts == s.acts[t := acts[t]]
  {
    assert s.acts[t] in s.acts;
    match s.acts[t]
    case Get(_) =>
    case HashWait(_, _) =>
    case Victim(_, _) =>
    case ReadLock(_, _) =>
    case ReadSlot(_, _) =>
    case ReadWait(_, _) =>
    case Release(_, _) =>
    case WriteSlot(_, _, _, _) =>
    case Sync(_, _, _, _) =>
    case FreeGet(_) =>
    case FreeWait(_, _) =>
    case _ =>
  }

  lemma StepKeepsSize(s: State, e: Event)
    requires Inv(s) && Enabled(s, e)
    ensures |Next(s, e).acts| == |s.acts| && |Next(s, e).buffers| == |s.buffers|
  {
    if e.Resume? {
      ResumeSetsOwnAct(s, e.t, e.choice);
      ResumeFrame(s, e.t, e.choice);
    }
  }

  lemma StepKeepsInHand(s: State, e: Event, t: nat, blk: Block)
    requires Inv(s) && Enabled(s, e) && InHand(s, t, blk) && blk.dev != 0 && !(e.Modify? && s.acts[e.t].blk == blk)
    ensures InHand(Next(s, e), t, blk)
  {
    if e.Resume? && e.t == t {
      SyncStepKeepsInHand(s, t, e.choice, blk);
    } else {
      OtherStepKeepsInHand(s, e, t, blk);
    }
  }

  lemma OtherStepKeepsInHand(s: State, e: Event, t: nat, blk: Block)
    requires Inv(s) && Enabled(s, e) && InHand(s, t, blk) && !(e.Resume? && e.t == t)
    requires !(e.Modify? && s.acts[e.t].blk == blk)
    ensures InHand(Next(s, e), t, blk)
  {
    StepKeepsSize(s, e);
    forall b | 0 <= b < |Next(s, e).buffers| && Next(s, e).buffers[b].id == blk && Next(s, e).buffers[b].dirt
      ensures ToCome(Next(s, e).acts[t], blk.dev, b)
    {
      DirtWasThere(s, e, blk, b);
      StillToCome(s, e, t, blk.dev, b);
    }
  }

  lemma StillToCome(s: State, e: Event, t: nat, dev: nat, b: nat)
    requires Enabled(s, e) && t < |s.acts| && !(e.Resume? && e.t == t) && ToCome(s.acts[t], dev, b)
    ensures |Next(s, e).acts| == |s.acts| && ToCome(Next(s, e).acts[t], dev, b)
  {
    OtherStepKeepsAct(s, e, t);
  }

  // ... and a block that nobody modifies was dirty before.
  lemma DirtWasThere(s: State, e: Event, blk: Block, b: nat)
    requires Inv(s) && Enabled(s, e) && !(e.Modify? && s.acts[e.t].blk == blk)
    requires b < |Next(s, e).buffers| && Next(s, e).buffers[b].id == blk && Next(s, e).buffers[b].dirt
    ensures b < |s.buffers| && s.buffers[b].id == blk && s.buffers[b].dirt
  {
    if e.Modify? {
      assert ActOk(s, s.acts[e.t]);
    } else {
      IdentityChangesOnlyWhenFree(s, e, if b < |s.buffers| then b else 0);
      DirtComesFromModify(s, e, b);
    }
  }

  // The writes of a run leave the block alone.
  predicate Unwritten(ws: seq<Write>, blk: Block) { forall w <- ws :: w.blk != blk }

  lemma {:induction false} UnwrittenKeepsLast(initial: Data, ws: seq<Write>, blk: Block)
    requires Unwritten(ws, blk)
    ensures LastWritten(initial, ws, blk) == initial
  {
    if ws != [] { UnwrittenKeepsLast(initial, ws[1..], blk); }
  }

  lemma {:induction false} RunKeepsInHand(s: State, es: seq<Event>, t: nat, blk: Block)
    requires Inv(s) && RunEnabled(s, es) && InHand(s, t, blk) && blk.dev != 0 && Unwritten(Writes(s, es), blk)
    ensures InHand(Run(s, es), t, blk)
    decreases |es|
  {
    if es != [] {
      var ws, rest := WritesOf(s, es[0]), Writes(Next(s, es[0]), es[1..]);
      assert Writes(s, es) == ws + rest;
      if es[0].Modify? { assert ws[0] in Writes(s, es); }
      forall w <- rest ensures w.blk != blk { assert w in Writes(s, es); }
      StepKeepsInv(s, es[0]);
      StepKeepsInHand(s, es[0], t, blk);
      RunKeepsInHand(Next(s, es[0]), es[1..], t, blk);
    }
  }

  // When sync_dev has returned, and the requests it has queued are done, the disk holds
  // for every block of its device what the cache held when it was called, unless the
  // block has been written meanwhile.
  lemma SyncReachesDisk(s: State, es: seq<Event>, t: nat, blk: Block)
    requires Inv(s) && es != [] && es[0] == CallSync(t, blk.dev) && RunEnabled(s, es)
    requires blk in s.disk && blk.dev != 0 && Unwritten(Writes(s, es), blk)
    requires t < |Run(s, es).acts| && Run(s, es).acts[t].Idle?
    requires forall b <- Run(s, es).buffers :: b.id == blk ==> !b.lock
    ensures blk in Run(s, es).disk && Run(s, es).disk[blk] == Logical(s, blk)
  {
    var s1, f := Next(s, es[0]), Run(s, es);
    StepKeepsInv(s, es[0]);
    assert Writes(s, es) == Writes(s1, es[1..]);
    RunKeepsInHand(s1, es[1..], t, blk);
    RunKeepsInv(s, es);
    forall b <- f.buffers ensures b.id == blk ==> !b.dirt {
      var c :| 0 <= c < |f.buffers| && f.buffers[c] == b;
    }
    SyncedDiskIsCurrent(f, blk);
    CacheIsTransparent(s, es, blk);
    UnwrittenKeepsLast(Logical(s, blk), Writes(s, es), blk);
  }

  // A write is queued only for a buffer that is dirty, a read only for one without data.
  lemma SubmitsWhatIsNeeded(s: State, e: Event)
    requires Inv(s) && Enabled(s, e) && Submits(s, e)
    ensures var a := s.acts[e.t];
            a.b < |s.buffers| &&
            if SubmitCmd(a) == Elevator.WRITE then s.buffers[a.b].dirt else !s.buffers[a.b].uptodate
  {
    assert ActOk(s, s.acts[e.t]);
  }

  // ---------- Progress ----------

  // Does the activity sleep if it is resumed now?
  predicate Asleep(s: State, t: nat)
    requires Wellformed(s) && t < |s.acts|
  {
    assert s.acts[t] in s.acts;
    match s.acts[t]
    case Get(blk) => forall b <- s.buffers :: b.count > 0 && b.id != blk
    case ReadSlot(_, _) => forall slot :: 0 <= slot < Elevator.NR_REQUEST ==> !SlotFree(s.queue, slot)
    case WriteSlot(_, _, _, _) => forall slot :: 0 <= slot < Elevator.NR_REQUEST * 2 / 3 ==> !SlotFree(s.queue, slot)
    case Sync(dev, i, _, _) => i < |s.buffers| && s.buffers[i].id.dev == dev && s.buffers[i].lock
    case FreeGet(_) => false
    case Idle | Hold(_, _) | Kept(_, _) | Failed => true
    case _ => s.buffers[s.acts[t].b].lock
  }

  lemma NoneFreeMeans(q: seq<Request>, limit: nat)
    ensures TopFree(q, limit, limit) == limit <==> forall slot :: 0 <= slot < limit ==> !SlotFree(q, slot)
  {
    if TopFree(q, limit, limit) == limit {
      forall slot: nat | slot < limit ensures !SlotFree(q, slot) { NoneFree(q, limit, limit, slot); }
    }
  }

  lemma SlotWaitersMove(s: State, t: nat, choice: nat)
    requires Inv(s) && Enabled(s, Resume(t, choice)) && (s.acts[t].ReadSlot? || s.acts[t].WriteSlot?)
    ensures if Asleep(s, t) then ResumeStep(s, t, choice) == s
            else |ResumeStep(s, t, choice).acts| == |s.acts| && ResumeStep(s, t, choice).acts[t] != s.acts[t]
  {
    assert ActOk(s, s.acts[t]);
    NoneFreeMeans(s.queue, Elevator.SlotLimit(SubmitCmd(s.acts[t])));
  }

  // An activity that is resumed moves on, unless nothing has changed and it sleeps again.
  lemma MovesUnlessAsleep(s: State, t: nat, choice: nat)
    requires Inv(s) && Enabled(s, Resume(t, choice))
    ensures if Asleep(s, t) then ResumeStep(s, t, choice) == s
            else |ResumeStep(s, t, choice).acts| == |s.acts| && ResumeStep(s, t, choice).acts[t] != s.acts[t]
  {
    assert ActOk(s, s.acts[t]);
    match s.acts[t]
    case Get(_) =>
    case HashWait(_, _) =>
    case Victim(_, _) =>
    case ReadLock(_, _) =>
    case ReadSlot(_, _) => SlotWaitersMove(s, t, choice);
    case ReadWait(_, _) =>
    case Release(_, _) =>
    case WriteSlot(_, _, _, _) => SlotWaitersMove(s, t, choice);
    case Sync(_, _, _, _) =>
    case FreeGet(_) =>
    case FreeWait(_, _) =>
    case _ =>
  }

  // ---------- Every call ends ----------

  // Moves left in sync_dev, with n buffers, at buffer i.
  function SyncRank(n: nat, i: int, second: bool): int { 2 * (n - i) + if second then 1 else 2 * n + 2 }

  // Moves left in a call that is never set back.
  function Rank(n: nat, a: Activity): int {
    match a
    case Get(_) => 6
    case Victim(_, _) => 5
    case HashWait(_, _) => 4
    case ReadLock(_, _) => 3
    case ReadSlot(_, _) => 2
    case ReadWait(_, _) => 1
    case Release(_, _) => 1
    case FreeGet(_) => 2
    case FreeWait(_, _) => 1
    case Sync(_, i, second, k) => SyncRank(n, i, second) + if k.Reuse? then 5 else 0
    case WriteSlot(b, _, second, k) => SyncRank(n, b, second) - 1 + if k.Reuse? then 5 else 0
    case _ => 0
  }

  // getblk finds its victim taken or dirty, or the block in the cache by now.
  predicate SetBack(s: State, t: nat)
    requires Wellformed(s) && t < |s.acts|
  {
    var a := s.acts[t];
    assert a in s.acts;
    a.Victim? && (s.buffers[a.b].count > 0 || s.buffers[a.b].dirt || exists b <- s.buffers :: b.id == a.blk)
  }

  // What a setback costs: a sync_dev and another look for a victim.
  function Loss(n: nat): nat { 4 * n + 3 }

  lemma SubmitterMoves(s: State, t: nat, choice: nat)
    requires Inv(s) && Enabled(s, Resume(t, choice)) && !Asleep(s, t) && (s.acts[t].ReadSlot? || s.acts[t].WriteSlot?)
    ensures |ResumeStep(s, t, choice).acts| == |s.acts|
    ensures ResumeStep(s, t, choice).acts[t] == AfterSubmit(s.acts[t])
  {
    NoneFreeMeans(s.queue, Elevator.SlotLimit(SubmitCmd(s.acts[t])));
  }

  lemma VictimMoves(s: State, t: nat, choice: nat)
    requires Inv(s) && Enabled(s, Resume(t, choice)) && !Asleep(s, t) && s.acts[t].Victim?
    ensures |ResumeStep(s, t, choice).acts| == |s.acts|
    ensures var a, n := ResumeStep(s, t, choice).acts[t], |s.buffers|;
            if SetBack(s, t) then Rank(n, a) <= 4 * n + 7 else a.ReadLock?
  {
    assert ActOk(s, s.acts[t]);
  }

  lemma SyncMoves(s: State, t: nat, choice: nat)
    requires Inv(s) && Enabled(s, Resume(t, choice)) && !Asleep(s, t) && s.acts[t].Sync?
    ensures |ResumeStep(s, t, choice).acts| == |s.acts|
    ensures Rank(|s.buffers|, ResumeStep(s, t, choice).acts[t]) < Rank(|s.buffers|, s.acts[t])
  {
    assert ActOk(s, s.acts[t]);
  }

  lemma MoveLowersRank(s: State, t: nat, choice: nat)
    requires Inv(s) && Enabled(s, Resume(t, choice)) && !Asleep(s, t)
    ensures |ResumeStep(s, t, choice).acts| == |s.acts|
    ensures var n := |s.buffers|;
            Rank(n, ResumeStep(s, t, choice).acts[t]) < Rank(n, s.acts[t]) + if SetBack(s, t) then Loss(n) else 0
  {
    assert ActOk(s, s.acts[t]);
    match s.acts[t]
    case Get(_) =>
    case HashWait(_, _) =>
    case Victim(_, _) => VictimMoves(s, t, choice);
    case ReadLock(_, _) =>
    case ReadSlot(_, _) => SubmitterMoves(s, t, choice);
    case ReadWait(_, _) =>
    case Release(_, _) =>
    case WriteSlot(_, _, _, _) => SubmitterMoves(s, t, choice);
    case Sync(_, _, _, _) => SyncMoves(s, t, choice);
    case FreeGet(_) =>
    case FreeWait(_, _) =>
    case _ =>
  }

  predicate IsMove(s: State, e: Event, t: nat)
    requires Enabled(s, e)
  {
    e.Resume? && e.t == t && !Asleep(s, t)
  }

  // How often activity t is resumed and does not sleep again at once.
  function Moves(s: State, es: seq<Event>, t: nat): nat
    requires RunEnabled(s, es)
    decreases |es|
  {
    if es == [] then 0 else (if IsMove(s, es[0], t) then 1 else 0) + Moves(Next(s, es[0]), es[1..], t)
  }

  // The moves that setbacks cost it.
  function Lost(s: State, es: seq<Event>, t: nat): nat
    requires RunEnabled(s, es)
    decreases |es|
  {
    if es == [] then 0 else
      (if IsMove(s, es[0], t) && SetBack(s, t) then Loss(|s.buffers|) else 0) + Lost(Next(s, es[0]), es[1..], t)
  }

  predicate IsCall(e: Event) { e.CallBread? || e.CallSync? || e.CallBrelse? || e.CallFree? }

  // Activity t makes no other call in the run.
  predicate NoCallBy(es: seq<Event>, t: nat) { forall e <- es :: IsCall(e) ==> e.t != t }

  lemma OthersKeepAct(s: State, e: Event, t: nat)
    requires Inv(s) && Enabled(s, e) && t < |s.acts| && !(e.Resume? && e.t == t) && !(IsCall(e) && e.t == t)
    ensures |Next(s, e).acts| == |s.acts| && Next(s, e).acts[t] == s.acts[t]
  {
    if e.Resume? { ResumeSetsOwnAct(s, e.t, e.choice); }
  }

  lemma StepLowersRank(s: State, e: Event, t: nat)
    requires Inv(s) && Enabled(s, e) && t < |s.acts| && !(IsCall(e) && e.t == t)
    ensures |Next(s, e).acts| == |s.acts| && |Next(s, e).buffers| == |s.buffers|
    ensures var n := |s.buffers|;
            Rank(n, Next(s, e).acts[t]) + (if IsMove(s, e, t) then 1 else 0) <=
              Rank(n, s.acts[t]) + if IsMove(s, e, t) && SetBack(s, t) then Loss(n) else 0
  {
    StepKeepsSize(s, e);
    if e.Resume? && e.t == t {
      MovesUnlessAsleep(s, t, e.choice);
      if !Asleep(s, t) { MoveLowersRank(s, t, e.choice); }
    } else {
      OthersKeepAct(s, e, t);
    }
  }

  // Every move brings a call nearer to its end, whatever the others do, unless it finds
  // its victim taken or dirty.
  lemma {:induction false} CallsAdvance(s: State, es: seq<Event>, t: nat)
    requires Inv(s) && RunEnabled(s, es) && t < |s.acts| && NoCallBy(es, t)
    ensures |Run(s, es).acts| == |s.acts| && |Run(s, es).buffers| == |s.buffers|
    ensures var n := |s.buffers|;
            Rank(n, Run(s, es).acts[t]) + Moves(s, es, t) <= Rank(n, s.acts[t]) + Lost(s, es, t)
    decreases |es|
  {
    if es != [] {
      StepKeepsInv(s, es[0]);
      StepLowersRank(s, es[0], t);
      CallsAdvance(Next(s, es[0]), es[1..], t);
    }
  }

  // Activities on behalf of a call, and how it may have ended.
  predicate Serves(a: Activity, call: Event) {
    match call
    case CallBread(_, blk) =>
      if a.Sync? || a.WriteSlot? then a.k.Reuse? && a.k.blk == blk
      else (a.Get? || a.HashWait? || a.Victim? || a.ReadLock? || a.ReadSlot? || a.ReadWait? || a.Hold?) && a.blk == blk
    case CallSync(_, _) => a.Idle? || ((a.Sync? || a.WriteSlot?) && a.k.Return?)
    case CallBrelse(_) => a.Idle? || a.Release?
    case CallFree(_, blk) => a.Idle? || ((a.FreeGet? || a.FreeWait? || a.Kept?) && a.blk == blk)
    case _ => false
  }

  predicate Ended(a: Activity, call: Event) {
    match call
    case CallBread(_, blk) => a.Hold? && a.blk == blk
    case CallFree(_, blk) => a.Idle? || (a.Kept? && a.blk == blk)
    case _ => a.Idle?
  }

  lemma MoveServes(s: State, t: nat, choice: nat, call: Event)
    requires Inv(s) && Enabled(s, Resume(t, choice)) && Serves(s.acts[t], call)
    ensures |ResumeStep(s, t, choice).acts| == |s.acts| && Serves(ResumeStep(s, t, choice).acts[t], call)
  {
    assert ActOk(s, s.acts[t]);
    match s.acts[t]
    case Get(_) =>
    case HashWait(_, _) => assert BufferOk(s, s.acts[t].b); PinnedMeansReferenced(s.acts, t, s.acts[t].b);
    case Victim(_, _) =>
    case ReadLock(_, _) =>
    case ReadSlot(_, _) =>
    case ReadWait(_, _) =>
    case Release(_, _) => assert BufferOk(s, s.acts[t].b); PinnedMeansReferenced(s.acts, t, s.acts[t].b);
    case WriteSlot(_, _, _, _) =>
    case Sync(_, _, _, _) =>
    case FreeGet(_) =>
    case FreeWait(_, _) =>
    case _ =>
  }

  lemma {:induction false} RunServes(s: State, es: seq<Event>, t: nat, call: Event)
    requires Inv(s) && RunEnabled(s, es) && t < |s.acts| && NoCallBy(es, t) && Serves(s.acts[t], call)
    ensures Inv(Run(s, es)) && |Run(s, es).acts| == |s.acts| && Serves(Run(s, es).acts[t], call)
    decreases |es|
  {
    if es != [] {
      StepKeepsInv(s, es[0]);
      if es[0].Resume? && es[0].t == t { MoveServes(s, t, es[0].choice, call); } else { OthersKeepAct(s, es[0], t); }
      RunServes(Next(s, es[0]), es[1..], t, call);
    }
  }

  function CallRank(n: nat, call: Event): int
    requires IsCall(call)
  {
    match call
    case CallBread(_, _) => 6
    case CallSync(_, _) => 4 * n + 2
    case CallBrelse(_) => 1
    case CallFree(_, _) => 2
  }

  // Every call comes to its end after so many moves of its own: bread returns the block,
  // sync_dev, brelse and free_block return.
  lemma EveryCallEnds(s: State, es: seq<Event>, call: Event)
    requires Inv(s) && IsCall(call) && Enabled(s, call) && RunEnabled(Next(s, call), es) && NoCallBy(es, call.t)
    requires Moves(Next(s, call), es, call.t) >= CallRank(|s.buffers|, call) + Lost(Next(s, call), es, call.t)
    ensures call.t < |Run(Next(s, call), es).acts| && Ended(Run(Next(s, call), es).acts[call.t], call)
  {
    var s1 := Next(s, call);
    StepKeepsInv(s, call);
    StepKeepsSize(s, call);
    RunServes(s1, es, call.t, call);
    CallsAdvance(s1, es, call.t);
    assert ActOk(Run(s1, es), Run(s1, es).acts[call.t]);
  }

  // ---------- Setbacks ----------

  // A step of activity t or of the disk.
  predicate IsAlone(e: Event, t: nat) {
    (e.Resume? && e.t == t) || e.ReadSector? || e.WriteSector? || e.WriteFault? || e.Complete?
  }

  predicate AllAlone(es: seq<Event>, t: nat) { forall e <- es :: IsAlone(e, t) }

  predicate Untaken(s: State, b: nat, blk: Block) {
    b < |s.buffers| && s.buffers[b].count == 0 && forall c <- s.buffers :: c.id != blk
  }

  // getblk's victim is still good, or will be when sync_dev has returned.
  predicate Calm(s: State, t: nat) {
    t < |s.acts| &&
    var a := s.acts[t];
    (a.Victim? ==> Untaken(s, a.b, a.blk)) &&
    ((a.Sync? || a.WriteSlot?) && a.k.Reuse? ==>
       Untaken(s, a.k.b, a.k.blk) &&
       (s.buffers[a.k.b].dirt ==> s.buffers[a.k.b].id.dev == a.dev && ToCome(a, a.dev, a.k.b)))
  }

  // Can the activity still be set back by what it finds itself?
  predicate AtRisk(s: State, t: nat)
    requires Calm(s, t)
  {
    s.acts[t].Get? || (s.acts[t].Victim? && s.buffers[s.acts[t].b].dirt)
  }

  lemma GetIsCalm(s: State, t: nat, choice: nat)
    requires Inv(s) && Enabled(s, Resume(t, choice)) && s.acts[t].Get?
    ensures Calm(ResumeStep(s, t, choice), t)
  {
  }

  lemma SyncIsCalm(s: State, t: nat, choice: nat)
    requires Inv(s) && Enabled(s, Resume(t, choice)) && Calm(s, t) && s.acts[t].Sync?
    ensures Calm(ResumeStep(s, t, choice), t) && !AtRisk(ResumeStep(s, t, choice), t)
  {
    var s' := ResumeStep(s, t, choice);
    assert ActOk(s, s.acts[t]);
    assert |s'.buffers| == |s.buffers|;
    assert forall c :: 0 <= c < |s.buffers| ==>
      s'.buffers[c].id == s.buffers[c].id && s'.buffers[c].dirt == s.buffers[c].dirt &&
      s'.buffers[c].count == s.buffers[c].count;
  }

  lemma WriteSlotIsCalm(s: State, t: nat, choice: nat)
    requires Inv(s) && Enabled(s, Resume(t, choice)) && Calm(s, t) && s.acts[t].WriteSlot?
    ensures Calm(ResumeStep(s, t, choice), t) && !AtRisk(ResumeStep(s, t, choice), t)
  {
    var s' := ResumeStep(s, t, choice);
    assert ActOk(s, s.acts[t]);
    if s' != s {
      assert |s'.buffers| == |s.buffers|;
      assert forall c :: 0 <= c < |s.buffers| ==>
        s'.buffers[c].id == s.buffers[c].id && s'.buffers[c].count == s.buffers[c].count &&
        (s'.buffers[c].dirt ==> s.buffers[c].dirt && c != s.acts[t].b);
    }
  }

  lemma VictimIsCalm(s: State, t: nat, choice: nat)
    requires Inv(s) && Enabled(s, Resume(t, choice)) && Calm(s, t) && s.acts[t].Victim?
    ensures Calm(ResumeStep(s, t, choice), t)
    ensures !Asleep(s, t) && SetBack(s, t) ==> AtRisk(s, t) && !AtRisk(ResumeStep(s, t, choice), t)
    ensures AtRisk(ResumeStep(s, t, choice), t) ==> AtRisk(s, t)
  {
  }

  lemma OwnStepIsCalm(s: State, t: nat, choice: nat)
    requires Inv(s) && Enabled(s, Resume(t, choice)) && Calm(s, t)
    ensures Calm(ResumeStep(s, t, choice), t)
    ensures !Asleep(s, t) && SetBack(s, t) ==> AtRisk(s, t) && !AtRisk(ResumeStep(s, t, choice), t)
    ensures AtRisk(ResumeStep(s, t, choice), t) ==> AtRisk(s, t)
  {
    if s.acts[t].Get? {
      GetIsCalm(s, t, choice);
    } else if s.acts[t].Victim? {
      VictimIsCalm(s, t, choice);
    } else if s.acts[t].Sync? {
      SyncIsCalm(s, t, choice);
    } else if s.acts[t].WriteSlot? {
      WriteSlotIsCalm(s, t, choice);
    } else {
      MovesOnWithoutVictim(s, t, choice);
    }
  }

  lemma MovesOnWithoutVictim(s: State, t: nat, choice: nat)
    requires Inv(s) && Enabled(s, Resume(t, choice))
    requires !s.acts[t].Get? && !s.acts[t].Victim? && !s.acts[t].Sync? && !s.acts[t].WriteSlot?
    ensures |ResumeStep(s, t, choice).acts| == |s.acts|
    ensures var a := ResumeStep(s, t, choice).acts[t]; !a.Get? && !a.Victim? && !a.Sync? && !a.WriteSlot?
  {
    assert ActOk(s, s.acts[t]);
    match s.acts[t]
    case HashWait(_, _) =>
    case ReadLock(_, _) =>
    case ReadSlot(_, _) =>
    case ReadWait(_, _) =>
    case Release(_, _) =>
    case FreeGet(_) =>
    case FreeWait(_, _) =>
    case _ =>
  }

  lemma DiskStepIsCalm(s: State, e: Event, t: nat)
    requires Inv(s) && Enabled(s, e) && Calm(s, t) && !e.Resume? && IsAlone(e, t)
    ensures Calm(Next(s, e), t) && AtRisk(Next(s, e), t) == AtRisk(s, t)
  {
    var s' := Next(s, e);
    assert s'.acts == s.acts && |s'.buffers| == |s.buffers|;
    assert forall c :: 0 <= c < |s.buffers| ==>
      s'.buffers[c].id == s.buffers[c].id && s'.buffers[c].dirt == s.buffers[c].dirt &&
      s'.buffers[c].count == s.buffers[c].count;
  }

  lemma AloneStepIsCalm(s: State, e: Event, t: nat)
    requires Inv(s) && Enabled(s, e) && Calm(s, t) && IsAlone(e, t)
    ensures Calm(Next(s, e), t)
    ensures IsMove(s, e, t) && SetBack(s, t) ==> AtRisk(s, t) && !AtRisk(Next(s, e), t)
    ensures AtRisk(Next(s, e), t) ==> AtRisk(s, t)
  {
    if e.Resume? { OwnStepIsCalm(s, t, e.choice); } else { DiskStepIsCalm(s, e, t); }
  }

  // Setbacks are the doing of others: left alone with the disk a getblk loses at most one
  // round, for a victim that was dirty from the beginning.
  lemma {:induction false} LostToOthers(s: State, es: seq<Event>, t: nat)
    requires Inv(s) && RunEnabled(s, es) && Calm(s, t) && AllAlone(es, t)
    ensures Lost(s, es, t) <= if AtRisk(s, t) then Loss(|s.buffers|) else 0
    decreases |es|
  {
    if es != [] {
      StepKeepsInv(s, es[0]);
      StepKeepsSize(s, es[0]);
      assert IsAlone(es[0], t);
      AloneStepIsCalm(s, es[0], t);
      LostToOthers(Next(s, es[0]), es[1..], t);
    }
  }

  // So a bread left alone with the disk returns its block after a fixed number of moves.
  lemma BreadAloneEnds(s: State, es: seq<Event>, t: nat, blk: Block)
    requires Inv(s) && Enabled(s, CallBread(t, blk)) && RunEnabled(Next(s, CallBread(t, blk)), es) && AllAlone(es, t)
    requires Moves(Next(s, CallBread(t, blk)), es, t) >= 6 + Loss(|s.buffers|)
    ensures t < |Run(Next(s, CallBread(t, blk)), es).acts|
    ensures Ended(Run(Next(s, CallBread(t, blk)), es).acts[t], CallBread(t, blk))
  {
    var s1 := Next(s, CallBread(t, blk));
    StepKeepsInv(s, CallBread(t, blk));
    LostToOthers(s1, es, t);
    EveryCallEnds(s, es, CallBread(t, blk));
  }
}
