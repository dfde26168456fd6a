module HardDisk {
  // The hard-disk driver (kernel/blk_drv/hd.c) as a machine stepped by disk interrupts:
  // do_hd_request, read_intr, write_intr, recal_intr, bad_rw_intr and end_request.

  import opened Arithmetic

  const MAX_ERRORS := 7
  const SECTORS := 2             // nr_sectors as make_request fills it in
  const SECTOR_SIZE := 512
  const U32 := 0x1_0000_0000

  datatype Cmd = READ | WRITE

  datatype Handler = NoHandler | ReadIntr | WriteIntr | RecalIntr

  // struct hd_i_struct and struct hd_struct
  datatype Drive = Drive(heads: int, sect: int)
  datatype Part = Part(start: int, count: int)
  datatype Table = Table(drives: seq<Drive>, parts: seq<Part>)

  // What was asked for, and how far it has got. `data` is the buffer, one element a
  // sector; `buffer` is the distance of the buffer pointer from its start.
  datatype Asked = Asked(cmd: Cmd, minor: int, sector: int)
  datatype Req = Req(asked: Asked, data: seq<int>, sector: int, nr: int, buffer: int, errors: int)

  // The driver's variables, then the controller (drive and linear sector of the command
  // in progress, the data last sent) and the disks; `done` lists the ended requests.
  datatype State = State(
    queue: seq<Req>, reset: bool, recalibrate: bool, doHd: Handler,
    drive: int, pos: int, sent: int, disk: seq<seq<int>>,
    done: seq<(Req, bool)>)

  // ---------- Addresses ----------

  datatype Chs = Chs(cyl: int, head: int, sec: int)

  function Split(d: Drive, block: int): Chs
    requires d.heads > 0 && d.sect > 0
  {
    var track := block / d.sect;
    Chs(track / d.heads, track % d.heads, block % d.sect + 1)
  }

  // The sector the controller seeks.
  function Linear(d: Drive, c: Chs): int { (c.cyl * d.heads + c.head) * d.sect + c.sec - 1 }

  // The two divisions lose nothing and stay within the geometry.
  lemma SplitIsExact(d: Drive, block: int, cyls: int)
    requires d.heads > 0 && d.sect > 0 && 0 <= block < d.heads * d.sect * cyls
    ensures var c := Split(d, block);
            Linear(d, c) == block && 1 <= c.sec <= d.sect && 0 <= c.head < d.heads && 0 <= c.cyl < cyls
  {
    var track := block / d.sect;
    var c := Split(d, block);
    assert c.cyl * d.heads + c.head == track;
    assert track * d.sect + block % d.sect == block;
    assert block < (d.heads * cyls) * d.sect by { assert d.heads * d.sect * cyls == (d.heads * cyls) * d.sect; }
    ScaleOrder(track, d.heads * cyls, d.sect);
    ScaleOrder(c.cyl, cyls, d.heads);
    ScaleOrder(c.cyl, 0, d.heads);
    ScaleOrder(track, 0, d.sect);
  }

  // ---------- The driver ----------

  ghost predicate TableOk(t: Table, disk: seq<seq<int>>) {
    |t.drives| <= 2 && |t.parts| == 10 && |disk| == |t.drives| &&
    (forall i :: 0 <= i < |t.drives| ==> t.drives[i].heads > 0 && t.drives[i].sect > 0) &&
    forall m :: 0 <= m < 5 * |t.drives| ==>
      t.parts[m].start >= 0 && 0 <= t.parts[m].count < U32 / 2 && t.parts[m].start + t.parts[m].count <= |disk[m / 5]|
  }

  // dev >= 5 * NR_HD || block + 2 > hd[dev].nr_sects, in 32 bits
  predicate Refused(t: Table, r: Req)
    requires |t.parts| == 10 && |t.drives| <= 2 && r.asked.minor >= 0
  {
    r.asked.minor >= 5 * |t.drives| || (r.sector + 2) % U32 > t.parts[r.asked.minor].count
  }

  function EndRequest(s: State, uptodate: bool): State
    requires s.queue != []
  {
    s.(queue := s.queue[1..], done := s.done + [(s.queue[0], uptodate)])
  }

  // bad_rw_intr; CURRENT is read again only if there still is a request.
  function BadRw(s: State): State
    requires s.queue != []
  {
    var r := s.queue[0].(errors := s.queue[0].errors + 1);
    var s1 := s.(queue := s.queue[0 := r]);
    var s2 := if r.errors >= MAX_ERRORS then EndRequest(s1, false) else s1;
    if s2.queue != [] && s2.queue[0].errors > MAX_ERRORS / 2 then s2.(reset := true) else s2
  }

  predicate Wf(t: Table, s: State) {
    |t.parts| == 10 && |t.drives| <= 2 && |s.disk| == |t.drives| &&
    (forall i :: 0 <= i < |t.drives| ==> t.drives[i].heads > 0 && t.drives[i].sect > 0) &&
    forall i :: 0 <= i < |s.queue| ==> WfReq(s.queue[i])
  }

  predicate WfReq(r: Req) {
    r.asked.minor >= 0 && |r.data| == SECTORS && 1 <= r.nr <= SECTORS && r.buffer == (SECTORS - r.nr) * SECTOR_SIZE
  }

  // The sector of the buffer that b_data + buffer points to.
  function Current(r: Req): int
    requires WfReq(r)
  {
    r.data[r.buffer / SECTOR_SIZE]
  }

  // hd_out for a transfer.
  function Command(t: Table, s: State, handler: Handler): State
    requires Wf(t, s) && s.queue != [] && !Refused(t, s.queue[0])
  {
    var r := s.queue[0];
    var d := t.drives[r.asked.minor / 5];
    s.(doHd := handler, drive := r.asked.minor / 5, pos := Linear(d, Split(d, r.sector + t.parts[r.asked.minor].start)))
  }

  // do_hd_request. `drq` says, for each write command issued, whether the controller
  // asked for data in time; at its end it always does.
  function DoRequest(t: Table, s: State, drq: seq<bool>): State
    requires Wf(t, s)
    decreases |drq|, |s.queue|
  {
    if s.queue == [] then s
    else if Refused(t, s.queue[0]) then DoRequest(t, EndRequest(s, false), drq)
    else if s.reset then s.(reset := false, recalibrate := true, doHd := RecalIntr)
    else if s.recalibrate then s.(recalibrate := false, doHd := RecalIntr)
    else if s.queue[0].asked.cmd == READ then Command(t, s, ReadIntr)
    else
      var s1 := Command(t, s, WriteIntr);
      if drq == [] || drq[0] then s1.(sent := Current(s.queue[0]))
      else DoRequest(t, BadRw(s1), drq[1..])
  }

  // The controller is at a sector that exists.
  predicate InPlace(s: State) { 0 <= s.drive < |s.disk| && 0 <= s.pos < |s.disk[s.drive]| }

  function Advanced(r: Req): Req { r.(nr := r.nr - 1, sector := r.sector + 1, buffer := r.buffer + SECTOR_SIZE) }

  function ReadOk(t: Table, s: State, drq: seq<bool>): State
    requires Wf(t, s) && s.queue != [] && InPlace(s)
  {
    var r := s.queue[0];
    var r1 := Advanced(r.(data := r.data[r.buffer / SECTOR_SIZE := s.disk[s.drive][s.pos]], errors := 0));
    var s1 := s.(queue := s.queue[0 := r1], pos := s.pos + 1);
    if r1.nr > 0 then s1.(doHd := ReadIntr) else DoRequest(t, EndRequest(s1, true), drq)
  }

  function WriteOk(t: Table, s: State, drq: seq<bool>): State
    requires Wf(t, s) && s.queue != [] && InPlace(s)
  {
    var r := s.queue[0];
    var s0 := s.(disk := s.disk[s.drive := s.disk[s.drive][s.pos := s.sent]], pos := s.pos + 1);
    if r.nr > 1 then
      s0.(queue := s.queue[0 := Advanced(r)], doHd := WriteIntr, sent := Current(Advanced(r)))
    else DoRequest(t, EndRequest(s0.(queue := s.queue[0 := r.(nr := 0)]), true), drq)
  }

  predicate Awaited(s: State) {
    s.queue != [] && s.doHd != NoHandler && (s.doHd != RecalIntr ==> InPlace(s))
  }

  // One disk interrupt; `ok` is win_result() == 0. hd_interrupt clears do_hd first.
  function Interrupt(t: Table, s: State, ok: bool, drq: seq<bool>): State
    requires Wf(t, s) && Awaited(s)
  {
    var s1 := s.(doHd := NoHandler);
    if !ok then DoRequest(t, BadRw(s1), drq)
    else if s.doHd == ReadIntr then ReadOk(t, s1, drq)
    else if s.doHd == WriteIntr then WriteOk(t, s1, drq)
    else DoRequest(t, s1, drq)
  }

  // add_request: the elevator puts the request behind at least the current one.
  function Submit(t: Table, s: State, r: Req, at: int, drq: seq<bool>): State
    requires Wf(t, s) && Wf(t, s.(queue := [r])) && (s.queue == [] || 1 <= at <= |s.queue|)
  {
    if s.queue == [] then DoRequest(t, s.(queue := [r]), drq)
    else s.(queue := s.queue[..at] + [r] + s.queue[at..])
  }

  // ---------- The invariant ----------

  predicate Fresh(r: Req) {
    WfReq(r) && r.nr == SECTORS && r.errors == 0 && r.sector == r.asked.sector && 0 <= r.asked.sector < U32 - SECTORS
  }

  // Is the whole request inside its partition?
  predicate Inside(t: Table, a: Asked)
    requires |t.parts| == 10 && |t.drives| <= 2
  {
    0 <= a.minor < 5 * |t.drives| && 0 <= a.sector && a.sector + SECTORS <= t.parts[a.minor].count
  }

  function Place(t: Table, a: Asked, j: int): int
    requires |t.parts| == 10 && 0 <= a.minor < 10
  {
    t.parts[a.minor].start + a.sector + j
  }

  // Sector j of the buffer and of the disk are the same.
  ghost predicate Agrees(t: Table, disk: seq<seq<int>>, r: Req, j: int)
    requires TableOk(t, disk) && |r.data| == SECTORS && 0 <= j < SECTORS && Inside(t, r.asked)
  {
    disk[r.asked.minor / 5][Place(t, r.asked, j)] == r.data[j]
  }

  // The request being served: the sectors behind the buffer pointer are transferred,
  // and sector, count and pointer all describe the rest.
  ghost predicate HeadOk(t: Table, s: State)
    requires TableOk(t, s.disk) && s.queue != []
  {
    var r := s.queue[0];
    WfReq(r) && r.sector == r.asked.sector + SECTORS - r.nr && 0 <= r.asked.sector < U32 - SECTORS &&
    0 <= r.errors < MAX_ERRORS &&
    (r.nr < SECTORS ==> Inside(t, r.asked) && Agrees(t, s.disk, r, 0))
  }

  ghost predicate Core(t: Table, s: State) {
    Wf(t, s) && TableOk(t, s.disk) && (s.queue != [] ==> HeadOk(t, s)) &&
    forall i :: 1 <= i < |s.queue| ==> Fresh(s.queue[i])
  }

  // What the driver waits for: a recalibration, or a transfer that the controller does
  // at the right place.
  ghost predicate Serving(t: Table, s: State)
    requires Core(t, s) && s.queue != []
  {
    var r := s.queue[0];
    !s.reset && s.doHd != NoHandler &&
    (s.doHd != RecalIntr ==>
       !s.recalibrate && Inside(t, r.asked) && s.drive == r.asked.minor / 5 &&
       s.pos == t.parts[r.asked.minor].start + r.sector &&
       (s.doHd == ReadIntr <==> r.asked.cmd == READ) && (s.doHd == WriteIntr ==> s.sent == Current(r)))
  }

  ghost predicate Inv(t: Table, s: State) {
    Core(t, s) && (s.queue != [] ==> Serving(t, s) && Awaited(s))
  }

  function AllAsked(s: State): seq<Asked> {
    seq(|s.done| + |s.queue|, i requires 0 <= i < |s.done| + |s.queue| =>
      if i < |s.done| then s.done[i].0.asked else s.queue[i - |s.done|].asked)
  }

  // Requests ended in between failed for good: too many errors, or refused.
  ghost predicate OnlyFailures(t: Table, s: State, s': State)
    requires |t.parts| == 10 && |t.drives| <= 2
  {
    |s.done| <= |s'.done| && s'.done[..|s.done|] == s.done &&
    forall i :: |s.done| <= i < |s'.done| ==> Failed(t, s'.done[i])
  }

  predicate Failed(t: Table, e: (Req, bool))
    requires |t.parts| == 10 && |t.drives| <= 2
  {
    !e.1 && (e.0.errors >= MAX_ERRORS || (e.0.asked.minor >= 0 && Refused(t, e.0)))
  }

  lemma EndKeepsCore(t: Table, s: State, uptodate: bool)
    requires s.queue != [] && Wf(t, s.(queue := s.queue[1..])) && TableOk(t, s.disk)
    requires forall i :: 1 <= i < |s.queue| ==> Fresh(s.queue[i])
    ensures Core(t, EndRequest(s, uptodate))
  {
    var s' := EndRequest(s, uptodate);
    forall i | 0 <= i < |s'.queue| ensures Fresh(s'.queue[i]) { assert s'.queue[i] == s.queue[i + 1]; }
  }

  lemma EndLog(t: Table, s: State, uptodate: bool)
    requires s.queue != [] && |t.parts| == 10 && |t.drives| <= 2
    ensures AllAsked(EndRequest(s, uptodate)) == AllAsked(s)
    ensures Failed(t, (s.queue[0], uptodate)) ==> OnlyFailures(t, s, EndRequest(s, uptodate))
  {
  }

  function WithError(s: State): State
    requires s.queue != []
  {
    s.(queue := s.queue[0 := s.queue[0].(errors := s.queue[0].errors + 1)])
  }

  lemma BadRwKeepsCore(t: Table, s: State)
    requires Core(t, s) && s.queue != []
    ensures Core(t, BadRw(s)) && BadRw(s).disk == s.disk
  {
    var s1 := WithError(s);
    if s1.queue[0].errors >= MAX_ERRORS {
      EndKeepsCore(t, s1, false);
      var s2 := EndRequest(s1, false);
      assert BadRw(s) == s2 || BadRw(s) == s2.(reset := true);
    } else {
      assert HeadOk(t, s1);
    }
  }

  lemma BadRwLog(t: Table, s: State)
    requires s.queue != [] && |t.parts| == 10 && |t.drives| <= 2
    ensures AllAsked(BadRw(s)) == AllAsked(s) && OnlyFailures(t, s, BadRw(s))
  {
    var s1 := WithError(s);
    assert AllAsked(s1) == AllAsked(s);
    EndLog(t, s1, false);
  }

  lemma OnlyFailuresChain(t: Table, a: State, b: State, c: State)
    requires |t.parts| == 10 && |t.drives| <= 2 && OnlyFailures(t, a, b) && OnlyFailures(t, b, c)
    ensures OnlyFailures(t, a, c)
  {
    assert c.done[..|a.done|] == c.done[..|b.done|][..|a.done|];
    forall i | |a.done| <= i < |c.done| ensures Failed(t, c.done[i]) {
      if i < |b.done| { assert c.done[i] == c.done[..|b.done|][i]; }
    }
  }

  lemma NotRefused(t: Table, s: State)
    requires Core(t, s) && s.queue != [] && !Refused(t, s.queue[0])
    ensures Inside(t, s.queue[0].asked)
    ensures var s1 := Command(t, s, ReadIntr); var r := s.queue[0];
            s1.drive == r.asked.minor / 5 && s1.pos == t.parts[r.asked.minor].start + r.sector && InPlace(s1)
  {
    var r := s.queue[0];
    var d, block := t.drives[r.asked.minor / 5], r.sector + t.parts[r.asked.minor].start;
    ScaleOrder(0, d.heads, d.sect);
    ProductAtLeast(d.heads, d.sect);
    assert d.heads * d.sect * (block + 1) > block by { ProductAtLeast(d.heads * d.sect, block + 1); }
    SplitIsExact(d, block, block + 1);
  }

  // do_hd_request serves the first request that can be served; those it passes over fail.
  lemma {:induction false} DoRequestKeeps(t: Table, s: State, drq: seq<bool>)
    requires Core(t, s)
    ensures Inv(t, DoRequest(t, s, drq)) && DoRequest(t, s, drq).disk == s.disk
    decreases |drq|, |s.queue|
  {
    if s.queue == [] {
    } else if Refused(t, s.queue[0]) {
      EndKeepsCore(t, s, false);
      DoRequestKeeps(t, EndRequest(s, false), drq);
    } else if s.reset {
      assert HeadOk(t, DoRequest(t, s, drq));
    } else if s.recalibrate {
      assert HeadOk(t, DoRequest(t, s, drq));
    } else {
      NotRefused(t, s);
      if s.queue[0].asked.cmd == WRITE && drq != [] && !drq[0] {
        var s1 := Command(t, s, WriteIntr);
        assert HeadOk(t, s1) && Core(t, s1);
        BadRwKeepsCore(t, s1);
        DoRequestKeeps(t, BadRw(s1), drq[1..]);
      } else {
        assert HeadOk(t, DoRequest(t, s, drq));
      }
    }
  }

  lemma RetryLog(t: Table, s: State)
    requires Wf(t, s) && s.queue != [] && !Refused(t, s.queue[0])
    ensures var s1 := BadRw(Command(t, s, WriteIntr)); AllAsked(s1) == AllAsked(s) && OnlyFailures(t, s, s1)
  {
    var s1 := Command(t, s, WriteIntr);
    assert AllAsked(s1) == AllAsked(s);
    BadRwLog(t, s1);
  }

  // A write whose first sector the drive does not ask for in time.
  predicate Unasked(s: State, drq: seq<bool>)
    requires s.queue != []
  {
    !s.reset && !s.recalibrate && s.queue[0].asked.cmd == WRITE && drq != [] && !drq[0]
  }

  lemma StartLog(t: Table, s: State, drq: seq<bool>)
    requires Wf(t, s) && s.queue != [] && !Refused(t, s.queue[0]) && !Unasked(s, drq)
    ensures AllAsked(DoRequest(t, s, drq)) == AllAsked(s) && DoRequest(t, s, drq).done == s.done
  {
  }

  lemma {:induction false} DoRequestLog(t: Table, s: State, drq: seq<bool>)
    requires Wf(t, s)
    ensures AllAsked(DoRequest(t, s, drq)) == AllAsked(s) && OnlyFailures(t, s, DoRequest(t, s, drq))
    decreases |drq|, |s.queue|
  {
    if s.queue == [] {
    } else if Refused(t, s.queue[0]) {
      var s1 := EndRequest(s, false);
      EndLog(t, s, false);
      DoRequestLog(t, s1, drq);
      OnlyFailuresChain(t, s, s1, DoRequest(t, s1, drq));
    } else if Unasked(s, drq) {
      var s1 := BadRw(Command(t, s, WriteIntr));
      RetryLog(t, s);
      DoRequestLog(t, s1, drq[1..]);
      OnlyFailuresChain(t, s, s1, DoRequest(t, s1, drq[1..]));
    } else {
      StartLog(t, s, drq);
    }
  }

  // ---------- Every interrupt ----------

  // All sectors of the request were inside its partition and are transferred.
  ghost predicate Correct(t: Table, disk: seq<seq<int>>, r: Req)
    requires TableOk(t, disk)
  {
    r.nr == 0 && |r.data| == SECTORS && Inside(t, r.asked) && Agrees(t, disk, r, 0) && Agrees(t, disk, r, 1)
  }

  // The head request after one more sector: what ReadOk and WriteOk have in common.
  ghost predicate OneMore(t: Table, s: State, s1: State)
    requires Inv(t, s) && s.queue != []
  {
    TableOk(t, s1.disk) && |s1.queue| == |s.queue| && s1.queue[1..] == s.queue[1..] && s1.done == s.done &&
    s1.queue[0].asked == s.queue[0].asked && s1.queue[0].nr == s.queue[0].nr - 1 &&
    (s1.queue[0].nr > 0 ==> HeadOk(t, s1)) && (s1.queue[0].nr == 0 ==> Correct(t, s1.disk, s1.queue[0]))
  }

  lemma ReadOkIsOneMore(t: Table, s: State)
    requires Inv(t, s) && Awaited(s) && s.doHd == ReadIntr
    ensures var r := s.queue[0];
            var r1 := Advanced(r.(data := r.data[r.buffer / SECTOR_SIZE := s.disk[s.drive][s.pos]], errors := 0));
            OneMore(t, s, s.(queue := s.queue[0 := r1], pos := s.pos + 1))
  {
    assert HeadOk(t, s) && Serving(t, s);
  }

  lemma WriteOkIsOneMore(t: Table, s: State)
    requires Inv(t, s) && Awaited(s) && s.doHd == WriteIntr
    ensures var r := s.queue[0];
            var s0 := s.(disk := s.disk[s.drive := s.disk[s.drive][s.pos := s.sent]], pos := s.pos + 1);
            OneMore(t, s, s0.(queue := s.queue[0 := if r.nr > 1 then Advanced(r) else r.(nr := 0)]))
  {
    assert HeadOk(t, s) && Serving(t, s);
    var r := s.queue[0];
    var disk := s.disk[s.drive := s.disk[s.drive][s.pos := s.sent]];
    assert s.sent == r.data[SECTORS - r.nr];
    assert Agrees(t, disk, r, SECTORS - r.nr);
    if r.nr == 1 { assert Agrees(t, disk, r, 0); }
  }

  lemma RestIsFresh(t: Table, s: State, s1: State)
    requires Inv(t, s) && s.queue != [] && OneMore(t, s, s1)
    ensures Wf(t, s1.(queue := s1.queue[1..])) && forall i :: 1 <= i < |s1.queue| ==> Fresh(s1.queue[i])
  {
    forall i | 1 <= i < |s1.queue| ensures Fresh(s1.queue[i]) {
      assert s1.queue[i] == s1.queue[1..][i - 1] == s.queue[1..][i - 1] == s.queue[i];
    }
  }

  lemma SameAsked(t: Table, s: State, s1: State)
    requires Inv(t, s) && s.queue != [] && OneMore(t, s, s1)
    ensures AllAsked(s1) == AllAsked(s)
  {
    forall i | 0 <= i < |s.queue| ensures s1.queue[i].asked == s.queue[i].asked {
      if i > 0 { assert s1.queue[i] == s1.queue[1..][i - 1] == s.queue[1..][i - 1] == s.queue[i]; }
    }
  }

  // A finished request leaves, and the driver goes on.
  lemma FinishKeeps(t: Table, s: State, s1: State, drq: seq<bool>)
    requires Inv(t, s) && s.queue != [] && OneMore(t, s, s1) && s1.queue[0].nr == 0
    ensures Wf(t, EndRequest(s1, true))
    ensures var s' := DoRequest(t, EndRequest(s1, true), drq);
            Inv(t, s') && s'.disk == s1.disk && AllAsked(s') == AllAsked(s) && Ended(t, s, s') && Succeeded(t, s, s')
  {
    RestIsFresh(t, s, s1);
    EndKeepsCore(t, s1, true);
    var s2 := EndRequest(s1, true);
    DoRequestKeeps(t, s2, drq);
    DoRequestLog(t, s2, drq);
    EndLog(t, s1, true);
    SameAsked(t, s, s1);
    assert s2.done[|s.done|] == (s1.queue[0], true);
    EndedOne(t, s, s2, DoRequest(t, s2, drq));
  }

  // The head request has ended well, as a whole.
  ghost predicate Succeeded(t: Table, s: State, s': State)
    requires s.queue != [] && TableOk(t, s'.disk)
  {
    |s'.done| > |s.done| && s'.done[|s.done|].1 && s'.done[|s.done|].0.asked == s.queue[0].asked &&
    Correct(t, s'.disk, s'.done[|s.done|].0)
  }

  // What one interrupt adds to the list of ended requests: failures, and in front of
  // them at most one success, all of whose sectors agree with the disk.
  ghost predicate Ended(t: Table, s: State, s': State)
    requires |t.parts| == 10 && |t.drives| <= 2 && TableOk(t, s'.disk)
  {
    |s.done| <= |s'.done| && s'.done[..|s.done|] == s.done &&
    forall i :: |s.done| <= i < |s'.done| ==>
      Failed(t, s'.done[i]) || (i == |s.done| && s'.done[i].1 && Correct(t, s'.disk, s'.done[i].0))
  }

  lemma EndedOne(t: Table, s: State, s2: State, s': State)
    requires TableOk(t, s2.disk) && s'.disk == s2.disk && OnlyFailures(t, s2, s')
    requires |s2.done| == |s.done| + 1 && s2.done[..|s.done|] == s.done
    requires s2.done[|s.done|].1 && Correct(t, s2.disk, s2.done[|s.done|].0)
    ensures Ended(t, s, s') && |s'.done| > |s.done| && s'.done[|s.done|] == s2.done[|s.done|]
  {
    assert s'.done[..|s.done|] == s'.done[..|s2.done|][..|s.done|];
    assert s'.done[|s.done|] == s'.done[..|s2.done|][|s.done|];
  }

  // One interrupt: the invariant holds again, requests are served in the order of the
  // queue and none is lost, a request ends well only when it is transferred as a whole,
  // at most the one sector of the disk changes that the controller was writing, and a
  // good interrupt brings the request one sector on.
  lemma InterruptKeepsInv(t: Table, s: State, ok: bool, drq: seq<bool>)
    requires Inv(t, s) && s.queue != []
    ensures var s' := Interrupt(t, s, ok, drq);
            Inv(t, s') && AllAsked(s') == AllAsked(s) && Ended(t, s, s') &&
            s'.disk == if ok && s.doHd == WriteIntr then s.disk[s.drive := s.disk[s.drive][s.pos := s.sent]] else s.disk
    ensures s.doHd != RecalIntr ==> Inside(t, s.queue[0].asked) && s.drive == s.queue[0].asked.minor / 5
    ensures s.doHd != RecalIntr ==> s.pos == Place(t, s.queue[0].asked, SECTORS - s.queue[0].nr)
    ensures ok && s.doHd != RecalIntr ==>
              var s' := Interrupt(t, s, ok, drq);
              if s.queue[0].nr == 1 then Succeeded(t, s, s') else OneMore(t, s, s')
  {
    var s1, r := s.(doHd := NoHandler), s.queue[0];
    assert Core(t, s1) by { assert HeadOk(t, s1); }
    assert AllAsked(s1) == AllAsked(s);
    if !ok {
      BadRwKeepsCore(t, s1);
      BadRwLog(t, s1);
      DoRequestKeeps(t, BadRw(s1), drq);
      DoRequestLog(t, BadRw(s1), drq);
      OnlyFailuresChain(t, s1, BadRw(s1), DoRequest(t, BadRw(s1), drq));
    } else if s.doHd == RecalIntr {
      DoRequestKeeps(t, s1, drq);
      DoRequestLog(t, s1, drq);
    } else if r.nr == 1 {
      LastSectorKeeps(t, s, drq);
    } else if s.doHd == ReadIntr {
      FirstReadKeeps(t, s, drq);
    } else {
      FirstWriteKeeps(t, s, drq);
    }
  }

  // The state once the last sector is in, before end_request.
  function AllIn(s: State): State
    requires s.queue != [] && InPlace(s) && WfReq(s.queue[0])
  {
    var s1, r := s.(doHd := NoHandler), s.queue[0];
    if s.doHd == ReadIntr
    then s1.(queue := s.queue[0 :=
               Advanced(r.(data := r.data[r.buffer / SECTOR_SIZE := s.disk[s.drive][s.pos]], errors := 0))],
             pos := s.pos + 1)
    else s1.(disk := s.disk[s.drive := s.disk[s.drive][s.pos := s.sent]], pos := s.pos + 1,
             queue := s.queue[0 := r.(nr := 0)])
  }

  lemma LastSectorIn(t: Table, s: State, drq: seq<bool>)
    requires Inv(t, s) && s.queue != [] && s.doHd != RecalIntr && s.queue[0].nr == 1
    ensures OneMore(t, s, AllIn(s)) && Wf(t, EndRequest(AllIn(s), true))
    ensures Interrupt(t, s, true, drq) == DoRequest(t, EndRequest(AllIn(s), true), drq)
  {
    if s.doHd == ReadIntr { ReadOkIsOneMore(t, s); } else { WriteOkIsOneMore(t, s); }
    RestIsFresh(t, s, AllIn(s));
  }

  lemma LastSectorKeeps(t: Table, s: State, drq: seq<bool>)
    requires Inv(t, s) && s.queue != [] && s.doHd != RecalIntr && s.queue[0].nr == 1
    ensures var s' := Interrupt(t, s, true, drq);
            Inv(t, s') && AllAsked(s') == AllAsked(s) && Ended(t, s, s') && Succeeded(t, s, s') &&
            s'.disk == AllIn(s).disk
  {
    LastSectorIn(t, s, drq);
    FinishKeeps(t, s, AllIn(s), drq);
  }

  // The first of two sectors: the handler waits for the next interrupt.
  lemma FirstReadKeeps(t: Table, s: State, drq: seq<bool>)
    requires Inv(t, s) && Awaited(s) && s.doHd == ReadIntr && s.queue[0].nr == SECTORS
    ensures var s' := Interrupt(t, s, true, drq);
            Inv(t, s') && AllAsked(s') == AllAsked(s) && OneMore(t, s, s') && s'.disk == s.disk
  {
    ReadOkIsOneMore(t, s);
    var s' := Interrupt(t, s, true, drq);
    assert HeadOk(t, s') && Core(t, s');
    assert AllAsked(s') == AllAsked(s);
  }

  lemma FirstWriteKeeps(t: Table, s: State, drq: seq<bool>)
    requires Inv(t, s) && Awaited(s) && s.doHd == WriteIntr && s.queue[0].nr == SECTORS
    ensures var s' := Interrupt(t, s, true, drq);
            Inv(t, s') && AllAsked(s') == AllAsked(s) && OneMore(t, s, s') &&
            s'.disk == s.disk[s.drive := s.disk[s.drive][s.pos := s.sent]]
  {
    WriteOkIsOneMore(t, s);
    var s' := Interrupt(t, s, true, drq);
    assert HeadOk(t, s') && Core(t, s');
    assert AllAsked(s') == AllAsked(s);
  }

  // ---------- Progress ----------

  // Sectors left, errors still allowed, recalibrations still to come.
  function Rank(s: State): int
    requires s.queue != []
  {
    32 * s.queue[0].nr + 4 * (MAX_ERRORS - s.queue[0].errors) +
    if s.doHd != RecalIntr then 0 else if s.recalibrate then 2 else 1
  }

  const FRESH_RANK := 32 * SECTORS + 4 * MAX_ERRORS + 3

  // Interrupts that the queue can still take.
  function Work(s: State): int { if s.queue == [] then 0 else Rank(s) + FRESH_RANK * (|s.queue| - 1) }

  // The same before a call of do_hd_request.
  function Pending(s: State): int {
    if s.queue == [] then 0
    else 32 * s.queue[0].nr + 4 * (MAX_ERRORS - s.queue[0].errors) +
         (if s.reset then 2 else if s.recalibrate then 1 else 0) +
         FRESH_RANK * (|s.queue| - 1)
  }

  lemma EndLowersPending(t: Table, s: State)
    requires s.queue != [] && 0 <= s.queue[0].nr && s.queue[0].errors <= MAX_ERRORS
    requires forall i :: 1 <= i < |s.queue| ==> Fresh(s.queue[i])
    ensures forall uptodate, reset :: Pending(EndRequest(s, uptodate).(reset := reset)) <= FRESH_RANK * (|s.queue| - 1)
  {
    if |s.queue| > 1 { assert Fresh(s.queue[1]) && s.queue[1..][0] == s.queue[1]; }
  }

  lemma BadRwLowersPending(t: Table, s: State)
    requires Core(t, s) && s.queue != []
    ensures Pending(BadRw(s)) <= 32 * s.queue[0].nr + 4 * (MAX_ERRORS - s.queue[0].errors) - 2 +
            FRESH_RANK * (|s.queue| - 1)
  {
    var s1 := WithError(s);
    if s1.queue[0].errors >= MAX_ERRORS {
      EndLowersPending(t, s1);
      var s2 := EndRequest(s1, false);
      assert BadRw(s) == s2.(reset := BadRw(s).reset);
    }
  }

  lemma RefusedWork(t: Table, s: State)
    requires Core(t, s) && s.queue != []
    ensures Core(t, EndRequest(s, false)) && Pending(EndRequest(s, false)) <= Pending(s)
  {
    EndKeepsCore(t, s, false);
    EndLowersPending(t, s);
    assert EndRequest(s, false).(reset := s.reset) == EndRequest(s, false);
  }

  lemma RetryWork(t: Table, s: State)
    requires Core(t, s) && s.queue != [] && !Refused(t, s.queue[0])
    ensures var s1 := BadRw(Command(t, s, WriteIntr)); Core(t, s1) && Pending(s1) <= Pending(s)
  {
    var s1 := Command(t, s, WriteIntr);
    assert HeadOk(t, s1) && Core(t, s1);
    BadRwKeepsCore(t, s1);
    BadRwLowersPending(t, s1);
  }

  lemma {:induction false} DoRequestWork(t: Table, s: State, drq: seq<bool>)
    requires Core(t, s)
    ensures Work(DoRequest(t, s, drq)) <= Pending(s)
    decreases |drq|, |s.queue|
  {
    if s.queue == [] {
    } else if Refused(t, s.queue[0]) {
      RefusedWork(t, s);
      DoRequestWork(t, EndRequest(s, false), drq);
    } else if !s.reset && !s.recalibrate && s.queue[0].asked.cmd == WRITE && drq != [] && !drq[0] {
      RetryWork(t, s);
      DoRequestWork(t, BadRw(Command(t, s, WriteIntr)), drq[1..]);
    }
  }

  // Every interrupt, good or bad, lowers the work that is left.
  lemma InterruptIsProgress(t: Table, s: State, ok: bool, drq: seq<bool>)
    requires Inv(t, s) && s.queue != []
    ensures Work(Interrupt(t, s, ok, drq)) < Work(s)
  {
    var s1, r := s.(doHd := NoHandler), s.queue[0];
    assert Core(t, s1) by { assert HeadOk(t, s1); }
    if !ok {
      BadRwKeepsCore(t, s1);
      BadRwLowersPending(t, s1);
      DoRequestWork(t, BadRw(s1), drq);
    } else if s.doHd == RecalIntr {
      DoRequestWork(t, s1, drq);
    } else if r.nr == 1 {
      LastSector(t, s, drq);
    }
  }

  lemma LastSector(t: Table, s: State, drq: seq<bool>)
    requires Inv(t, s) && s.queue != [] && s.doHd != RecalIntr && s.queue[0].nr == 1
    ensures Work(Interrupt(t, s, true, drq)) < Work(s)
  {
    LastSectorIn(t, s, drq);
    var next := AllIn(s);
    var s2 := EndRequest(next, true);
    forall i | 1 <= i < |next.queue| ensures Fresh(next.queue[i]) { assert next.queue[i] == s.queue[i]; }
    EndKeepsCore(t, next, true);
    EndLowersPending(t, next);
    assert s2 == s2.(reset := s2.reset);
    DoRequestWork(t, s2, drq);
  }

  // ---------- Whole runs ----------

  datatype Event = Intr(ok: bool, drq: seq<bool>) | Add(r: Req, at: int, drq: seq<bool>)

  ghost predicate CanHappen(t: Table, s: State, e: Event)
    requires Inv(t, s)
  {
    match e
    case Intr(_, _) => s.queue != []
    case Add(r, at, _) => Fresh(r) && (s.queue == [] || 1 <= at <= |s.queue|)
  }

  function After(t: Table, s: State, e: Event): State
    requires Wf(t, s) && (e.Intr? ==> Awaited(s))
    requires e.Add? ==> WfReq(e.r) && (s.queue == [] || 1 <= e.at <= |s.queue|)
  {
    match e
    case Intr(ok, drq) => Interrupt(t, s, ok, drq)
    case Add(r, at, drq) => Submit(t, s, r, at, drq)
  }

  lemma SubmitKeepsInv(t: Table, s: State, r: Req, at: int, drq: seq<bool>)
    requires Inv(t, s) && CanHappen(t, s, Add(r, at, drq))
    ensures Wf(t, s.(queue := [r]))
    ensures Inv(t, Submit(t, s, r, at, drq)) && Work(Submit(t, s, r, at, drq)) <= Work(s) + FRESH_RANK
    ensures Submit(t, s, r, at, drq).disk == s.disk
  {
    var one := s.(queue := [r]);
    assert Wf(t, one);
    if s.queue == [] {
      assert HeadOk(t, one) && Core(t, one);
      DoRequestKeeps(t, one, drq);
      DoRequestWork(t, one, drq);
    } else {
      var s' := s.(queue := s.queue[..at] + [r] + s.queue[at..]);
      forall i | 1 <= i < |s'.queue| ensures Fresh(s'.queue[i]) {
        assert s'.queue[i] == if i < at then s.queue[i] else if i == at then r else s.queue[i - 1];
      }
      assert s'.queue[0] == s.queue[0];
      assert HeadOk(t, s') && Wf(t, s');
    }
  }

  ghost predicate IsRun(t: Table, ss: seq<State>, es: seq<Event>) {
    |ss| == |es| + 1 && Inv(t, ss[0]) &&
    forall j :: 0 <= j < |es| && Inv(t, ss[j]) ==>
      CanHappen(t, ss[j], es[j]) && StepsTo(t, ss[j], es[j], ss[j + 1])
  }

  lemma {:induction false} RunKeepsInv(t: Table, ss: seq<State>, es: seq<Event>, n: nat)
    requires IsRun(t, ss, es) && n <= |es|
    ensures Inv(t, ss[n])
  {
    if n > 0 {
      RunKeepsInv(t, ss, es, n - 1);
      match es[n - 1] {
        case Intr(ok, drq) => InterruptKeepsInv(t, ss[n - 1], ok, drq);
        case Add(r, at, drq) => SubmitKeepsInv(t, ss[n - 1], r, at, drq);
      }
    }
  }

  lemma RunStep(t: Table, ss: seq<State>, es: seq<Event>, n: nat)
    requires IsRun(t, ss, es) && n < |es|
    ensures Inv(t, ss[n]) && Inv(t, ss[n + 1]) && CanHappen(t, ss[n], es[n]) && StepsTo(t, ss[n], es[n], ss[n + 1])
  {
    RunKeepsInv(t, ss, es, n);
    RunKeepsInv(t, ss, es, n + 1);
  }

  ghost predicate StepsTo(t: Table, s: State, e: Event, s': State)
    requires Inv(t, s) && CanHappen(t, s, e)
  {
    s' == After(t, s, e)
  }

  // Among the first n events.
  function Interrupts(es: seq<Event>, n: nat): nat
    requires n <= |es|
  {
    if n == 0 then 0 else Interrupts(es, n - 1) + if es[n - 1].Intr? then 1 else 0
  }

  function Adds(es: seq<Event>, n: nat): nat
    requires n <= |es|
  {
    if n == 0 then 0 else Adds(es, n - 1) + if es[n - 1].Add? then 1 else 0
  }

  lemma EventBound(t: Table, s: State, e: Event, s': State)
    requires Inv(t, s) && CanHappen(t, s, e) && StepsTo(t, s, e, s')
    ensures Work(s') + (if e.Intr? then 1 else 0) <= Work(s) + if e.Intr? then 0 else FRESH_RANK
  {
    match e {
      case Intr(ok, drq) => InterruptIsProgress(t, s, ok, drq);
      case Add(r, at, drq) => SubmitKeepsInv(t, s, r, at, drq);
    }
  }

  predicate Falls(work: seq<int>, es: seq<Event>, j: nat)
    requires j < |es| && |work| == |es| + 1
  {
    work[j + 1] + (if es[j].Intr? then 1 else 0) <= work[j] + if es[j].Intr? then 0 else FRESH_RANK
  }

  lemma {:induction false} Telescope(work: seq<int>, es: seq<Event>, n: nat)
    requires |work| == |es| + 1 && n <= |es| && forall j: nat :: j < |es| ==> Falls(work, es, j)
    ensures Interrupts(es, n) + work[n] <= work[0] + FRESH_RANK * Adds(es, n)
  {
    if n > 0 {
      Telescope(work, es, n - 1);
      assert Falls(work, es, n - 1);
    }
  }

  // Whatever the results of the interrupts, there are boundedly many of them: the disk
  // never retries for ever, and the queue drains once nothing is added.
  lemma InterruptsAreBounded(t: Table, ss: seq<State>, es: seq<Event>, n: nat)
    requires IsRun(t, ss, es) && n <= |es|
    ensures Interrupts(es, n) + Work(ss[n]) <= Work(ss[0]) + FRESH_RANK * Adds(es, n)
  {
    var work := seq(|ss|, j requires 0 <= j < |ss| => Work(ss[j]));
    forall j: nat | j < |es| ensures Falls(work, es, j) {
      RunStep(t, ss, es, j);
      EventBound(t, ss[j], es[j], ss[j + 1]);
    }
    Telescope(work, es, n);
  }

  lemma DoneGrows(t: Table, s: State, e: Event, s': State)
    requires Inv(t, s) && CanHappen(t, s, e) && StepsTo(t, s, e, s')
    ensures |s'.done| >= |s.done|
    ensures |s'.done| == |s.done| && s.queue != [] ==> |s'.queue| == |s.queue| + if e.Add? then 1 else 0
  {
    match e {
      case Intr(ok, drq) =>
        InterruptKeepsInv(t, s, ok, drq);
        assert |AllAsked(s')| == |AllAsked(s)|;
      case Add(r, at, drq) =>
        if s.queue == [] { DoRequestLog(t, s.(queue := [r]), drq); }
    }
  }

  lemma RankFalls(t: Table, s: State, e: Event, s': State)
    requires Inv(t, s) && CanHappen(t, s, e) && StepsTo(t, s, e, s') && |s'.done| == |s.done| && s.queue != []
    ensures s'.queue != [] && Rank(s') + (if e.Intr? then 1 else 0) <= Rank(s)
  {
    DoneGrows(t, s, e, s');
    if e.Intr? {
      InterruptIsProgress(t, s, e.ok, e.drq);
      assert FRESH_RANK * (|s'.queue| - 1) == FRESH_RANK * (|s.queue| - 1);
    }
  }

  // The request being served ends, well or not, within as many interrupts as its rank
  // says, at most FRESH_RANK, no matter what is added behind it.
  lemma {:induction false} CurrentRequestEnds(t: Table, ss: seq<State>, es: seq<Event>, n: nat)
    requires IsRun(t, ss, es) && n <= |es| && ss[0].queue != [] && |ss[n].done| == |ss[0].done|
    ensures Inv(t, ss[n]) && ss[n].queue != [] && Interrupts(es, n) + Rank(ss[n]) <= Rank(ss[0]) <= FRESH_RANK
  {
    RankIsBounded(t, ss[0]);
    if n > 0 {
      NothingEnded(t, ss, es, n);
      CurrentRequestEnds(t, ss, es, n - 1);
      RunStep(t, ss, es, n - 1);
      RankFalls(t, ss[n - 1], es[n - 1], ss[n]);
    }
  }

  lemma RankIsBounded(t: Table, s: State)
    requires Inv(t, s) && s.queue != []
    ensures 0 < Rank(s) <= FRESH_RANK
  {
    assert HeadOk(t, s);
  }

  lemma {:induction false} DoneGrowsInRun(t: Table, ss: seq<State>, es: seq<Event>, n: nat)
    requires IsRun(t, ss, es) && n <= |es|
    ensures |ss[n].done| >= |ss[0].done|
  {
    if n > 0 {
      DoneGrowsInRun(t, ss, es, n - 1);
      RunStep(t, ss, es, n - 1);
      DoneGrows(t, ss[n - 1], es[n - 1], ss[n]);
    }
  }

  lemma NothingEnded(t: Table, ss: seq<State>, es: seq<Event>, n: nat)
    requires IsRun(t, ss, es) && 0 < n <= |es| && |ss[n].done| == |ss[0].done|
    ensures |ss[n - 1].done| == |ss[0].done|
  {
    DoneGrowsInRun(t, ss, es, n - 1);
    RunStep(t, ss, es, n - 1);
    DoneGrows(t, ss[n - 1], es[n - 1], ss[n]);
  }

  // ---------- Giving up ----------

  // As long as nothing ends, do_hd_request and errors never lower the count of errors.
  lemma BadRwCounts(s: State)
    requires s.queue != [] && |BadRw(s).done| == |s.done|
    ensures BadRw(s).queue != [] && BadRw(s).queue[0].errors == s.queue[0].errors + 1
  {
  }

  lemma {:induction false} DoRequestKeepsErrors(t: Table, s: State, drq: seq<bool>)
    requires Wf(t, s) && s.queue != [] && |DoRequest(t, s, drq).done| == |s.done|
    ensures DoRequest(t, s, drq).queue != [] && DoRequest(t, s, drq).queue[0].errors >= s.queue[0].errors
    decreases |drq|, |s.queue|
  {
    if Refused(t, s.queue[0]) {
      DoRequestLog(t, EndRequest(s, false), drq);
    } else if !s.reset && !s.recalibrate && s.queue[0].asked.cmd != READ && drq != [] && !drq[0] {
      var s1 := Command(t, s, WriteIntr);
      DoRequestLog(t, BadRw(s1), drq[1..]);
      BadRwCounts(s1);
      DoRequestKeepsErrors(t, BadRw(s1), drq[1..]);
    }
  }

  // A good interrupt of a read, after which the errors start again from 0.
  predicate GoodRead(s: State, e: Event) { e.Intr? && e.ok && s.doHd == ReadIntr }

  predicate Bad(e: Event) { e.Intr? && !e.ok }

  lemma ErrorsGrow(t: Table, s: State, e: Event, s': State)
    requires Inv(t, s) && CanHappen(t, s, e) && StepsTo(t, s, e, s')
    requires s.queue != [] && |s'.done| == |s.done| && !GoodRead(s, e)
    ensures s'.queue != [] && s'.queue[0].errors >= s.queue[0].errors + if Bad(e) then 1 else 0
  {
    match e {
      case Add(r, at, drq) =>
      case Intr(ok, drq) =>
        var s1 := s.(doHd := NoHandler);
        if !ok {
          DoRequestLog(t, BadRw(s1), drq);
          BadRwCounts(s1);
          DoRequestKeepsErrors(t, BadRw(s1), drq);
        } else if s.doHd == RecalIntr {
          DoRequestKeepsErrors(t, s1, drq);
        } else {
          InterruptKeepsInv(t, s, ok, drq);
          assert HeadOk(t, s);
        }
    }
  }

  function BadOnes(es: seq<Event>, n: nat): nat
    requires n <= |es|
  {
    if n == 0 then 0 else BadOnes(es, n - 1) + if Bad(es[n - 1]) then 1 else 0
  }

  // The errors of a request that has not ended count every bad interrupt since the last
  // good read, whatever resets, recalibrations, timeouts and good writes lie in between ...
  lemma {:induction false} ErrorsAreCounted(t: Table, ss: seq<State>, es: seq<Event>, n: nat)
    requires IsRun(t, ss, es) && n <= |es| && ss[0].queue != [] && |ss[n].done| == |ss[0].done|
    requires forall j :: 0 <= j < n ==> !GoodRead(ss[j], es[j])
    ensures ss[n].queue != []
    ensures ss[0].queue[0].errors + BadOnes(es, n) <= ss[n].queue[0].errors < MAX_ERRORS
  {
    RunKeepsInv(t, ss, es, n);
    if n == 0 { assert HeadOk(t, ss[0]); }
    if n > 0 {
      NothingEnded(t, ss, es, n);
      ErrorsAreCounted(t, ss, es, n - 1);
      RunStep(t, ss, es, n - 1);
      ErrorsGrow(t, ss[n - 1], es[n - 1], ss[n]);
      assert HeadOk(t, ss[n]);
    }
  }

  // ... so the seventh of them ends it.
  lemma SeventhErrorEnds(t: Table, ss: seq<State>, es: seq<Event>, n: nat)
    requires IsRun(t, ss, es) && n <= |es| && ss[0].queue != [] && BadOnes(es, n) >= MAX_ERRORS
    requires forall j :: 0 <= j < n ==> !GoodRead(ss[j], es[j])
    ensures |ss[n].done| > |ss[0].done|
  {
    DoneGrowsInRun(t, ss, es, n);
    assert HeadOk(t, ss[0]);
    if |ss[n].done| == |ss[0].done| { ErrorsAreCounted(t, ss, es, n); }
  }

  // ---------- Resetting the controller ----------

  // The controller has been reset and is about to be recalibrated.
  predicate JustReset(s: State) { s.doHd == RecalIntr && s.recalibrate }

  lemma {:induction false} DoRequestResets(t: Table, s: State, drq: seq<bool>)
    requires Core(t, s) && s.queue != [] && (s.reset <==> s.queue[0].errors > MAX_ERRORS / 2)
    ensures var s' := DoRequest(t, s, drq);
            |s'.done| == |s.done| ==> s'.queue != [] && (JustReset(s') <==> s'.queue[0].errors > MAX_ERRORS / 2)
    decreases |drq|
  {
    DoRequestLog(t, s, drq);
    if Refused(t, s.queue[0]) {
      DoRequestLog(t, EndRequest(s, false), drq);
    } else if Unasked(s, drq) {
      var s1 := Command(t, s, WriteIntr);
      assert HeadOk(t, s1) && Core(t, s1);
      BadRwKeepsCore(t, s1);
      DoRequestResets(t, BadRw(s1), drq[1..]);
    }
  }

  // After a bad interrupt the controller is reset, before anything else is tried, if and
  // only if the request has had more than three errors in a row.
  lemma ManyErrorsReset(t: Table, s: State, drq: seq<bool>)
    requires Inv(t, s) && s.queue != []
    ensures var s' := Interrupt(t, s, false, drq);
            |s'.done| == |s.done| ==> s'.queue != [] && (JustReset(s') <==> s'.queue[0].errors > MAX_ERRORS / 2)
  {
    var s1 := s.(doHd := NoHandler);
    assert Core(t, s1) by { assert HeadOk(t, s1); }
    BadRwKeepsCore(t, s1);
    BadRwLog(t, s1);
    DoRequestLog(t, BadRw(s1), drq);
    if |BadRw(s1).done| == |s.done| { DoRequestResets(t, BadRw(s1), drq); }
  }

  // The reset is followed by a recalibration, and only then by the transfer.
  lemma ResetThenRecalibrate(t: Table, s: State, drq: seq<bool>)
    requires Inv(t, s) && s.queue != [] && JustReset(s) && !Refused(t, s.queue[0])
    ensures var s' := Interrupt(t, s, true, drq); s'.doHd == RecalIntr && !JustReset(s') && s'.queue == s.queue
  {
  }

  // A good sector makes a read forget its errors, but not a write.
  lemma ReadForgetsErrors(t: Table, s: State, drq: seq<bool>)
    requires Inv(t, s) && s.queue != [] && s.doHd != RecalIntr && s.queue[0].nr == SECTORS
    ensures Interrupt(t, s, true, drq).queue != []
    ensures Interrupt(t, s, true, drq).queue[0].errors == if s.doHd == ReadIntr then 0 else s.queue[0].errors
  {
  }

  // ---------- Retrying in the last block ----------

  // Is the check at the top of do_hd_request passed again when a request that lies inside
  // its partition is retried? Not if it lies at the very end and its first sector has
  // been transferred: then the code fails it, whatever its error count.
  lemma RetryIsRefused(t: Table, s: State)
    requires Core(t, s) && s.queue != [] && Inside(t, s.queue[0].asked)
    ensures Refused(t, s.queue[0]) <==>
              s.queue[0].nr < SECTORS && s.queue[0].asked.sector + SECTORS == t.parts[s.queue[0].asked.minor].count
  {
    assert HeadOk(t, s);
  }

  // One bad second sector ends a read of the last block of a ten-sector partition.
  lemma RetryIsRefusedExample()
    ensures var t := Table([Drive(2, 5)], [Part(0, 10)] + seq(9, i => Part(0, 0)));
            var r := Req(Asked(READ, 0, 8), [7, 0], 9, 1, SECTOR_SIZE, 0);
            var s := State([r], false, false, ReadIntr, 0, 9, 0, [seq(10, i => 7)], []);
            Inv(t, s) && Inside(t, r.asked) &&
            Interrupt(t, s, false, []).queue == [] && Interrupt(t, s, false, []).done == [(r.(errors := 1), false)]
  {
    var t := Table([Drive(2, 5)], [Part(0, 10)] + seq(9, i => Part(0, 0)));
    var r := Req(Asked(READ, 0, 8), [7, 0], 9, 1, SECTOR_SIZE, 0);
    var s := State([r], false, false, ReadIntr, 0, 9, 0, [seq(10, i => 7)], []);
    assert TableOk(t, s.disk) && WfReq(r) && Agrees(t, s.disk, r, 0);
    assert HeadOk(t, s) && Serving(t, s);
    var s1 := s.(doHd := NoHandler);
    var bad := BadRw(s1);
    assert bad == s1.(queue := [r.(errors := 1)]);
    assert Refused(t, bad.queue[0]);
    assert DoRequest(t, EndRequest(bad, false), []) == EndRequest(bad, false);
  }

  // ---------- The code ----------

  class Driver {
    const table: Table
    var queue: seq<Req>
    var reset: bool
    var recalibrate: bool
    var doHd: Handler
    var drive: int
    var pos: int
    var sent: int
    var disk: seq<seq<int>>
    ghost var done: seq<(Req, bool)>

    ghost function S(): State
      reads this
    {
      State(queue, reset, recalibrate, doHd, drive, pos, sent, disk, done)
    }

    constructor (table: Table, disk: seq<seq<int>>)
      requires TableOk(table, disk)
      ensures Inv(this.table, S()) && this.table == table && this.disk == disk && queue == [] && done == []
    {
      this.table, this.disk := table, disk;
      queue, reset, recalibrate, doHd, drive, pos, sent, done := [], true, true, NoHandler, 0, 0, 0, [];
    }

    method End(uptodate: bool)
      requires queue != []
      modifies `queue, `done
      ensures S() == EndRequest(old(S()), uptodate)
    {
      done := done + [(queue[0], uptodate)];
      queue := queue[1..];
    }

    method BadRwIntr()
      requires queue != []
      modifies `queue, `done, `reset
      ensures S() == BadRw(old(S()))
    {
      queue := queue[0 := queue[0].(errors := queue[0].errors + 1)];
      if queue[0].errors >= MAX_ERRORS {
        End(false);
      }
      if queue != [] && queue[0].errors > MAX_ERRORS / 2 {
        reset := true;
      }
    }

    // hd_out for a transfer.
    method HdOut(handler: Handler)
      requires Wf(table, S()) && queue != [] && !Refused(table, queue[0])
      modifies `doHd, `drive, `pos
      ensures S() == Command(table, old(S()), handler)
    {
      var dev, block := queue[0].asked.minor, queue[0].sector;
      block := block + table.parts[dev].start;
      dev := dev / 5;
      var d := table.drives[dev];
      var sec := block % d.sect;
      block := block / d.sect;
      var head, cyl := block % d.heads, block / d.heads;
      sec := sec + 1;
      doHd, drive, pos := handler, dev, Linear(d, Chs(cyl, head, sec));
    }

    // do_hd_request; drq holds the controller's answers to write commands.
    method DoHdRequest(drq: seq<bool>)
      requires Wf(table, S())
      modifies this
      ensures S() == DoRequest(table, old(S()), drq)
    {
      ghost var was := S();
      var k := 0;
      while queue != []
        invariant 0 <= k <= |drq| && Wf(table, S())
        invariant DoRequest(table, S(), drq[k..]) == DoRequest(table, was, drq)
        decreases |drq| - k, |queue|
      {
        if queue[0].asked.minor >= 5 * |table.drives| ||
           (queue[0].sector + 2) % U32 > table.parts[queue[0].asked.minor].count {
          End(false);
        } else if reset {
          reset, recalibrate, doHd := false, true, RecalIntr;
          return;
        } else if recalibrate {
          recalibrate, doHd := false, RecalIntr;
          return;
        } else if queue[0].asked.cmd == WRITE {
          HdOut(WriteIntr);
          if k == |drq| || drq[k] {
            sent := queue[0].data[queue[0].buffer / SECTOR_SIZE];
            return;
          }
          BadRwIntr();
          k := k + 1;
        } else {
          HdOut(ReadIntr);
          return;
        }
      }
    }

    // hd_interrupt with the handler it finds; ok is win_result() == 0.
    method HdInterrupt(ok: bool, drq: seq<bool>)
      requires Inv(table, S()) && queue != []
      modifies this
      ensures S() == Interrupt(table, old(S()), ok, drq)
      ensures Inv(table, S()) && AllAsked(S()) == AllAsked(old(S())) && Ended(table, old(S()), S())
      ensures Work(S()) < Work(old(S()))
      ensures ok && old(doHd) != RecalIntr ==>
                if old(queue)[0].nr == 1 then Succeeded(table, old(S()), S()) else OneMore(table, old(S()), S())
    {
      ghost var was := S();
      var handler := doHd;
      doHd := NoHandler;
      if !ok {
        BadRwIntr();
        DoHdRequest(drq);
      } else if handler == ReadIntr {
        Received(drq);
      } else if handler == WriteIntr {
        Written(drq);
      } else {
        DoHdRequest(drq);
      }
      InterruptKeepsInv(table, was, ok, drq);
      InterruptIsProgress(table, was, ok, drq);
    }

    // read_intr after a good result.
    method Received(drq: seq<bool>)
      requires Wf(table, S()) && queue != [] && InPlace(S()) && forall i :: 1 <= i < |queue| ==> WfReq(queue[i])
      modifies this
      ensures S() == ReadOk(table, old(S()), drq)
    {
      var r := queue[0];
      r := r.(data := r.data[r.buffer / SECTOR_SIZE := disk[drive][pos]]);
      pos := pos + 1;
      r := r.(errors := 0, buffer := r.buffer + SECTOR_SIZE, sector := r.sector + 1, nr := r.nr - 1);
      queue := queue[0 := r];
      if r.nr != 0 {
        doHd := ReadIntr;
        return;
      }
      End(true);
      DoHdRequest(drq);
    }

    // write_intr after a good result.
    method Written(drq: seq<bool>)
      requires Wf(table, S()) && queue != [] && InPlace(S())
      modifies this
      ensures S() == WriteOk(table, old(S()), drq)
    {
      disk := disk[drive := disk[drive][pos := sent]];
      pos := pos + 1;
      var r := queue[0];
      r := r.(nr := r.nr - 1);
      if r.nr != 0 {
        r := r.(sector := r.sector + 1, buffer := r.buffer + SECTOR_SIZE);
        queue := queue[0 := r];
        doHd := WriteIntr;
        sent := r.data[r.buffer / SECTOR_SIZE];
        return;
      }
      queue := queue[0 := r];
      End(true);
      DoHdRequest(drq);
    }

    // add_request: behind the request being served, or at once if there is none.
    method AddRequest(r: Req, at: int, drq: seq<bool>)
      requires Inv(table, S()) && Fresh(r) && (queue == [] || 1 <= at <= |queue|)
      modifies this
      ensures Inv(table, S()) && disk == old(disk) && Work(S()) <= Work(old(S())) + FRESH_RANK
      ensures S() == Submit(table, old(S()), r, at, drq)
      ensures AllAsked(S()) == if old(queue) == [] then AllAsked(old(S())) + [r.asked]
                               else Spliced(AllAsked(old(S())), |old(done)| + at, r.asked)
    {
      ghost var was := S();
      if queue == [] {
        queue := [r];
        assert AllAsked(S()) == AllAsked(was) + [r.asked];
        DoRequestLog(table, S(), drq);
        DoHdRequest(drq);
      } else {
        queue := queue[..at] + [r] + queue[at..];
        assert AllAsked(S()) == Spliced(AllAsked(was), |was.done| + at, r.asked);
      }
      SubmitKeepsInv(table, was, r, at, drq);
    }
  }

  function Spliced(s: seq<Asked>, k: int, a: Asked): seq<Asked>
    requires 0 <= k <= |s|
  {
    s[..k] + [a] + s[k..]
  }
}
