module Elevator {
  // The elevator queue of the block layer: IN_ORDER and end_request
  // (kernel/blk_drv/blk.h) and add_request and the slot search of make_request
  // (kernel/blk_drv/ll_rw_blk.c).
  //
  // `Insert` is the queue's specification on key sequences; class `BlockDevice`
  // runs the source's pointer walk and is proved to perform it. The theorems about
  // whole runs (`QueueKeepsTwoRuns`, `NoStarvation`, `BoundedBypass`) are then about
  // `Insert` and removal of the head.

  import opened Counting

  const READ := 0
  const WRITE := 1
  const NR_REQUEST := 32

  // What IN_ORDER compares: command, device and first sector of the block.
  datatype Key = Key(cmd: int, dev: int, sector: int)

  predicate InOrder(a: Key, b: Key) {
    a.cmd < b.cmd ||
    (a.cmd == b.cmd && (a.dev < b.dev || (a.dev == b.dev && a.sector < b.sector)))
  }

  predicate Ascending(q: seq<Key>) {
    forall i, j :: 0 <= i < j < |q| ==> InOrder(q[i], q[j])
  }

  // ---------- Insertion ----------

  // The loop's exit test at the element with index i.
  predicate Fits(q: seq<Key>, r: Key, i: nat)
    requires i + 1 < |q|
  {
    (InOrder(q[i], r) || !InOrder(q[i], q[i + 1])) && InOrder(r, q[i + 1])
  }

  // Index of the element after which r is linked, searching from i.
  function Slot(q: seq<Key>, r: Key, i: nat): (p: nat)
    requires i < |q|
    ensures i <= p < |q|
    ensures forall j :: i <= j < p ==> !Fits(q, r, j)
    ensures p + 1 < |q| ==> Fits(q, r, p)
    decreases |q| - i
  {
    if i + 1 == |q| || Fits(q, r, i) then i else Slot(q, r, i + 1)
  }

  function Splice<T>(q: seq<T>, p: nat, r: T): seq<T>
    requires p < |q|
  {
    q[..p + 1] + [r] + q[p + 1..]
  }

  function Insert(q: seq<Key>, r: Key): seq<Key> {
    if q == [] then [r] else Splice(q, Slot(q, r, 0), r)
  }

  // Nothing is lost or duplicated, and the request being served stays in front.
  lemma InsertAddsOne(q: seq<Key>, r: Key)
    ensures multiset(Insert(q, r)) == multiset(q) + multiset{r}
    ensures q != [] ==> Insert(q, r)[0] == q[0]
  {
    if q != [] {
      var p := Slot(q, r, 0);
      assert q == q[..p + 1] + q[p + 1..];
    }
  }

  lemma InsertMember(q: seq<Key>, r: Key, x: Key)
    ensures x in Insert(q, r) <==> x in q || x == r
  {
    InsertAddsOne(q, r);
    assert x in Insert(q, r) <==> x in multiset(Insert(q, r));
  }

  // ---------- Counting descents ----------

  function Junction(a: Key, b: Key): nat { if InOrder(a, b) then 0 else 1 }

  // How often consecutive keys fail to ascend.
  function Descents(q: seq<Key>): nat {
    if |q| < 2 then 0 else Junction(q[0], q[1]) + Descents(q[1..])
  }

  lemma {:induction false} DescentsConcat(a: seq<Key>, b: seq<Key>)
    requires a != [] && b != []
    ensures Descents(a + b) == Descents(a) + Junction(a[|a| - 1], b[0]) + Descents(b)
  {
    if |a| == 1 {
      assert (a + b)[1..] == b;
    } else {
      DescentsConcat(a[1..], b);
      assert (a + b)[1..] == a[1..] + b;
    }
  }

  // Linking r between two queued keys never adds a descent to a stretch that
  // spans both of them.
  lemma FittingAddsNoDescent(a: seq<Key>, r: Key, b: seq<Key>)
    requires a != [] && b != []
    requires InOrder(a[|a| - 1], r) || !InOrder(a[|a| - 1], b[0])
    requires InOrder(r, b[0])
    ensures Descents(a + [r] + b) == Descents(a + b)
  {
    DescentsConcat(a, b);
    DescentsConcat(a, [r]);
    DescentsConcat(a + [r], b);
  }

  // If the search runs off the end with r below the last key, the queue had no
  // descent yet.
  lemma {:induction false} NoFitMeansAscending(q: seq<Key>, r: Key, i: nat)
    requires i < |q| && r !in q && InOrder(r, q[|q| - 1])
    requires forall j :: 0 <= j < |q| - 1 ==> !Fits(q, r, j)
    ensures InOrder(r, q[i]) && Descents(q[i..]) == 0
    decreases |q| - i
  {
    if i + 1 < |q| {
      NoFitMeansAscending(q, r, i + 1);
      assert !Fits(q, r, i);
      assert q[i] in q;
      assert q[i..][1..] == q[i + 1..];
    }
  }

  lemma InsertKeepsOneDescent(q: seq<Key>, r: Key)
    requires Distinct(q) && r !in q && Descents(q) <= 1
    ensures Distinct(Insert(q, r)) && Descents(Insert(q, r)) <= 1
  {
    if q != [] {
      var p := Slot(q, r, 0);
      var a, b := q[..p + 1], q[p + 1..];
      assert q == a + b;
      if b == [] {
        assert a == q && Insert(q, r) == q + [r];
        DescentsConcat(q, [r]);
        if !InOrder(q[p], r) {
          assert q[p] in q;
          NoFitMeansAscending(q, r, 0);
          assert q[0..] == q;
        }
      } else {
        assert Fits(q, r, p);
        FittingAddsNoDescent(a, r, b);
      }
    }
    InsertKeepsDistinct(q, r);
  }

  // At most one descent means two strictly ascending runs.
  lemma {:induction false} NoDescentIsAscending(q: seq<Key>)
    requires Descents(q) == 0
    ensures Ascending(q)
  {
    if |q| >= 2 {
      NoDescentIsAscending(q[1..]);
      forall j | 0 < j < |q| ensures InOrder(q[0], q[j]) {
        if j > 1 { assert InOrder(q[1..][0], q[1..][j - 1]); }
      }
      forall i, j | 1 <= i < j < |q| ensures InOrder(q[i], q[j]) {
        assert InOrder(q[1..][i - 1], q[1..][j - 1]);
      }
    }
  }

  lemma {:induction false} OneDescentSplits(q: seq<Key>) returns (d: nat)
    requires Descents(q) <= 1
    ensures d <= |q| && Ascending(q[..d]) && Ascending(q[d..])
  {
    if |q| < 2 {
      d := |q|;
    } else if InOrder(q[0], q[1]) {
      var e := OneDescentSplits(q[1..]);
      if e == 0 {
        d := 1;
        assert q[1..][0..] == q[1..];
      } else {
        d := e + 1;
        assert q[1..][..e] == q[1..d] && q[1..][e..] == q[d..];
        forall i, j | 0 <= i < j < d ensures InOrder(q[i], q[j]) {
          assert j >= 1 && q[j] == q[1..][..e][j - 1] && q[1] == q[1..][..e][0];
          if i > 0 { assert q[i] == q[1..][..e][i - 1]; }
        }
      }
    } else {
      d := 1;
      NoDescentIsAscending(q[1..]);
    }
  }

  // ---------- Runs ----------

  datatype Op = Add(key: Key) | Finish

  predicate Legal(q: seq<Key>, op: Op) {
    match op
    case Add(k) => k !in q
    case Finish => q != []
  }

  function Apply(q: seq<Key>, op: Op): seq<Key>
    requires Legal(q, op)
  {
    match op
    case Add(k) => Insert(q, k)
    case Finish => q[1..]
  }

  predicate LegalRun(q: seq<Key>, ops: seq<Op>)
    decreases |ops|
  {
    ops == [] || (Legal(q, ops[0]) && LegalRun(Apply(q, ops[0]), ops[1..]))
  }

  function Final(q: seq<Key>, ops: seq<Op>): seq<Key>
    requires LegalRun(q, ops)
    decreases |ops|
  {
    if ops == [] then q else Final(Apply(q, ops[0]), ops[1..])
  }

  // The keys completed by a run, in order.
  function Served(q: seq<Key>, ops: seq<Op>): seq<Key>
    requires LegalRun(q, ops)
    decreases |ops|
  {
    if ops == [] then [] else
      (if ops[0].Finish? then [q[0]] else []) + Served(Apply(q, ops[0]), ops[1..])
  }

  predicate Shape(q: seq<Key>) { Distinct(q) && Descents(q) <= 1 }

  lemma ApplyKeepsShape(q: seq<Key>, op: Op)
    requires Shape(q) && Legal(q, op)
    ensures Shape(Apply(q, op))
  {
    match op
    case Add(k) => InsertKeepsOneDescent(q, k);
    case Finish =>
      if |q| >= 2 { assert Descents(q[1..]) <= Descents(q); }
  }

  // Elevator shape: whatever is added and completed, the queue is at most two
  // strictly ascending runs.
  lemma {:induction false} QueueKeepsTwoRuns(q: seq<Key>, ops: seq<Op>) returns (d: nat)
    requires Shape(q) && LegalRun(q, ops)
    ensures Distinct(Final(q, ops))
    ensures d <= |Final(q, ops)| && Ascending(Final(q, ops)[..d]) && Ascending(Final(q, ops)[d..])
    decreases |ops|
  {
    if ops == [] {
      d := OneDescentSplits(q);
    } else {
      ApplyKeepsShape(q, ops[0]);
      d := QueueKeepsTwoRuns(Apply(q, ops[0]), ops[1..]);
    }
  }

  // ---------- No starvation ----------

  // The part of a service order up to and including r.
  function UpTo(s: seq<Key>, r: Key): seq<Key> {
    if s == [] then [] else if s[0] == r then [r] else [s[0]] + UpTo(s[1..], r)
  }

  lemma {:induction false} UpToIsPrefix(s: seq<Key>, r: Key)
    ensures UpTo(s, r) <= s
  {
    if s != [] { UpToIsPrefix(s[1..], r); }
  }

  lemma {:induction false} UpToSkips(a: seq<Key>, b: seq<Key>, r: Key)
    requires r !in a
    ensures UpTo(a + b, r) == a + UpTo(b, r)
  {
    if a == [] {
      assert a + b == b;
    } else {
      assert (a + b)[1..] == a[1..] + b;
      UpToSkips(a[1..], b, r);
    }
  }

  lemma {:induction false} DescentsPrefix(a: seq<Key>, b: seq<Key>)
    ensures Descents(a) <= Descents(a + b)
  {
    if b == [] {
      assert a + b == a;
    } else if a != [] {
      DescentsConcat(a, b);
    }
  }

  lemma {:induction false} UpToStops(a: seq<Key>, b: seq<Key>, r: Key)
    requires r in a
    ensures UpTo(a + b, r) == UpTo(a, r)
  {
    assert (a + b)[0] == a[0];
    if a[0] != r {
      assert (a + b)[1..] == a[1..] + b;
      UpToStops(a[1..], b, r);
    }
  }

  // Two stretches that share what lies before and at r.
  lemma SpliceKeepsWayTo(a: seq<Key>, k: Key, b: seq<Key>, r: Key)
    requires a != [] && b != [] && r !in a && r in b && k != r
    requires (InOrder(a[|a| - 1], k) || !InOrder(a[|a| - 1], b[0])) && InOrder(k, b[0])
    ensures Descents(UpTo(a + ([k] + b), r)) == Descents(UpTo(a + b, r))
  {
    var u := UpTo(b, r);
    assert u != [] && u[0] == b[0];
    calc {
      Descents(UpTo(a + ([k] + b), r));
      { UpToSkips(a, [k] + b, r); UpToSkips([k], b, r); }
      Descents(a + ([k] + u));
      { assert a + ([k] + u) == a + [k] + u; }
      Descents(a + [k] + u);
      { FittingAddsNoDescent(a, k, u); }
      Descents(a + u);
      { UpToSkips(a, b, r); }
      Descents(UpTo(a + b, r));
    }
  }

  // A request added while r waits leaves the number of descents on the way to r alone.
  lemma AddKeepsWayTo(done: seq<Key>, q: seq<Key>, k: Key, r: Key)
    requires r in q && k !in q && r !in done
    ensures Descents(UpTo(done + Insert(q, k), r)) == Descents(UpTo(done + q, r))
  {
    var p := Slot(q, k, 0);
    var a, b := q[..p + 1], q[p + 1..];
    assert q == a + b;
    assert done + q == (done + a) + b;
    assert done + Insert(q, k) == (done + a) + ([k] + b);
    if r in a {
      assert r in done + a;
      UpToStops(done + a, b, r);
      UpToStops(done + a, [k] + b, r);
    } else {
      assert r in b && r !in done + a;
      assert Fits(q, k, p);
      SpliceKeepsWayTo(done + a, k, b, r);
    }
  }

  // Completing the head moves it from the queue to the completed keys.
  lemma FinishKeepsWayTo(done: seq<Key>, q: seq<Key>, rest: seq<Key>)
    requires q != []
    ensures done + q == (done + [q[0]]) + q[1..]
    ensures done + ([q[0]] + rest) == (done + [q[0]]) + rest
  {
  }

  lemma {:induction false} WayToKept(done: seq<Key>, q: seq<Key>, ops: seq<Op>, r: Key)
    requires LegalRun(q, ops) && r in q && r !in done
    ensures Descents(UpTo(done + Served(q, ops), r)) <= Descents(UpTo(done + q, r))
    decreases |ops|
  {
    if ops == [] {
      UpToSkips(done, q, r);
      UpToSkips(done, [], r);
      DescentsPrefix(done, UpTo(q, r));
      assert done + [] == done;
    } else {
      var op := ops[0];
      var q' := Apply(q, op);
      match op {
        case Add(k) =>
          AddKeepsWayTo(done, q, k, r);
          InsertMember(q, k, r);
          WayToKept(done, q', ops[1..], r);
          assert Served(q, ops) == [] + Served(q', ops[1..]) == Served(q', ops[1..]);
        case Finish =>
          FinishKeepsWayTo(done, q, Served(q', ops[1..]));
          if q[0] == r {
            UpToStops(done + [r], q', r);
            UpToStops(done + [r], Served(q', ops[1..]), r);
          } else {
            WayToKept(done + [q[0]], q', ops[1..], r);
          }
      }
    }
  }

  lemma WayDescendsOnce(q: seq<Key>, r: Key)
    requires r in q && Descents(q) <= 1
    ensures Descents(UpTo(q, r)) <= 1
  {
    UpToIsPrefix(q, r);
    var u := UpTo(q, r);
    DescentsPrefix(u, q[|u|..]);
    assert q == u + q[|u|..];
  }

  lemma WayFromHere(q: seq<Key>, ops: seq<Op>, r: Key)
    requires LegalRun(q, ops) && r in q && Descents(q) <= 1
    ensures Descents(UpTo(Served(q, ops), r)) <= 1
  {
    WayToKept([], q, ops, r);
    assert [] + q == q;
    assert [] + Served(q, ops) == Served(q, ops);
    WayDescendsOnce(q, r);
  }

  // From the moment r is enqueued until it is served the completed keys descend
  // at most once, in every run.
  lemma NoStarvation(q: seq<Key>, r: Key, ops: seq<Op>)
    requires Shape(q) && r !in q && LegalRun(Insert(q, r), ops)
    ensures Descents(UpTo(Served(Insert(q, r), ops), r)) <= 1
  {
    InsertKeepsOneDescent(q, r);
    InsertMember(q, r, r);
    WayFromHere(Insert(q, r), ops, r);
  }

  predicate KeysIn(q: seq<Key>, ks: set<Key>) { forall k <- q :: k in ks }

  predicate AddsIn(ops: seq<Op>, ks: set<Key>) { forall op <- ops :: op.Add? ==> op.key in ks }

  lemma {:induction false} ServedIn(q: seq<Key>, ops: seq<Op>, ks: set<Key>)
    requires LegalRun(q, ops) && KeysIn(q, ks) && AddsIn(ops, ks)
    ensures KeysIn(Served(q, ops), ks)
    decreases |ops|
  {
    if ops != [] {
      var q' := Apply(q, ops[0]);
      forall k <- q' ensures k in ks {
        if ops[0].Add? { InsertMember(q, ops[0].key, k); }
      }
      ServedIn(q', ops[1..], ks);
    }
  }

  lemma {:induction false} AscendingFits(s: seq<Key>, ks: set<Key>)
    requires Ascending(s) && KeysIn(s, ks)
    ensures |s| <= |ks|
  {
    if s != [] {
      forall k <- s[1..] ensures k in ks - {s[0]} {
        var j :| 0 <= j < |s[1..]| && s[1..][j] == k;
        assert InOrder(s[0], s[j + 1]);
      }
      AscendingFits(s[1..], ks - {s[0]});
    }
  }

  // Reads cannot postpone a write forever: if all keys come from a set ks, at most
  // 2|ks| completions pass before r, whatever is added meanwhile.
  lemma BoundedBypass(q: seq<Key>, r: Key, ops: seq<Op>, ks: set<Key>)
    requires Shape(q) && r !in q && LegalRun(Insert(q, r), ops)
    requires KeysIn(q, ks) && r in ks && AddsIn(ops, ks)
    ensures |UpTo(Served(Insert(q, r), ops), r)| <= 2 * |ks|
  {
    NoStarvation(q, r, ops);
    forall k <- Insert(q, r) ensures k in ks { InsertMember(q, r, k); }
    ServedIn(Insert(q, r), ops, ks);
    var u := UpTo(Served(Insert(q, r), ops), r);
    UpToIsPrefix(Served(Insert(q, r), ops), r);
    var d := OneDescentSplits(u);
    AscendingFits(u[..d], ks);
    AscendingFits(u[d..], ks);
  }

  // ---------- The order of service ----------

  predicate Before(q: seq<Key>, x: Key, y: Key) { exists i, j :: 0 <= i < j < |q| && q[i] == x && q[j] == y }

  lemma InsertKeepsBefore(q: seq<Key>, k: Key, x: Key, y: Key)
    requires Before(q, x, y)
    ensures Before(Insert(q, k), x, y)
  {
    var i, j :| 0 <= i < j < |q| && q[i] == x && q[j] == y;
    var q', p := Insert(q, k), Slot(q, k, 0);
    var i', j' := if i <= p then i else i + 1, if j <= p then j else j + 1;
    assert q'[i'] == x && q'[j'] == y;
  }

  // Of two waiting requests the one in front is served first, whatever is added.
  lemma {:induction false} OrderKept(q: seq<Key>, ops: seq<Op>, x: Key, y: Key)
    requires Distinct(q) && LegalRun(q, ops) && Before(q, x, y)
    ensures y !in UpTo(Served(q, ops), x)
    decreases |ops|
  {
    var i, j :| 0 <= i < j < |q| && q[i] == x && q[j] == y;
    if ops != [] {
      var q' := Apply(q, ops[0]);
      if ops[0].Add? {
        InsertKeepsDistinct(q, ops[0].key);
        InsertKeepsBefore(q, ops[0].key, x, y);
        OrderKept(q', ops[1..], x, y);
        assert Served(q, ops) == [] + Served(q', ops[1..]) == Served(q', ops[1..]);
      } else if i > 0 {
        assert q'[i - 1] == x && q'[j - 1] == y;
        OrderKept(q', ops[1..], x, y);
        UpToSkips([q[0]], Served(q', ops[1..]), x);
      } else {
        UpToStops([x], Served(q', ops[1..]), x);
      }
    }
  }

  // Further up on the disk.
  predicate Above(a: Key, b: Key) { b.dev < a.dev || (b.dev == a.dev && b.sector < a.sector) }

  // In one sweep reads go before writes, and either kind upwards.
  predicate Precedes(a: Key, b: Key) {
    (a.cmd == READ && b.cmd == WRITE) || (a.cmd == b.cmd && Above(b, a))
  }

  predicate IsCommand(k: Key) { k.cmd == READ || k.cmd == WRITE }

  lemma AscendingIsDistinct(q: seq<Key>)
    requires Ascending(q)
    ensures Distinct(q)
  {
    forall i, j | 0 <= i < j < |q| ensures q[i] != q[j] { assert InOrder(q[i], q[j]); }
  }

  // The keys of an ascending queue stand in the order of one sweep.
  lemma AscendingIsSweep(q: seq<Key>, a: Key, b: Key)
    requires Ascending(q) && a in q && b in q && IsCommand(a) && IsCommand(b)
    ensures Before(q, a, b) <==> Precedes(a, b)
  {
    var i :| 0 <= i < |q| && q[i] == a;
    var j :| 0 <= j < |q| && q[j] == b;
    if i < j { assert InOrder(q[i], q[j]); } else if j < i { assert InOrder(q[j], q[i]); }
    if Before(q, a, b) {
      var x, y :| 0 <= x < y < |q| && q[x] == a && q[y] == b;
      assert InOrder(q[x], q[y]);
    }
  }

  // A request that the sweep has not passed yet joins it ...
  lemma JoinsSweep(q: seq<Key>, r: Key)
    requires Ascending(q) && q != [] && r !in q && InOrder(q[0], r)
    ensures Ascending(Insert(q, r))
  {
    var p := Slot(q, r, 0);
    assert q[p] in q;
    if p + 1 == |q| && InOrder(r, q[p]) { NoFitMeansAscending(q, r, 0); }
    assert p + 1 < |q| ==> Fits(q, r, p) && InOrder(q[p], q[p + 1]);
    var q' := Insert(q, r);
    forall i, j | 0 <= i < j < |q'| ensures InOrder(q'[i], q'[j]) {
      assert i <= p ==> q'[i] == q[i];
      assert i > p + 1 ==> q'[i] == q[i - 1];
      assert j <= p ==> q'[j] == q[j];
      assert j > p + 1 ==> q'[j] == q[j - 1];
    }
  }

  // ... and one that it has passed waits for the next.
  lemma MissesSweep(q: seq<Key>, r: Key)
    requires Ascending(q) && q != [] && r !in q && !InOrder(q[0], r)
    ensures Insert(q, r) == q + [r]
  {
    assert q[0] in q;
    forall j: nat | j + 1 < |q| ensures !Fits(q, r, j) {
      assert j > 0 ==> InOrder(q[0], q[j]);
      assert InOrder(q[j], q[j + 1]);
    }
  }

  // "Reads always go before writes" holds for a read if and only if the sweep has not
  // passed its place: it is served before all waiting writes if it lies above the request
  // being served, else after them.
  lemma ReadsGoFirst(q: seq<Key>, r: Key, w: Key, ops: seq<Op>)
    requires Ascending(q) && q != [] && r !in q && LegalRun(Insert(q, r), ops)
    requires q[0].cmd == READ && r.cmd == READ && w in q && w.cmd == WRITE
    ensures Before(Insert(q, r), r, w) <==> Above(r, q[0])
    ensures if Above(r, q[0]) then w !in UpTo(Served(Insert(q, r), ops), r)
            else r !in UpTo(Served(Insert(q, r), ops), w)
  {
    AscendingIsDistinct(q);
    InsertKeepsDistinct(q, r);
    InsertMember(q, r, r);
    InsertMember(q, r, w);
    assert q[0] in q;
    if Above(r, q[0]) {
      JoinsSweep(q, r);
      AscendingIsSweep(Insert(q, r), r, w);
      OrderKept(Insert(q, r), ops, r, w);
    } else {
      MissesSweep(q, r);
      var i :| 0 <= i < |q| && q[i] == w;
      assert (q + [r])[i] == w && (q + [r])[|q|] == r;
      OrderKept(Insert(q, r), ops, w, r);
      assert forall j :: 0 <= j < |q| ==> (q + [r])[j] in q;
    }
  }

  // Whatever is added, the requests of either sweep are served in its order: reads first,
  // each kind by rising device and sector.
  lemma SweepIsServedInOrder(q: seq<Key>, from: nat, end: nat, a: Key, b: Key, ops: seq<Op>)
    requires Distinct(q) && LegalRun(q, ops) && from <= end <= |q| && Ascending(q[from..end])
    requires a in q[from..end] && b in q[from..end] && IsCommand(a) && Precedes(a, b)
    ensures b !in UpTo(Served(q, ops), a)
  {
    var sweep := q[from..end];
    AscendingIsSweep(sweep, a, b);
    var i, j :| 0 <= i < j < |sweep| && sweep[i] == a && sweep[j] == b;
    assert q[from + i] == a && q[from + j] == b;
    OrderKept(q, ops, a, b);
  }

  // A read of a low sector, added while a higher one is read, goes behind the write.
  lemma ReadFailsExample()
    ensures var q, r := [Key(READ, 769, 10), Key(WRITE, 769, 4)], Key(READ, 769, 2);
            Ascending(q) && Insert(q, r) == q + [r]
  {
    var q, r := [Key(READ, 769, 10), Key(WRITE, 769, 4)], Key(READ, 769, 2);
    MissesSweep(q, r);
  }

  // ---------- The linked queue ----------

  class Request {
    var dev: int
    var cmd: int
    var sector: int
    var nrSectors: int
    var next: Request?

    constructor ()
      ensures dev == -1 && next == null
    {
      dev, cmd, sector, nrSectors, next := -1, READ, 0, 0, null;
    }

    // A request covers the two sectors of a block. The read and write handlers
    // advance `sector` while they count `nrSectors` down, so the block's first
    // sector is recovered from both.
    ghost function BlockKey(): Key
      reads `cmd, `dev, `sector, `nrSectors
    {
      Key(cmd, dev, sector + nrSectors - 2)
    }

    ghost predicate Waiting()
      reads `sector, `nrSectors
    {
      nrSectors == 2 && sector % 2 == 0
    }

    ghost predicate InTransfer()
      reads `sector, `nrSectors
    {
      1 <= nrSectors <= 2 && (sector + nrSectors) % 2 == 0
    }
  }

  // IN_ORDER as the source evaluates it, on the requests' current fields.
  predicate RequestsInOrder(a: Request, b: Request)
    reads a, b
  {
    InOrder(Key(a.cmd, a.dev, a.sector), Key(b.cmd, b.dev, b.sector))
  }

  // A half-transferred head still compares as its block does.
  lemma CurrentFieldsCompareAsBlocks(a: Request, b: Request)
    requires a.InTransfer() && b.InTransfer() && (a.Waiting() || b.Waiting())
    requires a.BlockKey() != b.BlockKey()
    ensures RequestsInOrder(a, b) == InOrder(a.BlockKey(), b.BlockKey())
  {
    if a.cmd == b.cmd && a.dev == b.dev {
      var x, y := a.sector + a.nrSectors - 2, b.sector + b.nrSectors - 2;
      assert x % 2 == 0 && y % 2 == 0 && x != y;
      assert x < y <==> x + 1 < y;
      assert x < y <==> x <= y - 2;
    }
  }

  // The `next` pointers thread exactly the requests of q.
  ghost predicate Linked(q: seq<Request>)
    reads q
  {
    (forall i, j :: 0 <= i < j < |q| ==> q[i] != q[j]) &&
    (forall i {:trigger q[i].next} :: 0 <= i < |q| ==> q[i].next == if i + 1 < |q| then q[i + 1] else null)
  }

  // Only the head may be half transferred.
  ghost predicate TransferOrder(q: seq<Request>)
    reads (set r | r in q)`sector, (set r | r in q)`nrSectors
  {
    (q != [] ==> q[0].InTransfer()) && forall i :: 0 < i < |q| ==> q[i].Waiting()
  }

  ghost predicate Keyed(q: seq<Request>, keys: seq<Key>)
    reads q
  {
    |keys| == |q| && forall i :: 0 <= i < |q| ==> keys[i] == q[i].BlockKey()
  }

  // The pointers after req has been linked behind q[p].
  lemma SpliceStaysLinked(q: seq<Request>, p: nat, req: Request)
    requires p < |q| && req !in q
    requires forall i, j :: 0 <= i < j < |q| ==> q[i] != q[j]
    requires q[p].next == req && req.next == if p + 1 < |q| then q[p + 1] else null
    requires forall i {:trigger q[i].next} :: 0 <= i < |q| && i != p ==>
               q[i].next == if i + 1 < |q| then q[i + 1] else null
    ensures Linked(Splice(q, p, req))
  {
    var q' := Splice(q, p, req);
    forall i, j | 0 <= i < j < |q'| ensures q'[i] != q'[j] {
      var i', j' := if i > p then i - 1 else i, if j > p then j - 1 else j;
      assert i != p + 1 ==> q'[i] == q[i'] && q[i'] in q;
      assert j != p + 1 ==> q'[j] == q[j'] && q[j'] in q;
    }
    forall i {:trigger q'[i].next} | 0 <= i < |q'|
      ensures q'[i].next == if i + 1 < |q'| then q'[i + 1] else null
    {
      if i <= p {
        assert q'[i] == q[i];
      } else if i > p + 1 {
        assert q'[i] == q[i - 1];
      }
    }
  }

  lemma SpliceKeys(q: seq<Request>, keys: seq<Key>, p: nat, req: Request)
    requires p < |q| && Keyed(q, keys)
    ensures Keyed(Splice(q, p, req), Splice(keys, p, req.BlockKey()))
  {
    var q', keys' := Splice(q, p, req), Splice(keys, p, req.BlockKey());
    forall i | 0 <= i < |q'| ensures keys'[i] == q'[i].BlockKey() {
      if i <= p {
        assert keys'[i] == keys[i];
      } else if i > p + 1 {
        assert keys'[i] == keys[i - 1] && q'[i] == q[i - 1];
      }
    }
  }

  lemma SpliceKeepsOrder(q: seq<Request>, p: nat, req: Request)
    requires p < |q| && TransferOrder(q) && req.Waiting()
    ensures TransferOrder(Splice(q, p, req))
  {
    var q' := Splice(q, p, req);
    forall i | 0 < i < |q'| ensures q'[i].Waiting() {
      assert q'[i] == if i <= p then q[i] else if i == p + 1 then req else q[i - 1];
    }
  }

  class BlockDevice {
    var currentRequest: Request?
    ghost var queue: seq<Request>
    ghost var keys: seq<Key>

    ghost predicate Valid()
      reads this, queue
    {
      currentRequest == (if queue == [] then null else queue[0]) &&
      Linked(queue) && TransferOrder(queue) && Keyed(queue, keys) && Distinct(keys)
    }

    constructor ()
      ensures Valid() && queue == [] && keys == []
    {
      currentRequest := null;
      queue, keys := [], [];
    }

    // The walk of add_request: the element after which req belongs.
    method FindPlace(req: Request) returns (tmp: Request, ghost p: nat)
      requires Valid() && currentRequest != null && req.Waiting() && req.BlockKey() !in keys
      ensures Slot(keys, req.BlockKey(), 0) < |queue| && tmp == queue[Slot(keys, req.BlockKey(), 0)]
      ensures p == Slot(keys, req.BlockKey(), 0)
    {
      tmp := currentRequest;
      p := 0;
      while tmp.next != null
        invariant p < |queue| && tmp == queue[p]
        invariant forall j :: 0 <= j < p ==> !Fits(keys, req.BlockKey(), j)
        decreases |queue| - p
      {
        var next := tmp.next;
        assert next == queue[p + 1];
        assert keys[p] != req.BlockKey() && keys[p + 1] != req.BlockKey();
        CurrentFieldsCompareAsBlocks(tmp, req);
        CurrentFieldsCompareAsBlocks(tmp, next);
        CurrentFieldsCompareAsBlocks(req, next);
        if (RequestsInOrder(tmp, req) || !RequestsInOrder(tmp, next)) && RequestsInOrder(req, next) {
          break;
        }
        tmp := next;
        p := p + 1;
      }
      SlotIsFirst(keys, req.BlockKey(), p);
    }

    // The two assignments that link req behind tmp.
    method LinkAfter(tmp: Request, req: Request, ghost p: nat)
      requires p < |queue| && tmp == queue[p] && req !in queue && Linked(queue)
      requires TransferOrder(queue) && Keyed(queue, keys)
      modifies tmp`next, req`next
      ensures Linked(Splice(queue, p, req)) && TransferOrder(queue) && Keyed(queue, keys)
    {
      req.next := tmp.next;
      tmp.next := req;
      SpliceStaysLinked(queue, p, req);
    }

    // add_request. `start` tells that the device was idle, so that the source calls
    // its request function at once.
    method AddRequest(req: Request) returns (start: bool)
      requires Valid() && req !in queue && req.Waiting() && req.BlockKey() !in keys
      modifies this, (set r | r in queue)`next, req`next
      ensures Valid()
      ensures keys == Insert(old(keys), req.BlockKey())
      ensures start == (old(queue) == [])
      ensures queue == if old(queue) == [] then [req]
                       else Splice(old(queue), Slot(old(keys), req.BlockKey(), 0), req)
    {
      if currentRequest == null {
        req.next := null;
        currentRequest := req;
        queue, keys := [req], [req.BlockKey()];
        start := true;
      } else {
        InsertRequest(req);
        start := false;
      }
    }

    // The elevator proper.
    method InsertRequest(req: Request)
      requires Valid() && queue != [] && req !in queue && req.Waiting() && req.BlockKey() !in keys
      modifies `queue, `keys, (set r | r in queue)`next, req`next
      ensures Valid()
      ensures keys == Insert(old(keys), req.BlockKey())
      ensures queue == Splice(old(queue), Slot(old(keys), req.BlockKey(), 0), req)
    {
      var tmp, p := FindPlace(req);
      InsertKeepsDistinct(keys, req.BlockKey());
      LinkAfter(tmp, req, p);
      SpliceKeys(queue, keys, p, req);
      SpliceKeepsOrder(queue, p, req);
      queue, keys := Splice(queue, p, req), Splice(keys, p, req.BlockKey());
    }

    // end_request, as far as the queue is concerned.
    method EndRequest() returns (done: Request)
      requires Valid() && currentRequest != null
      modifies this, currentRequest`dev
      ensures Valid() && done == old(queue[0]) && done.dev == -1
      ensures queue == old(queue)[1..] && keys == old(keys)[1..]
    {
      done := currentRequest;
      done.dev := -1;
      currentRequest := done.next;
      queue, keys := queue[1..], keys[1..];
    }

    // One sector of a two-sector transfer has gone through: the handlers step the
    // head's fields, which leaves the key the elevator sorts by unchanged.
    method SectorDone()
      requires Valid() && currentRequest != null && currentRequest.nrSectors == 2
      modifies currentRequest`sector, currentRequest`nrSectors
      ensures Valid() && currentRequest.nrSectors == 1
      ensures currentRequest.sector == old(currentRequest.sector) + 1
    {
      currentRequest.sector := currentRequest.sector + 1;
      currentRequest.nrSectors := currentRequest.nrSectors - 1;
    }
  }

  lemma SlotIsFirst(q: seq<Key>, r: Key, p: nat)
    requires p < |q| && (forall j :: 0 <= j < p ==> !Fits(q, r, j))
    requires p + 1 < |q| ==> Fits(q, r, p)
    ensures p == Slot(q, r, 0)
  {
    if Slot(q, r, 0) < p {
      assert false;
    }
  }

  lemma InsertKeepsDistinct(q: seq<Key>, r: Key)
    requires Distinct(q) && r !in q
    ensures Distinct(Insert(q, r))
  {
  }

  // ---------- Slot search of make_request ----------

  // Writes may use only the low two thirds of the slots.
  function SlotLimit(rw: int): nat { if rw == READ then NR_REQUEST else NR_REQUEST * 2 / 3 }

  // The last free slot below the limit, or -1 when the caller has to sleep.
  method FindRequestSlot(requests: array<Request>, rw: int) returns (req: int)
    requires requests.Length == NR_REQUEST && (rw == READ || rw == WRITE)
    ensures -1 <= req < SlotLimit(rw)
    ensures req >= 0 ==> requests[req].dev < 0
    ensures forall j :: req < j < SlotLimit(rw) ==> requests[j].dev >= 0
    ensures rw == WRITE ==> req < 21
  {
    req := SlotLimit(rw) - 1;
    while req >= 0
      invariant -1 <= req < SlotLimit(rw)
      invariant forall j :: req < j < SlotLimit(rw) ==> requests[j].dev >= 0
    {
      if requests[req].dev < 0 {
        break;
      }
      req := req - 1;
    }
  }
}
