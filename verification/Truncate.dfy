// free_block (fs/bitmap.c) and truncate with its helpers (fs/truncate.c): the release of
// a file's block tree against the zone bitmap.
module Truncate {
  import opened Counting

  const ENTRIES := 512
  const MAP_BLOCKS := 8
  const BITS := 8192
  const DIRECT := 7

  type Zone = s: seq<int> | |s| == ENTRIES && forall i :: 0 <= i < ENTRIES ==> 0 <= s[i] < 0x1_0000
    witness seq(ENTRIES, i => 0)

  // A cached block of the device: b_count, b_dirt, b_uptodate.
  datatype Buf = Buf(count: nat, dirt: bool, uptodate: bool)

  // s_firstdatazone and s_nzones; the zone bitmap and its b_dirt flags; the cache.
  datatype Vol = Vol(first: int, nzones: int, zmap: seq<seq<bool>>, zdirt: seq<bool>, cache: map<int, Buf>)

  predicate Valid(v: Vol) {
    1 <= v.first <= v.nzones && v.nzones - v.first + 1 <= MAP_BLOCKS * BITS &&
    |v.zmap| == |v.zdirt| == MAP_BLOCKS && forall k :: 0 <= k < MAP_BLOCKS ==> |v.zmap[k]| == BITS
  }

  predicate InZone(v: Vol, z: int) { v.first <= z < v.nzones }

  // Bit number i of the map, wherever it is stored.
  predicate MapBit(v: Vol, i: int)
    requires Valid(v) && 0 <= i < MAP_BLOCKS * BITS
  {
    v.zmap[i / BITS][i % BITS]
  }

  predicate Bit(v: Vol, z: int)
    requires Valid(v) && InZone(v, z)
  {
    MapBit(v, z - (v.first - 1))
  }

  predicate Pinned(v: Vol, z: int) { z in v.cache && v.cache[z].count > 0 }

  // ---------- Releasing a list of zones ----------

  ghost predicate FreeOk(v: Vol, zones: seq<int>)
    requires Valid(v)
  {
    Distinct(zones) && forall z :: z in zones ==> InZone(v, z) && Bit(v, z)
  }

  ghost predicate BitFreed(v: Vol, zones: seq<int>, v': Vol, i: int)
    requires Valid(v) && Valid(v') && 0 <= i < MAP_BLOCKS * BITS
  {
    MapBit(v', i) <==> MapBit(v, i) && i + v.first - 1 !in zones
  }

  predicate InMapBlock(v: Vol, z: int, k: int) { (z - (v.first - 1)) / BITS == k }

  ghost predicate DirtFreed(v: Vol, zones: seq<int>, v': Vol, k: int)
    requires Valid(v) && Valid(v') && 0 <= k < MAP_BLOCKS
  {
    v'.zdirt[k] <==> v.zdirt[k] || exists z :: z in zones && InMapBlock(v, z, k)
  }

  ghost predicate CacheFreed(v: Vol, zones: seq<int>, v': Vol, z: int) {
    if z in zones then z in v'.cache ==> v'.cache[z] == Buf(0, false, false)
    else (z in v'.cache <==> z in v.cache) && (z in v.cache ==> v'.cache[z] == v.cache[z])
  }

  ghost predicate BitsFreed(v: Vol, zones: seq<int>, v': Vol) {
    Valid(v) && Valid(v') && v'.first == v.first && v'.nzones == v.nzones &&
    forall i :: 0 <= i < MAP_BLOCKS * BITS ==> BitFreed(v, zones, v', i)
  }

  // The bits of `zones` are clear and every other bit is as it was, the map blocks
  // concerned are dirty, and the cached copies of `zones`, and no others, are void.
  ghost predicate Freed(v: Vol, zones: seq<int>, v': Vol) {
    BitsFreed(v, zones, v') &&
    (forall k :: 0 <= k < MAP_BLOCKS ==> DirtFreed(v, zones, v', k)) &&
    forall z :: CacheFreed(v, zones, v', z)
  }

  lemma DirtSame(v: Vol, v': Vol, zones: seq<int>, k: int)
    requires v.first == v'.first
    ensures (exists z :: z in zones && InMapBlock(v, z, k)) <==> (exists z :: z in zones && InMapBlock(v', z, k))
  {
    if z :| z in zones && InMapBlock(v, z, k) { assert InMapBlock(v', z, k); }
    if z :| z in zones && InMapBlock(v', z, k) { assert InMapBlock(v, z, k); }
  }

  lemma FreedNothing(v: Vol)
    requires Valid(v)
    ensures Freed(v, [], v)
  {
  }

  lemma FreedAppend(v: Vol, a: seq<int>, v1: Vol, b: seq<int>, v2: Vol)
    requires Freed(v, a, v1) && Freed(v1, b, v2)
    ensures Freed(v, a + b, v2)
  {
    forall i | 0 <= i < MAP_BLOCKS * BITS ensures BitFreed(v, a + b, v2, i) {
      assert BitFreed(v, a, v1, i) && BitFreed(v1, b, v2, i);
    }
    forall k | 0 <= k < MAP_BLOCKS ensures DirtFreed(v, a + b, v2, k) {
      assert DirtFreed(v, a, v1, k) && DirtFreed(v1, b, v2, k);
      DirtAppend(v, a, b, k);
      DirtSame(v, v1, b, k);
    }
    forall z ensures CacheFreed(v, a + b, v2, z) {
      assert CacheFreed(v, a, v1, z) && CacheFreed(v1, b, v2, z);
    }
  }

  lemma BitsAfter(v: Vol, a: seq<int>, v1: Vol, z: int)
    requires BitsFreed(v, a, v1) && InZone(v, z)
    ensures Bit(v1, z) <==> Bit(v, z) && z !in a
  {
    assert BitFreed(v, a, v1, z - (v.first - 1));
  }

  lemma FreeOkSplit(v: Vol, a: seq<int>, v1: Vol, b: seq<int>)
    requires BitsFreed(v, a, v1) && FreeOk(v, a + b)
    ensures FreeOk(v, a) && FreeOk(v1, b)
  {
    var s := a + b;
    FreeOkPrefix(v, a, a + b);
    forall i, j | 0 <= i < j < |b| ensures b[i] != b[j] { assert s[|a| + i] != s[|a| + j]; }
    forall z | z in b ensures InZone(v1, z) && Bit(v1, z) {
      var j :| 0 <= j < |b| && b[j] == z;
      assert s[|a| + j] == z && z in s;
      forall i | 0 <= i < |a| ensures a[i] != z { assert s[i] != s[|a| + j]; }
      BitsAfter(v, a, v1, z);
    }
  }

  // Releasing one list after another is possible exactly when both together are.
  lemma FreeOkAppend(v: Vol, a: seq<int>, v1: Vol, b: seq<int>)
    requires BitsFreed(v, a, v1)
    ensures FreeOk(v, a + b) <==> FreeOk(v, a) && FreeOk(v1, b)
  {
    var s := a + b;
    if FreeOk(v, s) { FreeOkSplit(v, a, v1, b); }
    if FreeOk(v, a) && FreeOk(v1, b) {
      forall z | z in s ensures InZone(v, z) && Bit(v, z) {
        if z in b { BitsAfter(v, a, v1, z); }
      }
      forall i, j | 0 <= i < j < |s| ensures s[i] != s[j] {
        if i < |a| <= j {
          assert b[j - |a|] in b;
          BitsAfter(v, a, v1, b[j - |a|]);
        }
      }
    }
  }

  lemma FreeOkIgnoresCache(v: Vol, v': Vol, zones: seq<int>)
    requires Valid(v) && v' == v.(cache := v'.cache)
    ensures FreeOk(v', zones) <==> FreeOk(v, zones)
  {
    assert forall z :: InZone(v, z) ==> (Bit(v', z) <==> Bit(v, z));
  }

  lemma FreeOkPrefix(v: Vol, a: seq<int>, s: seq<int>)
    requires Valid(v) && a <= s && FreeOk(v, s)
    ensures FreeOk(v, a)
  {
    assert forall i :: 0 <= i < |a| ==> s[i] == a[i];
    assert forall z :: z in a ==> z in s;
  }

  // A tree cannot be released if what hangs below it cannot.
  lemma KidsFail(was: Vol, read: Vol, kids: seq<int>, block: int)
    requires Valid(was) && read == was.(cache := read.cache)
    ensures FreeOk(read, kids) <==> FreeOk(was, kids)
    ensures FreeOk(was, kids + [block]) ==> FreeOk(was, kids)
  {
    FreeOkIgnoresCache(was, read, kids);
    if FreeOk(was, kids + [block]) { FreeOkPrefix(was, kids, kids + [block]); }
  }

  lemma BlockFreed(was: Vol, z: int, now: Vol)
    requires Valid(was) && InZone(was, z) && !Pinned(was, z) && now.first == was.first && now.nzones == was.nzones
    requires var i := z - (was.first - 1);
             now.zmap == was.zmap[i / BITS := was.zmap[i / BITS][i % BITS := false]] &&
             now.zdirt == was.zdirt[i / BITS := true]
    requires now.cache == if z in was.cache then was.cache[z := Buf(0, false, false)] else was.cache
    ensures Freed(was, [z], now)
  {
    var b := z - (was.first - 1);
    forall i | 0 <= i < MAP_BLOCKS * BITS ensures BitFreed(was, [z], now, i) {
      assert i / BITS == b / BITS && i % BITS == b % BITS <==> i == b;
    }
    forall k | 0 <= k < MAP_BLOCKS ensures DirtFreed(was, [z], now, k) {
      assert z in [z] && (InMapBlock(was, z, k) <==> b / BITS == k);
    }
  }

  predicate Unheld(v: Vol, zones: seq<int>) { forall z :: z in zones ==> !Pinned(v, z) }

  lemma UnheldPrefix(v: Vol, a: seq<int>, s: seq<int>)
    requires a <= s && Unheld(v, s)
    ensures Unheld(v, a)
  {
    forall z | z in a ensures !Pinned(v, z) { assert z in s; }
  }

  lemma UnheldParts(v: Vol, a: seq<int>, b: seq<int>)
    requires Unheld(v, a + b)
    ensures Unheld(v, a) && Unheld(v, b)
  {
    forall z | z in a || z in b ensures !Pinned(v, z) { assert z in a + b; }
  }

  lemma StillUnheldAll(v: Vol, zones: seq<int>, v': Vol, rest: seq<int>)
    requires Freed(v, zones, v') && Unheld(v, rest)
    ensures Unheld(v', rest)
  {
    forall z | z in rest ensures !Pinned(v', z) { StillUnheld(v, zones, v', z); }
  }

  lemma StillUnheld(v: Vol, zones: seq<int>, v': Vol, z: int)
    requires Freed(v, zones, v') && !Pinned(v, z)
    ensures !Pinned(v', z)
  {
    assert CacheFreed(v, zones, v', z);
  }

  // A block read before `kids` are released, let go after that, and released at last.
  lemma ReadAround(was: Vol, read: Vol, kids: seq<int>, freed: Vol, before: Vol, z: int, end: Vol)
    requires Valid(was) && read == was.(cache := read.cache) && before == freed.(cache := before.cache)
    requires forall x :: x != z ==> CacheFreed(was, [], read, x)
    requires forall x :: x != z ==> CacheFreed(freed, [], before, x)
    requires Freed(read, kids, freed) && Freed(before, [z], end) && z !in kids
    ensures Freed(was, kids + [z], end)
  {
    FreedAppendBits(was, read, kids, freed, before, z, end);
    forall k | 0 <= k < MAP_BLOCKS ensures DirtFreed(was, kids + [z], end, k) {
      assert DirtFreed(read, kids, freed, k) && DirtFreed(before, [z], end, k);
      DirtAppend(was, kids, [z], k);
      DirtSame(was, read, kids, k);
      DirtSame(was, before, [z], k);
    }
    forall x ensures CacheFreed(was, kids + [z], end, x) {
      assert CacheFreed(read, kids, freed, x) && CacheFreed(before, [z], end, x);
      if x != z { assert CacheFreed(was, [], read, x) && CacheFreed(freed, [], before, x); }
    }
  }

  lemma OneTouched(v: Vol, v': Vol, b: int, buf: Buf)
    requires v'.cache == v.cache[b := buf]
    ensures forall x :: x != b ==> CacheFreed(v, [], v', x)
  {
  }

  lemma SameBitsFreed(was: Vol, read: Vol, kids: seq<int>, freed: Vol, before: Vol)
    requires Valid(was) && read == was.(cache := read.cache) && before == freed.(cache := before.cache)
    requires BitsFreed(read, kids, freed)
    ensures BitsFreed(was, kids, before)
  {
    forall i | 0 <= i < MAP_BLOCKS * BITS ensures BitFreed(was, kids, before, i) {
      assert BitFreed(read, kids, freed, i);
    }
  }

  lemma FreedAppendBits(was: Vol, read: Vol, kids: seq<int>, freed: Vol, before: Vol, z: int, end: Vol)
    requires Valid(was) && read == was.(cache := read.cache) && before == freed.(cache := before.cache)
    requires BitsFreed(read, kids, freed) && BitsFreed(before, [z], end)
    ensures BitsFreed(was, kids, before) && BitsFreed(was, kids + [z], end)
  {
    forall i | 0 <= i < MAP_BLOCKS * BITS ensures BitFreed(was, kids, before, i) && BitFreed(was, kids + [z], end, i) {
      assert BitFreed(read, kids, freed, i) && BitFreed(before, [z], end, i);
    }
  }

  lemma DirtAppend(v: Vol, a: seq<int>, b: seq<int>, k: int)
    ensures (exists z :: z in a + b && InMapBlock(v, z, k)) <==>
            (exists z :: z in a && InMapBlock(v, z, k)) || (exists z :: z in b && InMapBlock(v, z, k))
  {
    if z :| z in a && InMapBlock(v, z, k) { assert z in a + b; }
    if z :| z in b && InMapBlock(v, z, k) { assert z in a + b; }
  }

  // ---------- The tree of a file ----------

  // What bread returns: the contents of the device, unless the block cannot be read.
  datatype Device = Device(data: int -> Zone, bad: set<int>)

  // The nonzero entries among the first n.
  function Pointers(s: seq<int>, n: nat): seq<int>
    requires n <= |s|
  {
    if n == 0 then [] else Pointers(s, n - 1) + if s[n - 1] != 0 then [s[n - 1]] else []
  }

  function IndKids(d: Device, b: int): seq<int> { if b in d.bad then [] else Pointers(d.data(b), |d.data(b)|) }

  // The zones reached through an indirect block, children first.
  function Ind(d: Device, b: int): seq<int> { if b == 0 then [] else IndKids(d, b) + [b] }

  // The first n lists one after the other.
  function Flat(lists: seq<seq<int>>, n: nat): seq<int>
    requires n <= |lists|
  {
    if n == 0 then [] else Flat(lists, n - 1) + lists[n - 1]
  }

  // The first n lists could be released, and are.
  ghost predicate ListsFreed(was: Vol, lists: seq<seq<int>>, n: nat, v: Vol) {
    n <= |lists| && Freed(was, Flat(lists, n), v) && FreeOk(was, Flat(lists, n))
  }

  function Inds(d: Device, s: seq<int>): seq<seq<int>> { seq(|s|, i requires 0 <= i < |s| => Ind(d, s[i])) }

  function DindKids(d: Device, b: int): seq<int> { if b in d.bad then [] else Flat(Inds(d, d.data(b)), |d.data(b)|) }

  function Dind(d: Device, b: int): seq<int> { if b == 0 then [] else DindKids(d, b) + [b] }

  lemma NoListsFreed(was: Vol, lists: seq<seq<int>>)
    requires Valid(was)
    ensures ListsFreed(was, lists, 0, was)
  {
    FreedNothing(was);
  }

  // The fields of struct m_inode that truncate touches.
  class Inode {
    var mode: int
    var zone: seq<int>
    var size: int
    var dirt: bool
    var mtime: int
    var ctime: int
  }

  // S_ISREG and S_ISDIR
  predicate IsReg(mode: int) { (mode / 0x1000) % 16 == 8 }

  predicate IsDir(mode: int) { (mode / 0x1000) % 16 == 4 }

  lemma {:induction false} PointersPrefix(s: seq<int>, i: nat, n: nat)
    requires i <= n <= |s|
    ensures Pointers(s, i) <= Pointers(s, n)
    decreases n - i
  {
    if i < n { PointersPrefix(s, i, n - 1); }
  }

  lemma {:induction false} FlatPrefix(lists: seq<seq<int>>, i: nat, n: nat)
    requires i <= n <= |lists|
    ensures Flat(lists, i) <= Flat(lists, n)
    decreases n - i
  {
    if i < n { FlatPrefix(lists, i, n - 1); }
  }

  // Entry i is to be released after the ones in front of it.
  lemma NextEntry(was: Vol, p: seq<int>, i: nat, n: nat, before: Vol)
    requires i < n <= |p| && Freed(was, Pointers(p, i), before) && FreeOk(was, Pointers(p, i))
    requires Unheld(was, Pointers(p, n)) && p[i] != 0
    ensures Pointers(p, i + 1) == Pointers(p, i) + [p[i]] && !Pinned(before, p[i])
    ensures FreeOk(was, Pointers(p, i + 1)) <==> FreeOk(before, [p[i]])
    ensures FreeOk(before, [p[i]]) ==> InZone(before, p[i])
    ensures FreeOk(was, Pointers(p, n)) ==> FreeOk(was, Pointers(p, i + 1))
  {
    PointersPrefix(p, i + 1, n);
    assert p[i] in Pointers(p, i + 1) && p[i] in [p[i]];
    UnheldPrefix(was, Pointers(p, i + 1), Pointers(p, n));
    StillUnheld(was, Pointers(p, i), before, p[i]);
    FreeOkAppend(was, Pointers(p, i), before, [p[i]]);
    if FreeOk(was, Pointers(p, n)) { FreeOkPrefix(was, Pointers(p, i + 1), Pointers(p, n)); }
  }

  function Zeroed(zone: seq<int>, n: int): seq<int> {
    seq(|zone|, j requires 0 <= j < |zone| => if j < n then 0 else zone[j])
  }

  // Every zone of a file: direct, indirect, double-indirect.
  function Reach(d: Device, zone: seq<int>): seq<int>
    requires |zone| == 9
  {
    Pointers(zone, DIRECT) + Ind(d, zone[7]) + Dind(d, zone[8])
  }

  // No indirect block points to itself or to the double-indirect block above it.
  predicate IndProper(d: Device, b: int) { b != 0 ==> b !in IndKids(d, b) }

  ghost predicate DindProper(d: Device, b: int) {
    b != 0 ==> b !in DindKids(d, b) && (b !in d.bad ==> forall i :: 0 <= i < ENTRIES ==> IndProper(d, d.data(b)[i]))
  }


  // ---------- The code ----------

  class Volume {
    const device: Device
    const first: int
    const nzones: int
    var zmap: seq<seq<bool>>
    var zdirt: seq<bool>
    var cache: map<int, Buf>

    ghost function V(): Vol
      reads this
    {
      Vol(first, nzones, zmap, zdirt, cache)
    }

    constructor (device: Device, v: Vol)
      requires Valid(v)
      ensures V() == v && this.device == device
    {
      this.device, first, nzones := device, v.first, v.nzones;
      zmap, zdirt, cache := v.zmap, v.zdirt, v.cache;
    }

    // free_block. False stands for its panics. A block that somebody else holds stays
    // allocated, and get_hash_table's reference to it is never given back.
    method FreeBlock(block: int) returns (ok: bool)
      requires Valid(V())
      modifies this
      ensures Valid(V())
      ensures !InZone(old(V()), block) ==> !ok
      ensures InZone(old(V()), block) && old(Pinned(V(), block)) ==>
                ok && zmap == old(zmap) && zdirt == old(zdirt) &&
                cache == old(cache)[block := old(cache)[block].(count := old(cache)[block].count + 1)]
      ensures InZone(old(V()), block) && !old(Pinned(V(), block)) ==>
                (ok <==> FreeOk(old(V()), [block])) && (ok ==> Freed(old(V()), [block], V()))
    {
      ghost var was := V();
      if block < first || block >= nzones {
        return false;
      }
      if block in cache {
        cache := cache[block := cache[block].(count := cache[block].count + 1)];
        if cache[block].count != 1 {
          return true;
        }
        cache := cache[block := cache[block].(dirt := false, uptodate := false)];
        cache := cache[block := cache[block].(count := cache[block].count - 1)];
      }
      var bit := block - (first - 1);
      ok := zmap[bit / BITS][bit % BITS];
      zmap := zmap[bit / BITS := zmap[bit / BITS][bit % BITS := false]];
      if !ok {
        return;
      }
      zdirt := zdirt[bit / BITS := true];
      BlockFreed(was, block, V());
    }

    // bread; false if the block cannot be read.
    method Bread(block: int) returns (ok: bool)
      modifies `cache
      ensures ok <==> block !in device.bad
      ensures cache == if !ok then old(cache) else
                if block in old(cache)
                then old(cache)[block := Buf(old(cache)[block].count + 1, old(cache)[block].dirt, true)]
                else old(cache)[block := Buf(1, false, true)]
    {
      if block in device.bad {
        return false;
      }
      cache := cache[block :=
                       if block in cache then Buf(cache[block].count + 1, cache[block].dirt, true)
                       else Buf(1, false, true)];
      ok := true;
    }

    method Brelse(block: int)
      requires Pinned(V(), block)
      modifies `cache
      ensures cache == old(cache)[block := old(cache)[block].(count := old(cache)[block].count - 1)]
    {
      cache := cache[block := cache[block].(count := cache[block].count - 1)];
    }

    // One round of a loop that frees the nonzero entries of p.
    method FreeEntry(p: seq<int>, i: nat, n: nat, ghost was: Vol) returns (ok: bool)
      requires i < n <= |p| && Freed(was, Pointers(p, i), V()) && FreeOk(was, Pointers(p, i))
      requires Unheld(was, Pointers(p, n))
      modifies this
      ensures Valid(V())
      ensures if ok then Freed(was, Pointers(p, i + 1), V()) && FreeOk(was, Pointers(p, i + 1))
              else !FreeOk(was, Pointers(p, n))
    {
      if p[i] == 0 {
        assert Pointers(p, i + 1) == Pointers(p, i);
        return true;
      }
      ghost var before := V();
      NextEntry(was, p, i, n, before);
      ok := FreeBlock(p[i]);
      if ok { FreedAppend(was, Pointers(p, i), before, [p[i]], V()); }
    }

    // The loop of free_ind.
    method FreeAll(p: seq<int>, n: nat) returns (ok: bool)
      requires Valid(V()) && n <= |p| && Unheld(V(), Pointers(p, n))
      modifies this
      ensures Valid(V()) && (ok <==> FreeOk(old(V()), Pointers(p, n)))
      ensures ok ==> Freed(old(V()), Pointers(p, n), V())
    {
      ghost var was := V();
      var i := 0;
      FreedNothing(was);
      ok := true;
      while i < n && ok
        invariant 0 <= i <= n && Valid(V())
        invariant if ok then Freed(was, Pointers(p, i), V()) && FreeOk(was, Pointers(p, i))
                  else !FreeOk(was, Pointers(p, n))
        decreases n - i
      {
        ok := FreeEntry(p, i, n, was);
        i := i + 1;
      }
    }

    // The end of free_ind and free_dind: the indirect block itself, after `kids`.
    method FreeHolder(block: int, ghost was: Vol, ghost read: Vol, ghost kids: seq<int>, ghost freed: Vol)
      returns (ok: bool)
      requires Valid(was) && Freed(read, kids, freed) && FreeOk(was, kids) && block !in kids && !Pinned(V(), block)
      requires read == was.(cache := read.cache) && V() == freed.(cache := cache)
      requires forall x :: x != block ==> CacheFreed(was, [], read, x)
      requires forall x :: x != block ==> CacheFreed(freed, [], V(), x)
      modifies this
      ensures Valid(V()) && (ok <==> FreeOk(was, kids + [block]))
      ensures ok ==> Freed(was, kids + [block], V())
    {
      ghost var before := V();
      SameBitsFreed(was, read, kids, freed, before);
      FreeOkAppend(was, kids, before, [block]);
      ok := FreeBlock(block);
      if ok { ReadAround(was, read, kids, freed, before, block, V()); }
    }

    method FreeInd(block: int) returns (ok: bool)
      requires Valid(V()) && Unheld(V(), Ind(device, block)) && IndProper(device, block)
      modifies this
      ensures Valid(V()) && (ok <==> FreeOk(old(V()), Ind(device, block)))
      ensures ok ==> Freed(old(V()), Ind(device, block), V())
    {
      ghost var was := V();
      if block == 0 {
        FreedNothing(was);
        return true;
      }
      ghost var kids := IndKids(device, block);
      assert block in kids + [block] && forall z :: z in kids ==> z in kids + [block];
      var bh := Bread(block);
      ghost var read, freed := V(), V();
      if bh {
        ok := FreeAll(device.data(block), |device.data(block)|);
        KidsFail(was, read, kids, block);
        if !ok {
          return;
        }
        freed := V();
        assert CacheFreed(read, kids, freed, block);
        Brelse(block);
        OneTouched(was, read, block, read.cache[block]);
        OneTouched(freed, V(), block, cache[block]);
      } else {
        FreedNothing(read);
      }
      ok := FreeHolder(block, was, read, kids, freed);
    }

    // The loop of free_dind.
    method FreeAllInd(p: seq<int>) returns (ok: bool)
      requires Valid(V()) && Unheld(V(), Flat(Inds(device, p), |p|))
      requires forall i :: 0 <= i < |p| ==> IndProper(device, p[i])
      modifies this
      ensures Valid(V()) && (ok <==> FreeOk(old(V()), Flat(Inds(device, p), |p|)))
      ensures ok ==> Freed(old(V()), Flat(Inds(device, p), |p|), V())
    {
      ghost var was, lists := V(), Inds(device, p);
      var i := 0;
      NoListsFreed(was, lists);
      ok := true;
      while i < |p| && ok
        invariant 0 <= i <= |p| && Valid(V())
        invariant (ok <==> ListsFreed(was, lists, i, V())) && (!ok ==> !FreeOk(was, Flat(lists, |p|)))
        decreases |p| - i
      {
        ok := FreeIndEntry(p[i], was, lists, i);
        i := i + 1;
      }
    }

    method FreeIndEntry(block: int, ghost was: Vol, ghost lists: seq<seq<int>>, ghost i: nat) returns (ok: bool)
      requires i < |lists| && lists[i] == Ind(device, block) && ListsFreed(was, lists, i, V())
      requires Unheld(was, Flat(lists, |lists|)) && IndProper(device, block)
      modifies this
      ensures Valid(V())
      ensures (ok <==> ListsFreed(was, lists, i + 1, V())) && (!ok ==> !FreeOk(was, Flat(lists, |lists|)))
    {
      ghost var done, before, zones := Flat(lists, i), V(), lists[i];
      FlatPrefix(lists, i + 1, |lists|);
      FreeOkAppend(was, done, before, zones);
      UnheldPrefix(was, done + zones, Flat(lists, |lists|));
      UnheldParts(was, done, zones);
      StillUnheldAll(was, done, before, zones);
      if block == 0 {
        assert Flat(lists, i + 1) == done;
        return true;
      }
      ok := FreeInd(block);
      if ok {
        FreedAppend(was, done, before, zones, V());
      } else if FreeOk(was, Flat(lists, |lists|)) {
        FreeOkPrefix(was, done + zones, Flat(lists, |lists|));
        assert false;
      }
    }

    method FreeDind(block: int) returns (ok: bool)
      requires Valid(V()) && Unheld(V(), Dind(device, block)) && DindProper(device, block)
      modifies this
      ensures Valid(V()) && (ok <==> FreeOk(old(V()), Dind(device, block)))
      ensures ok ==> Freed(old(V()), Dind(device, block), V())
    {
      ghost var was := V();
      if block == 0 {
        FreedNothing(was);
        return true;
      }
      ghost var kids := DindKids(device, block);
      assert block in kids + [block] && forall z :: z in kids ==> z in kids + [block];
      var bh := Bread(block);
      ghost var read, freed := V(), V();
      if bh {
        ok := FreeAllInd(device.data(block));
        KidsFail(was, read, kids, block);
        if !ok {
          return;
        }
        freed := V();
        assert CacheFreed(read, kids, freed, block);
        Brelse(block);
        OneTouched(was, read, block, read.cache[block]);
        OneTouched(freed, V(), block, cache[block]);
      } else {
        FreedNothing(read);
      }
      ok := FreeHolder(block, was, read, kids, freed);
    }

    // The loop of truncate.
    method FreeDirect(inode: Inode) returns (ok: bool)
      requires Valid(V()) && |inode.zone| == 9 && Unheld(V(), Pointers(inode.zone, DIRECT))
      modifies this, inode`zone
      ensures Valid(V()) && (ok <==> FreeOk(old(V()), old(Pointers(inode.zone, DIRECT))))
      ensures ok ==> Freed(old(V()), old(Pointers(inode.zone, DIRECT)), V())
      ensures ok ==> inode.zone == Zeroed(old(inode.zone), DIRECT)
    {
      ghost var was := V();
      var i, p := 0, inode.zone;
      FreedNothing(was);
      ok := true;
      while i < DIRECT && ok
        invariant 0 <= i <= DIRECT && Valid(V())
        invariant if ok then Freed(was, Pointers(p, i), V()) && FreeOk(was, Pointers(p, i)) &&
                  inode.zone == Zeroed(p, i)
                  else !FreeOk(was, Pointers(p, DIRECT))
        decreases DIRECT - i
      {
        ok := FreeEntry(p, i, DIRECT, was);
        if inode.zone[i] != 0 {
          inode.zone := inode.zone[i := 0];
        }
        i := i + 1;
      }
    }

    // truncate. False stands for a panic of free_block.
    method Truncate(inode: Inode, now: int) returns (ok: bool)
      requires Valid(V()) && |inode.zone| == 9 && DindProper(device, inode.zone[8]) && IndProper(device, inode.zone[7])
      requires Unheld(V(), Reach(device, inode.zone))
      modifies this, inode
      ensures !IsReg(old(inode.mode)) && !IsDir(old(inode.mode)) ==> ok && V() == old(V()) && unchanged(inode)
      ensures IsReg(old(inode.mode)) || IsDir(old(inode.mode)) ==>
                (ok <==> FreeOk(old(V()), Reach(device, old(inode.zone)))) &&
                (ok ==> Freed(old(V()), Reach(device, old(inode.zone)), V()))
      ensures (IsReg(old(inode.mode)) || IsDir(old(inode.mode))) && ok ==>
                inode.zone == Zeroed(old(inode.zone), 9) && inode.size == 0 && inode.dirt &&
                inode.mtime == inode.ctime == now && inode.mode == old(inode.mode)
    {
      if !(IsReg(inode.mode) || IsDir(inode.mode)) {
        return true;
      }
      ghost var was := V();
      ghost var direct, ind := Pointers(inode.zone, DIRECT), Ind(device, inode.zone[7]);
      ghost var dind := Dind(device, inode.zone[8]);
      UnheldParts(was, direct + ind, dind);
      UnheldParts(was, direct, ind);
      ok := FreeDirect(inode);
      if !ok {
        if FreeOk(was, direct + ind + dind) { FreeOkPrefix(was, direct, direct + ind + dind); assert false; }
        return;
      }
      ghost var v1 := V();
      FreeOkAppend(was, direct, v1, ind);
      StillUnheldAll(was, direct, v1, ind);
      ok := FreeInd(inode.zone[7]);
      if !ok {
        if FreeOk(was, direct + ind + dind) { FreeOkPrefix(was, direct + ind, direct + ind + dind); assert false; }
        return;
      }
      ghost var v2 := V();
      FreedAppend(was, direct, v1, ind, v2);
      FreeOkAppend(was, direct + ind, v2, dind);
      StillUnheldAll(was, direct + ind, v2, dind);
      ok := FreeDind(inode.zone[8]);
      if !ok {
        return;
      }
      FreedAppend(was, direct + ind, v2, dind, V());
      inode.zone := inode.zone[7 := 0][8 := 0];
      inode.size := 0;
      inode.dirt := true;
      inode.mtime, inode.ctime := now, now;
    }
  }

  // ---------- The number of free zones ----------

  ghost function FreeZones(v: Vol): set<int>
    requires Valid(v)
  {
    set z | v.first <= z < v.nzones && !Bit(v, z)
  }

  // A successful release raises the number of free zones by exactly its length.
  lemma FreeCountRises(v: Vol, zones: seq<int>, v': Vol)
    requires Freed(v, zones, v') && FreeOk(v, zones)
    ensures |FreeZones(v')| == |FreeZones(v)| + |zones|
  {
    DistinctSize(zones);
    forall z | InZone(v, z) ensures Bit(v', z) <==> Bit(v, z) && z !in zones { BitsAfter(v, zones, v', z); }
    assert FreeZones(v') == FreeZones(v) + Elements(zones);
    assert FreeZones(v) !! Elements(zones);
  }
}
