module BufferIndex {
  // The pointer structures of fs/buffer.c: the hash chains, the circular free list,
  // find_buffer, the free-list scan of getblk, and buffer_init.
  //
  // A pointer to a buffer head is its index in the array at start_buffer, NULL is NIL,
  // and each field of struct buffer_head is a sequence over those indices. `chains`
  // and `ring` are the sequences the pointers are proved to thread.

  import opened Counting
  import opened Lists

  const NIL := -1
  const NR_HASH := 307

  function Hash(dev: bv32, blocknr: bv32): (h: nat)
    ensures h < NR_HASH
  {
    ((dev ^ blocknr) as nat) % NR_HASH
  }

  predicate PointsIn(p: int, n: nat) { NIL <= p < n }

  // ---------- The free ring ----------

  function Succ(i: nat, n: nat): nat { if i + 1 == n then 0 else i + 1 }

  function Pred(i: nat, n: nat): int { if i == 0 then n - 1 else i - 1 }

  datatype Links = Links(next: seq<int>, prev: seq<int>) {
    predicate Sized(n: nat) { |next| == n && |prev| == n }
    function SetNext(p: int, q: int): Links
      requires 0 <= p < |next|
    {
      this.(next := next[p := q])
    }
    function SetPrev(p: int, q: int): Links
      requires 0 <= p < |prev|
    {
      this.(prev := prev[p := q])
    }
  }

  // The links between the i-th element of the ring and the following one.
  predicate RingLink(l: Links, ring: seq<int>, i: nat)
    requires l.Sized(|l.next|) && InRange(ring, |l.next|) && i < |ring|
  {
    l.next[ring[i]] == ring[Succ(i, |ring|)] && l.prev[ring[Succ(i, |ring|)]] == ring[i]
  }

  ghost predicate RingOk(l: Links, ring: seq<int>, freeList: int) {
    ring != [] && l.Sized(|l.next|) && Distinct(ring) && InRange(ring, |l.next|) && freeList == ring[0] &&
    forall i :: 0 <= i < |ring| ==> RingLink(l, ring, i)
  }

  lemma RingNeighbours(l: Links, ring: seq<int>, freeList: int, k: nat)
    requires RingOk(l, ring, freeList) && k < |ring|
    ensures l.next[ring[k]] == ring[Succ(k, |ring|)] && l.prev[ring[k]] == ring[Pred(k, |ring|)]
    ensures |ring| >= 2 ==> l.next[ring[k]] != ring[k] && l.prev[ring[k]] != ring[k]
  {
    assert RingLink(l, ring, Pred(k, |ring|)) && RingLink(l, ring, k);
  }

  // The free-list half of remove_from_queues.
  function UnlinkFree(l: Links, b: int): Links
    requires l.Sized(|l.next|) && 0 <= b < |l.next| && 0 <= l.next[b] < |l.next| && 0 <= l.prev[b] < |l.next|
    requires l.prev[b] != b
  {
    var l1 := l.SetNext(l.prev[b], l.next[b]);
    l1.SetPrev(l1.next[b], l1.prev[b])
  }

  lemma UnlinkFreeRing(l: Links, ring: seq<int>, freeList: int, k: nat)
    requires RingOk(l, ring, freeList) && |ring| >= 2 && k < |ring|
    ensures var b := ring[k];
            0 <= l.next[b] < |l.next| && 0 <= l.prev[b] < |l.next| && l.prev[b] != b &&
            RingOk(UnlinkFree(l, b), RemoveAt(ring, k), if freeList == b then l.next[b] else freeList)
  {
    var n, b := |ring|, ring[k];
    var p, q := Pred(k, n), Succ(k, n);
    RingNeighbours(l, ring, freeList, k);
    RemoveAtFacts(ring, k, |l.next|);
    var l', r' := UnlinkFree(l, b), RemoveAt(ring, k);
    forall i: nat | i < n - 1 ensures RingLink(l', r', i) {
      var o := if i < k then i else i + 1;
      var s := Succ(i, n - 1);
      var os := if s < k then s else s + 1;
      assert r'[i] == ring[o] && r'[s] == ring[os];
      assert RingLink(l, ring, o);
      if o == p {
        assert os == q;
      } else {
        assert os == Succ(o, n) && os != q && ring[o] != ring[p] && ring[os] != ring[q];
      }
    }
  }

  // The free-list half of insert_into_queues.
  function LinkFree(l: Links, b: int, freeList: int): Links
    requires l.Sized(|l.next|) && 0 <= b < |l.next| && 0 <= freeList < |l.next| && 0 <= l.prev[freeList] < |l.next|
    requires b != freeList
  {
    var l1 := l.SetNext(b, freeList).SetPrev(b, l.prev[freeList]);
    l1.SetNext(l1.prev[freeList], b).SetPrev(freeList, b)
  }

  lemma LinkFreeRing(l: Links, ring: seq<int>, freeList: int, b: int)
    requires RingOk(l, ring, freeList) && 0 <= b < |l.next| && b !in ring
    ensures 0 <= freeList < |l.next| && 0 <= l.prev[freeList] < |l.next| && b != freeList
    ensures RingOk(LinkFree(l, b, freeList), ring + [b], freeList)
  {
    var n := |ring|;
    assert RingLink(l, ring, n - 1) && Succ(n - 1, n) == 0;
    var l', r' := LinkFree(l, b, freeList), ring + [b];
    forall i: nat | i <= n ensures RingLink(l', r', i) {
      if i < n - 1 {
        assert RingLink(l, ring, i) && Succ(i, n) == i + 1;
        assert ring[i] != ring[n - 1] && ring[i + 1] != ring[0];
      }
    }
  }

  // ---------- The hash chains ----------

  predicate ChainLink(l: Links, chain: seq<int>, i: nat)
    requires l.Sized(|l.next|) && InRange(chain, |l.next|) && i < |chain|
  {
    l.next[chain[i]] == (if i + 1 < |chain| then chain[i + 1] else NIL) &&
    l.prev[chain[i]] == (if i > 0 then chain[i - 1] else NIL)
  }

  ghost predicate ChainOk(l: Links, chain: seq<int>, head: int) {
    l.Sized(|l.next|) && Distinct(chain) && InRange(chain, |l.next|) &&
    head == (if chain == [] then NIL else chain[0]) &&
    forall i :: 0 <= i < |chain| ==> ChainLink(l, chain, i)
  }

  datatype Key = Key(dev: bv32, blocknr: bv32)

  predicate BelongsTo(k: Key, h: nat) { k.dev != 0 && Hash(k.dev, k.blocknr) == h }

  // Chain h holds exactly the buffers with a device whose key hashes to h, except
  // the one that is out of its queues (NIL for none).
  ghost predicate ChainsOk(l: Links, keys: seq<Key>, chains: seq<seq<int>>, table: seq<int>, out: int) {
    l.Sized(|keys|) && |chains| == |table| == NR_HASH &&
    (forall h :: 0 <= h < NR_HASH ==> ChainOk(l, chains[h], table[h])) &&
    (forall h, b {:trigger b in chains[h]} :: 0 <= h < NR_HASH && 0 <= b < |keys| ==>
       (b in chains[h] <==> b != out && BelongsTo(keys[b], h))) &&
    (forall b :: 0 <= b < |keys| && b != out && keys[b].dev == 0 ==> l.next[b] == NIL && l.prev[b] == NIL)
  }

  lemma OtherChainKept(l: Links, l': Links, chain: seq<int>, head: int)
    requires ChainOk(l, chain, head) && l'.Sized(|l.next|)
    requires forall x <- chain :: 0 <= x < |l.next| && l'.next[x] == l.next[x] && l'.prev[x] == l.prev[x]
    ensures ChainOk(l', chain, head)
  {
    forall i: nat | i < |chain| ensures ChainLink(l', chain, i) {
      assert ChainLink(l, chain, i) && chain[i] in chain;
    }
  }

  predicate Hashable(l: Links, b: int) {
    l.Sized(|l.next|) && 0 <= b < |l.next| && PointsIn(l.next[b], |l.next|) && PointsIn(l.prev[b], |l.next|) &&
    l.next[b] != b && l.prev[b] != b
  }

  // The hash half of remove_from_queues.
  function UnlinkHash(l: Links, b: int): (l': Links)
    requires Hashable(l, b)
    ensures l'.Sized(|l.next|)
  {
    var l1 := if l.next[b] != NIL then l.SetPrev(l.next[b], l.prev[b]) else l;
    if l1.prev[b] != NIL then l1.SetNext(l1.prev[b], l1.next[b]) else l1
  }

  function UnlinkTable(l: Links, key: Key, table: seq<int>, b: int): seq<int>
    requires 0 <= b < |l.next| && |table| == NR_HASH
  {
    var h := Hash(key.dev, key.blocknr);
    if table[h] == b then table[h := l.next[b]] else table
  }

  lemma UnlinkHashChain(l: Links, chain: seq<int>, head: int, k: nat)
    requires ChainOk(l, chain, head) && k < |chain| && Hashable(l, chain[k])
    ensures ChainOk(UnlinkHash(l, chain[k]), RemoveAt(chain, k), if head == chain[k] then l.next[chain[k]] else head)
  {
    var b := chain[k];
    var l', c' := UnlinkHash(l, b), RemoveAt(chain, k);
    RemoveAtFacts(chain, k, |l.next|);
    assert ChainLink(l, chain, k);
    forall i: nat | i < |c'| ensures ChainLink(l', c', i) {
      var o := if i < k then i else i + 1;
      assert c'[i] == chain[o] && ChainLink(l, chain, o);
      assert i + 1 < |c'| ==> c'[i + 1] == chain[if i + 1 < k then i + 1 else i + 2];
      assert i > 0 ==> c'[i - 1] == chain[if i - 1 < k then i - 1 else i];
    }
  }

  lemma UnlinkHashFrame(l: Links, chain: seq<int>, head: int, k: nat)
    requires ChainOk(l, chain, head) && k < |chain| && Hashable(l, chain[k])
    ensures forall x :: 0 <= x < |l.next| && x !in chain ==>
              UnlinkHash(l, chain[k]).next[x] == l.next[x] && UnlinkHash(l, chain[k]).prev[x] == l.prev[x]
  {
    assert ChainLink(l, chain, k);
    assert k + 1 < |chain| ==> chain[k + 1] in chain;
    assert k > 0 ==> chain[k - 1] in chain;
  }

  lemma ChainNeighbours(l: Links, keys: seq<Key>, chains: seq<seq<int>>, table: seq<int>, b: int)
    requires ChainsOk(l, keys, chains, table, NIL) && 0 <= b < |keys|
    ensures Hashable(l, b)
    ensures keys[b].dev == 0 ==> forall h :: 0 <= h < NR_HASH ==> table[h] != b
  {
    if keys[b].dev != 0 {
      var h := Hash(keys[b].dev, keys[b].blocknr);
      assert ChainOk(l, chains[h], table[h]) && b in chains[h];
      var k :| 0 <= k < |chains[h]| && chains[h][k] == b;
      assert ChainLink(l, chains[h], k);
    } else {
      forall h | 0 <= h < NR_HASH ensures table[h] != b {
        assert ChainOk(l, chains[h], table[h]);
        assert chains[h] != [] ==> chains[h][0] in chains[h];
      }
    }
  }

  // The chains after b has left its queues.
  lemma UnlinkHashChains(l: Links, keys: seq<Key>, chains: seq<seq<int>>, table: seq<int>, b: int)
    returns (chains': seq<seq<int>>)
    requires ChainsOk(l, keys, chains, table, NIL) && 0 <= b < |keys| && Hashable(l, b)
    ensures ChainsOk(UnlinkHash(l, b), keys, chains', UnlinkTable(l, keys[b], table, b), b)
  {
    ChainNeighbours(l, keys, chains, table, b);
    var h := Hash(keys[b].dev, keys[b].blocknr);
    if keys[b].dev == 0 {
      chains' := chains;
      return;
    }
    assert ChainOk(l, chains[h], table[h]) && b in chains[h];
    var k :| 0 <= k < |chains[h]| && chains[h][k] == b;
    var l', table' := UnlinkHash(l, b), UnlinkTable(l, keys[b], table, b);
    chains' := chains[h := RemoveAt(chains[h], k)];
    UnlinkHashChain(l, chains[h], table[h], k);
    UnlinkHashFrame(l, chains[h], table[h], k);
    RemoveAtFacts(chains[h], k, |keys|);
    forall g: nat | g < NR_HASH && g != h ensures ChainOk(l', chains'[g], table'[g]) {
      assert ChainOk(l, chains[g], table[g]);
      OtherChainKept(l, l', chains[g], table[g]);
    }
    forall x | 0 <= x < |keys| && x != b && keys[x].dev == 0 ensures l'.next[x] == NIL && l'.prev[x] == NIL {
      assert x in chains[h] <==> BelongsTo(keys[x], h);
    }
  }

  // The hash half of insert_into_queues; the store through b_next is guarded.
  function LinkHash(l: Links, b: int, head: int): (l': Links)
    requires l.Sized(|l.next|) && 0 <= b < |l.next| && PointsIn(head, |l.next|)
    ensures l'.Sized(|l.next|)
  {
    var l1 := l.SetPrev(b, NIL).SetNext(b, head);
    if head != NIL then l1.SetPrev(head, b) else l1
  }

  lemma LinkHashChain(l: Links, chain: seq<int>, head: int, b: int)
    requires ChainOk(l, chain, head) && 0 <= b < |l.next| && b !in chain
    ensures PointsIn(head, |l.next|) && head != b
    ensures ChainOk(LinkHash(l, b, head), [b] + chain, b)
    ensures forall x :: 0 <= x < |l.next| && x != b && x !in chain ==>
              LinkHash(l, b, head).next[x] == l.next[x] && LinkHash(l, b, head).prev[x] == l.prev[x]
  {
    assert chain != [] ==> chain[0] in chain;
    var l', c' := LinkHash(l, b, head), [b] + chain;
    forall i: nat | i < |c'| ensures ChainLink(l', c', i) {
      if i > 0 { assert c'[i] == chain[i - 1] && ChainLink(l, chain, i - 1) && chain[i - 1] in chain; }
    }
  }

  // The chains after b has come back under its new key.
  lemma LinkHashChains(l: Links, keys: seq<Key>, chains: seq<seq<int>>, table: seq<int>, b: int, key: Key)
    returns (chains': seq<seq<int>>)
    requires ChainsOk(l, keys, chains, table, b) && 0 <= b < |keys| && key.dev != 0
    ensures var h := Hash(key.dev, key.blocknr);
            PointsIn(table[h], |keys|) && table[h] != b &&
            ChainsOk(LinkHash(l, b, table[h]), keys[b := key], chains', table[h := b], NIL)
  {
    var h := Hash(key.dev, key.blocknr);
    assert ChainOk(l, chains[h], table[h]) && b !in chains[h];
    LinkHashChain(l, chains[h], table[h], b);
    var l', keys' := LinkHash(l, b, table[h]), keys[b := key];
    chains' := chains[h := [b] + chains[h]];
    forall g: nat | g < NR_HASH && g != h ensures ChainOk(l', chains'[g], table[h := b][g]) {
      assert ChainOk(l, chains[g], table[g]);
      OtherChainKept(l, l', chains[g], table[g]);
    }
    forall g, x {:trigger x in chains'[g]} | 0 <= g < NR_HASH && 0 <= x < |keys|
      ensures x in chains'[g] <==> BelongsTo(keys'[x], g)
    {
      assert x in chains[g] <==> x != b && BelongsTo(keys[x], g);
    }
    forall x | 0 <= x < |keys| && keys'[x].dev == 0 ensures l'.next[x] == NIL && l'.prev[x] == NIL {
      assert x in chains[h] <==> x != b && BelongsTo(keys[x], h);
    }
  }

  // A buffer without a device comes back on no chain.
  lemma NoDeviceChains(l: Links, keys: seq<Key>, chains: seq<seq<int>>, table: seq<int>, b: int)
    requires 0 <= b < |keys| && keys[b].dev == 0 && ChainsOk(l, keys[b := Key(0, 0)], chains, table, b)
    ensures ChainsOk(l.SetPrev(b, NIL).SetNext(b, NIL), keys, chains, table, NIL)
  {
    var l', keys0 := l.SetPrev(b, NIL).SetNext(b, NIL), keys[b := Key(0, 0)];
    forall h: nat | h < NR_HASH ensures ChainOk(l', chains[h], table[h]) {
      assert ChainOk(l, chains[h], table[h]) && b !in chains[h];
      OtherChainKept(l, l', chains[h], table[h]);
    }
    forall h, x {:trigger x in chains[h]} | 0 <= h < NR_HASH && 0 <= x < |keys|
      ensures x in chains[h] <==> BelongsTo(keys[x], h)
    {
      assert x in chains[h] <==> x != b && BelongsTo(keys0[x], h);
    }
  }

  // ---------- The table ----------

  predicate UniqueKeys(keys: seq<Key>) {
    forall i, j :: 0 <= i < j < |keys| && keys[i].dev != 0 ==> keys[i] != keys[j]
  }

  // Prefer clean and unlocked buffers, then locked, dirty, dirty and locked ones.
  function Badness(dirt: bool, lock: bool): nat { (if dirt then 2 else 0) + (if lock then 1 else 0) }

  // A dirty buffer is worse than a clean one; among equals a locked one is worse.
  predicate Worse(dirt: bool, lock: bool, dirt': bool, lock': bool) {
    (dirt && !dirt') || (dirt == dirt' && lock && !lock')
  }

  class BufferTable {
    var data: seq<int>
    var keys: seq<Key>
    var count: seq<nat>
    var dirt: seq<bool>
    var lock: seq<bool>
    var hashLinks: Links
    var freeLinks: Links
    var table: seq<int>
    var freeList: int
    ghost var chains: seq<seq<int>>
    ghost var ring: seq<int>

    // Every buffer is on the ring once and on the chain of its key.
    ghost predicate Valid()
      reads this
    {
      |keys| == |count| == |dirt| == |lock| == |ring| == |freeLinks.next| && |keys| >= 2 &&
      RingOk(freeLinks, ring, freeList) && ChainsOk(hashLinks, keys, chains, table, NIL) && UniqueKeys(keys)
    }

    // buffer_init. The kernel image must leave room for two buffers below the hole.
    constructor (start: int, bufferEnd: int)
      requires BLOCK_SIZE <= start && start + 2 * HEAD_SIZE + 2 * BLOCK_SIZE <= HOLE
      requires MB <= bufferEnd && bufferEnd % BLOCK_SIZE == 0
      ensures Valid() && LayoutOk(data, start, bufferEnd) && |data| == |keys|
      ensures forall b :: 0 <= b < |keys| ==> keys[b].dev == 0 && count[b] == 0 && !dirt[b] && !lock[b]
      ensures ring == seq(|keys|, i => i)
    {
      var blocks := LayOutBuffers(start, bufferEnd);
      var n := |blocks|;
      var free, hash, heads := InitLinks(n);
      data, freeLinks, hashLinks, table, freeList := blocks, free, hash, heads, 0;
      keys := seq(n, i => Key(0, 0));
      count, dirt, lock := seq(n, i => 0), seq(n, i => false), seq(n, i => false);
      chains, ring := seq(NR_HASH, i => []), seq(n, i => i);
    }

    method RemoveFromHash(b: int)
      requires Hashable(hashLinks, b) && b < |keys| && |table| == NR_HASH
      modifies `hashLinks, `table
      ensures hashLinks == UnlinkHash(old(hashLinks), b)
      ensures table == UnlinkTable(old(hashLinks), keys[b], old(table), b)
    {
      if hashLinks.next[b] != NIL {
        hashLinks := hashLinks.SetPrev(hashLinks.next[b], hashLinks.prev[b]);
      }
      if hashLinks.prev[b] != NIL {
        hashLinks := hashLinks.SetNext(hashLinks.prev[b], hashLinks.next[b]);
      }
      if table[Hash(keys[b].dev, keys[b].blocknr)] == b {
        table := table[Hash(keys[b].dev, keys[b].blocknr) := hashLinks.next[b]];
      }
    }

    method RemoveFromFree(b: int, ghost k: nat)
      requires RingOk(freeLinks, ring, freeList) && |ring| >= 2 && k < |ring| && ring[k] == b
      modifies `freeLinks, `freeList, `ring
      ensures ring == RemoveAt(old(ring), k) && |freeLinks.next| == old(|freeLinks.next|)
      ensures RingOk(freeLinks, ring, freeList)
    {
      UnlinkFreeRing(freeLinks, ring, freeList, k);
      freeLinks := freeLinks.SetNext(freeLinks.prev[b], freeLinks.next[b]);
      freeLinks := freeLinks.SetPrev(freeLinks.next[b], freeLinks.prev[b]);
      if freeList == b {
        freeList := freeLinks.next[b];
      }
      ring := RemoveAt(ring, k);
    }

    method RemoveFromQueues(b: int, ghost k: nat)
      requires Valid() && k < |ring| && ring[k] == b
      modifies `hashLinks, `freeLinks, `table, `freeList, `chains, `ring
      ensures ring == RemoveAt(old(ring), k) && |freeLinks.next| == |keys|
      ensures RingOk(freeLinks, ring, freeList) && ChainsOk(hashLinks, keys, chains, table, b)
    {
      ChainNeighbours(hashLinks, keys, chains, table, b);
      chains := UnlinkHashChains(hashLinks, keys, chains, table, b);
      RemoveFromHash(b);
      RemoveFromFree(b, k);
    }

    method InsertIntoQueues(b: int)
      requires 0 <= b < |keys| && b !in ring && |freeLinks.next| == |keys|
      requires RingOk(freeLinks, ring, freeList)
      requires ChainsOk(hashLinks, keys[b := Key(0, 0)], chains, table, b)
      modifies `hashLinks, `freeLinks, `table, `chains, `ring
      ensures ring == old(ring) + [b] && |freeLinks.next| == |keys|
      ensures RingOk(freeLinks, ring, freeList) && ChainsOk(hashLinks, keys, chains, table, NIL)
    {
      LinkFreeRing(freeLinks, ring, freeList, b);
      ring := ring + [b];
      freeLinks := freeLinks.SetNext(b, freeList);
      freeLinks := freeLinks.SetPrev(b, freeLinks.prev[freeList]);
      freeLinks := freeLinks.SetNext(freeLinks.prev[freeList], b);
      freeLinks := freeLinks.SetPrev(freeList, b);
      InsertIntoHash(b);
    }

    method InsertIntoHash(b: int)
      requires 0 <= b < |keys| && ChainsOk(hashLinks, keys[b := Key(0, 0)], chains, table, b)
      modifies `hashLinks, `table, `chains
      ensures ChainsOk(hashLinks, keys, chains, table, NIL)
    {
      ghost var was := hashLinks;
      hashLinks := hashLinks.SetPrev(b, NIL);
      hashLinks := hashLinks.SetNext(b, NIL);
      if keys[b].dev == 0 {
        NoDeviceChains(was, keys, chains, table, b);
        return;
      }
      chains := LinkHashChains(was, keys[b := Key(0, 0)], chains, table, b, keys[b]);
      assert keys[b := Key(0, 0)][b := keys[b]] == keys;
      ghost var head := table[Hash(keys[b].dev, keys[b].blocknr)];
      hashLinks := hashLinks.SetNext(b, table[Hash(keys[b].dev, keys[b].blocknr)]);
      assert hashLinks == was.SetPrev(b, NIL).SetNext(b, head);
      table := table[Hash(keys[b].dev, keys[b].blocknr) := b];
      if hashLinks.next[b] != NIL {
        hashLinks := hashLinks.SetPrev(hashLinks.next[b], b);
      }
    }

    // getblk's last lines: b is taken over for the block of the key.
    method Reuse(b: int, key: Key, ghost k: nat)
      requires Valid() && k < |ring| && ring[k] == b && key.dev != 0 && key !in keys
      modifies this
      ensures Valid() && data == old(data)
      ensures keys == old(keys)[b := key] && count == old(count)[b := 1] && dirt == old(dirt)[b := false]
      ensures lock == old(lock)
      ensures ring == RemoveAt(old(ring), k) + [b]
    {
      RemoveAtFacts(ring, k, |keys|);
      count := count[b := 1];
      dirt := dirt[b := false];
      RemoveFromQueues(b, k);
      keys := keys[b := key];
      assert keys[b := Key(0, 0)] == old(keys)[b := Key(0, 0)];
      InsertIntoQueues(b);
    }

    // find_buffer agrees with the map from keys to buffers.
    method FindBuffer(dev: bv32, blocknr: bv32) returns (r: int)
      requires Valid() && dev != 0
      ensures r == NIL <==> Key(dev, blocknr) !in keys
      ensures r != NIL ==> 0 <= r < |keys| && keys[r] == Key(dev, blocknr)
    {
      ghost var h := Hash(dev, blocknr);
      ghost var chain := chains[h];
      assert ChainOk(hashLinks, chain, table[h]);
      r := table[Hash(dev, blocknr)];
      ghost var i := 0;
      while r != NIL
        invariant 0 <= i <= |chain| && r == if i < |chain| then chain[i] else NIL
        invariant forall j :: 0 <= j < i ==> keys[chain[j]] != Key(dev, blocknr)
        decreases |chain| - i
      {
        if keys[r].dev == dev && keys[r].blocknr == blocknr {
          return;
        }
        assert ChainLink(hashLinks, chain, i);
        r := hashLinks.next[r];
        i := i + 1;
      }
      forall x | 0 <= x < |keys| ensures keys[x] != Key(dev, blocknr) {
        assert x in chain <==> BelongsTo(keys[x], h);
      }
    }

    // r is at position k of the ring, and every unreferenced buffer before it is worse.
    ghost predicate FirstBest(k: nat, r: int)
      requires Valid()
      reads this
    {
      k < |ring| && ring[k] == r && 0 <= r < |keys| && count[r] == 0 &&
      forall j :: 0 <= j < |ring| && count[ring[j]] == 0 ==>
        var x := ring[j];
        if j < k then Worse(dirt[x], lock[x], dirt[r], lock[r]) else !Worse(dirt[r], lock[r], dirt[x], lock[x])
    }

    // getblk's scan of the free list: the first among the best unreferenced buffers.
    // NIL sends the caller to sleep.
    method PickVictim() returns (r: int)
      requires Valid()
      ensures r == NIL <==> forall x :: 0 <= x < |keys| ==> count[x] > 0
      ensures r != NIL ==> exists k :: FirstBest(k, r)
    {
      r := NIL;
      var tmp := freeList;
      ghost var i, at := 0, 0;
      while true
        invariant 0 <= i < |ring| && tmp == ring[i]
        invariant r == NIL ==> forall j :: 0 <= j < i ==> count[ring[j]] > 0
        invariant r != NIL ==> 0 <= at < i && r == ring[at] && count[r] == 0
        invariant r != NIL ==> forall j :: 0 <= j < i && count[ring[j]] == 0 ==>
                    Badness(dirt[ring[j]], lock[ring[j]]) >= Badness(dirt[r], lock[r]) &&
                    (j < at ==> Badness(dirt[ring[j]], lock[ring[j]]) > Badness(dirt[r], lock[r]))
        decreases |ring| - i
      {
        if count[tmp] == 0 {
          if r == NIL || Badness(dirt[tmp], lock[tmp]) < Badness(dirt[r], lock[r]) {
            r := tmp;
            at := i;
            if Badness(dirt[tmp], lock[tmp]) == 0 {
              break;
            }
          }
        }
        assert RingLink(freeLinks, ring, i);
        tmp := freeLinks.next[tmp];
        i := i + 1;
        if tmp == freeList {
          break;
        }
      }
      if r == NIL {
        assert i == |ring|;
        DistinctCovers(ring, |keys|);
        forall x | 0 <= x < |keys| ensures count[x] > 0 {
          assert x in ring;
        }
      } else {
        assert FirstBest(at, r);
      }
    }
  }

  // ---------- buffer_init ----------

  const BLOCK_SIZE := 1024
  const HEAD_SIZE := 36
  const MB := 0x100000
  const HOLE := 0xA0000      // 640K: video memory and the BIOS follow, up to 1M

  // The data blocks laid out so far avoid each other, the hole and the headers.
  predicate LayoutOk(data: seq<int>, start: int, end: int) {
    (forall i, j :: 0 <= i < j < |data| ==> data[j] + BLOCK_SIZE <= data[i]) &&
    forall i :: 0 <= i < |data| ==>
      start + HEAD_SIZE * |data| <= data[i] && data[i] + BLOCK_SIZE <= end &&
      (data[i] + BLOCK_SIZE <= HOLE || MB <= data[i])
  }

  // The data addresses buffer_init hands out between the end of the kernel image
  // and the end of buffer memory, with one 36-byte header each.
  method LayOutBuffers(start: int, bufferEnd: int) returns (data: seq<int>)
    requires BLOCK_SIZE <= start && MB <= bufferEnd && bufferEnd % BLOCK_SIZE == 0
    ensures LayoutOk(data, start, bufferEnd)
    ensures start + 2 * HEAD_SIZE + 2 * BLOCK_SIZE <= HOLE ==> |data| >= 2
  {
    var b := if bufferEnd == MB then HOLE else bufferEnd;
    data := [];
    b := b - BLOCK_SIZE;
    while b >= start + HEAD_SIZE * (|data| + 1)
      invariant b % BLOCK_SIZE == 0 && b + BLOCK_SIZE <= bufferEnd
      invariant b + BLOCK_SIZE <= HOLE || MB <= b
      invariant b >= HOLE - BLOCK_SIZE * (|data| + 1)
      invariant forall i :: 0 <= i < |data| ==> b + BLOCK_SIZE <= data[i]
      invariant forall i :: 0 <= i < |data| ==> start + HEAD_SIZE * |data| <= data[i]
      invariant LayoutOk(data, start, bufferEnd)
      decreases b
    {
      data := data + [b];
      if b == MB {
        b := HOLE;
      }
      b := b - BLOCK_SIZE;
    }
  }

  // The link loop of buffer_init: a ring of all headers and empty hash chains.
  method InitLinks(n: nat) returns (freeLinks: Links, hashLinks: Links, table: seq<int>)
    requires n >= 2
    ensures freeLinks.Sized(n) && RingOk(freeLinks, seq(n, i => i), 0)
    ensures ChainsOk(hashLinks, seq(n, i => Key(0, 0)), seq(NR_HASH, i => []), table, NIL)
  {
    freeLinks := Links([], []);
    hashLinks := Links([], []);
    var h := 0;
    while h < n
      invariant 0 <= h <= n && freeLinks.Sized(h) && hashLinks.Sized(h)
      invariant forall i :: 0 <= i < h ==> freeLinks.next[i] == i + 1 && freeLinks.prev[i] == i - 1
      invariant forall i :: 0 <= i < h ==> hashLinks.next[i] == NIL && hashLinks.prev[i] == NIL
    {
      freeLinks := Links(freeLinks.next + [h + 1], freeLinks.prev + [h - 1]);
      hashLinks := Links(hashLinks.next + [NIL], hashLinks.prev + [NIL]);
      h := h + 1;
    }
    h := h - 1;
    freeLinks := freeLinks.SetPrev(0, h);
    freeLinks := freeLinks.SetNext(h, 0);
    table := [];
    while |table| < NR_HASH
      invariant |table| <= NR_HASH && forall i :: 0 <= i < |table| ==> table[i] == NIL
    {
      table := table + [NIL];
    }
    ghost var ring := seq(n, i => i);
    forall i: nat | i < n ensures RingLink(freeLinks, ring, i) {
      assert ring[i] == i && ring[Succ(i, n)] == Succ(i, n);
    }
  }
}
