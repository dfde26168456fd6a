module Kmalloc {
  // kmalloc, kfree_s and init_bucket_desc (lib/malloc.c). The pages that get_free_page
  // would return are parameters; running out of memory and impossible arguments, which
  // panic, are excluded by the requires clauses.

  import opened Lists
  import opened BucketHeap

  // The smallest bucket that holds len bytes.
  function BucketFor(len: nat): (b: int)
    requires len <= 4096
    ensures 0 <= b < BUCKETS && len <= 16 * Units(b) && (b > 0 ==> 16 * Units(b - 1) < len)
  {
    if len <= 16 then 0 else if len <= 32 then 1 else if len <= 64 then 2 else if len <= 128 then 3
    else if len <= 256 then 4
    else if len <= 512 then 5 else if len <= 1024 then 6 else if len <= 2048 then 7 else 8
  }

  // The first descriptor of chain b that has a free block.
  ghost predicate FirstFit(h: Heap, b: int, k: int)
    requires Inv(h) && 0 <= b < BUCKETS
  {
    ChainInRange(h, b);
    0 <= k < |h.chains[b]| && h.freeptr[h.chains[b][k]] != 0 &&
    forall j :: 0 <= j < k ==> h.freeptr[h.chains[b][j]] == 0
  }

  // The pages a new bucket needs: one for its blocks, and one for descriptors if the pool
  // has none.
  ghost predicate PagesAvailable(h: Heap, descPage: int, dataPage: int)
    requires Inv(h)
  {
    FreshPage(h, dataPage) && (h.pool == [] ==> FreshPage(h, descPage) && descPage != dataPage)
  }

  // The heap once a new page has been cut up for bucket b.
  ghost function Grown(h: Heap, b: int, descPage: int, dataPage: int): (g: Heap)
    requires Inv(h) && 0 <= b < BUCKETS && PagesAvailable(h, descPage, dataPage)
    ensures Inv(g) && g.live == h.live && g.chains[b] != [] && g.chain[b] == g.chains[b][0]
    ensures IsDesc(g.chain[b]) && g.home[g.chain[b]] == b && g.freeptr[g.chain[b]] == PER_PAGE * dataPage
  {
    var pooled := if h.pool == [] then AddDescsKeepsInv(h, descPage); AddDescs(h, descPage) else h;
    NewBucketChains(pooled, b, dataPage);
    NewBucketKeepsInv(pooled, b, dataPage);
    NewBucket(pooled, b, dataPage)
  }

  // New pages are asked for only if no descriptor of the bucket has a free block.
  ghost predicate CanMalloc(h: Heap, len: nat, descPage: int, dataPage: int)
    requires Inv(h)
  {
    len <= 4096 && ((forall k :: !FirstFit(h, BucketFor(len), k)) ==> PagesAvailable(h, descPage, dataPage))
  }

  ghost predicate MallocStep(h: Heap, len: nat, descPage: int, dataPage: int, h': Heap, x: int)
    requires Inv(h)
  {
    CanMalloc(h, len, descPage, dataPage) &&
    var b := BucketFor(len);
    if exists k :: FirstFit(h, b, k) then
      exists k :: FirstFit(h, b, k) && TakenAt(h, b, k, len, h', x)
    else
      TakenAt(Grown(h, b, descPage, dataPage), b, 0, len, h', x)
  }

  ghost predicate TakenAt(h: Heap, b: int, k: int, len: nat, h': Heap, x: int)
    requires Inv(h) && 0 <= b < BUCKETS && 0 <= k < |h.chains[b]|
  {
    DropPre(h, b, k);
    CanTake(h, h.chains[b][k], len) &&
    (TakeKeepsInv(h, h.chains[b][k], len); x == h.freeptr[h.chains[b][k]] && h' == Take(h, h.chains[b][k], len))
  }

  ghost predicate FreeStep(h: Heap, obj: int, h': Heap)
    requires Inv(h)
  {
    obj in h.live &&
    var d, g := BlockOf(h, obj), Give(h, obj);
    GiveKeepsInv(h, obj);
    if g.refcnt[d] > 0 then h' == g
    else exists k: nat :: k < |g.chains[g.home[d]]| && g.chains[g.home[d]][k] == d && DroppedAt(g, g.home[d], k, h')
  }

  ghost predicate DroppedAt(g: Heap, b: int, k: nat, h': Heap)
    requires Inv(g) && 0 <= b < BUCKETS && k < |g.chains[b]|
  {
    DropPre(g, b, k);
    CanDrop(g, b, k) && h' == Drop(g, b, k)
  }

  // ---------- What a call leaves alone ----------

  // Descriptors stay descriptors, and blocks allocated before and after belong to the
  // same descriptor in the same chain.
  ghost predicate Stable(h: Heap, h': Heap) {
    Inv(h) && Inv(h') &&
    (forall d :: IsDesc(d) && h.home[d] != NOWHERE ==> h'.home[d] != NOWHERE) &&
    forall x :: x in h.live && x in h'.live ==>
      BlockOf(h', x) == BlockOf(h, x) && h'.home[BlockOf(h, x)] == h.home[BlockOf(h, x)]
  }

  ghost predicate TightBut(h: Heap, d: int)
    requires Sized(h)
  {
    forall e :: IsDesc(e) && InChain(h, e) && e != d ==> h.refcnt[e] >= 1
  }

  lemma GrownIsStable(h: Heap, b: int, descPage: int, dataPage: int)
    requires Inv(h) && Tight(h) && 0 <= b < BUCKETS && PagesAvailable(h, descPage, dataPage)
    ensures var g := Grown(h, b, descPage, dataPage); Stable(h, g) && TightBut(g, g.chain[b])
  {
    var pooled := if h.pool == [] then AddDescsKeepsInv(h, descPage); AddDescs(h, descPage) else h;
    NewBucketChains(pooled, b, dataPage);
    var g, d := Grown(h, b, descPage, dataPage), pooled.free;
    forall e | IsDesc(e) && h.home[e] != NOWHERE
      ensures pooled.home[e] == h.home[e] && g.home[e] == if e == d then b else h.home[e]
    {
      assert HomeOk(h, e);
    }
    assert d in pooled.pool;
    forall x | x in h.live ensures BlockOf(g, x) == BlockOf(h, x) && g.home[BlockOf(h, x)] == h.home[BlockOf(h, x)] {
      assert LiveOk(h, x) && LiveOk(g, x) && OwnerOk(h, x / PER_PAGE);
    }
    forall e | IsDesc(e) && InChain(g, e) && e != d ensures g.refcnt[e] >= 1 {
      assert InChain(h, e);
    }
  }

  lemma TakenIsStable(h: Heap, b: int, k: int, len: nat, h': Heap, x: int)
    requires Inv(h) && 0 <= b < BUCKETS && 0 <= k < |h.chains[b]| && TakenAt(h, b, k, len, h', x)
    requires IsDesc(h.chains[b][k]) && TightBut(h, h.chains[b][k])
    ensures Stable(h, h') && Tight(h') && x !in h.live && h'.live == h.live[x := len]
    ensures h'.home[BlockOf(h', x)] == b
  {
    var d := h.chains[b][k];
    DropPre(h, b, k);
    TakeKeepsInv(h, d, len);
    assert DescOk(h, d);
    forall y | y in h'.live ensures 0 <= y < UNITS && BlockOf(h', y) == h.owner[y / PER_PAGE] {
      assert LiveOk(h', y);
    }
    forall y | y in h.live ensures 0 <= y < UNITS && BlockOf(h, y) == h.owner[y / PER_PAGE] {
      assert LiveOk(h, y);
    }
    ListIn(h.word, h.freeptr[d], h.lists[d]);
    assert h.lists[d][0] in h.lists[d];
  }

  // An allocation returns a block that was not allocated, of the smallest sufficient
  // size, and disturbs no other.
  lemma MallocKeepsInv(h: Heap, len: nat, descPage: int, dataPage: int, h': Heap, x: int)
    requires Inv(h) && Tight(h) && MallocStep(h, len, descPage, dataPage, h', x)
    ensures Stable(h, h') && Tight(h') && x !in h.live && h'.live == h.live[x := len]
    ensures h'.home[BlockOf(h', x)] == BucketFor(len)
  {
    var b := BucketFor(len);
    if exists k :: FirstFit(h, b, k) {
      var k :| FirstFit(h, b, k) && TakenAt(h, b, k, len, h', x);
      DropPre(h, b, k);
      TakenIsStable(h, b, k, len, h', x);
    } else {
      var g := Grown(h, b, descPage, dataPage);
      GrownIsStable(h, b, descPage, dataPage);
      TakenIsStable(g, b, 0, len, h', x);
      assert forall y :: y in h.live ==> y in g.live && y in h'.live;
    }
  }

  lemma GiveIsStable(h: Heap, x: int)
    requires Inv(h) && Tight(h) && x in h.live
    ensures Stable(h, Give(h, x)) && TightBut(Give(h, x), BlockOf(h, x))
  {
    GiveKeepsInv(h, x);
    var h' := Give(h, x);
    forall y | y in h'.live ensures y in h.live && BlockOf(h', y) == BlockOf(h, y) {
      assert LiveOk(h', y) && LiveOk(h, y);
    }
  }

  lemma DroppedIsStable(g: Heap, b: int, k: nat, h': Heap)
    requires Inv(g) && 0 <= b < BUCKETS && k < |g.chains[b]| && DroppedAt(g, b, k, h')
    requires IsDesc(g.chains[b][k]) && TightBut(g, g.chains[b][k])
    ensures Stable(g, h') && Tight(h') && h'.live == g.live
  {
    DropPre(g, b, k);
    DropKeepsInv(g, b, k);
    var d := g.chains[b][k];
    assert DescOk(g, d);
    forall x | x in g.live ensures BlockOf(h', x) == BlockOf(g, x) && g.home[BlockOf(g, x)] == h'.home[BlockOf(g, x)] {
      assert LiveOk(g, x) && LiveOk(h', x) && OwnerOk(g, x / PER_PAGE);
      if x / PER_PAGE == g.page[d] { AllFree(g, d, x); }
    }
  }

  lemma FreeKeepsInv(h: Heap, obj: int, h': Heap)
    requires Inv(h) && Tight(h) && FreeStep(h, obj, h')
    ensures Stable(h, h') && Tight(h') && h'.live == h.live - {obj}
  {
    var d, g := BlockOf(h, obj), Give(h, obj);
    GiveKeepsInv(h, obj);
    GiveIsStable(h, obj);
    if g.refcnt[d] == 0 {
      var k: nat :| k < |g.chains[g.home[d]]| && g.chains[g.home[d]][k] == d && DroppedAt(g, g.home[d], k, h');
      DroppedIsStable(g, g.home[d], k, h');
    }
  }

  // ---------- Whole runs ----------

  datatype Call = Malloc(len: nat, descPage: int, dataPage: int, result: int) | Free(obj: int)

  ghost predicate CallStep(h: Heap, call: Call, h': Heap)
    requires Inv(h)
  {
    match call
    case Malloc(len, descPage, dataPage, x) => MallocStep(h, len, descPage, dataPage, h', x)
    case Free(obj) => FreeStep(h, obj, h')
  }

  ghost predicate IsRun(hs: seq<Heap>, calls: seq<Call>) {
    |hs| == |calls| + 1 && Inv(hs[0]) && Tight(hs[0]) &&
    forall j :: 0 <= j < |calls| && Inv(hs[j]) ==> CallStep(hs[j], calls[j], hs[j + 1])
  }

  // What the callers hold: the addresses returned and not yet freed.
  function Held(live: map<int, nat>, calls: seq<Call>): map<int, nat>
    decreases |calls|
  {
    if calls == [] then live else
      match calls[0]
      case Malloc(len, _, _, x) => Held(live[x := len], calls[1..])
      case Free(obj) => Held(live - {obj}, calls[1..])
  }

  lemma CallKeepsInv(h: Heap, call: Call, h': Heap)
    requires Inv(h) && Tight(h) && CallStep(h, call, h')
    ensures Stable(h, h') && Tight(h') && h'.live == Held(h.live, [call])
  {
    match call {
      case Malloc(len, descPage, dataPage, x) => MallocKeepsInv(h, len, descPage, dataPage, h', x);
      case Free(obj) => FreeKeepsInv(h, obj, h');
    }
  }

  lemma RunTail(hs: seq<Heap>, calls: seq<Call>)
    requires IsRun(hs, calls) && calls != []
    ensures CallStep(hs[0], calls[0], hs[1]) && IsRun(hs[1..], calls[1..])
  {
    assert CallStep(hs[0], calls[0], hs[1]);
    CallKeepsInv(hs[0], calls[0], hs[1]);
    forall j | 0 <= j < |calls| - 1 && Inv(hs[1..][j]) ensures CallStep(hs[1..][j], calls[1..][j], hs[1..][j + 1]) {
      assert CallStep(hs[j + 1], calls[j + 1], hs[j + 2]);
    }
  }

  // Over every run: the invariant holds and the blocks taken out of the free lists are
  // exactly those the callers hold; a block held throughout keeps its descriptor.
  lemma {:induction false} RunKeepsInv(hs: seq<Heap>, calls: seq<Call>)
    requires IsRun(hs, calls)
    ensures Inv(hs[|calls|]) && Tight(hs[|calls|]) && hs[|calls|].live == Held(hs[0].live, calls)
    ensures forall d :: IsDesc(d) && hs[0].home[d] != NOWHERE ==> hs[|calls|].home[d] != NOWHERE
    ensures forall x :: x in hs[0].live && Free(x) !in calls ==>
              x in hs[|calls|].live && BlockOf(hs[|calls|], x) == BlockOf(hs[0], x) &&
              hs[|calls|].home[BlockOf(hs[0], x)] == hs[0].home[BlockOf(hs[0], x)]
    decreases |calls|
  {
    if calls != [] {
      RunTail(hs, calls);
      CallKeepsInv(hs[0], calls[0], hs[1]);
      assert Held(hs[0].live, calls) == Held(hs[1].live, calls[1..]);
      RunKeepsInv(hs[1..], calls[1..]);
      forall x | x in hs[0].live && Free(x) !in calls ensures x in hs[1].live && Free(x) !in calls[1..] {
        assert calls[0] in calls;
      }
    }
  }

  // ---------- The predecessor found by an unlocked search ----------

  // A descriptor whose next field points to the k-th descriptor of a chain is its true
  // predecessor, wherever the descriptor has been meanwhile.
  lemma StalePredecessor(h: Heap, b: int, k: nat, prev: int)
    requires Inv(h) && 0 <= b < BUCKETS && k < |h.chains[b]| && IsDesc(prev) && h.home[prev] != NOWHERE
    ensures h.next[prev] == h.chains[b][k] <==> k > 0 && prev == h.chains[b][k - 1]
  {
    var s, d := h.chains[b], h.chains[b][k];
    DropPre(h, b, k);
    assert ChainOk(h, b) && HomeOk(h, prev);
    if h.home[prev] == POOL {
      var j :| 0 <= j < |h.pool| && h.pool[j] == prev;
      assert Linked(h.next, h.pool, j);
      assert j + 1 < |h.pool| ==> h.pool[j + 1] in h.pool;
      assert k > 0 ==> s[k - 1] in s;
    } else {
      var c := h.home[prev];
      assert ChainOk(h, c);
      var j :| 0 <= j < |h.chains[c]| && h.chains[c][j] == prev;
      assert Linked(h.next, h.chains[c], j);
      assert j + 1 < |h.chains[c]| ==> h.chains[c][j + 1] in h.chains[c];
      assert k > 0 ==> s[k - 1] in s;
      if c == b { PredecessorIsUnique(h.next, h.chain[b], s, j, k); }
    }
  }

  ghost predicate Found(h: Heap, obj: int, b: int, bdesc: int, prev: int) {
    Inv(h) && obj in h.live && bdesc == BlockOf(h, obj) && b == h.home[bdesc] &&
    (prev == 0 || (IsDesc(prev) && h.home[prev] != NOWHERE))
  }

  // Whatever is allocated and freed between the search and cli, what the search found is
  // still good enough to go on with.
  lemma SearchSurvives(hs: seq<Heap>, calls: seq<Call>, obj: int, b: int, bdesc: int, prev: int)
    requires IsRun(hs, calls) && Found(hs[0], obj, b, bdesc, prev) && Free(obj) !in calls
    ensures Found(hs[|calls|], obj, b, bdesc, prev)
  {
    RunKeepsInv(hs, calls);
  }

  // ---------- The code ----------

  class Allocator {
    var chain: seq<int>
    var free: int
    var next: seq<int>
    var page: seq<int>
    var freeptr: seq<int>
    var refcnt: seq<int>
    var size: seq<int>
    var word: seq<int>
    ghost var chains: seq<seq<int>>
    ghost var pool: seq<int>
    ghost var lists: seq<seq<int>>
    ghost var home: seq<int>
    ghost var owner: seq<int>
    ghost var descPages: set<int>
    ghost var live: map<int, nat>

    ghost function H(): Heap
      reads this
    {
      Heap(chain, free, next, page, freeptr, refcnt, size, word, chains, pool, lists, home, owner, descPages, live)
    }

    // bucket_dir and free_bucket_desc at boot.
    constructor ()
      ensures Inv(H()) && Tight(H()) && live == map[]
    {
      chain, free := seq(BUCKETS, b => 0), 0;
      next, page, freeptr, refcnt, size, word := seq(UNITS, d => 0), seq(UNITS, d => 0), seq(UNITS, d => 0),
        seq(UNITS, d => 0), seq(UNITS, d => 0), seq(UNITS, d => 0);
      chains, pool, lists := seq(BUCKETS, b => []), [], seq(UNITS, d => []);
      home, owner, descPages, live := seq(UNITS, d => NOWHERE), seq(PAGES, p => 0), {}, map[];
    }

    method InitBucketDesc(p: int)
      requires Inv(H()) && FreshPage(H(), p)
      modifies this
      ensures H() == AddDescs(old(H()), p) && Inv(H())
    {
      ghost var was := H();
      LinkDescs(p);
      free := PER_PAGE * p;
      pool := DescsOf(p) + pool;
      home := seq(UNITS, d requires 0 <= d < UNITS => if d / PER_PAGE == p then POOL else was.home[d]);
      descPages := descPages + {p};
      AddDescsKeepsInv(was, p);
    }

    // The loop of init_bucket_desc.
    method LinkDescs(p: int)
      requires |next| == UNITS && 0 < p < PAGES
      modifies `next
      ensures next == Threaded(old(next), free, p)
    {
      ghost var was := next;
      var first := PER_PAGE * p;
      var bdesc, i := first, PER_PAGE;
      while i > 1
        invariant 1 <= i <= PER_PAGE && bdesc == first + PER_PAGE - i && |next| == UNITS
        invariant forall d :: 0 <= d < UNITS ==> next[d] == if first <= d < bdesc then d + 1 else was[d]
      {
        next := next[bdesc := bdesc + 1];
        bdesc, i := bdesc + 1, i - 1;
      }
      next := next[bdesc := free];
    }

    // Step 3 to 5 of kmalloc: a new page for bucket b.
    method NewPage(b: int, descPage: int, dataPage: int)
      requires Inv(H()) && 0 <= b < BUCKETS && PagesAvailable(H(), descPage, dataPage)
      modifies this
      ensures H() == Grown(old(H()), b, descPage, dataPage)
    {
      ListIn(next, free, pool);
      if free == 0 {
        InitBucketDesc(descPage);
      }
      FillBucket(b, dataPage);
    }

    method FillBucket(b: int, p: int)
      requires CanCut(H(), b, p)
      modifies this
      ensures 0 < old(free) < UNITS && H() == NewBucket(old(H()), b, p)
    {
      PoolHead(H());
      CutPage(b, p);
      FillDesc(b, p);
    }

    // Step 5: the first free descriptor now describes the page.
    method FillDesc(b: int, p: int)
      requires Sized(H()) && 0 <= b < BUCKETS && 0 <= p < PAGES && pool != [] && IsDesc(free)
      modifies this
      ensures H() == NewBucket(old(H()), b, p).(word := old(word))
    {
      var bdesc := free;
      Enlist(b, p);
      Describe(bdesc, b, p);
    }

    // The first free descriptor moves to the front of the chain.
    method Enlist(b: int, ghost p: int)
      requires Sized(H()) && 0 <= b < BUCKETS && 0 <= p < PAGES && pool != [] && IsDesc(free)
      modifies `free, `pool, `next, `chain, `chains, `home, `owner
      ensures free == old(next)[old(free)] && pool == old(pool)[1..]
      ensures next == old(next)[old(free) := old(chain)[b]] && chain == old(chain)[b := old(free)]
      ensures chains == old(chains)[b := [old(free)] + old(chains)[b]]
      ensures home == old(home)[old(free) := b] && owner == old(owner)[p := old(free)]
    {
      var bdesc := free;
      free, pool := next[bdesc], pool[1..];
      next, chain := next[bdesc := chain[b]], chain[b := bdesc];
      chains, home, owner := chains[b := [bdesc] + chains[b]], home[bdesc := b], owner[p := bdesc];
    }

    method Describe(bdesc: int, b: int, p: int)
      requires Sized(H()) && 0 <= b < BUCKETS && 0 <= p < PAGES && IsDesc(bdesc)
      modifies `refcnt, `size, `page, `freeptr, `lists
      ensures refcnt == old(refcnt)[bdesc := 0] && size == old(size)[bdesc := 16 * Units(b)]
      ensures page == old(page)[bdesc := p] && freeptr == old(freeptr)[bdesc := PER_PAGE * p]
      ensures lists == old(lists)[bdesc := Blocks(b, p)]
    {
      refcnt := refcnt[bdesc := 0];
      size := size[bdesc := 16 * Units(b)];
      page, freeptr, lists := page[bdesc := p], freeptr[bdesc := PER_PAGE * p], lists[bdesc := Blocks(b, p)];
    }

    // Step 4: thread the blocks of a page.
    method CutPage(b: int, p: int)
      requires |word| == UNITS && 0 <= b < BUCKETS && 0 < p < PAGES
      modifies `word
      ensures word == Cut(old(word), b, p)
    {
      ghost var was := word;
      var cp, i := PER_PAGE * p, Capacity(b);
      ghost var k := 0;
      while i > 1
        invariant 1 <= i <= Capacity(b) && k == Capacity(b) - i && cp == PER_PAGE * p + k * Units(b) && |word| == UNITS
        invariant forall x :: 0 <= x < UNITS ==> word[x] == if x < cp then Cut(was, b, p)[x] else was[x]
      {
        NthBlock(b, p, k);
        BlocksBetween(b, p, cp);
        word := word[cp := cp + Units(b)];
        cp, i, k := cp + Units(b), i - 1, k + 1;
      }
      NthBlock(b, p, k);
      BlocksBetween(b, p, cp);
      word := word[cp := 0];
      assert word == Cut(was, b, p);
    }

    // Step 1.
    method FindBucket(len: nat) returns (b: int)
      requires len <= 4096
      ensures b == BucketFor(len)
    {
      b := 0;
      while 16 * Units(b) < len
        invariant 0 <= b <= BucketFor(len)
        decreases BUCKETS - b
      {
        b := b + 1;
      }
    }

    // Step 2: the first descriptor with a free block, or NULL.
    method FindDesc(b: int) returns (bdesc: int, ghost k: int)
      requires Inv(H()) && 0 <= b < BUCKETS
      ensures if bdesc != 0 then bdesc in chains[b] && IsDesc(bdesc) && freeptr[bdesc] != 0
              else forall d <- chains[b] :: IsDesc(d) && freeptr[d] == 0
      ensures if bdesc != 0 then FirstFit(H(), b, k) && bdesc == chains[b][k] else forall j :: !FirstFit(H(), b, j)
    {
      assert ChainOk(H(), b);
      ChainInRange(H(), b);
      ListIn(next, chain[b], chains[b]);
      bdesc, k := chain[b], 0;
      while bdesc != 0 && freeptr[bdesc] == 0
        invariant 0 <= k <= |chains[b]| && bdesc == (if k < |chains[b]| then chains[b][k] else 0) && IsDesc(bdesc)
        invariant forall j :: 0 <= j < k ==> freeptr[chains[b][j]] == 0
        invariant bdesc == 0 ==> k == |chains[b]|
        decreases |chains[b]| - k
      {
        assert Linked(next, chains[b], k);
        bdesc, k := next[bdesc], k + 1;
        assert k < |chains[b]| ==> Linked(next, chains[b], k);
      }
    }

    // Step 6.
    method TakeBlock(bdesc: int, ghost b: int, ghost k: int, len: nat) returns (retval: int)
      requires Inv(H()) && 0 <= b < BUCKETS && 0 <= k < |chains[b]| && bdesc == chains[b][k]
      requires CanTake(H(), bdesc, len)
      modifies this
      ensures TakenAt(old(H()), b, k, len, H(), retval)
    {
      TakeKeepsInv(H(), bdesc, len);
      retval := freeptr[bdesc];
      freeptr := freeptr[bdesc := word[retval]];
      refcnt := refcnt[bdesc := refcnt[bdesc] + 1];
      lists, live := lists[bdesc := lists[bdesc][1..]], live[retval := len];
    }

    method Kmalloc(len: nat, descPage: int, dataPage: int) returns (retval: int)
      requires Inv(H()) && Tight(H()) && CanMalloc(H(), len, descPage, dataPage)
      modifies this
      ensures MallocStep(old(H()), len, descPage, dataPage, H(), retval)
      ensures Inv(H()) && Tight(H()) && retval !in old(live) && live == old(live)[retval := len]
    {
      ghost var was := H();
      var b := FindBucket(len);
      ghost var k;
      var bdesc;
      bdesc, k := FindDesc(b);
      if bdesc == 0 {
        NewPage(b, descPage, dataPage);
        bdesc, k := chain[b], 0;
      } else {
        DropPre(was, b, k);
      }
      retval := TakeBlock(bdesc, b, k, len);
      MallocKeepsInv(was, len, descPage, dataPage, H(), retval);
    }

    // The inner search loop of kfree_s.
    method SearchChain(b: int, p: int) returns (bdesc: int, prev: int, ghost k: int)
      requires Inv(H()) && 0 <= b < BUCKETS
      ensures 0 <= k <= |chains[b]| && prev == (if k > 0 then chains[b][k - 1] else 0)
      ensures if bdesc != 0 then bdesc in chains[b] && IsDesc(bdesc) && page[bdesc] == p
              else forall d :: d in chains[b] ==> IsDesc(d) && page[d] != p
      ensures bdesc != 0 ==> k < |chains[b]| && bdesc == chains[b][k]
    {
      assert ChainOk(H(), b);
      ChainInRange(H(), b);
      ListIn(next, chain[b], chains[b]);
      bdesc, prev, k := chain[b], 0, 0;
      while bdesc != 0 && page[bdesc] != p
        invariant 0 <= k <= |chains[b]| && bdesc == (if k < |chains[b]| then chains[b][k] else 0) && IsDesc(bdesc)
        invariant prev == if k > 0 then chains[b][k - 1] else 0
        invariant forall j :: 0 <= j < k ==> page[chains[b][j]] != p
        invariant bdesc == 0 ==> k == |chains[b]|
        decreases |chains[b]| - k
      {
        assert Linked(next, chains[b], k);
        prev, bdesc, k := bdesc, next[bdesc], k + 1;
        assert k < |chains[b]| ==> Linked(next, chains[b], k);
      }
    }

    // kfree_s up to `found`: the descriptor of obj, its bucket, and what precedes it.
    method Search(obj: int, size: int) returns (b: int, bdesc: int, prev: int)
      requires Inv(H()) && obj in live && size <= 16 * Units(home[BlockOf(H(), obj)])
      ensures Found(H(), obj, b, bdesc, prev)
    {
      ghost var d := BlockOf(H(), obj);
      assert LiveOk(H(), obj) && OwnerOk(H(), obj / PER_PAGE) && DescOk(H(), d);
      b, bdesc, prev := 0, 0, 0;
      while true
        invariant 0 <= b <= home[d]
        decreases BUCKETS - b
      {
        if size <= 16 * Units(b) {
          ghost var k;
          bdesc, prev, k := SearchChain(b, obj / PER_PAGE);
          if bdesc != 0 {
            assert ChainOk(H(), b) && bdesc in chains[b] && DescOk(H(), bdesc);
            if k > 0 { assert chains[b][k - 1] in chains[b]; }
            return;
          }
        }
        b := b + 1;
      }
    }

    // `prev` as it is after the check for a stale predecessor.
    method Predecessor(b: int, bdesc: int, prev: int, ghost k: nat) returns (r: int)
      requires Inv(H()) && 0 <= b < BUCKETS && k < |chains[b]| && bdesc == chains[b][k]
      requires prev == 0 || (IsDesc(prev) && home[prev] != NOWHERE)
      ensures if r != 0 then k > 0 && r == chains[b][k - 1] && IsDesc(r) else k == 0 && chain[b] == bdesc
    {
      ChainInRange(H(), b);
      assert ChainOk(H(), b) && Linked(next, chains[b], k);
      assert k > 0 ==> Linked(next, chains[b], k - 1);
      ListIn(next, chain[b], chains[b]);
      r := prev;
      if prev != 0 { StalePredecessor(H(), b, k, prev); }
      if (prev != 0 && next[prev] != bdesc) || (prev == 0 && chain[b] != bdesc) {
        r := chain[b];
        ghost var j := 0;
        while r != 0 && next[r] != bdesc
          invariant 0 <= j <= |chains[b]| && r == (if j < |chains[b]| then chains[b][j] else 0) && IsDesc(r)
          invariant j < k || k == 0
          invariant r == 0 ==> j == |chains[b]|
          decreases |chains[b]| - j
        {
          PredecessorIsUnique(next, chain[b], chains[b], j, k);
          assert Linked(next, chains[b], j);
          r, j := next[r], j + 1;
          assert j < |chains[b]| ==> Linked(next, chains[b], j);
        }
        if r != 0 { PredecessorIsUnique(next, chain[b], chains[b], j, k); }
      }
    }

    // Take descriptor k out of chain b. The panic for a corrupted chain is never reached.
    method UnlinkDesc(b: int, bdesc: int, prev: int, ghost k: nat)
      requires Inv(H()) && 0 <= b < BUCKETS && k < |chains[b]| && bdesc == chains[b][k] && IsDesc(bdesc)
      requires prev == 0 || (IsDesc(prev) && home[prev] != NOWHERE)
      modifies `next, `chain
      ensures k > 0 ==> IsDesc(chains[b][k - 1])
      ensures next == if k > 0 then old(next)[chains[b][k - 1] := old(next)[bdesc]] else old(next)
      ensures chain == if k > 0 then old(chain) else old(chain)[b := old(next)[bdesc]]
    {
      var r := Predecessor(b, bdesc, prev, k);
      if r != 0 {
        next := next[r := next[bdesc]];
      } else {
        chain := chain[b := next[bdesc]];
      }
    }

    // The end of kfree_s: descriptor k of bucket b, now without allocated blocks, goes
    // back to the pool.
    method DropDesc(b: int, bdesc: int, prev: int, ghost k: nat)
      requires Inv(H()) && 0 <= b < BUCKETS && k < |chains[b]| && bdesc == chains[b][k] && CanDrop(H(), b, k)
      requires prev == 0 || (IsDesc(prev) && home[prev] != NOWHERE)
      modifies this
      ensures DroppedAt(old(H()), b, k, H())
    {
      ghost var was := H();
      DropPre(was, b, k);
      UnlinkDesc(b, bdesc, prev, k);
      PoolDesc(b, bdesc, k);
    }

    method PoolDesc(ghost b: int, bdesc: int, ghost k: nat)
      requires Sized(H()) && 0 <= b < BUCKETS && k < |chains[b]| && IsDesc(bdesc) && 0 <= page[bdesc] < PAGES
      modifies `next, `free, `pool, `chains, `home, `owner
      ensures next == old(next)[bdesc := old(free)] && free == bdesc && pool == [bdesc] + old(pool)
      ensures chains == old(chains)[b := RemoveAt(old(chains)[b], k)]
      ensures home == old(home)[bdesc := POOL] && owner == old(owner)[page[bdesc] := 0]
    {
      next, free, pool := next[bdesc := free], bdesc, [bdesc] + pool;
      chains, home, owner := chains[b := RemoveAt(chains[b], k)], home[bdesc := POOL], owner[page[bdesc] := 0];
    }

    // kfree_s from `found` on.
    method FreeFound(obj: int, b: int, bdesc: int, prev: int)
      requires Found(H(), obj, b, bdesc, prev) && Tight(H())
      modifies this
      ensures FreeStep(old(H()), obj, H())
      ensures Inv(H()) && Tight(H()) && live == old(live) - {obj}
    {
      ghost var was := H();
      GiveKeepsInv(was, obj);
      assert LiveOk(was, obj);
      word := word[obj := freeptr[bdesc]];
      freeptr := freeptr[bdesc := obj];
      refcnt := refcnt[bdesc := refcnt[bdesc] - 1];
      lists, live := lists[bdesc := [obj] + lists[bdesc]], live - {obj};
      ghost var given := H();
      assert given == Give(was, obj);
      if refcnt[bdesc] == 0 {
        assert HomeOk(given, bdesc);
        ghost var k: nat :| k < |chains[b]| && chains[b][k] == bdesc;
        DropDesc(b, bdesc, prev, k);
      }
      FreeKeepsInv(was, obj, H());
    }

    method KfreeS(obj: int, size: int)
      requires Inv(H()) && Tight(H()) && obj in live && size <= 16 * Units(home[BlockOf(H(), obj)])
      modifies this
      ensures FreeStep(old(H()), obj, H())
      ensures Inv(H()) && Tight(H()) && live == old(live) - {obj}
    {
      var b, bdesc, prev := Search(obj, size);
      FreeFound(obj, b, bdesc, prev);
    }
  }

  // No block starts strictly between two consecutive ones.
  lemma BlocksBetween(b: int, p: int, x: int)
    requires 0 <= b < BUCKETS && OnPage(x, p, b)
    ensures forall y :: x < y < x + Units(b) ==> !OnPage(y, p, b)
    ensures forall y :: y > x && x + Units(b) == PER_PAGE * (p + 1) ==> !OnPage(y, p, b)
  {
    forall y | y > x && OnPage(y, p, b) ensures x + Units(b) <= y < PER_PAGE * (p + 1) { AlignedApart(b, x, y); }
  }
}
