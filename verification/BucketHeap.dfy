module BucketHeap {
  // The data structure behind kmalloc (lib/malloc.c), on values: descriptors of pages
  // cut into equal blocks, chained by block size, free blocks threaded through their own
  // first words. Module Kmalloc runs the code.
  //
  // Addresses count 16-byte units, the size of a descriptor and of the smallest block:
  // page p is units 256p .. 256p+255, NULL is 0 and page 0 is never handed out.

  import opened Arithmetic
  import opened Counting
  import opened Lists

  const UNITS := 0x10_0000
  const PER_PAGE := 256
  const PAGES := 4096
  const BUCKETS := 9
  const NOWHERE := -1
  const POOL := 9

  // Units per block of bucket b.
  function Units(b: int): (u: int)
    requires 0 <= b < BUCKETS
    ensures 1 <= u <= PER_PAGE
  {
    [1, 2, 4, 8, 16, 32, 64, 128, 256][b]
  }

  function Capacity(b: int): (n: int)
    requires 0 <= b < BUCKETS
    ensures n * Units(b) == PER_PAGE && n >= 1
  {
    match b case 0 => 256 case 1 => 128 case 2 => 64 case 3 => 32 case 4 => 16 case 5 => 8
      case 6 => 4 case 7 => 2 case _ => 1
  }

  // bucket_dir[].chain, free_bucket_desc, the fields of the descriptors (`size` in
  // bytes, `page` a page number) and the first words of the blocks. From `chains` on,
  // ghost: the descriptors of each chain and of the pool, the free blocks of each
  // descriptor, the chain each descriptor is in, the descriptor of each page, the
  // descriptor pages, and the allocated blocks with the lengths asked for.
  datatype Heap = Heap(
    chain: seq<int>, free: int,
    next: seq<int>, page: seq<int>, freeptr: seq<int>, refcnt: seq<int>, size: seq<int>,
    word: seq<int>,
    chains: seq<seq<int>>, pool: seq<int>, lists: seq<seq<int>>, home: seq<int>, owner: seq<int>,
    descPages: set<int>, live: map<int, nat>)

  ghost predicate Sized(h: Heap) {
    |h.chain| == |h.chains| == BUCKETS && |h.owner| == PAGES &&
    |h.next| == |h.page| == |h.freeptr| == |h.refcnt| == |h.size| == |h.word| == |h.lists| == |h.home| == UNITS
  }

  predicate IsDesc(d: int) { 0 <= d < UNITS }

  ghost predicate InChain(h: Heap, d: int)
    requires Sized(h) && IsDesc(d)
  {
    0 <= h.home[d] < BUCKETS
  }

  ghost predicate ChainOk(h: Heap, b: int)
    requires Sized(h) && 0 <= b < BUCKETS
  {
    IsList(h.next, h.chain[b], h.chains[b]) && forall d :: d in h.chains[b] ==> IsDesc(d) && h.home[d] == b
  }

  ghost predicate PoolOk(h: Heap)
    requires Sized(h)
  {
    IsList(h.next, h.free, h.pool) && forall d :: d in h.pool ==> IsDesc(d) && h.home[d] == POOL
  }

  // Every descriptor of a descriptor page is in one chain or in the pool.
  ghost predicate HomeOk(h: Heap, d: int)
    requires Sized(h) && IsDesc(d)
  {
    NOWHERE <= h.home[d] <= POOL && (h.home[d] != NOWHERE <==> d / PER_PAGE in h.descPages) &&
    (h.home[d] == POOL ==> d in h.pool) && (InChain(h, d) ==> d in h.chains[h.home[d]])
  }

  predicate OnPage(x: int, p: int, b: int)
    requires 0 <= b < BUCKETS
  {
    x / PER_PAGE == p && x % Units(b) == 0
  }

  ghost predicate DescOk(h: Heap, d: int)
    requires Sized(h) && IsDesc(d) && InChain(h, d)
  {
    var b := h.home[d];
    h.size[d] == 16 * Units(b) && 0 < h.page[d] < PAGES && h.page[d] !in h.descPages && h.owner[h.page[d]] == d &&
    IsList(h.word, h.freeptr[d], h.lists[d]) && (forall x :: x in h.lists[d] ==> OnPage(x, h.page[d], b)) &&
    h.refcnt[d] >= 0 && h.refcnt[d] + |h.lists[d]| == Capacity(b)
  }

  ghost predicate OwnerOk(h: Heap, p: int)
    requires Sized(h) && 0 <= p < PAGES
  {
    h.owner[p] == 0 || (IsDesc(h.owner[p]) && InChain(h, h.owner[p]) && h.page[h.owner[p]] == p)
  }

  // x is a block of some bucket; it is allocated if it is not on the free list.
  ghost predicate IsBlock(h: Heap, x: int)
    requires Sized(h)
  {
    0 <= x < UNITS && IsDesc(h.owner[x / PER_PAGE]) && h.owner[x / PER_PAGE] != 0 &&
    InChain(h, h.owner[x / PER_PAGE]) && x % Units(h.home[h.owner[x / PER_PAGE]]) == 0
  }

  ghost predicate LiveOk(h: Heap, x: int)
    requires Sized(h)
  {
    (x in h.live <==> IsBlock(h, x) && x !in h.lists[h.owner[x / PER_PAGE]]) &&
    (x in h.live && IsBlock(h, x) ==> h.live[x] <= 16 * Units(h.home[h.owner[x / PER_PAGE]]))
  }

  ghost predicate DescsOk(h: Heap)
    requires Sized(h)
  {
    forall d :: IsDesc(d) && InChain(h, d) ==> DescOk(h, d)
  }

  ghost predicate HomesOk(h: Heap)
    requires Sized(h)
  {
    forall d :: IsDesc(d) ==> HomeOk(h, d)
  }

  ghost predicate OwnersOk(h: Heap)
    requires Sized(h)
  {
    forall p :: 0 <= p < PAGES ==> OwnerOk(h, p)
  }

  ghost predicate LivesOk(h: Heap)
    requires Sized(h)
  {
    forall x :: LiveOk(h, x)
  }

  ghost predicate Inv(h: Heap) {
    Sized(h) && (forall b :: 0 <= b < BUCKETS ==> ChainOk(h, b)) && PoolOk(h) && HomesOk(h) && DescsOk(h) &&
    OwnersOk(h) && LivesOk(h) && forall p :: p in h.descPages ==> 0 < p < PAGES
  }

  // Between calls no page is without allocated blocks.
  ghost predicate Tight(h: Heap)
    requires Sized(h)
  {
    forall d :: IsDesc(d) && InChain(h, d) ==> h.refcnt[d] >= 1
  }

  // ---------- What the invariant gives ----------

  lemma AlignedApart(b: int, x: int, y: int)
    requires 0 <= b < BUCKETS && x % Units(b) == 0 && y % Units(b) == 0 && x < y
    ensures x + Units(b) <= y
  {
    var u := Units(b);
    QuotientRemainder(x, u);
    QuotientRemainder(y, u);
    ScaleOrder(x / u, y / u, u);
  }

  // Allocated blocks do not overlap, stay in one page, are aligned to their size and at
  // least as long as asked for.
  lemma LiveBlocksAreApart(h: Heap, x: int, y: int)
    requires Inv(h) && x in h.live && y in h.live && x < y
    ensures var d := BlockOf(h, x);
            x + Units(h.home[d]) <= y && x % Units(h.home[d]) == 0 && h.live[x] <= 16 * Units(h.home[d]) == h.size[d] &&
            (x + Units(h.home[d]) - 1) / PER_PAGE == x / PER_PAGE == h.page[d] && h.page[d] !in h.descPages
  {
    assert LiveOk(h, x) && LiveOk(h, y);
    var d := h.owner[x / PER_PAGE];
    assert OwnerOk(h, x / PER_PAGE) && DescOk(h, d);
    BlockInPage(h.home[d], x);
    if x / PER_PAGE == y / PER_PAGE {
      AlignedApart(h.home[d], x, y);
    }
  }

  ghost function BlockOf(h: Heap, x: int): (d: int)
    requires Inv(h) && x in h.live
    ensures IsDesc(d) && InChain(h, d) && d in h.chains[h.home[d]]
  {
    assert LiveOk(h, x);
    var d := h.owner[x / PER_PAGE];
    assert HomeOk(h, d);
    d
  }

  lemma BlockInPage(b: int, x: int)
    requires 0 <= b < BUCKETS && x % Units(b) == 0
    ensures (x + Units(b) - 1) / PER_PAGE == x / PER_PAGE
  {
    var p, u, c := x / PER_PAGE, Units(b), Capacity(b);
    BlockNumber(b, p, x);
    Scaled((x - PER_PAGE * p) / u, c, u);
  }

  // ---------- init_bucket_desc ----------

  function DescsOf(p: int): seq<int> { seq(PER_PAGE, j => PER_PAGE * p + j) }

  predicate FreshPage(h: Heap, p: int)
    requires |h.owner| == PAGES
  {
    0 < p < PAGES && p !in h.descPages && h.owner[p] == 0
  }

  // The descriptors of page p, linked in order, the last one to `free`.
  function Threaded(next: seq<int>, free: int, p: int): seq<int> {
    seq(|next|, d requires 0 <= d < |next| =>
      if d / PER_PAGE != p then next[d] else if d % PER_PAGE == PER_PAGE - 1 then free else d + 1)
  }

  ghost function AddDescs(h: Heap, p: int): Heap
    requires Sized(h)
  {
    h.(next := Threaded(h.next, h.free, p),
       free := PER_PAGE * p,
       pool := DescsOf(p) + h.pool,
       home := seq(UNITS, d requires 0 <= d < UNITS => if d / PER_PAGE == p then POOL else h.home[d]),
       descPages := h.descPages + {p})
  }

  lemma AddDescsPool(h: Heap, p: int)
    requires Inv(h) && FreshPage(h, p)
    ensures PoolOk(AddDescs(h, p))
  {
    var h' := AddDescs(h, p);
    forall d | d in h.pool ensures IsDesc(d) && d / PER_PAGE != p && h'.next[d] == h.next[d] {
      assert HomeOk(h, d);
    }
    var n := PER_PAGE;
    forall i, j | 0 <= i < j < |h'.pool| ensures h'.pool[i] != h'.pool[j] {
      if i < n <= j { assert h.pool[j - n] in h.pool; }
    }
    ListIn(h.next, h.free, h.pool);
    forall i: nat | i < |h'.pool| ensures Linked(h'.next, h'.pool, i) {
      if i >= n {
        assert Linked(h.next, h.pool, i - n) && h.pool[i - n] in h.pool;
      }
    }
  }

  lemma AddDescsKeepsInv(h: Heap, p: int)
    requires Inv(h) && FreshPage(h, p)
    ensures Inv(AddDescs(h, p))
  {
    var h' := AddDescs(h, p);
    AddDescsPool(h, p);
    forall d | IsDesc(d) && h.home[d] != NOWHERE ensures h'.next[d] == h.next[d] && h'.home[d] == h.home[d] {
      assert HomeOk(h, d);
    }
    forall b | 0 <= b < BUCKETS ensures ChainOk(h', b) {
      assert ChainOk(h, b);
      ListFrame(h.next, h'.next, h.chain[b], h.chains[b]);
    }
    forall d | IsDesc(d) ensures HomeOk(h', d) {
      assert HomeOk(h, d);
      if d / PER_PAGE == p { assert DescsOf(p)[d % PER_PAGE] == d; }
    }
    forall d | IsDesc(d) && InChain(h', d) ensures DescOk(h', d) { assert DescOk(h, d); }
    forall q | 0 <= q < PAGES ensures OwnerOk(h', q) { assert OwnerOk(h, q); }
    forall x ensures LiveOk(h', x) {
      assert LiveOk(h, x);
      if 0 <= x < UNITS { assert OwnerOk(h, x / PER_PAGE); }
    }
  }

  // ---------- A page cut into blocks ----------

  function Blocks(b: int, p: int): seq<int>
    requires 0 <= b < BUCKETS
  {
    seq(Capacity(b), k => PER_PAGE * p + k * Units(b))
  }

  function Cut(word: seq<int>, b: int, p: int): seq<int>
    requires 0 <= b < BUCKETS
  {
    seq(|word|, x requires 0 <= x < |word| =>
      if !OnPage(x, p, b) then word[x] else if x + Units(b) == PER_PAGE * (p + 1) then 0 else x + Units(b))
  }

  lemma BlocksOfPage(b: int, p: int)
    requires 0 <= b < BUCKETS
    ensures Distinct(Blocks(b, p)) && forall x :: x in Blocks(b, p) <==> OnPage(x, p, b)
  {
    var s, u := Blocks(b, p), Units(b);
    forall x | OnPage(x, p, b) ensures x in s {
      BlockNumber(b, p, x);
      assert s[(x - PER_PAGE * p) / u] == x;
    }
    forall k | 0 <= k < |s| ensures OnPage(s[k], p, b) { NthBlock(b, p, k); }
    forall i, j | 0 <= i < j < |s| ensures s[i] != s[j] { NthBlock(b, p, i); NthBlock(b, p, j); }
  }

  lemma NthBlock(b: int, p: int, k: int)
    requires 0 <= b < BUCKETS && 0 <= k < Capacity(b)
    ensures var x := PER_PAGE * p + k * Units(b);
            OnPage(x, p, b) && (x - PER_PAGE * p) / Units(b) == k &&
            (k + 1 == Capacity(b) <==> x + Units(b) == PER_PAGE * (p + 1)) &&
            PER_PAGE * p + (k + 1) * Units(b) == x + Units(b)
  {
    var u, c := Units(b), Capacity(b);
    var r := k * u;
    Scaled(k, c, u);
    DivModUnique(PER_PAGE * p + r, p, r, PER_PAGE);
    assert PER_PAGE * p == (c * p) * u by { assert (c * u) * p == (c * p) * u; }
    DivModUnique(PER_PAGE * p + r, c * p + k, 0, u);
    DivModUnique(r, k, 0, u);
  }

  lemma Scaled(k: int, c: int, u: int)
    requires 0 <= k < c && u >= 1
    ensures 0 <= k * u <= c * u - u && (k + 1) * u == k * u + u && (k + 1 == c <==> k * u == c * u - u)
  {
    ScaleOrder(k, c, u);
    ScaleOrder(k + 1, c, u);
  }

  lemma BlockNumber(b: int, p: int, x: int)
    requires 0 <= b < BUCKETS && OnPage(x, p, b)
    ensures var k := (x - PER_PAGE * p) / Units(b); 0 <= k < Capacity(b) && x == PER_PAGE * p + k * Units(b)
  {
    var u, c := Units(b), Capacity(b);
    var r, k := x - PER_PAGE * p, x / u - c * p;
    assert x == u * (x / u);
    assert r == k * u by { assert (c * u) * p == (c * p) * u; }
    DivModUnique(r, k, 0, u);
    ScaleOrder(k, 0, u);
    ScaleOrder(k, c, u);
  }

  lemma CutIsList(word: seq<int>, b: int, p: int)
    requires 0 <= b < BUCKETS && |word| == UNITS && 0 < p < PAGES
    ensures IsList(Cut(word, b, p), PER_PAGE * p, Blocks(b, p))
  {
    BlocksOfPage(b, p);
    var s := Blocks(b, p);
    forall i: nat | i < |s| ensures Linked(Cut(word, b, p), s, i) {
      NthBlock(b, p, i);
    }
  }

  // Steps 3 to 5 of kmalloc.
  ghost function NewBucket(h: Heap, b: int, p: int): Heap
    requires Sized(h) && 0 <= b < BUCKETS && h.pool != [] && IsDesc(h.free) && 0 <= p < PAGES
  {
    var d := h.free;
    h.(free := h.next[d], pool := h.pool[1..],
       next := h.next[d := h.chain[b]], chain := h.chain[b := d], chains := h.chains[b := [d] + h.chains[b]],
       page := h.page[d := p], freeptr := h.freeptr[d := PER_PAGE * p], refcnt := h.refcnt[d := 0],
       size := h.size[d := 16 * Units(b)], word := Cut(h.word, b, p),
       lists := h.lists[d := Blocks(b, p)], home := h.home[d := b], owner := h.owner[p := d])
  }

  ghost predicate CanCut(h: Heap, b: int, p: int) { Inv(h) && 0 <= b < BUCKETS && h.pool != [] && FreshPage(h, p) }

  lemma PoolHead(h: Heap)
    requires Inv(h) && h.pool != []
    ensures h.free == h.pool[0] && 0 < h.free < UNITS
  {
    assert Linked(h.next, h.pool, 0);
  }

  lemma NewBucketChains(h: Heap, b: int, p: int)
    requires CanCut(h, b, p)
    ensures h.free == h.pool[0] && IsDesc(h.free) && h.free != 0
    ensures var h' := NewBucket(h, b, p);
            Sized(h') && PoolOk(h') && (forall c :: 0 <= c < BUCKETS ==> ChainOk(h', c)) && HomesOk(h')
  {
    var d := h.free;
    assert d in h.pool;
    ListIn(h.next, h.free, h.pool);
    PopFront(h.next, h.free, h.pool);
    var h' := NewBucket(h, b, p);
    assert h.pool == [d] + h'.pool;
    ListIn(h.next, h'.free, h'.pool);
    ListFrame(h.next, h'.next, h'.free, h'.pool);
    forall c | 0 <= c < BUCKETS ensures ChainOk(h', c) {
      assert ChainOk(h, c);
      if c == b { PushFront(h.next, h.chain[b], h.chains[b], d); }
      else { ListFrame(h.next, h'.next, h.chain[c], h.chains[c]); }
    }
    forall e | IsDesc(e) ensures HomeOk(h', e) {
      assert HomeOk(h, e) && HomeOk(h, d);
    }
  }

  lemma NewBucketKeepsInv(h: Heap, b: int, p: int)
    requires CanCut(h, b, p)
    ensures IsDesc(h.free) && Inv(NewBucket(h, b, p))
  {
    NewBucketChains(h, b, p);
    var h', d := NewBucket(h, b, p), h.free;
    BlocksOfPage(b, p);
    forall e | IsDesc(e) && InChain(h', e) ensures DescOk(h', e) {
      if e == d { CutIsList(h.word, b, p); }
      else {
        assert DescOk(h, e);
        ListIn(h.word, h.freeptr[e], h.lists[e]);
        ListFrame(h.word, h'.word, h.freeptr[e], h.lists[e]);
      }
    }
    forall q | 0 <= q < PAGES ensures OwnerOk(h', q) { assert OwnerOk(h, q); }
    forall x ensures LiveOk(h', x) {
      assert LiveOk(h, x);
      if 0 <= x < UNITS { assert OwnerOk(h, x / PER_PAGE); }
    }
  }

  // ---------- Step 6 of kmalloc, and its inverse in kfree_s ----------

  ghost function Take(h: Heap, d: int, len: nat): Heap
    requires Sized(h) && IsDesc(d) && 0 <= h.freeptr[d] < UNITS && h.lists[d] != []
  {
    var x := h.freeptr[d];
    h.(freeptr := h.freeptr[d := h.word[x]], refcnt := h.refcnt[d := h.refcnt[d] + 1],
       lists := h.lists[d := h.lists[d][1..]], live := h.live[x := len])
  }

  ghost predicate CanTake(h: Heap, d: int, len: nat) {
    Inv(h) && IsDesc(d) && InChain(h, d) && h.freeptr[d] != 0 && len <= 16 * Units(h.home[d])
  }

  lemma TakeKeepsInv(h: Heap, d: int, len: nat)
    requires CanTake(h, d, len)
    ensures 0 < h.freeptr[d] < UNITS && h.lists[d] != [] && h.freeptr[d] !in h.live
    ensures Inv(Take(h, d, len))
  {
    assert DescOk(h, d);
    ListIn(h.word, h.freeptr[d], h.lists[d]);
    PopFront(h.word, h.freeptr[d], h.lists[d]);
    var h', x := Take(h, d, len), h.freeptr[d];
    assert x == h.lists[d][0] && x in h.lists[d] && LiveOk(h, x);
    assert h.lists[d] == [x] + h'.lists[d];
    forall b | 0 <= b < BUCKETS ensures ChainOk(h', b) { assert ChainOk(h, b); }
    forall e | IsDesc(e) ensures HomeOk(h', e) { assert HomeOk(h, e); }
    forall e | IsDesc(e) && InChain(h', e) ensures DescOk(h', e) { assert DescOk(h, e); }
    forall q | 0 <= q < PAGES ensures OwnerOk(h', q) { assert OwnerOk(h, q); }
    forall y ensures LiveOk(h', y) { assert LiveOk(h, y); }
  }

  ghost function Give(h: Heap, x: int): Heap
    requires Inv(h) && x in h.live
  {
    var d := BlockOf(h, x);
    assert LiveOk(h, x);
    h.(word := h.word[x := h.freeptr[d]], freeptr := h.freeptr[d := x], refcnt := h.refcnt[d := h.refcnt[d] - 1],
       lists := h.lists[d := [x] + h.lists[d]], live := h.live - {x})
  }

  lemma GiveKeepsInv(h: Heap, x: int)
    requires Inv(h) && x in h.live
    ensures Inv(Give(h, x)) && h.refcnt[BlockOf(h, x)] >= 1
  {
    var h', d := Give(h, x), BlockOf(h, x);
    assert LiveOk(h, x) && DescOk(h, d) && OwnerOk(h, x / PER_PAGE);
    NotAllFree(h, d, x);
    forall b | 0 <= b < BUCKETS ensures ChainOk(h', b) { assert ChainOk(h, b); }
    forall e | IsDesc(e) ensures HomeOk(h', e) { assert HomeOk(h, e); }
    forall e | IsDesc(e) && InChain(h', e) ensures DescOk(h', e) {
      assert DescOk(h, e);
      if e == d { PushFront(h.word, h.freeptr[d], h.lists[d], x); }
      else { ListFrame(h.word, h'.word, h.freeptr[e], h.lists[e]); }
    }
    forall q | 0 <= q < PAGES ensures OwnerOk(h', q) { assert OwnerOk(h, q); }
    forall y ensures LiveOk(h', y) {
      assert LiveOk(h, y);
    }
  }

  function Numbers(s: seq<int>, b: int, p: int): seq<int>
    requires 0 <= b < BUCKETS
  {
    seq(|s|, i requires 0 <= i < |s| => (s[i] - PER_PAGE * p) / Units(b))
  }

  // Distinct blocks of one page have distinct numbers below Capacity(b).
  lemma NumbersAreDistinct(s: seq<int>, b: int, p: int)
    requires 0 <= b < BUCKETS && Distinct(s) && forall x :: x in s ==> OnPage(x, p, b)
    ensures Distinct(Numbers(s, b, p)) && forall i :: 0 <= i < |s| ==> 0 <= Numbers(s, b, p)[i] < Capacity(b)
  {
    forall i | 0 <= i < |s|
      ensures 0 <= Numbers(s, b, p)[i] < Capacity(b) && s[i] == PER_PAGE * p + Numbers(s, b, p)[i] * Units(b)
    {
      assert s[i] in s;
      BlockNumber(b, p, s[i]);
    }
  }

  // A page with an allocated block has a reference count above 0.
  lemma NotAllFree(h: Heap, d: int, x: int)
    requires Inv(h) && x in h.live && d == BlockOf(h, x)
    ensures h.refcnt[d] >= 1
  {
    assert LiveOk(h, x) && DescOk(h, d) && OwnerOk(h, x / PER_PAGE);
    var b, p, s := h.home[d], h.page[d], [x] + h.lists[d];
    NumbersAreDistinct(s, b, p);
    DistinctSize(Numbers(s, b, p));
    SubsetSize(Elements(Numbers(s, b, p)), Below(Capacity(b)));
  }

  // With reference count 0 every block is on the free list.
  lemma AllFree(h: Heap, d: int, x: int)
    requires Inv(h) && IsDesc(d) && InChain(h, d) && h.refcnt[d] == 0 && 0 <= x < UNITS && x / PER_PAGE == h.page[d]
    ensures x !in h.live
  {
    assert DescOk(h, d) && LiveOk(h, x);
    if x in h.live {
      NotAllFree(h, d, x);
      assert false;
    }
  }

  // ---------- The end of kfree_s ----------

  // The list of bucket b without its k-th descriptor, which goes to the pool.
  ghost function Drop(h: Heap, b: int, k: nat): Heap
    requires Sized(h) && 0 <= b < BUCKETS && k < |h.chains[b]| && IsDesc(h.chains[b][k])
    requires k > 0 ==> IsDesc(h.chains[b][k - 1])
    requires 0 <= h.page[h.chains[b][k]] < PAGES
  {
    var d := h.chains[b][k];
    var unlinked := if k > 0 then h.next[h.chains[b][k - 1] := h.next[d]] else h.next;
    h.(chain := if k > 0 then h.chain else h.chain[b := h.next[d]],
       next := unlinked[d := h.free], free := d, pool := [d] + h.pool,
       chains := h.chains[b := RemoveAt(h.chains[b], k)], home := h.home[d := POOL],
       owner := h.owner[h.page[d] := 0])
  }

  ghost predicate CanDrop(h: Heap, b: int, k: nat) {
    Inv(h) && 0 <= b < BUCKETS && k < |h.chains[b]| && IsDesc(h.chains[b][k]) && h.refcnt[h.chains[b][k]] == 0
  }

  lemma DropPre(h: Heap, b: int, k: nat)
    requires Inv(h) && 0 <= b < BUCKETS && k < |h.chains[b]|
    ensures var d := h.chains[b][k];
            IsDesc(d) && d > 0 && h.home[d] == b && (k > 0 ==> IsDesc(h.chains[b][k - 1])) && 0 < h.page[d] < PAGES
  {
    assert ChainOk(h, b) && Linked(h.next, h.chains[b], k);
    var d := h.chains[b][k];
    assert d in h.chains[b] && DescOk(h, d);
    if k > 0 { assert h.chains[b][k - 1] in h.chains[b]; }
  }

  lemma DropPool(h: Heap, b: int, k: nat)
    requires CanDrop(h, b, k)
    ensures (k > 0 ==> IsDesc(h.chains[b][k - 1])) && 0 < h.page[h.chains[b][k]] < PAGES
    ensures PoolOk(Drop(h, b, k))
  {
    DropPre(h, b, k);
    var d, s := h.chains[b][k], h.chains[b];
    if k > 0 {
      assert ChainOk(h, b) && s[k - 1] in s;
    }
    var unlinked := if k > 0 then h.next[s[k - 1] := h.next[d]] else h.next;
    ListFrame(h.next, unlinked, h.free, h.pool);
    PushFront(unlinked, h.free, h.pool, d);
  }

  lemma DropOtherChain(h: Heap, b: int, k: nat, c: int)
    requires CanDrop(h, b, k) && 0 <= c < BUCKETS && c != b
    ensures (k > 0 ==> IsDesc(h.chains[b][k - 1])) && 0 < h.page[h.chains[b][k]] < PAGES
    ensures ChainOk(Drop(h, b, k), c)
  {
    DropPre(h, b, k);
    var s := h.chains[b];
    assert ChainOk(h, b) && ChainOk(h, c);
    if k > 0 { assert s[k - 1] in s; }
    ListFrame(h.next, Drop(h, b, k).next, h.chain[c], h.chains[c]);
  }

  lemma DropChain(h: Heap, b: int, k: nat)
    requires CanDrop(h, b, k)
    ensures (k > 0 ==> IsDesc(h.chains[b][k - 1])) && 0 < h.page[h.chains[b][k]] < PAGES
    ensures ChainOk(Drop(h, b, k), b)
  {
    DropPre(h, b, k);
    var h', d, s := Drop(h, b, k), h.chains[b][k], h.chains[b];
    assert ChainOk(h, b);
    ChainInRange(h, b);
    RemoveAtFacts(s, k, UNITS);
    if k > 0 {
      Unlink(h.next, h.chain[b], s, k);
      ListFrame(h.next[s[k - 1] := h.next[d]], h'.next, h.chain[b], RemoveAt(s, k));
    } else {
      PopFront(h.next, h.chain[b], s);
      assert RemoveAt(s, 0) == s[1..];
      ListFrame(h.next, h'.next, h'.chain[b], s[1..]);
    }
  }

  lemma DropHomes(h: Heap, b: int, k: nat)
    requires CanDrop(h, b, k)
    ensures (k > 0 ==> IsDesc(h.chains[b][k - 1])) && 0 < h.page[h.chains[b][k]] < PAGES
    ensures HomesOk(Drop(h, b, k))
  {
    DropPre(h, b, k);
    ChainInRange(h, b);
    assert ChainOk(h, b);
    RemoveAtFacts(h.chains[b], k, UNITS);
    var h' := Drop(h, b, k);
    forall e | IsDesc(e) ensures HomeOk(h', e) { assert HomeOk(h, e); }
  }

  lemma ChainInRange(h: Heap, b: int)
    requires Inv(h) && 0 <= b < BUCKETS
    ensures InRange(h.chains[b], UNITS)
  {
    assert ChainOk(h, b);
    assert forall i :: 0 <= i < |h.chains[b]| ==> h.chains[b][i] in h.chains[b];
  }

  lemma DropKeepsInv(h: Heap, b: int, k: nat)
    requires CanDrop(h, b, k)
    ensures (k > 0 ==> IsDesc(h.chains[b][k - 1])) && 0 < h.page[h.chains[b][k]] < PAGES
    ensures Inv(Drop(h, b, k))
  {
    DropPre(h, b, k);
    DropPool(h, b, k);
    DropHomes(h, b, k);
    DropChain(h, b, k);
    forall c | 0 <= c < BUCKETS && c != b ensures ChainOk(Drop(h, b, k), c) { DropOtherChain(h, b, k, c); }
    var h', d := Drop(h, b, k), h.chains[b][k];
    assert DescOk(h, d);
    forall e | IsDesc(e) && InChain(h', e) ensures DescOk(h', e) { assert DescOk(h, e); }
    forall q | 0 <= q < PAGES ensures OwnerOk(h', q) { assert OwnerOk(h, q); }
    forall x ensures LiveOk(h', x) {
      assert LiveOk(h, x);
      if 0 <= x < UNITS {
        assert OwnerOk(h, x / PER_PAGE);
        if x / PER_PAGE == h.page[d] { AllFree(h, d, x); }
      }
    }
  }
}
