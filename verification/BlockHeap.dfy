/** The fixed-size block allocator on values: lists of cached blocks in front of a fallback heap,
    and the address-by-address ledger that every run keeps. */
module BlockHeap {
  import opened Options
  import opened Ranges
  import opened Alignment

  const BLOCK_SIZES: seq<nat> := [8, 16, 32, 64, 128, 512, 1024, 2048]

  const CLASSES: nat := 8

  /** A list longer than this gets no more blocks. */
  const MAX_LENGTH: nat := 16

  function FirstAtLeast(sizes: seq<nat>, required: nat): (k: nat)
    ensures k <= |sizes|
    ensures k < |sizes| ==> required <= sizes[k]
    ensures forall j :: 0 <= j < k ==> sizes[j] < required
  {
    if sizes == [] || required <= sizes[0] then 0 else 1 + FirstAtLeast(sizes[1..], required)
  }

  /** The smallest block class that serves the layout, if any does. */
  function ListIndex(layout: Layout): (index: Option<nat>)
    ensures index.Some? ==>
              && index.value < CLASSES && Max(layout.size, layout.align) <= BLOCK_SIZES[index.value]
              && forall j :: 0 <= j < index.value ==> BLOCK_SIZES[j] < Max(layout.size, layout.align)
    ensures index.None? <==> BLOCK_SIZES[CLASSES - 1] < Max(layout.size, layout.align)
  {
    var k := FirstAtLeast(BLOCK_SIZES, Max(layout.size, layout.align));
    if k < CLASSES then Some(k) else None
  }

  /** How much memory a block for this layout owns, and how it is aligned. */
  function Capacity(layout: Layout): nat {
    match ListIndex(layout)
    case Some(i) => BLOCK_SIZES[i]
    case None => layout.size
  }

  function BlockAlign(layout: Layout): nat {
    match ListIndex(layout)
    case Some(i) => BLOCK_SIZES[i]
    case None => layout.align
  }

  /** A pointer in use with the layout it was requested with. */
  datatype Allocation = Allocation(start: nat, layout: Layout) {
    function Block(): Range {
      Range(start, start + Capacity(layout))
    }
  }

  /** `cached` holds the free blocks of each class, head first; `tails` the ends of blocks that went
      back to the fallback with a smaller size; `taken` and `given` everything the fallback ever
      handed out and got back. */
  datatype Blocks = Blocks(cached: seq<seq<nat>>, live: seq<Allocation>, tails: seq<Range>,
                           taken: seq<Range>, given: seq<Range>)

  const EMPTY: Blocks := Blocks(seq(CLASSES, i => []), [], [], [], [])

  // ---------------------------------------------------------------- the two operations

  /** `offer` is what the fallback heap would return, none for out of memory. */
  function AllocOutcome(b: Blocks, layout: Layout, offer: Option<nat>): Option<nat>
    requires |b.cached| == CLASSES
  {
    match ListIndex(layout)
    case Some(i) => if b.cached[i] != [] then Some(b.cached[i][0]) else offer
    case None => offer
  }

  predicate FromCache(b: Blocks, layout: Layout)
    requires |b.cached| == CLASSES
  {
    ListIndex(layout).Some? && b.cached[ListIndex(layout).value] != []
  }

  function AfterAlloc(b: Blocks, layout: Layout, offer: Option<nat>): Blocks
    requires |b.cached| == CLASSES
  {
    match AllocOutcome(b, layout, offer)
    case None => b
    case Some(p) =>
      var live := b.live + [Allocation(p, layout)];
      if FromCache(b, layout)
      then var i := ListIndex(layout).value; b.(cached := b.cached[i := b.cached[i][1..]], live := live)
      else b.(live := live, taken := b.taken + [Range(p, p + Capacity(layout))])
  }

  /** The list of the block's class takes it. */
  predicate ToCache(b: Blocks, layout: Layout)
    requires |b.cached| == CLASSES
  {
    ListIndex(layout).Some? && |b.cached[ListIndex(layout).value]| <= MAX_LENGTH
  }

  function Cached(b: Blocks, k: nat): Blocks
    requires |b.cached| == CLASSES && k < |b.live| && ToCache(b, b.live[k].layout)
  {
    var i := ListIndex(b.live[k].layout).value;
    b.(live := Without(b.live, k), cached := b.cached[i := [b.live[k].start] + b.cached[i]])
  }

  /** The fallback gets back as many bytes as the caller's layout says; it is told nothing of the rest. */
  function GivenBack(b: Blocks, k: nat): Blocks
    requires k < |b.live|
  {
    var block := b.live[k];
    b.(live := Without(b.live, k),
       given := b.given + [Returned(block)],
       tails := b.tails + NonEmpty(Tail(block)))
  }

  function Returned(block: Allocation): Range {
    Range(block.start, block.start + block.layout.size)
  }

  function Tail(block: Allocation): Range {
    Range(block.start + block.layout.size, block.start + Capacity(block.layout))
  }

  function AfterDealloc(b: Blocks, block: Allocation): Blocks
    requires |b.cached| == CLASSES && block in b.live
  {
    var k := IndexOf(b.live, block);
    if ToCache(b, block.layout) then Cached(b, k) else GivenBack(b, k)
  }

  // ---------------------------------------------------------------- who owns an address

  function ClassBlocks(list: seq<nat>, size: nat): seq<Range> {
    seq(|list|, k requires 0 <= k < |list| => Range(list[k], list[k] + size))
  }

  /** The cached blocks of the first `n` classes. */
  function CachedBlocks(cached: seq<seq<nat>>, n: nat): seq<Range>
    requires |cached| == CLASSES && n <= CLASSES
  {
    if n == 0 then [] else CachedBlocks(cached, n - 1) + ClassBlocks(cached[n - 1], BLOCK_SIZES[n - 1])
  }

  function LiveBlocks(live: seq<Allocation>): seq<Range> {
    seq(|live|, k requires 0 <= k < |live| => live[k].Block())
  }

  function Owners(b: Blocks, a: int): nat
    requires |b.cached| == CLASSES
  {
    Count(CachedBlocks(b.cached, |b.cached|), a) + Count(LiveBlocks(b.live), a) + Count(b.tails, a)
  }

  /** What the fallback heap believes is out at this address. */
  function Lent(b: Blocks, a: int): int {
    Count(b.taken, a) - Count(b.given, a)
  }

  /** The contract of the fallback heap: what it hands out is aligned, not null, inside the address space,
      and not lent already. */
  ghost predicate Fresh(b: Blocks, p: nat, size: nat, align: nat)
    requires 0 < align
  {
    GoodPointer(p, align) && p + size <= USIZE_LIMIT && forall a :: p <= a < p + size ==> Lent(b, a) == 0
  }

  predicate GoodPointer(p: nat, align: nat)
    requires 0 < align
  {
    0 < p < USIZE_LIMIT && p % align == 0
  }

  predicate GoodLists(cached: seq<seq<nat>>) {
    && |cached| == CLASSES
    && (forall i :: 0 <= i < CLASSES ==> |cached[i]| <= MAX_LENGTH + 1)
    && (forall i, k :: 0 <= i < CLASSES && 0 <= k < |cached[i]| ==> GoodPointer(cached[i][k], BLOCK_SIZES[i]))
  }

  ghost predicate GoodAllocation(block: Allocation) {
    && block.layout.Valid() && 0 < BlockAlign(block.layout)
    && GoodPointer(block.start, BlockAlign(block.layout))
  }

  /** What every run keeps. */
  ghost predicate Inv(b: Blocks) {
    && GoodLists(b.cached)
    && (forall k :: 0 <= k < |b.live| ==> GoodAllocation(b.live[k]))
    && (forall a: int :: Lent(b, a) == Owners(b, a) <= 1)
  }

  lemma {:induction false} CachedUpdate(cached: seq<seq<nat>>, i: nat, list: seq<nat>, n: nat, a: int)
    requires |cached| == CLASSES && i < CLASSES && n <= CLASSES
    ensures Count(CachedBlocks(cached[i := list], n), a) ==
            Count(CachedBlocks(cached, n), a)
            + (if i < n then Count(ClassBlocks(list, BLOCK_SIZES[i]), a) - Count(ClassBlocks(cached[i], BLOCK_SIZES[i]), a) else 0)
  {
    if n > 0 {
      CachedUpdate(cached, i, list, n - 1, a);
      CountCat(CachedBlocks(cached, n - 1), ClassBlocks(cached[n - 1], BLOCK_SIZES[n - 1]), a);
      var updated := cached[i := list];
      CountCat(CachedBlocks(updated, n - 1), ClassBlocks(updated[n - 1], BLOCK_SIZES[n - 1]), a);
    }
  }

  lemma ClassBlocksCons(p: nat, list: seq<nat>, size: nat, a: int)
    ensures Count(ClassBlocks([p] + list, size), a) ==
            Count(ClassBlocks(list, size), a) + if Range(p, p + size).Has(a) then 1 else 0
  {
    assert ClassBlocks([p] + list, size) == [Range(p, p + size)] + ClassBlocks(list, size);
    CountCat([Range(p, p + size)], ClassBlocks(list, size), a);
    CountOne(Range(p, p + size), a);
  }

  lemma LiveBlocksSnoc(live: seq<Allocation>, block: Allocation, a: int)
    ensures Count(LiveBlocks(live + [block]), a) ==
            Count(LiveBlocks(live), a) + if block.Block().Has(a) then 1 else 0
  {
    assert LiveBlocks(live + [block]) == LiveBlocks(live) + [block.Block()];
    CountCat(LiveBlocks(live), [block.Block()], a);
    CountOne(block.Block(), a);
  }

  lemma LiveBlocksWithout(live: seq<Allocation>, k: nat, a: int)
    requires k < |live|
    ensures Count(LiveBlocks(live), a) ==
            Count(LiveBlocks(Without(live, k)), a) + if live[k].Block().Has(a) then 1 else 0
  {
    assert LiveBlocks(Without(live, k)) == Without(LiveBlocks(live), k);
    CountWithout(LiveBlocks(live), k, a);
  }

  // ---------------------------------------------------------------- allocation

  lemma BlockSizesArePowers(i: nat)
    requires i < CLASSES
    ensures PowerOfTwo(BLOCK_SIZES[i]) && 8 <= BLOCK_SIZES[i]
  {
    assert Pow2(3) == 8 && Pow2(4) == 16 && Pow2(5) == 32 && Pow2(6) == 64;
    assert Pow2(7) == 128 && Pow2(9) == 512 && Pow2(10) == 1024 && Pow2(11) == 2048;
  }

  /** Whatever serves the block serves the layout: the block is at least as large and at least as aligned. */
  lemma BlockServesLayout(layout: Layout, p: nat)
    requires layout.Valid() && 0 < BlockAlign(layout) && p % BlockAlign(layout) == 0
    ensures layout.size <= Capacity(layout) && 0 < layout.align && p % layout.align == 0
  {
    match ListIndex(layout) {
      case Some(i) =>
        BlockSizesArePowers(i);
        PowersDivide(layout.align, BLOCK_SIZES[i]);
        DividesTransitive(layout.align, BLOCK_SIZES[i], p);
      case None =>
    }
  }

  /** An offer the fallback may make for this request; it is only asked when the cache is empty. */
  ghost predicate GoodOffer(b: Blocks, layout: Layout, offer: Option<nat>)
    requires |b.cached| == CLASSES && 0 < BlockAlign(layout)
  {
    !FromCache(b, layout) && offer.Some? ==> Fresh(b, offer.value, Capacity(layout), BlockAlign(layout))
  }

  lemma FromCacheLedger(b: Blocks, layout: Layout, offer: Option<nat>, a: int)
    requires |b.cached| == CLASSES && FromCache(b, layout)
    ensures var b' := AfterAlloc(b, layout, offer); Lent(b', a) == Lent(b, a) && Owners(b', a) == Owners(b, a)
  {
    var i := ListIndex(layout).value;
    var p, rest := b.cached[i][0], b.cached[i][1..];
    assert b.cached[i] == [p] + rest;
    LiveBlocksSnoc(b.live, Allocation(p, layout), a);
    CachedUpdate(b.cached, i, rest, |b.cached|, a);
    ClassBlocksCons(p, rest, BLOCK_SIZES[i], a);
    assert AfterAlloc(b, layout, offer).cached == b.cached[i := rest];
  }

  lemma FromFallbackLedger(b: Blocks, layout: Layout, p: nat, a: int)
    requires |b.cached| == CLASSES && !FromCache(b, layout)
    ensures var b', r := AfterAlloc(b, layout, Some(p)), if Range(p, p + Capacity(layout)).Has(a) then 1 else 0;
            Lent(b', a) == Lent(b, a) + r && Owners(b', a) == Owners(b, a) + r
  {
    var b' := AfterAlloc(b, layout, Some(p));
    assert b' == b.(live := b.live + [Allocation(p, layout)], taken := b.taken + [Range(p, p + Capacity(layout))]);
    LiveBlocksSnoc(b.live, Allocation(p, layout), a);
    CountCat(b.taken, [Range(p, p + Capacity(layout))], a);
    CountOne(Range(p, p + Capacity(layout)), a);
  }

  lemma AllocLedger(b: Blocks, layout: Layout, offer: Option<nat>, a: int)
    requires Inv(b) && 0 < BlockAlign(layout) && GoodOffer(b, layout, offer)
    ensures var b' := AfterAlloc(b, layout, offer); Lent(b', a) == Owners(b', a) <= 1
  {
    assert Lent(b, a) == Owners(b, a) <= 1;
    if FromCache(b, layout) {
      FromCacheLedger(b, layout, offer, a);
    } else if offer.Some? {
      FromFallbackLedger(b, layout, offer.value, a);
      assert Range(offer.value, offer.value + Capacity(layout)).Has(a) ==> Lent(b, a) == 0;
    }
  }

  lemma AllocKeepsInv(b: Blocks, layout: Layout, offer: Option<nat>)
    requires Inv(b) && layout.Valid() && 0 < BlockAlign(layout) && GoodOffer(b, layout, offer)
    ensures Inv(AfterAlloc(b, layout, offer))
  {
    var b' := AfterAlloc(b, layout, offer);
    forall a: int ensures Lent(b', a) == Owners(b', a) <= 1 {
      AllocLedger(b, layout, offer, a);
    }
    var outcome := AllocOutcome(b, layout, offer);
    if outcome.Some? {
      if FromCache(b, layout) {
        var i := ListIndex(layout).value;
        assert GoodPointer(b.cached[i][0], BLOCK_SIZES[i]);
      }
      assert GoodAllocation(Allocation(outcome.value, layout));
    }
  }

  // ---------------------------------------------------------------- freeing

  lemma CachedLedger(b: Blocks, k: nat, a: int)
    requires |b.cached| == CLASSES && k < |b.live| && ToCache(b, b.live[k].layout)
    ensures Owners(Cached(b, k), a) == Owners(b, a) && Lent(Cached(b, k), a) == Lent(b, a)
  {
    var i := ListIndex(b.live[k].layout).value;
    LiveBlocksWithout(b.live, k, a);
    CachedUpdate(b.cached, i, [b.live[k].start] + b.cached[i], |b.cached|, a);
    ClassBlocksCons(b.live[k].start, b.cached[i], BLOCK_SIZES[i], a);
  }

  lemma GivenBackLedger(b: Blocks, k: nat, a: int)
    requires |b.cached| == CLASSES && k < |b.live| && b.live[k].layout.Valid()
    ensures var b', r := GivenBack(b, k), if Returned(b.live[k]).Has(a) then 1 else 0;
            Owners(b', a) == Owners(b, a) - r && Lent(b', a) == Lent(b, a) - r
    ensures Count(GivenBack(b, k).tails, a) == Count(b.tails, a) + if Tail(b.live[k]).Has(a) then 1 else 0
  {
    var block := b.live[k];
    LiveBlocksWithout(b.live, k, a);
    CountCat(b.given, [Returned(block)], a);
    CountOne(Returned(block), a);
    CountCat(b.tails, NonEmpty(Tail(block)), a);
    CountOne(Tail(block), a);
    assert block.Block().Has(a) <==> Returned(block).Has(a) || Tail(block).Has(a);
  }

  lemma PushGoodLists(cached: seq<seq<nat>>, i: nat, p: nat)
    requires GoodLists(cached) && i < CLASSES && |cached[i]| <= MAX_LENGTH && GoodPointer(p, BLOCK_SIZES[i])
    ensures GoodLists(cached[i := [p] + cached[i]])
  {
    var c := cached[i := [p] + cached[i]];
    forall j, m | 0 <= j < CLASSES && 0 <= m < |c[j]| ensures GoodPointer(c[j][m], BLOCK_SIZES[j]) {
      assert j == i && m > 0 ==> c[j][m] == cached[i][m - 1];
    }
  }

  lemma DeallocKeepsInv(b: Blocks, block: Allocation)
    requires Inv(b) && block in b.live
    ensures Inv(AfterDealloc(b, block))
  {
    var k := IndexOf(b.live, block);
    var b' := AfterDealloc(b, block);
    assert GoodAllocation(b.live[k]);
    if ToCache(b, block.layout) {
      PushGoodLists(b.cached, ListIndex(block.layout).value, block.start);
    }
    forall a: int ensures Lent(b', a) == Owners(b', a) <= 1 {
      assert Lent(b, a) == Owners(b, a) <= 1;
      if ToCache(b, block.layout) { CachedLedger(b, k, a); } else { GivenBackLedger(b, k, a); }
    }
  }

  // ---------------------------------------------------------------- every run

  datatype Event = Alloc(layout: Layout, offer: Option<nat>) | Dealloc(block: Allocation)

  /** A client step: a valid layout answered by a fallback that keeps its contract, or a free with
      the layout the pointer was requested with. */
  ghost predicate Allowed(b: Blocks, ev: Event)
    requires |b.cached| == CLASSES
  {
    match ev
    case Alloc(layout, offer) => layout.Valid() && 0 < BlockAlign(layout) && GoodOffer(b, layout, offer)
    case Dealloc(block) => block in b.live
  }

  function Apply(b: Blocks, ev: Event): (b': Blocks)
    requires |b.cached| == CLASSES
    requires ev.Dealloc? ==> ev.block in b.live
    ensures |b'.cached| == CLASSES
  {
    match ev
    case Alloc(layout, offer) => AfterAlloc(b, layout, offer)
    case Dealloc(block) => AfterDealloc(b, block)
  }

  ghost predicate Runs(b: Blocks, evs: seq<Event>, b': Blocks)
    requires |b.cached| == CLASSES
    decreases |evs|
  {
    if evs == [] then b' == b else Allowed(b, evs[0]) && Runs(Apply(b, evs[0]), evs[1..], b')
  }

  lemma {:induction false} RunKeepsInv(b: Blocks, evs: seq<Event>, b': Blocks)
    requires Inv(b) && Runs(b, evs, b')
    ensures Inv(b')
    decreases |evs|
  {
    if evs != [] {
      match evs[0] {
        case Alloc(layout, offer) => AllocKeepsInv(b, layout, offer);
        case Dealloc(block) => DeallocKeepsInv(b, block);
      }
      RunKeepsInv(Apply(b, evs[0]), evs[1..], b');
    }
  }

  lemma {:induction false} EmptyCached(n: nat)
    requires n <= CLASSES
    ensures CachedBlocks(EMPTY.cached, n) == []
  {
    if n > 0 {
      EmptyCached(n - 1);
      assert ClassBlocks([], BLOCK_SIZES[n - 1]) == [];
    }
  }

  lemma EmptyInv()
    ensures Inv(EMPTY)
  {
    forall a: int ensures Lent(EMPTY, a) == Owners(EMPTY, a) <= 1 {
      EmptyCached(|EMPTY.cached|);
    }
  }

  /** On every run, address by address, what the fallback lent is owned exactly once, by a block in
      use, a cached block or a forgotten tail; no class list passes 17 blocks; every cached block is
      a whole aligned block of its class; and every pointer in use is aligned and large enough for
      its layout. */
  lemma EveryRun(evs: seq<Event>, b: Blocks)
    requires Runs(EMPTY, evs, b)
    ensures |b.cached| == CLASSES
    ensures forall a: int :: Count(b.taken, a) ==
              Count(b.given, a) + Count(LiveBlocks(b.live), a) + Count(CachedBlocks(b.cached, |b.cached|), a) + Count(b.tails, a)
    ensures forall a: int :: Count(LiveBlocks(b.live), a) + Count(CachedBlocks(b.cached, |b.cached|), a) + Count(b.tails, a) <= 1
    ensures forall i :: 0 <= i < CLASSES ==> |b.cached[i]| <= 17
    ensures GoodLists(b.cached)
    ensures forall k :: 0 <= k < |b.live| ==>
              && 0 < b.live[k].layout.align && GoodPointer(b.live[k].start, b.live[k].layout.align)
              && b.live[k].layout.size <= Capacity(b.live[k].layout)
  {
    EmptyInv();
    RunKeepsInv(EMPTY, evs, b);
    forall a: int
      ensures Count(b.taken, a) ==
                Count(b.given, a) + Count(LiveBlocks(b.live), a) + Count(CachedBlocks(b.cached, |b.cached|), a) + Count(b.tails, a)
      ensures Count(LiveBlocks(b.live), a) + Count(CachedBlocks(b.cached, |b.cached|), a) + Count(b.tails, a) <= 1
    {
      assert Lent(b, a) == Owners(b, a) <= 1;
    }
    forall k | 0 <= k < |b.live|
      ensures 0 < b.live[k].layout.align && GoodPointer(b.live[k].start, b.live[k].layout.align)
              && b.live[k].layout.size <= Capacity(b.live[k].layout)
    {
      BlockServesLayout(b.live[k].layout, b.live[k].start);
    }
  }

  /** A free into the cache is undone by the next request of the same class, whatever the fallback offers:
      the block comes back and the lists are as they were. */
  lemma FreeThenAlloc(b: Blocks, block: Allocation, layout: Layout, offer: Option<nat>)
    requires |b.cached| == CLASSES && block in b.live && ToCache(b, block.layout)
    requires ListIndex(layout) == ListIndex(block.layout)
    ensures var freed := AfterDealloc(b, block);
            && AllocOutcome(freed, layout, offer) == Some(block.start)
            && AfterAlloc(freed, layout, offer).cached == b.cached
            && AfterAlloc(freed, layout, offer).taken == b.taken && AfterAlloc(freed, layout, offer).given == b.given
  {
    var i := ListIndex(layout).value;
    assert ([block.start] + b.cached[i])[1..] == b.cached[i];
  }

  /** The classes: blocks double from 8 to 128 bytes and from 512 to 2048, with nothing in between. */
  lemma CapacityTable(layout: Layout)
    requires Max(layout.size, layout.align) <= 2048
    ensures var n, c := Max(layout.size, layout.align), Capacity(layout);
            && (n <= 8 ==> c == 8) && (128 < n <= 512 ==> c == 512) && (1024 < n ==> c == 2048)
            && (8 < n <= 128 || 512 < n <= 1024 ==> PowerOfTwo(c) && c < 2 * n)
  {
    var i := ListIndex(layout).value;
    BlockSizesArePowers(i);
    assert 0 < i ==> BLOCK_SIZES[i - 1] < Max(layout.size, layout.align);
    assert 5 < i ==> BLOCK_SIZES[5] < Max(layout.size, layout.align);
  }

  /** How many bytes move between the allocator and the fallback. A request above the largest class takes
      and gives back exactly its size; one within a class takes a whole block, the smallest that holds
      size and alignment, and gives back as many bytes as the layout has, if the list is full, or none. */
  lemma BytesMoved(b: Blocks, layout: Layout, p: nat, block: Allocation)
    requires |b.cached| == CLASSES && !FromCache(b, layout) && block in b.live
    ensures var b' := AfterAlloc(b, layout, Some(p));
            && b'.taken == b.taken + [Range(p, p + if 2048 < Max(layout.size, layout.align) then layout.size else Capacity(layout))]
            && (Max(layout.size, layout.align) <= 2048 ==>
                  && Capacity(layout) in BLOCK_SIZES && Max(layout.size, layout.align) <= Capacity(layout)
                  && forall s :: s in BLOCK_SIZES && Max(layout.size, layout.align) <= s ==> Capacity(layout) <= s)
    ensures var b' := AfterDealloc(b, block);
            if ToCache(b, block.layout) then b'.given == b.given && b'.tails == b.tails
            else b'.given == b.given + [Range(block.start, block.start + block.layout.size)]
                 && (2048 < Max(block.layout.size, block.layout.align) ==> b'.tails == b.tails)
  {
    if ListIndex(layout).Some? {
      forall s | s in BLOCK_SIZES && Max(layout.size, layout.align) <= s ensures Capacity(layout) <= s {
        var j :| 0 <= j < |BLOCK_SIZES| && BLOCK_SIZES[j] == s;
        ClassesGrow(ListIndex(layout).value, j);
      }
    }
  }

  lemma ClassesGrow(i: nat, j: nat)
    requires i <= j < CLASSES
    ensures BLOCK_SIZES[i] <= BLOCK_SIZES[j]
  {
  }

  /** What a free hands to the fallback is lent memory, never more than was carved out; the memory it
      forgets is the difference between block and layout, and only of blocks from a full class. */
  lemma FreeReturnsOnlyLent(evs: seq<Event>, b: Blocks, block: Allocation, a: int)
    requires Runs(EMPTY, evs, b) && |b.cached| == CLASSES && block in b.live
    ensures var b' := AfterDealloc(b, block);
            && 0 <= Lent(b', a) <= Lent(b, a) <= 1
            && Count(b'.tails, a) - Count(b.tails, a) == if !ToCache(b, block.layout) && Tail(block).Has(a) then 1 else 0
    ensures ToCache(b, block.layout) <==>
            ListIndex(block.layout).Some? && |b.cached[ListIndex(block.layout).value]| < 17
  {
    EmptyInv();
    RunKeepsInv(EMPTY, evs, b);
    DeallocKeepsInv(b, block);
    var k := IndexOf(b.live, block);
    assert Lent(b, a) == Owners(b, a) <= 1;
    assert Lent(AfterDealloc(b, block), a) == Owners(AfterDealloc(b, block), a);
    if ToCache(b, block.layout) {
      CachedLedger(b, k, a);
    } else {
      assert GoodAllocation(b.live[k]);
      GivenBackLedger(b, k, a);
    }
  }
}
