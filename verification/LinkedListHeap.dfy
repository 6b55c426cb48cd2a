/** The linked-list heap allocator on values: which region an allocation takes, how it is cut up,
    and what every run of allocations and frees keeps. */
module LinkedListHeap {
  import opened Options
  import opened Ranges
  import opened Alignment

  /** `size_of::<ListNode>()` and `align_of::<ListNode>()` on x86-64. */
  const NODE_SIZE: nat := 16
  const NODE_ALIGN: nat := 8

  /** `size_align`: none stands for the panic "adjusting alignment failed". */
  function SizeAlign(layout: Layout): Option<(nat, nat)> {
    var align := Max(layout.align, NODE_ALIGN);
    if layout.size + align > ISIZE_LIMIT then None
    else Some((Max(AlignUp(layout.size, align), NODE_SIZE), align))
  }

  /** `alloc_from_region`: where in the region the allocation would start, if it fits. */
  function AllocFromRegion(region: Range, size: nat, align: nat): Option<nat>
    requires 1 <= align
  {
    var allocStart := AlignUp(region.start, align);
    if allocStart + size >= USIZE_LIMIT then None
    else
      var allocEnd := allocStart + size;
      if allocEnd > region.end then None
      else if 0 < region.end - allocEnd < NODE_SIZE then None
      else Some(allocStart)
  }

  /** The position of the first region on the list that passes, or the length of the list. */
  function FindRegion(regions: seq<Range>, size: nat, align: nat): (k: nat)
    requires 1 <= align
    ensures k <= |regions|
    ensures k < |regions| ==> AllocFromRegion(regions[k], size, align).Some?
    ensures forall j :: 0 <= j < k ==> AllocFromRegion(regions[j], size, align).None?
  {
    if regions == [] then 0
    else if AllocFromRegion(regions[0], size, align).Some? then 0
    else 1 + FindRegion(regions[1..], size, align)
  }

  /** The heap as its owner sees it: the free regions in list order, the blocks in use, and the
      pieces of memory in front of aligned blocks that no list remembers. */
  datatype Heap = Heap(regions: seq<Range>, live: seq<Range>, pads: seq<Range>)

  /** The heap after the region at `k` has been unlinked and cut for an allocation at `start`. */
  function Carve(h: Heap, k: nat, start: nat, size: nat): Heap
    requires k < |h.regions|
  {
    var r := h.regions[k];
    Heap(NonEmpty(Range(start + size, r.end)) + Without(h.regions, k),
         h.live + [Range(start, start + size)],
         h.pads + NonEmpty(Range(r.start, start)))
  }

  datatype AllocResult = Panic | Null | Block(start: nat)

  function AllocResultOf(h: Heap, layout: Layout): AllocResult
    requires 1 <= layout.align
  {
    match SizeAlign(layout)
    case None => Panic
    case Some((size, align)) =>
      var k := FindRegion(h.regions, size, align);
      if k == |h.regions| then Null else Block(AllocFromRegion(h.regions[k], size, align).value)
  }

  function AfterAlloc(h: Heap, layout: Layout): Heap
    requires 1 <= layout.align
  {
    match SizeAlign(layout)
    case None => h
    case Some((size, align)) =>
      var k := FindRegion(h.regions, size, align);
      if k == |h.regions| then h
      else Carve(h, k, AllocFromRegion(h.regions[k], size, align).value, size)
  }

  /** The block a caller names when it frees a pointer with its layout. */
  function BlockOf(start: nat, layout: Layout): Range
    requires SizeAlign(layout).Some?
  {
    Range(start, start + SizeAlign(layout).value.0)
  }

  function AfterDealloc(h: Heap, block: Range): Heap
    requires block in h.live
  {
    Heap([block] + h.regions, Without(h.live, IndexOf(h.live, block)), h.pads)
  }

  // ---------------------------------------------------------------- sizes and alignments

  lemma EightIsPower()
    ensures PowerOfTwo(8)
  {
    assert Pow2(3) == 8;
  }

  lemma MaxPower(a: nat)
    requires PowerOfTwo(a)
    ensures PowerOfTwo(Max(a, NODE_ALIGN))
    ensures Max(a, NODE_ALIGN) % NODE_ALIGN == 0 && 1 <= a && Max(a, NODE_ALIGN) % a == 0
  {
    EightIsPower();
    if a <= 8 { PowersDivide(a, 8); } else { PowersDivide(8, a); PowersDivide(a, a); }
  }

  /** The adjusted request is large enough for the layout and for a list node, keeps everything on
      node boundaries, and an alignment that serves it serves the layout. */
  lemma SizeAlignFacts(layout: Layout)
    requires layout.Valid()
    ensures SizeAlign(layout).None? <==> layout.size + Max(layout.align, NODE_ALIGN) > ISIZE_LIMIT
    ensures SizeAlign(layout).Some? ==>
              var (size, align) := SizeAlign(layout).value;
              && layout.size <= size && NODE_SIZE <= size && size % NODE_ALIGN == 0
              && PowerOfTwo(align) && align % NODE_ALIGN == 0
              && 1 <= layout.align && align % layout.align == 0
  {
    MaxPower(layout.align);
    if SizeAlign(layout).Some? {
      var align := Max(layout.align, NODE_ALIGN);
      AlignUpFacts(layout.size, align);
      DividesTransitive(NODE_ALIGN, align, AlignUp(layout.size, align));
      MaxOnBoundary(AlignUp(layout.size, align));
    }
  }

  lemma MaxOnBoundary(n: nat)
    requires n % NODE_ALIGN == 0
    ensures Max(n, NODE_SIZE) % NODE_ALIGN == 0
  {
  }

  /** An allocation that passes starts aligned, inside the region, and leaves nothing or room for a node. */
  lemma AllocFromRegionFacts(region: Range, size: nat, align: nat)
    requires PowerOfTwo(align) && region.start + align <= USIZE_LIMIT
    requires 1 <= align && AllocFromRegion(region, size, align).Some?
    ensures var start := AllocFromRegion(region, size, align).value;
            && region.start <= start && start + size <= region.end
            && start % align == 0
            && (start + size == region.end || start + size + NODE_SIZE <= region.end)
            && (start == region.start <==> region.start % align == 0)
  {
    AlignUpFacts(region.start, align);
  }

  /** What an allocation needs of a region: the first aligned address `p` in it leaves room for the block,
      and behind the block nothing or room for a node. */
  ghost predicate Serves(region: Range, size: nat, align: nat, p: nat)
    requires 0 < align
  {
    LeastMultiple(region.start, align, p) && (p + size == region.end || p + size + NODE_SIZE <= region.end)
  }

  /** A region is used exactly when it can serve the request, an exact fit included, and from the first
      aligned address on. */
  lemma AllocFromRegionIff(region: Range, size: nat, align: nat, p: nat)
    requires PowerOfTwo(align) && 1 <= align && region.start + align <= USIZE_LIMIT && region.end < USIZE_LIMIT
    ensures AllocFromRegion(region, size, align) == Some(p) <==> Serves(region, size, align, p)
    ensures AllocFromRegion(region, size, align) == None <==> forall q: nat :: !Serves(region, size, align, q)
  {
    UnwrappedIsLeast(region.start, align);
    var start := AlignUp(region.start, align);
    assert forall q: nat :: LeastMultiple(region.start, align, q) ==> q == start;
    assert Serves(region, size, align, start) <==> AllocFromRegion(region, size, align) == Some(start);
  }

  /** The smallest remainder a region may keep is one node of two words: sixteen bytes pass, eight do not. */
  lemma SmallestRemainder(start: nat, size: nat)
    requires start % NODE_ALIGN == 0 && start + size + 16 + NODE_ALIGN < USIZE_LIMIT
    ensures AllocFromRegion(Range(start, start + size), size, NODE_ALIGN) == Some(start)
    ensures AllocFromRegion(Range(start, start + size + 8), size, NODE_ALIGN) == None
    ensures AllocFromRegion(Range(start, start + size + 16), size, NODE_ALIGN) == Some(start)
  {
    EightIsPower();
    AlignUpFacts(start, NODE_ALIGN);
  }

  /** The request the allocator searches with: the layout rounded up to whole nodes. */
  ghost predicate Request(layout: Layout, size: nat, align: nat) {
    && 0 < align == Max(layout.align, NODE_ALIGN)
    && exists m: nat :: LeastMultiple(layout.size, align, m) && size == Max(m, NODE_SIZE)
  }

  /** There is exactly one such request, and it is the one searched with. */
  lemma SizeAlignIsRequest(layout: Layout, size: nat, align: nat)
    requires layout.Valid() && SizeAlign(layout).Some?
    ensures SizeAlign(layout) == Some((size, align)) <==> Request(layout, size, align)
  {
    MaxPower(layout.align);
    var least := Max(layout.align, NODE_ALIGN);
    UnwrappedIsLeast(layout.size, least);
    var m := AlignUp(layout.size, least);
    assert LeastMultiple(layout.size, least, m);
    assert forall q: nat :: LeastMultiple(layout.size, least, q) ==> q == m;
  }

  /** An allocation that passes starts inside its region exactly when the sum in `align_up` did not wrap. */
  lemma StartInsideIffNoWrap(region: Range, size: nat, align: nat)
    requires PowerOfTwo(align) && 1 <= align && region.start < USIZE_LIMIT
    requires AllocFromRegion(region, size, align).Some?
    ensures region.start <= AllocFromRegion(region, size, align).value <==> region.start + align - 1 < USIZE_LIMIT
  {
    AlignUpLeastIff(region.start, align);
  }

  /** A layout of one byte aligned to a quarter of the address space. */
  const WIDE: Layout := Layout(1, 0x4000_0000_0000_0000)

  /** It does wrap, and does pass, for a layout a caller may pass, on every heap whose first region lies in
      the top quarter of the address space: the block returned starts at the null address. */
  lemma WrappedStartEscapesRegion(h: Heap)
    requires h.regions != [] && 0xC000_0000_0000_0000 < h.regions[0].start
    requires h.regions[0].start + NODE_SIZE <= h.regions[0].end < USIZE_LIMIT
    ensures WIDE.Valid() && 1 <= WIDE.size
    ensures AllocResultOf(h, WIDE) == Block(0) && !h.regions[0].Has(0)
  {
    WideRequest();
    WrapsToNull(h.regions[0], WIDE.align);
  }

  lemma WrapsToNull(region: Range, align: nat)
    requires PowerOfTwo(align) && NODE_SIZE <= align <= ISIZE_LIMIT && USIZE_LIMIT < region.start + align
    requires region.start + NODE_SIZE <= region.end < USIZE_LIMIT && align + NODE_SIZE <= region.end
    ensures AllocFromRegion(region, align, align) == Some(0)
  {
    WrappedRoundsToNull(region.start, align);
  }

  lemma WrappedRoundsToNull(start: nat, align: nat)
    requires PowerOfTwo(align) && start < USIZE_LIMIT < start + align && align <= ISIZE_LIMIT
    ensures AlignUp(start, align) == 0
  {
    AlignUpRounds(start, align);
    WrappedSum(start + align - 1);
    SmallMod(start + align - 1 - USIZE_LIMIT, align);
  }

  lemma WrappedSum(x: nat)
    requires USIZE_LIMIT <= x < USIZE_LIMIT + USIZE_LIMIT
    ensures x % USIZE_LIMIT == x - USIZE_LIMIT
  {
  }

  lemma WideRequest()
    ensures PowerOfTwo(WIDE.align) && SizeAlign(WIDE) == Some((WIDE.align, WIDE.align))
  {
    QuarterBit();
    assert PowerOfTwo(WIDE.align);
    AlignUpRounds(1, WIDE.align);
  }

  lemma QuarterBit()
    ensures Pow2(62) == 0x4000_0000_0000_0000
  {
    Pow2Word();
    Pow2Add(2, 62);
    assert Pow2(2) == 4;
  }

  // ---------------------------------------------------------------- every byte in exactly one piece

  function Owners(h: Heap, a: int): nat {
    Count(h.regions, a) + Count(h.live, a) + Count(h.pads, a)
  }

  predicate NodeRange(r: Range, lo: nat, hi: nat) {
    lo <= r.start && r.start + NODE_SIZE <= r.end <= hi && r.start % NODE_ALIGN == 0
  }

  /** What every run keeps, for a heap on `lo..hi`. */
  ghost predicate Inv(lo: nat, hi: nat, h: Heap) {
    && (forall i :: 0 <= i < |h.regions| ==> NodeRange(h.regions[i], lo, hi))
    && (forall i :: 0 <= i < |h.live| ==> NodeRange(h.live[i], lo, hi))
    && (forall a: int :: Owners(h, a) == if lo <= a < hi then 1 else 0)
  }

  /** Under the invariant two free regions, or a free region and a block, share no address. */
  lemma PiecesApart(lo: nat, hi: nat, h: Heap)
    requires Inv(lo, hi, h)
    ensures PairwiseFits(h.regions)
    ensures forall i, j :: 0 <= i < |h.regions| && 0 <= j < |h.live| ==> Fits(h.regions[i], h.live[j])
    ensures PairwiseFits(h.live)
  {
    forall i, j | 0 <= i < j < |h.regions| ensures Fits(h.regions[i], h.regions[j]) {
      var a := Max(h.regions[i].start, h.regions[j].start);
      assert Owners(h, a) <= 1;
      if !Fits(h.regions[i], h.regions[j]) {
        CountPair(h.regions, i, j, a);
      }
    }
    forall i, j | 0 <= i < |h.regions| && 0 <= j < |h.live| ensures Fits(h.regions[i], h.live[j]) {
      var a := Max(h.regions[i].start, h.live[j].start);
      assert Owners(h, a) <= 1;
      if !Fits(h.regions[i], h.live[j]) {
        CountMember(h.regions, i, a);
        CountMember(h.live, j, a);
      }
    }
    forall i, j | 0 <= i < j < |h.live| ensures Fits(h.live[i], h.live[j]) {
      var a := Max(h.live[i].start, h.live[j].start);
      assert Owners(h, a) <= 1;
      if !Fits(h.live[i], h.live[j]) {
        CountPair(h.live, i, j, a);
      }
    }
  }

  lemma CarveOwners(h: Heap, k: nat, start: nat, size: nat, a: int)
    requires k < |h.regions| && h.regions[k].start <= start && start + size <= h.regions[k].end
    ensures Owners(Carve(h, k, start, size), a) == Owners(h, a)
  {
    var r := h.regions[k];
    CountWithout(h.regions, k, a);
    CountCat(NonEmpty(Range(start + size, r.end)), Without(h.regions, k), a);
    CountOne(Range(start + size, r.end), a);
    CountCat(h.live, [Range(start, start + size)], a);
    CountOne(Range(start, start + size), a);
    CountCat(h.pads, NonEmpty(Range(r.start, start)), a);
    CountOne(Range(r.start, start), a);
  }

  /** No address computation of the request wraps on this heap. */
  predicate NoWrap(hi: nat, layout: Layout) {
    hi + Max(layout.align, NODE_ALIGN) <= USIZE_LIMIT
  }

  lemma CarveKeepsInv(lo: nat, hi: nat, h: Heap, k: nat, start: nat, size: nat)
    requires Inv(lo, hi, h) && k < |h.regions|
    requires h.regions[k].start <= start && start % NODE_ALIGN == 0 && size % NODE_ALIGN == 0 && NODE_SIZE <= size
    requires start + size == h.regions[k].end || start + size + NODE_SIZE <= h.regions[k].end
    ensures Inv(lo, hi, Carve(h, k, start, size))
  {
    var h' := Carve(h, k, start, size);
    assert NodeRange(h.regions[k], lo, hi);
    forall a: int ensures Owners(h', a) == if lo <= a < hi then 1 else 0 {
      CarveOwners(h, k, start, size, a);
      assert Owners(h, a) == if lo <= a < hi then 1 else 0;
    }
  }

  /** The request the allocator searches with, and where it lands. */
  lemma FoundRegionFacts(lo: nat, hi: nat, h: Heap, layout: Layout)
    requires Inv(lo, hi, h) && layout.Valid() && NoWrap(hi, layout) && 1 <= layout.align
    requires AllocResultOf(h, layout).Block?
    ensures var (size, align) := SizeAlign(layout).value;
            var k := FindRegion(h.regions, size, align);
            var p := AllocResultOf(h, layout).start;
            && size % NODE_ALIGN == 0 && NODE_SIZE <= size && layout.size <= size
            && k < |h.regions| && p == AllocFromRegion(h.regions[k], size, align).value
            && p % NODE_ALIGN == 0 && p % layout.align == 0
            && h.regions[k].start <= p
            && (p + size == h.regions[k].end || p + size + NODE_SIZE <= h.regions[k].end)
            && (p == h.regions[k].start <==> h.regions[k].start % align == 0)
  {
    SizeAlignFacts(layout);
    var (size, align) := SizeAlign(layout).value;
    var k := FindRegion(h.regions, size, align);
    assert NodeRange(h.regions[k], lo, hi);
    AllocFromRegionFacts(h.regions[k], size, align);
    var p := AllocResultOf(h, layout).start;
    DividesTransitive(NODE_ALIGN, align, p);
    DividesTransitive(layout.align, align, p);
  }

  /** The same for a search whose result is known. */
  lemma FoundRegionCut(lo: nat, hi: nat, h: Heap, layout: Layout, size: nat, align: nat, k: nat, p: nat)
    requires Inv(lo, hi, h) && layout.Valid() && NoWrap(hi, layout) && 1 <= layout.align
    requires SizeAlign(layout) == Some((size, align)) && 1 <= align
    requires k == FindRegion(h.regions, size, align) < |h.regions|
    requires AllocFromRegion(h.regions[k], size, align) == Some(p)
    ensures AllocResultOf(h, layout) == Block(p) && AfterAlloc(h, layout) == Carve(h, k, p, size)
    ensures size % NODE_ALIGN == 0 && NODE_SIZE <= size && p % NODE_ALIGN == 0
    ensures h.regions[k].start <= p && h.regions[k].end <= hi
    ensures p + size == h.regions[k].end || p + size + NODE_SIZE <= h.regions[k].end
    ensures Inv(lo, hi, Carve(h, k, p, size))
  {
    FoundRegionFacts(lo, hi, h, layout);
    assert NodeRange(h.regions[k], lo, hi);
    CarveKeepsInv(lo, hi, h, k, p, size);
  }

  lemma AllocKeepsInv(lo: nat, hi: nat, h: Heap, layout: Layout)
    requires Inv(lo, hi, h) && layout.Valid() && NoWrap(hi, layout) && 1 <= layout.align
    ensures Inv(lo, hi, AfterAlloc(h, layout))
  {
    if AllocResultOf(h, layout).Block? {
      FoundRegionFacts(lo, hi, h, layout);
      var (size, align) := SizeAlign(layout).value;
      CarveKeepsInv(lo, hi, h, FindRegion(h.regions, size, align), AllocResultOf(h, layout).start, size);
    }
  }

  lemma DeallocKeepsInv(lo: nat, hi: nat, h: Heap, block: Range)
    requires Inv(lo, hi, h) && block in h.live
    ensures Inv(lo, hi, AfterDealloc(h, block))
  {
    var k := IndexOf(h.live, block);
    var h' := AfterDealloc(h, block);
    forall a: int ensures Owners(h', a) == if lo <= a < hi then 1 else 0 {
      CountWithout(h.live, k, a);
      CountCat([block], h.regions, a);
      CountOne(block, a);
      assert Owners(h', a) == Owners(h, a);
    }
  }

  // ---------------------------------------------------------------- every run

  datatype Event = Alloc(layout: Layout) | Dealloc(block: Range)

  /** A client step: a valid layout, or a block that is in use. */
  ghost predicate Allowed(hi: nat, h: Heap, ev: Event) {
    match ev
    case Alloc(layout) => layout.Valid() && NoWrap(hi, layout) && 1 <= layout.align
    case Dealloc(block) => block in h.live
  }

  function Apply(h: Heap, ev: Event): Heap
    requires ev.Alloc? ==> 1 <= ev.layout.align
    requires ev.Dealloc? ==> ev.block in h.live
  {
    match ev
    case Alloc(layout) => AfterAlloc(h, layout)
    case Dealloc(block) => AfterDealloc(h, block)
  }

  /** `h'` is reached from `h` by a sequence of allowed client steps. */
  ghost predicate Runs(hi: nat, h: Heap, evs: seq<Event>, h': Heap)
    decreases |evs|
  {
    if evs == [] then h' == h
    else Allowed(hi, h, evs[0]) && Runs(hi, Apply(h, evs[0]), evs[1..], h')
  }

  function Initial(lo: nat, hi: nat): Heap
    requires lo <= hi
  {
    Heap([Range(lo, hi)], [], [])
  }

  lemma {:induction false} RunKeepsInv(lo: nat, hi: nat, h: Heap, evs: seq<Event>, h': Heap)
    requires Inv(lo, hi, h) && Runs(hi, h, evs, h')
    ensures Inv(lo, hi, h')
    decreases |evs|
  {
    if evs != [] {
      match evs[0] {
        case Alloc(layout) => AllocKeepsInv(lo, hi, h, layout);
        case Dealloc(block) => DeallocKeepsInv(lo, hi, h, block);
      }
      RunKeepsInv(lo, hi, Apply(h, evs[0]), evs[1..], h');
    }
  }

  lemma InitialInv(lo: nat, hi: nat)
    requires lo % NODE_ALIGN == 0 && lo + NODE_SIZE <= hi
    ensures Inv(lo, hi, Initial(lo, hi))
  {
    forall a: int ensures Owners(Initial(lo, hi), a) == if lo <= a < hi then 1 else 0 {
      CountOne(Range(lo, hi), a);
    }
  }

  /** The first region of the list that can serve the request does so at `p`. */
  ghost predicate ServedFirst(regions: seq<Range>, size: nat, align: nat, p: nat)
    requires 0 < align
  {
    exists k :: 0 <= k < |regions| && Serves(regions[k], size, align, p)
                && forall j, q: nat :: 0 <= j < k ==> !Serves(regions[j], size, align, q)
  }

  /** An answer that says what the region can do. */
  ghost predicate TrueAnswer(region: Range, size: nat, align: nat, answer: Option<nat>)
    requires 0 < align
  {
    match answer
    case Some(p) => Serves(region, size, align, p)
    case None => forall q: nat :: !Serves(region, size, align, q)
  }

  lemma RegionAnswersTruly(region: Range, size: nat, align: nat)
    requires PowerOfTwo(align) && 1 <= align && region.start + align <= USIZE_LIMIT && region.end < USIZE_LIMIT
    ensures TrueAnswer(region, size, align, AllocFromRegion(region, size, align))
  {
    var answer := AllocFromRegion(region, size, align);
    AllocFromRegionIff(region, size, align, if answer.Some? then answer.value else 0);
  }

  lemma FirstAnswerServes(regions: seq<Range>, size: nat, align: nat, answers: seq<Option<nat>>, k: nat)
    requires 0 < align && |answers| == |regions| && k <= |regions|
    requires forall j :: 0 <= j < |regions| ==> TrueAnswer(regions[j], size, align, answers[j])
    requires (forall j :: 0 <= j < k ==> answers[j].None?) && (k < |regions| ==> answers[k].Some?)
    ensures if k == |regions| then forall j, q: nat :: 0 <= j < |regions| ==> !Serves(regions[j], size, align, q)
            else ServedFirst(regions, size, align, answers[k].value)
  {
    if k < |regions| {
      assert Serves(regions[k], size, align, answers[k].value);
    }
  }

  /** The search is complete: it fails only if no region can serve the request. */
  lemma FindServesFirst(regions: seq<Range>, size: nat, align: nat)
    requires PowerOfTwo(align) && 1 <= align
    requires forall j :: 0 <= j < |regions| ==>
               regions[j].start <= regions[j].end < USIZE_LIMIT && regions[j].end + align <= USIZE_LIMIT
    ensures var k := FindRegion(regions, size, align);
            if k == |regions| then forall j, q: nat :: 0 <= j < |regions| ==> !Serves(regions[j], size, align, q)
            else ServedFirst(regions, size, align, AllocFromRegion(regions[k], size, align).value)
  {
    var answers := seq(|regions|, j requires 0 <= j < |regions| => AllocFromRegion(regions[j], size, align));
    forall j | 0 <= j < |regions| ensures TrueAnswer(regions[j], size, align, answers[j]) {
      RegionAnswersTruly(regions[j], size, align);
    }
    FirstAnswerServes(regions, size, align, answers, FindRegion(regions, size, align));
  }

  lemma SearchServesFirst(lo: nat, hi: nat, h: Heap, layout: Layout, size: nat, align: nat)
    requires Inv(lo, hi, h) && layout.Valid() && NoWrap(hi, layout) && 1 <= layout.align
    requires SizeAlign(layout).Some? && Request(layout, size, align)
    ensures AllocResultOf(h, layout) == Null ==> forall r, q: nat :: r in h.regions ==> !Serves(r, size, align, q)
    ensures AllocResultOf(h, layout).Block? ==> ServedFirst(h.regions, size, align, AllocResultOf(h, layout).start)
  {
    SizeAlignIsRequest(layout, size, align);
    MaxPower(layout.align);
    forall j | 0 <= j < |h.regions| ensures h.regions[j].start <= h.regions[j].end <= hi {
      assert NodeRange(h.regions[j], lo, hi);
    }
    FindServesFirst(h.regions, size, align);
  }

  /** What the next allocation returns, stated for the caller's layout. */
  ghost predicate GoodAlloc(lo: nat, hi: nat, h: Heap, layout: Layout)
    requires 1 <= layout.align
  {
    match AllocResultOf(h, layout)
    case Panic => layout.size + Max(layout.align, NODE_ALIGN) > ISIZE_LIMIT
    case Null =>
      && SizeAlign(layout).Some?
      && forall size: nat, align: nat, r, q: nat :: Request(layout, size, align) && r in h.regions ==> !Serves(r, size, align, q)
    case Block(p) =>
      && SizeAlign(layout).Some?
      && (forall size: nat, align: nat :: Request(layout, size, align) ==> ServedFirst(h.regions, size, align, p))
      && p % layout.align == 0
      && lo <= p && p + layout.size <= hi
      && (forall a :: p <= a < p + layout.size ==> Count(h.regions, a) == 1 && Count(h.live, a) == 0)
      && AfterAlloc(h, layout).live == h.live + [BlockOf(p, layout)]
  }

  lemma NextAllocIsGood(lo: nat, hi: nat, h: Heap, layout: Layout)
    requires Inv(lo, hi, h) && layout.Valid() && NoWrap(hi, layout) && 1 <= layout.align
    ensures GoodAlloc(lo, hi, h, layout)
  {
    if SizeAlign(layout).Some? {
      forall size: nat, align: nat | Request(layout, size, align)
        ensures AllocResultOf(h, layout) == Null ==> forall r, q: nat :: r in h.regions ==> !Serves(r, size, align, q)
        ensures AllocResultOf(h, layout).Block? ==> ServedFirst(h.regions, size, align, AllocResultOf(h, layout).start)
      {
        SearchServesFirst(lo, hi, h, layout, size, align);
      }
    }
    if AllocResultOf(h, layout).Block? {
      NextBlockIsFree(lo, hi, h, layout);
    }
  }

  lemma NextBlockIsFree(lo: nat, hi: nat, h: Heap, layout: Layout)
    requires Inv(lo, hi, h) && layout.Valid() && NoWrap(hi, layout) && 1 <= layout.align
    requires AllocResultOf(h, layout).Block?
    ensures var p := AllocResultOf(h, layout).start;
            && SizeAlign(layout).Some? && p % layout.align == 0 && lo <= p && p + layout.size <= hi
            && (forall a :: p <= a < p + layout.size ==> Count(h.regions, a) == 1 && Count(h.live, a) == 0)
            && AfterAlloc(h, layout).live == h.live + [BlockOf(p, layout)]
  {
    FoundRegionFacts(lo, hi, h, layout);
    var p := AllocResultOf(h, layout).start;
    var (size, align) := SizeAlign(layout).value;
    var k := FindRegion(h.regions, size, align);
    assert NodeRange(h.regions[k], lo, hi);
    assert AfterAlloc(h, layout) == Carve(h, k, p, size);
    forall a | p <= a < p + layout.size ensures Count(h.regions, a) == 1 && Count(h.live, a) == 0 {
      RegionBytesFree(lo, hi, h, k, a);
    }
  }

  lemma RegionBytesFree(lo: nat, hi: nat, h: Heap, k: nat, a: nat)
    requires Inv(lo, hi, h) && k < |h.regions| && h.regions[k].Has(a)
    ensures Count(h.regions, a) == 1 && Count(h.live, a) == 0
  {
    assert Owners(h, a) <= 1;
    CountMember(h.regions, k, a);
  }

  /** On every run each byte of the heap is in exactly one free region, block or lost piece and no
      byte outside is in any; both assertions of `add_free_region` hold for every region ever put
      on the list; and the next allocation is aligned, large enough and cut from free memory, or
      fails exactly when no region passes. */
  lemma EveryRun(lo: nat, hi: nat, evs: seq<Event>, h: Heap, layout: Layout)
    requires lo % NODE_ALIGN == 0 && lo + NODE_SIZE <= hi
    requires Runs(hi, Initial(lo, hi), evs, h)
    requires layout.Valid() && NoWrap(hi, layout) && 1 <= layout.align
    ensures forall a: int :: Owners(h, a) == if lo <= a < hi then 1 else 0
    ensures forall r :: r in h.regions ==> AlignUp(r.start, NODE_ALIGN) == r.start && NODE_SIZE <= r.end - r.start
    ensures GoodAlloc(lo, hi, h, layout)
  {
    InitialInv(lo, hi);
    RunKeepsInv(lo, hi, Initial(lo, hi), evs, h);
    forall r | r in h.regions ensures AlignUp(r.start, NODE_ALIGN) == r.start && NODE_SIZE <= r.end - r.start {
      EightIsPower();
      AlignUpFacts(r.start, NODE_ALIGN);
    }
    NextAllocIsGood(lo, hi, h, layout);
  }

  /** A free followed by the same request undoes it: the block comes back, the free list is as it was, and
      no memory is lost. */
  lemma FreeThenAlloc(lo: nat, hi: nat, h: Heap, layout: Layout, p: nat)
    requires Inv(lo, hi, h) && layout.Valid() && NoWrap(hi, layout) && 1 <= layout.align && SizeAlign(layout).Some?
    requires p % SizeAlign(layout).value.1 == 0 && BlockOf(p, layout) in h.live
    ensures var freed := AfterDealloc(h, BlockOf(p, layout));
            && AllocResultOf(freed, layout) == Block(p)
            && AfterAlloc(freed, layout).regions == h.regions && AfterAlloc(freed, layout).pads == h.pads
            && multiset(AfterAlloc(freed, layout).live) == multiset(h.live)
  {
    var block := BlockOf(p, layout);
    BlockServesItself(lo, hi, h, layout, p);
    FreeThenTake(h, block, layout, p);
  }

  lemma BlockServesItself(lo: nat, hi: nat, h: Heap, layout: Layout, p: nat)
    requires Inv(lo, hi, h) && layout.Valid() && NoWrap(hi, layout) && 1 <= layout.align && SizeAlign(layout).Some?
    requires p % SizeAlign(layout).value.1 == 0 && BlockOf(p, layout) in h.live
    ensures var (size, align) := SizeAlign(layout).value; AllocFromRegion(BlockOf(p, layout), size, align) == Some(p)
  {
    var (size, align) := SizeAlign(layout).value;
    MaxPower(layout.align);
    assert NodeRange(h.live[IndexOf(h.live, BlockOf(p, layout))], lo, hi);
    assert Serves(BlockOf(p, layout), size, align, p);
    AllocFromRegionIff(BlockOf(p, layout), size, align, p);
  }

  lemma FreeThenTake(h: Heap, block: Range, layout: Layout, p: nat)
    requires 1 <= layout.align && SizeAlign(layout).Some? && block in h.live && block == BlockOf(p, layout)
    requires var (size, align) := SizeAlign(layout).value; 1 <= align && AllocFromRegion(block, size, align) == Some(p)
    ensures var freed := AfterDealloc(h, block);
            && AllocResultOf(freed, layout) == Block(p)
            && AfterAlloc(freed, layout).regions == h.regions && AfterAlloc(freed, layout).pads == h.pads
            && multiset(AfterAlloc(freed, layout).live) == multiset(h.live)
  {
    var (size, align) := SizeAlign(layout).value;
    var freed := AfterDealloc(h, block);
    HeadPasses(h.regions, block, size, align);
    assert freed.regions == [block] + h.regions;
    CarveHead(freed, block, h.regions, p, size);
    BackInPlace(h.live, IndexOf(h.live, block));
  }

  lemma HeadPasses(regions: seq<Range>, block: Range, size: nat, align: nat)
    requires 1 <= align && AllocFromRegion(block, size, align).Some?
    ensures FindRegion([block] + regions, size, align) == 0
  {
  }

  lemma CarveHead(h: Heap, block: Range, rest: seq<Range>, p: nat, size: nat)
    requires h.regions == [block] + rest && block == Range(p, p + size)
    ensures Carve(h, 0, p, size) == Heap(rest, h.live + [block], h.pads)
  {
    assert Without(h.regions, 0) == rest;
    assert [] + rest == rest && h.pads + [] == h.pads;
  }

  lemma BackInPlace(live: seq<Range>, k: nat)
    requires k < |live|
    ensures multiset(Without(live, k) + [live[k]]) == multiset(live)
  {
    assert live == live[..k] + [live[k]] + live[k + 1..];
    assert Without(live, k) == live[..k] + live[k + 1..];
  }

  /** A block is cut off the front of its region from the first aligned address on; what is left behind it
      becomes the first region, and the other regions keep their order. */
  lemma SplitGoesFirst(lo: nat, hi: nat, h: Heap, layout: Layout)
    requires Inv(lo, hi, h) && layout.Valid() && NoWrap(hi, layout) && 1 <= layout.align
    requires AllocResultOf(h, layout).Block?
    ensures var (size, align), p := SizeAlign(layout).value, AllocResultOf(h, layout).start;
            var k := FindRegion(h.regions, size, align);
            var others := h.regions[..k] + h.regions[k + 1..];
            AfterAlloc(h, layout).regions ==
            if p + size == h.regions[k].end then others else [Range(p + size, h.regions[k].end)] + others
  {
    FoundRegionFacts(lo, hi, h, layout);
  }

  /** Every request of the run is satisfied with the node alignment. */
  predicate SmallAlignments(evs: seq<Event>) {
    forall i :: 0 <= i < |evs| && evs[i].Alloc? ==> evs[i].layout.align <= NODE_ALIGN
  }

  /** No memory is lost on a run whose requested alignments are at most the node alignment: free
      regions and blocks then make up the whole heap. */
  lemma {:induction false} SmallAlignmentsLoseNothing(lo: nat, hi: nat, h: Heap, evs: seq<Event>, h': Heap)
    requires Inv(lo, hi, h) && Runs(hi, h, evs, h') && SmallAlignments(evs) && h.pads == []
    ensures h'.pads == []
    ensures forall a: int :: Count(h'.regions, a) + Count(h'.live, a) == if lo <= a < hi then 1 else 0
    decreases |evs|
  {
    if evs == [] {
      forall a: int ensures Count(h'.regions, a) + Count(h'.live, a) == if lo <= a < hi then 1 else 0 {
        assert Owners(h', a) == if lo <= a < hi then 1 else 0;
      }
    } else {
      match evs[0] {
        case Alloc(layout) =>
          AllocKeepsInv(lo, hi, h, layout);
          if AllocResultOf(h, layout).Block? {
            FoundRegionFacts(lo, hi, h, layout);
          }
        case Dealloc(block) => DeallocKeepsInv(lo, hi, h, block);
      }
      SmallAlignmentsLoseNothing(lo, hi, Apply(h, evs[0]), evs[1..], h');
    }
  }

  /** Lost pieces never come back: no step takes one off the ledger. */
  lemma {:induction false} LostStaysLost(hi: nat, h: Heap, evs: seq<Event>, h': Heap)
    requires Runs(hi, h, evs, h')
    ensures h.pads <= h'.pads
    decreases |evs|
  {
    if evs != [] {
      LostStaysLost(hi, Apply(h, evs[0]), evs[1..], h');
    }
  }
}
