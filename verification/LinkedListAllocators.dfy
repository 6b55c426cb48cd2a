/** The linked-list heap allocator as it runs: list nodes are written into the free memory they
    describe, and allocation unlinks and splits them in place. */
module LinkedListAllocators {
  import opened Options
  import opened Ranges
  import opened Alignment
  import opened Bytes
  import opened Words
  import opened LinkedListHeap

  /** A node is two words: the size of its region, then the address of the next node or zero. */
  function NextStart(regions: seq<Range>, i: nat): nat {
    if i + 1 < |regions| then regions[i + 1].start else 0
  }

  predicate NodeAt(mem: Memory, regions: seq<Range>, i: nat)
    requires i < |regions| && regions[i].start <= regions[i].end
  {
    && Word(mem, regions[i].start) == regions[i].end - regions[i].start
    && Word(mem, regions[i].start + 8) == NextStart(regions, i)
  }

  predicate NodeRanges(regions: seq<Range>) {
    && PairwiseFits(regions)
    && forall i :: 0 <= i < |regions| ==>
         && 0 < regions[i].start && regions[i].start % NODE_ALIGN == 0
         && regions[i].start + NODE_SIZE <= regions[i].end < USIZE_LIMIT
  }

  /** The nodes in memory, followed from `head`, describe exactly these regions in this order. */
  predicate Chain(mem: Memory, head: nat, regions: seq<Range>) {
    && NodeRanges(regions)
    && head == (if regions == [] then 0 else regions[0].start)
    && forall i :: 0 <= i < |regions| ==> NodeAt(mem, regions, i)
  }

  /** The nodes met by following `next` from `p`, for at most `limit` steps. */
  function Walk(mem: Memory, p: nat, limit: nat): seq<nat>
    decreases limit
  {
    if p == 0 || limit == 0 then [] else [p] + Walk(mem, Word(mem, p + 8), limit - 1)
  }

  function Starts(regions: seq<Range>): seq<nat> {
    seq(|regions|, i requires 0 <= i < |regions| => regions[i].start)
  }

  /** However long one follows the pointers, one meets each free region once, in list order, and
      then the end: the list has no cycle and no stray node. */
  lemma {:induction false} WalkVisitsRegions(mem: Memory, head: nat, regions: seq<Range>, limit: nat)
    requires Chain(mem, head, regions) && |regions| <= limit
    ensures Walk(mem, head, limit) == Starts(regions)
    ensures forall i, j :: 0 <= i < j < |regions| ==> Starts(regions)[i] != Starts(regions)[j]
  {
    WalkFrom(mem, head, regions, 0, limit);
    assert regions[0..] == regions;
    forall i, j | 0 <= i < j < |regions| ensures Starts(regions)[i] != Starts(regions)[j] {
      assert Fits(regions[i], regions[j]);
    }
  }

  lemma {:induction false} WalkFrom(mem: Memory, head: nat, regions: seq<Range>, k: nat, limit: nat)
    requires Chain(mem, head, regions) && k <= |regions| && |regions| - k <= limit
    ensures Walk(mem, if k < |regions| then regions[k].start else 0, limit) == Starts(regions[k..])
    decreases limit
  {
    if k < |regions| {
      assert NodeAt(mem, regions, k);
      WalkFrom(mem, head, regions, k + 1, limit - 1);
      assert Starts(regions[k..]) == [regions[k].start] + Starts(regions[k + 1..]);
    }
  }

  /** Memory after the region at `k` has been taken off the list: its own `next` is cleared, and
      that of its predecessor, unless it was first, skips it. */
  function Unlinked(mem: Memory, regions: seq<Range>, k: nat): Memory
    requires k < |regions|
  {
    var cleared := Put(mem, regions[k].start + 8, 0);
    if k == 0 then cleared else Put(cleared, regions[k - 1].start + 8, NextStart(regions, k))
  }

  predicate AllFit(regions: seq<Range>, live: seq<Range>) {
    forall i, j :: 0 <= i < |regions| && 0 <= j < |live| ==> Fits(regions[i], live[j])
  }

  /** The region at `k` can give `size` bytes at `p`, and what is left behind them can hold a node. */
  predicate CutReady(regions: seq<Range>, live: seq<Range>, k: nat, p: nat, size: nat) {
    && NodeRanges(regions) && AllFit(regions, live) && k < |regions| && regions[k].end < USIZE_LIMIT
    && regions[k].start <= p && p % NODE_ALIGN == 0 && size % NODE_ALIGN == 0 && NODE_SIZE <= size
    && (p + size == regions[k].end || p + size + NODE_SIZE <= regions[k].end)
  }

  lemma ReadyToCut(lo: nat, hi: nat, h: Heap, layout: Layout, size: nat, align: nat, k: nat, p: nat)
    requires 0 < lo && hi < USIZE_LIMIT
    requires Inv(lo, hi, h) && layout.Valid() && NoWrap(hi, layout) && 1 <= layout.align
    requires SizeAlign(layout) == Some((size, align)) && 1 <= align
    requires k == FindRegion(h.regions, size, align) < |h.regions|
    requires AllocFromRegion(h.regions[k], size, align) == Some(p)
    ensures CutReady(h.regions, h.live, k, p, size)
    ensures AllocResultOf(h, layout) == Block(p) && AfterAlloc(h, layout) == Carve(h, k, p, size)
    ensures Inv(lo, hi, Carve(h, k, p, size))
  {
    PiecesApart(lo, hi, h);
    FoundRegionCut(lo, hi, h, layout, size, align, k, p);
  }

  /** No byte of these blocks differs between two memories. */
  ghost predicate LiveUntouched(live: seq<Range>, mem: Memory, mem': Memory) {
    forall i, a: nat :: 0 <= i < |live| && live[i].Has(a) ==> Read(mem', a) == Read(mem, a)
  }

  class LinkedListAllocator {
    var headNext: nat
    var mem: Memory
    ghost var lo: nat
    ghost var hi: nat
    ghost var heap: Heap

    ghost predicate Valid()
      reads this
    {
      0 < lo && hi < USIZE_LIMIT && Inv(lo, hi, heap) && Chain(mem, headNext, heap.regions)
    }

    constructor ()
      ensures Valid() && heap == Heap([], [], []) && lo == hi
    {
      headNext, mem := 0, map[];
      lo, hi, heap := 1, 1, Heap([], [], []);
    }

    method Init(heapStart: nat, heapSize: nat)
      requires Valid() && heap == Heap([], [], [])
      requires 0 < heapStart && heapStart % NODE_ALIGN == 0 && NODE_SIZE <= heapSize
      requires heapStart + heapSize < USIZE_LIMIT
      modifies this
      ensures Valid() && lo == heapStart && hi == heapStart + heapSize
      ensures heap == Initial(lo, hi)
    {
      AddFreeRegion(heapStart, heapSize, []);
      lo, hi := heapStart, heapStart + heapSize;
      heap := Initial(lo, hi);
      InitialInv(lo, hi);
      assert [Range(heapStart, heapStart + heapSize)] + [] == heap.regions;
    }

    /** The two assertions are the source's own; every caller establishes what they need. */
    method AddFreeRegion(addr: nat, size: nat, ghost regions: seq<Range>)
      requires 0 < addr && addr % NODE_ALIGN == 0 && NODE_SIZE <= size && addr + size < USIZE_LIMIT
      requires Chain(mem, headNext, regions) && FitsAll(Range(addr, addr + size), regions)
      modifies this`headNext, this`mem
      ensures Chain(mem, headNext, [Range(addr, addr + size)] + regions)
      ensures mem == NodeWritten(old(mem), addr, size, old(headNext))
    {
      assert AlignUp(addr, NODE_ALIGN) == addr by {
        EightIsPower();
        AlignUpFacts(addr, NODE_ALIGN);
      }
      assert size >= NODE_SIZE;
      var next := headNext;
      headNext := 0;
      mem := Put(Put(mem, addr, size), addr + 8, next);
      headNext := addr;
      WriteKeepsChain(old(mem), old(headNext), regions, addr, size);
    }

    /** Unlinks the first region that passes and returns its address and the allocation's start. */
    method FindRegion(size: nat, align: nat, ghost regions: seq<Range>) returns (found: Option<(nat, nat)>)
      requires 1 <= align && Chain(mem, headNext, regions)
      modifies this`headNext, this`mem
      ensures var k := LinkedListHeap.FindRegion(regions, size, align);
              if k == |regions| then found == None && mem == old(mem) && headNext == old(headNext)
              else
                && found == Some((regions[k].start, AllocFromRegion(regions[k], size, align).value))
                && Chain(mem, headNext, Without(regions, k))
                && mem == Unlinked(old(mem), regions, k)
                && Word(mem, regions[k].start) == regions[k].end - regions[k].start
    {
      var current, region := 0, headNext;
      ghost var i := 0;
      while region != 0
        invariant 0 <= i <= |regions| && mem == old(mem) && headNext == old(headNext)
        invariant current == if i == 0 then 0 else regions[i - 1].start
        invariant region == if i < |regions| then regions[i].start else 0
        invariant forall j :: 0 <= j < i ==> AllocFromRegion(regions[j], size, align).None?
        decreases |regions| - i
      {
        var end, next := Node(region, regions, i);
        match AllocFromRegion(Range(region, end), size, align) {
          case Some(allocStart) =>
            Unlink(current, region, regions, i);
            return Some((region, allocStart));
          case None =>
            current, region := region, next;
            i := i + 1;
        }
      }
      return None;
    }

    /** Reads a node: where its region ends and which node follows. */
    method Node(region: nat, ghost regions: seq<Range>, ghost i: nat) returns (end: nat, next: nat)
      requires Chain(mem, headNext, regions) && i < |regions| && region == regions[i].start
      ensures end == regions[i].end && next == NextStart(regions, i)
    {
      assert NodeAt(mem, regions, i);
      end, next := region + Word(mem, region), Word(mem, region + 8);
    }

    /** Takes `region` off the list, given the node in front of it (zero for the head). */
    method Unlink(current: nat, region: nat, ghost regions: seq<Range>, ghost i: nat)
      requires Chain(mem, headNext, regions) && i < |regions| && region == regions[i].start
      requires current == if i == 0 then 0 else regions[i - 1].start
      modifies this`headNext, this`mem
      ensures Chain(mem, headNext, Without(regions, i)) && mem == Unlinked(old(mem), regions, i)
      ensures Word(mem, region) == regions[i].end - region
    {
      UnlinkKeepsChain(mem, headNext, regions, i);
      assert NodeAt(mem, regions, i);
      var next := Word(mem, region + 8);
      mem := Put(mem, region + 8, 0);
      if current == 0 {
        headNext := next;
      } else {
        mem := Put(mem, current + 8, next);
      }
    }

    method Alloc(layout: Layout) returns (result: AllocResult)
      requires Valid() && layout.Valid() && 1 <= layout.align && NoWrap(hi, layout)
      modifies this
      ensures Valid() && lo == old(lo) && hi == old(hi)
      ensures result == AllocResultOf(old(heap), layout)
      ensures heap == AfterAlloc(old(heap), layout)
      ensures LiveUntouched(old(heap).live, old(mem), mem)
    {
      match SizeAlign(layout) {
        case None =>
          result := Panic;
        case Some((size, align)) =>
          result := AllocSized(layout, size, align);
      }
    }

    method AllocSized(ghost layout: Layout, size: nat, align: nat) returns (result: AllocResult)
      requires Valid() && layout.Valid() && 1 <= layout.align && NoWrap(hi, layout)
      requires SizeAlign(layout) == Some((size, align)) && 1 <= align
      modifies this
      ensures Valid() && lo == old(lo) && hi == old(hi)
      ensures result == AllocResultOf(old(heap), layout)
      ensures heap == AfterAlloc(old(heap), layout)
      ensures LiveUntouched(old(heap).live, old(mem), mem)
    {
      var found := FindRegion(size, align, heap.regions);
      match found {
        case None =>
          result := Null;
        case Some((region, allocStart)) =>
          ghost var k := LinkedListHeap.FindRegion(heap.regions, size, align);
          ReadyToCut(lo, hi, heap, layout, size, align, k, allocStart);
          Place(size, region, allocStart, k, old(mem));
          result := Block(allocStart);
      }
    }

    /** The end of a successful allocation, with the ledger of blocks. */
    method Place(size: nat, region: nat, allocStart: nat, ghost k: nat, ghost before: Memory)
      requires 0 < lo && hi < USIZE_LIMIT
      requires CutReady(heap.regions, heap.live, k, allocStart, size) && region == heap.regions[k].start
      requires Inv(lo, hi, Carve(heap, k, allocStart, size))
      requires mem == Unlinked(before, heap.regions, k) && Chain(mem, headNext, Without(heap.regions, k))
      requires Word(mem, region) == heap.regions[k].end - region
      modifies this
      ensures Valid() && lo == old(lo) && hi == old(hi)
      ensures heap == Carve(old(heap), k, allocStart, size)
      ensures LiveUntouched(old(heap).live, before, mem)
    {
      Cut(size, region, allocStart, heap.regions, k, heap.live, before);
      heap := Carve(heap, k, allocStart, size);
    }

    /** What the block leaves over of its region goes back on the list. */
    method Cut(size: nat, region: nat, allocStart: nat, ghost regions: seq<Range>, ghost k: nat, ghost live: seq<Range>,
               ghost before: Memory)
      requires CutReady(regions, live, k, allocStart, size) && region == regions[k].start
      requires mem == Unlinked(before, regions, k) && Chain(mem, headNext, Without(regions, k))
      requires Word(mem, region) == regions[k].end - region
      modifies this`headNext, this`mem
      ensures Chain(mem, headNext, NonEmpty(Range(allocStart + size, regions[k].end)) + Without(regions, k))
      ensures LiveUntouched(live, before, mem)
    {
      var allocEnd := allocStart + size;
      AlignedSum(allocStart, size);
      var excessSize := region + Word(mem, region) - allocEnd;
      Split(allocEnd, excessSize, regions, k);
      CutLeavesLive(before, regions, k, live, mem);
    }

    /** Gives the rest of an unlinked region back, if there is any. */
    method Split(allocEnd: nat, excessSize: nat, ghost regions: seq<Range>, ghost k: nat)
      requires NodeRanges(regions) && k < |regions| && Chain(mem, headNext, Without(regions, k))
      requires regions[k].start < allocEnd && allocEnd + excessSize == regions[k].end < USIZE_LIMIT
      requires allocEnd % NODE_ALIGN == 0 && (excessSize == 0 || NODE_SIZE <= excessSize)
      modifies this`headNext, this`mem
      ensures Chain(mem, headNext, NonEmpty(Range(allocEnd, regions[k].end)) + Without(regions, k))
      ensures SameOutside(regions[k], old(mem), mem)
    {
      ghost var w := Without(regions, k);
      if excessSize > 0 {
        CutFits(regions, k, allocEnd);
        ghost var head := headNext;
        AddFreeRegion(allocEnd, excessSize, w);
        NodeWrittenInside(old(mem), regions[k], allocEnd, excessSize, head);
        assert NonEmpty(Range(allocEnd, regions[k].end)) == [Range(allocEnd, allocEnd + excessSize)];
      } else {
        assert NonEmpty(Range(allocEnd, regions[k].end)) + w == w;
      }
    }

    method Dealloc(ptr: nat, layout: Layout)
      requires Valid() && layout.Valid() && SizeAlign(layout).Some? && BlockOf(ptr, layout) in heap.live
      modifies this
      ensures Valid() && lo == old(lo) && hi == old(hi)
      ensures heap == AfterDealloc(old(heap), BlockOf(ptr, layout))
      ensures LiveUntouched(heap.live, old(mem), mem)
    {
      ghost var block := BlockOf(ptr, layout);
      ghost var k := IndexOf(heap.live, block);
      var size := SizeAlign(layout).value.0;
      PiecesApart(lo, hi, heap);
      forall i | 0 <= i < |heap.regions| ensures Fits(block, heap.regions[i]) {
        assert Fits(heap.regions[i], heap.live[k]);
      }
      assert NodeRange(heap.live[k], lo, hi);
      ghost var head := headNext;
      AddFreeRegion(ptr, size, heap.regions);
      NodeWrittenInside(old(mem), block, ptr, size, head);
      DeallocKeepsInv(lo, hi, heap, block);
      heap := AfterDealloc(heap, block);
      PiecesApart(lo, hi, heap);
      assert heap.regions[0] == block;
    }

    /** A client may write any byte of a block it holds; the list is out of its reach. */
    method Store(a: nat, value: Byte, ghost i: nat)
      requires Valid() && i < |heap.live| && heap.live[i].Has(a)
      modifies this`mem
      ensures Valid() && mem == old(mem)[a := value]
    {
      PiecesApart(lo, hi, heap);
      mem := mem[a := value];
      forall j | 0 <= j < |heap.regions| ensures NodeAt(mem, heap.regions, j) {
        assert NodeAt(old(mem), heap.regions, j);
        assert Fits(heap.regions[j], heap.live[i]);
        WordSame(old(mem), mem, heap.regions[j].start);
        WordSame(old(mem), mem, heap.regions[j].start + 8);
      }
    }
  }

  /** Memory after the two words of a node were written. */
  function NodeWritten(mem: Memory, addr: nat, size: nat, next: nat): Memory {
    Put(Put(mem, addr, size), addr + 8, next)
  }

  lemma NodeWrittenInside(mem: Memory, region: Range, addr: nat, size: nat, next: nat)
    requires region.start <= addr && addr + NODE_SIZE <= region.end
    ensures SameOutside(region, mem, NodeWritten(mem, addr, size, next))
  {
    PutInside(mem, addr, size, region);
    PutInside(Put(mem, addr, size), addr + 8, next, region);
  }

  lemma NodeWrittenReads(mem: Memory, addr: nat, size: nat, next: nat)
    requires size < USIZE_LIMIT && next < USIZE_LIMIT
    ensures Word(NodeWritten(mem, addr, size, next), addr) == size
    ensures Word(NodeWritten(mem, addr, size, next), addr + 8) == next
  {
    WordOfPut(mem, addr, size);
    WordBeside(Put(mem, addr, size), addr + 8, next, addr);
    WordOfPut(Put(mem, addr, size), addr + 8, next);
  }

  /** A node survives a change of memory outside its region. */
  lemma NodeStays(mem: Memory, mem': Memory, regions: seq<Range>, i: nat, changed: Range)
    requires i < |regions| && regions[i].start + NODE_SIZE <= regions[i].end && NodeAt(mem, regions, i)
    requires SameOutside(changed, mem, mem') && Fits(changed, regions[i])
    ensures NodeAt(mem', regions, i)
  {
    WordSame(mem, mem', regions[i].start);
    WordSame(mem, mem', regions[i].start + 8);
  }

  /** A node written into free memory becomes the first of the chain. */
  lemma WriteKeepsChain(mem: Memory, head: nat, regions: seq<Range>, addr: nat, size: nat)
    requires 0 < addr && addr % NODE_ALIGN == 0 && NODE_SIZE <= size && addr + size < USIZE_LIMIT
    requires Chain(mem, head, regions) && FitsAll(Range(addr, addr + size), regions)
    ensures Chain(NodeWritten(mem, addr, size, head), addr, [Range(addr, addr + size)] + regions)
  {
    var linked, mem' := [Range(addr, addr + size)] + regions, NodeWritten(mem, addr, size, head);
    NodeWrittenReads(mem, addr, size, head);
    NodeWrittenInside(mem, linked[0], addr, size, head);
    forall i | 0 <= i < |linked| ensures NodeAt(mem', linked, i) {
      if i > 0 {
        assert NodeAt(mem, regions, i - 1);
        assert Fits(linked[0], regions[i - 1]);
        NodeStays(mem, mem', regions, i - 1, linked[0]);
      }
    }
  }

  lemma WithoutNodeRanges(regions: seq<Range>, k: nat)
    requires NodeRanges(regions) && k < |regions|
    ensures NodeRanges(Without(regions, k))
  {
    var w := Without(regions, k);
    forall i, j | 0 <= i < j < |w| ensures Fits(w[i], w[j]) {
      assert w[i] == regions[if i < k then i else i + 1];
      assert w[j] == regions[if j < k then j else j + 1];
    }
  }

  /** Writing the second word of one node leaves every other node alone. */
  lemma OtherNodeStays(mem: Memory, regions: seq<Range>, k: nat, v: nat, j: nat)
    requires NodeRanges(regions) && k < |regions| && j < |regions| && j != k
    ensures var mem' := Put(mem, regions[k].start + 8, v);
            && Word(mem', regions[j].start) == Word(mem, regions[j].start)
            && Word(mem', regions[j].start + 8) == Word(mem, regions[j].start + 8)
  {
    assert Fits(regions[if j < k then j else k], regions[if j < k then k else j]);
    WordBeside(mem, regions[k].start + 8, v, regions[j].start);
    WordBeside(mem, regions[k].start + 8, v, regions[j].start + 8);
  }

  lemma UnlinkKeepsNode(mem: Memory, head: nat, regions: seq<Range>, k: nat, j: nat)
    requires Chain(mem, head, regions) && k < |regions| && j < |regions| && j != k
    ensures var mem' := Unlinked(mem, regions, k);
            && Word(mem', regions[j].start) == regions[j].end - regions[j].start
            && Word(mem', regions[j].start + 8) == NextStart(regions, if j + 1 == k then k else j)
  {
    assert NodeAt(mem, regions, j);
    OtherNodeStays(mem, regions, k, 0, j);
    if k > 0 {
      var cleared, next := Put(mem, regions[k].start + 8, 0), NextStart(regions, k);
      if j == k - 1 {
        WordOfPut(cleared, regions[j].start + 8, next);
        WordBeside(cleared, regions[j].start + 8, next, regions[j].start);
      } else {
        OtherNodeStays(cleared, regions, k - 1, next, j);
      }
    }
  }

  lemma UnlinkedSize(mem: Memory, head: nat, regions: seq<Range>, k: nat)
    requires Chain(mem, head, regions) && k < |regions|
    ensures Word(Unlinked(mem, regions, k), regions[k].start) == regions[k].end - regions[k].start
  {
    assert NodeAt(mem, regions, k);
    var cleared := Put(mem, regions[k].start + 8, 0);
    WordBeside(mem, regions[k].start + 8, 0, regions[k].start);
    if k > 0 {
      OtherNodeStays(cleared, regions, k - 1, NextStart(regions, k), k);
    }
  }

  /** The two pointer writes of an unlink turn the chain into the chain without that region. */
  lemma UnlinkKeepsChain(mem: Memory, head: nat, regions: seq<Range>, k: nat)
    requires Chain(mem, head, regions) && k < |regions|
    ensures Chain(Unlinked(mem, regions, k), if k == 0 then NextStart(regions, 0) else head, Without(regions, k))
    ensures Word(Unlinked(mem, regions, k), regions[k].start) == regions[k].end - regions[k].start
  {
    var w, mem' := Without(regions, k), Unlinked(mem, regions, k);
    WithoutNodeRanges(regions, k);
    assert NodeAt(mem, regions, k);
    forall i | 0 <= i < |w| ensures NodeAt(mem', w, i) {
      var j := if i < k then i else i + 1;
      assert w[i] == regions[j];
      UnlinkKeepsNode(mem, head, regions, k, j);
      assert i + 1 < |w| ==> w[i + 1] == regions[if i + 1 < k then i + 1 else i + 2];
    }
    UnlinkedSize(mem, head, regions, k);
  }

  /** An unlink writes only inside free regions. */
  lemma UnlinkLeavesLive(mem: Memory, regions: seq<Range>, k: nat, live: seq<Range>)
    requires NodeRanges(regions) && k < |regions|
    requires AllFit(regions, live)
    ensures LiveUntouched(live, mem, Unlinked(mem, regions, k))
  {
    forall i, a: nat | 0 <= i < |live| && live[i].Has(a) ensures Read(Unlinked(mem, regions, k), a) == Read(mem, a) {
      assert Fits(regions[k], live[i]);
      PutOutside(mem, regions[k].start + 8, 0, a);
      if k > 0 {
        assert Fits(regions[k - 1], live[i]);
        PutOutside(Put(mem, regions[k].start + 8, 0), regions[k - 1].start + 8, NextStart(regions, k), a);
      }
    }
  }

  lemma CutLeavesLive(mem: Memory, regions: seq<Range>, k: nat, live: seq<Range>, after: Memory)
    requires NodeRanges(regions) && k < |regions| && AllFit(regions, live)
    requires SameOutside(regions[k], Unlinked(mem, regions, k), after)
    ensures LiveUntouched(live, mem, after)
  {
    UnlinkLeavesLive(mem, regions, k, live);
    forall i, a: nat | 0 <= i < |live| && live[i].Has(a) ensures Read(after, a) == Read(mem, a) {
      assert Fits(regions[k], live[i]);
    }
  }

  lemma AlignedSum(a: nat, b: nat)
    requires a % NODE_ALIGN == 0 && b % NODE_ALIGN == 0
    ensures (a + b) % NODE_ALIGN == 0
  {
  }

  /** The rest of an unlinked region fits beside the regions still on the list. */
  lemma CutFits(regions: seq<Range>, k: nat, cut: nat)
    requires PairwiseFits(regions) && k < |regions| && regions[k].start <= cut <= regions[k].end
    ensures FitsAll(Range(cut, regions[k].end), Without(regions, k))
  {
    var w := Without(regions, k);
    forall i | 0 <= i < |w| ensures Fits(Range(cut, regions[k].end), w[i]) {
      var j := if i < k then i else i + 1;
      assert w[i] == regions[j];
      assert Fits(regions[if j < k then j else k], regions[if j < k then k else j]);
    }
  }
}
