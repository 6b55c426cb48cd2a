/** The fixed-size block allocator as it runs: each free block holds, in its own first word, the
    address of the next free block of its class. */
module BlockAllocators {
  import opened Options
  import opened Ranges
  import opened Alignment
  import opened Bytes
  import opened Words
  import opened BlockHeap

  function NextOf(list: seq<nat>, k: nat): nat {
    if k + 1 < |list| then list[k + 1] else 0
  }

  /** Following the first words from `head` gives exactly this list. */
  predicate Linked(mem: Memory, head: nat, list: seq<nat>) {
    && head == (if list == [] then 0 else list[0])
    && forall k :: 0 <= k < |list| ==> NodeOk(mem, list, k)
  }

  predicate NodeOk(mem: Memory, list: seq<nat>, k: nat)
    requires k < |list|
  {
    0 < list[k] < USIZE_LIMIT && Word(mem, list[k]) == NextOf(list, k)
  }

  /** No byte of the range is in the first word of a block of the list. */
  ghost predicate ApartFromNodes(changed: Range, list: seq<nat>) {
    forall j, a: nat :: 0 <= j < |list| && changed.Has(a) ==> !Range(list[j], list[j] + 8).Has(a)
  }

  /** A change of memory outside the first words of a list's blocks does not disturb it. */
  lemma LinkedFrame(mem: Memory, mem': Memory, head: nat, list: seq<nat>, changed: Range)
    requires Linked(mem, head, list) && SameOutside(changed, mem, mem')
    requires ApartFromNodes(changed, list)
    ensures Linked(mem', head, list)
  {
    forall k | 0 <= k < |list| ensures NodeOk(mem', list, k) {
      assert NodeOk(mem, list, k);
      forall a: nat | list[k] <= a < list[k] + 8 ensures Read(mem', a) == Read(mem, a) {
        assert Range(list[k], list[k] + 8).Has(a);
      }
      WordSame(mem, mem', list[k]);
    }
  }

  /** A byte of a block in use is not in the first word of a cached block. */
  lemma LiveNotCached(b: Blocks, k: nat, i: nat, j: nat, a: nat)
    requires Inv(b) && k < |b.live| && i < CLASSES && j < |b.cached[i]| && b.live[k].Block().Has(a)
    ensures !Range(b.cached[i][j], b.cached[i][j] + 8).Has(a)
  {
    assert Lent(b, a) == Owners(b, a) <= 1;
    CountMember(LiveBlocks(b.live), k, a);
    BlockSizesArePowers(i);
    if Range(b.cached[i][j], b.cached[i][j] + BLOCK_SIZES[i]).Has(a) {
      CachedOwns(b.cached, |b.cached|, i, j, a);
    }
  }

  lemma LiveApartFromList(b: Blocks, k: nat, i: nat)
    requires Inv(b) && k < |b.live| && i < CLASSES
    ensures ApartFromNodes(b.live[k].Block(), b.cached[i])
  {
    forall j, a: nat | 0 <= j < |b.cached[i]| && b.live[k].Block().Has(a)
      ensures !Range(b.cached[i][j], b.cached[i][j] + 8).Has(a)
    {
      LiveNotCached(b, k, i, j, a);
    }
  }

  lemma ClassOwns(list: seq<nat>, size: nat, j: nat, a: nat)
    requires j < |list| && Range(list[j], list[j] + size).Has(a)
    ensures Count(ClassBlocks(list, size), a) >= 1
  {
    CountMember(ClassBlocks(list, size), j, a);
  }

  lemma {:induction false} CachedOwns(cached: seq<seq<nat>>, n: nat, i: nat, j: nat, a: nat)
    requires |cached| == CLASSES && i < n <= CLASSES && j < |cached[i]|
    requires Range(cached[i][j], cached[i][j] + BLOCK_SIZES[i]).Has(a)
    ensures Count(CachedBlocks(cached, n), a) >= 1
  {
    var before, last := CachedBlocks(cached, n - 1), ClassBlocks(cached[n - 1], BLOCK_SIZES[n - 1]);
    assert CachedBlocks(cached, n) == before + last;
    CountCat(before, last, a);
    if i == n - 1 {
      ClassOwns(cached[i], BLOCK_SIZES[i], j, a);
    } else {
      CachedOwns(cached, n - 1, i, j, a);
    }
  }

  class FixedSizeBlockAllocator {
    const listHeads: array<nat>
    var mem: Memory
    ghost var blocks: Blocks

    ghost predicate Valid()
      reads this, listHeads
    {
      && Inv(blocks) && listHeads.Length == CLASSES
      && forall i :: 0 <= i < CLASSES ==> Linked(mem, listHeads[i], blocks.cached[i])
    }

    constructor ()
      ensures Valid() && fresh(listHeads) && blocks == EMPTY
    {
      listHeads := new nat[CLASSES](_ => 0);
      mem, blocks := map[], EMPTY;
      EmptyInv();
    }

    /** `ListNode::length`: counts the nodes from this one to the end. */
    method Length(node: nat, ghost list: seq<nat>) returns (count: nat)
      requires list != [] && Linked(mem, node, list)
      ensures count == |list|
    {
      var current := node;
      count := 1;
      assert NodeOk(mem, list, 0);
      while Word(mem, current) != 0
        invariant 1 <= count <= |list| && current == list[count - 1] && NodeOk(mem, list, count - 1)
        decreases |list| - count
      {
        current := Word(mem, current);
        count := count + 1;
        assert NodeOk(mem, list, count - 1);
      }
      assert count < |list| ==> NodeOk(mem, list, count);
    }

    /** `offer` is the fallback heap's answer; it is used only when the class has no cached block. A block
        from the cache has its link cleared; nothing outside the block handed out is written to. */
    method Alloc(layout: Layout, offer: Option<nat>) returns (ptr: Option<nat>)
      requires Valid() && layout.Valid() && 0 < BlockAlign(layout) && GoodOffer(blocks, layout, offer)
      modifies this, listHeads
      ensures Valid()
      ensures ptr == AllocOutcome(old(blocks), layout, offer)
      ensures blocks == AfterAlloc(old(blocks), layout, offer)
      ensures mem == if FromCache(old(blocks), layout) then Put(old(mem), ptr.value, 0) else old(mem)
      ensures mem != old(mem) ==> ptr.Some? && SameOutside(Allocation(ptr.value, layout).Block(), old(mem), mem)
    {
      AllocKeepsInv(blocks, layout, offer);
      ghost var after := AfterAlloc(blocks, layout, offer);
      var index := ListIndex(layout);
      if index.Some? && listHeads[index.value] != 0 {
        var node := Pop(index.value, layout, after);
        ptr := Some(node);
      } else {
        ptr := offer;
      }
      blocks := after;
    }

    /** Takes the first block off a list. Afterwards it counts as in use, so it lies apart from the rest. */
    method Pop(i: nat, ghost layout: Layout, ghost after: Blocks) returns (node: nat)
      requires listHeads.Length == CLASSES && |blocks.cached| == CLASSES && i < CLASSES
      requires forall j :: 0 <= j < CLASSES ==> Linked(mem, listHeads[j], blocks.cached[j])
      requires ListIndex(layout) == Some(i) && listHeads[i] != 0
      requires after == AfterAlloc(blocks, layout, None) && Inv(after)
      modifies this`mem, listHeads
      ensures blocks.cached[i] != [] && node == blocks.cached[i][0] && mem == Put(old(mem), node, 0)
      ensures forall j :: 0 <= j < CLASSES ==> Linked(mem, listHeads[j], after.cached[j])
      ensures SameOutside(Allocation(node, layout).Block(), old(mem), mem)
    {
      BlockSizesArePowers(i);
      node := listHeads[i];
      ghost var list, k, block := blocks.cached[i], |after.live| - 1, Allocation(node, layout).Block();
      TailLinked(mem, node, list);
      assert after.live[k] == Allocation(node, layout) && after.cached == blocks.cached[i := list[1..]];
      PutInside(mem, node, 0, block);
      listHeads[i] := Word(mem, node);
      mem := Put(mem, node, 0);
      forall j | 0 <= j < CLASSES ensures Linked(mem, listHeads[j], after.cached[j]) {
        LiveApartFromList(after, k, j);
        LinkedFrame(old(mem), mem, listHeads[j], after.cached[j], block);
      }
    }

    /** The pointer must be in use with this layout. Only the freed block itself is written to. */
    method Dealloc(ptr: nat, layout: Layout)
      requires Valid() && Allocation(ptr, layout) in blocks.live
      modifies this, listHeads
      ensures Valid()
      ensures blocks == AfterDealloc(old(blocks), Allocation(ptr, layout))
      ensures SameOutside(Allocation(ptr, layout).Block(), old(mem), mem)
    {
      ghost var block := Allocation(ptr, layout);
      ghost var k := IndexOf(blocks.live, block);
      DeallocKeepsInv(blocks, block);
      assert GoodAllocation(blocks.live[k]);
      var index := ListIndex(layout);
      if index.Some? {
        var i := index.value;
        BlockSizesArePowers(i);
        var length := 0;
        if listHeads[i] != 0 {
          length := Length(listHeads[i], blocks.cached[i]);
        }
        if length <= 16 {
          PushNode(ptr, i, k);
        }
      }
      assert ptr != 0;
      blocks := AfterDealloc(blocks, block);
    }

    method PushNode(ptr: nat, i: nat, ghost k: nat)
      requires Valid() && i < CLASSES && k < |blocks.live|
      requires blocks.live[k].start == ptr && ListIndex(blocks.live[k].layout) == Some(i)
      modifies this`mem, listHeads
      ensures mem == Put(old(mem), ptr, old(listHeads[i]))
      ensures SameOutside(blocks.live[k].Block(), old(mem), mem)
      ensures Linked(mem, listHeads[i], [ptr] + blocks.cached[i])
      ensures forall j :: 0 <= j < CLASSES && j != i ==> Linked(mem, listHeads[j], blocks.cached[j])
    {
      BlockSizesArePowers(i);
      assert GoodAllocation(blocks.live[k]);
      HeadFits(mem, listHeads[i], blocks.cached[i]);
      PutInside(mem, ptr, listHeads[i], blocks.live[k].Block());
      WordOfPut(mem, ptr, listHeads[i]);
      forall j | 0 <= j < CLASSES ensures Linked(Put(mem, ptr, listHeads[i]), listHeads[j], blocks.cached[j]) {
        LiveApartFromList(blocks, k, j);
        LinkedFrame(mem, Put(mem, ptr, listHeads[i]), listHeads[j], blocks.cached[j], blocks.live[k].Block());
      }
      mem := Put(mem, ptr, listHeads[i]);
      ConsLinked(mem, ptr, listHeads[i], blocks.cached[i]);
      listHeads[i] := ptr;
    }

    /** A client may write any byte of a block it holds; the lists are out of its reach. */
    method Store(a: nat, value: Byte, ghost k: nat)
      requires Valid() && k < |blocks.live| && blocks.live[k].Block().Has(a)
      modifies this`mem
      ensures Valid() && mem == old(mem)[a := value]
    {
      ghost var block := blocks.live[k].Block();
      assert SameOutside(block, mem, mem[a := value]);
      forall i | 0 <= i < CLASSES ensures Linked(mem[a := value], listHeads[i], blocks.cached[i]) {
        LiveApartFromList(blocks, k, i);
        LinkedFrame(mem, mem[a := value], listHeads[i], blocks.cached[i], block);
      }
      mem := mem[a := value];
    }
  }

  lemma HeadFits(mem: Memory, head: nat, list: seq<nat>)
    requires Linked(mem, head, list)
    ensures head < USIZE_LIMIT
  {
    assert list != [] ==> NodeOk(mem, list, 0);
  }

  lemma TailLinked(mem: Memory, head: nat, list: seq<nat>)
    requires Linked(mem, head, list) && list != []
    ensures Linked(mem, Word(mem, head), list[1..])
  {
    forall k | 0 <= k < |list[1..]| ensures NodeOk(mem, list[1..], k) {
      assert list[1..][k] == list[k + 1] && NodeOk(mem, list, k + 1);
    }
    assert NodeOk(mem, list, 0);
  }

  lemma ConsLinked(mem: Memory, p: nat, head: nat, list: seq<nat>)
    requires Linked(mem, head, list) && 0 < p < USIZE_LIMIT && Word(mem, p) == head
    ensures Linked(mem, p, [p] + list)
  {
    var c := [p] + list;
    forall k | 0 <= k < |c| ensures NodeOk(mem, c, k) {
      if k > 0 {
        assert c[k] == list[k - 1] && NodeOk(mem, list, k - 1);
      }
    }
  }
}
