/** The second-stage frame allocator: a list of free ranges with first-fit allocation, and a free
    that pushes the frame, sorts and merges. */
module SmartFrames {
  import opened Options
  import opened Ranges
  import opened Coalescing
  import opened Sequences
  import opened BootFrames

  /** The position of the first range with room for a frame, or the length of the list. */
  function FirstFit(s: seq<Range>, size: nat): (k: nat)
    ensures k <= |s|
    ensures k < |s| ==> s[k].start + size <= s[k].end
    ensures forall j :: 0 <= j < k ==> s[j].end < s[j].start + size
  {
    if s == [] then 0
    else if s[0].start + size <= s[0].end then 0
    else 1 + FirstFit(s[1..], size)
  }

  /** The frame handed out: the one containing the start of the first range that fits. */
  function AllocatedFrame(s: seq<Range>, size: nat): Option<nat>
    requires 0 < size
  {
    var k := FirstFit(s, size);
    if k == |s| then None else Some(s[k].start - s[k].start % size)
  }

  function AfterAllocate(s: seq<Range>, size: nat): seq<Range> {
    var k := FirstFit(s, size);
    if k == |s| then s else s[k := Range(s[k].start + size, s[k].end)]
  }

  function AfterDeallocate(s: seq<Range>, frame: nat, size: nat): seq<Range> {
    Coalesced(s + [Range(frame, frame + size)])
  }

  function KeptRange(region: MemoryRegion): seq<Range> {
    if region.kind != Usable then [Range(region.start, region.end)] else []
  }

  /** The ranges of the remaining regions that `init` keeps: those whose kind is not usable. */
  function KeptRanges(regions: seq<MemoryRegion>): seq<Range> {
    if regions == [] then []
    else KeptRange(regions[0]) + KeptRanges(regions[1..])
  }

  function InitialRanges(regions: seq<MemoryRegion>, next: nat, current: Option<Range>): seq<Range>
    requires next <= |regions|
  {
    KeptRanges(regions[next..]) + (if current.Some? then [current.value] else [])
  }

  lemma {:induction false} KeptRangesSnoc(regions: seq<MemoryRegion>, last: MemoryRegion)
    ensures KeptRanges(regions + [last]) == KeptRanges(regions) + KeptRange(last)
  {
    if regions == [] {
      assert regions + [last] == [last];
      assert [last][1..] == [];
    } else {
      TailOfCat(regions, [last]);
      KeptRangesSnoc(regions[1..], last);
      CatAssociative(KeptRange(regions[0]), KeptRanges(regions[1..]), KeptRange(last));
    }
  }

  lemma DeallocateCovers(s: seq<Range>, frame: nat, size: nat)
    requires WellFormed(s)
    ensures forall a: int :: Covers(AfterDeallocate(s, frame, size), a) <==> Covers(s, a) || frame <= a < frame + size
  {
    var r := Range(frame, frame + size);
    forall a: int ensures Covers(AfterDeallocate(s, frame, size), a) <==> Covers(s, a) || r.Has(a) {
      CoalescedCovers(s + [r], a);
      CoversCat(s, [r], a);
      assert Covers([r], a) <==> [r][0].Has(a);
    }
  }

  function Emitted(acc: Range): seq<Range> {
    if acc.start != acc.end then [acc] else []
  }

  /** One turn of the fold that coalesces and filters: what has been kept and what is to come. */
  lemma FoldStep(kept: seq<Range>, acc: Range, s: seq<Range>, i: nat)
    requires i < |s|
    ensures kept + DropEmpty(MergeFrom(acc, s[i..])) ==
            match Join(acc, s[i])
            case Some(r) => kept + DropEmpty(MergeFrom(r, s[i + 1..]))
            case None => kept + Emitted(acc) + DropEmpty(MergeFrom(s[i], s[i + 1..]))
  {
    assert s[i..][1..] == s[i + 1..];
    var m := MergeFrom(s[i], s[i + 1..]);
    assert ([acc] + m)[1..] == m;
  }

  lemma FoldEnd(kept: seq<Range>, acc: Range, s: seq<Range>)
    ensures kept + DropEmpty(MergeFrom(acc, s[|s|..])) == kept + Emitted(acc)
  {
    assert [acc][1..] == [];
  }

  /** The loop of `init` over the regions the first stage had not reached. */
  method KeepRemaining(memoryMap: seq<MemoryRegion>, first: nat) returns (ranges: seq<Range>)
    requires first <= |memoryMap|
    ensures ranges == KeptRanges(memoryMap[first..])
  {
    ranges := [];
    var i := first;
    while i < |memoryMap|
      invariant first <= i <= |memoryMap|
      invariant ranges == KeptRanges(memoryMap[first..i])
    {
      var region := memoryMap[i];
      assert memoryMap[first..i + 1] == memoryMap[first..i] + [region];
      KeptRangesSnoc(memoryMap[first..i], region);
      if region.kind != Usable {
        ranges := ranges + [Range(region.start, region.end)];
      }
      i := i + 1;
    }
    assert memoryMap[first..|memoryMap|] == memoryMap[first..];
  }

  class SmartFrameAllocator {
    var memoryRanges: seq<Range>
    /** Where the first stage had stopped when this allocator took over. */
    ghost const bootNext: nat
    ghost const bootCurrent: Option<Range>

    /** `heapFrames` is how many frames the heap set-up takes; it unwraps every one of them. */
    constructor (memoryMap: seq<MemoryRegion>, heapFrames: nat)
      requires heapFrames <= |AllFrames(memoryMap)|
      ensures ResumePoint(memoryMap, bootNext, bootCurrent)
      ensures Handed(memoryMap, bootNext, bootCurrent) == AllFrames(memoryMap)[..heapFrames]
      ensures memoryRanges == InitialRanges(memoryMap, bootNext, bootCurrent)
    {
      var allocator := new BootInfoFrameAllocator(memoryMap);
      var frames := allocator.AllocateFrames(heapFrames);
      var first, current := allocator.next, allocator.currentRegion;
      bootNext, bootCurrent := allocator.next, allocator.currentRegion;
      memoryRanges := [];
      new;
      HandedAndPending(memoryMap, bootNext, bootCurrent);
      assert |Handed(memoryMap, bootNext, bootCurrent)| == heapFrames;
      var kept := KeepRemaining(memoryMap, first);
      memoryRanges := kept;
      if current.Some? {
        memoryRanges := memoryRanges + [current.value];
      }
    }

    method AllocateFrame(size: nat) returns (frame: Option<nat>)
      requires 0 < size
      modifies this
      ensures frame == AllocatedFrame(old(memoryRanges), size)
      ensures memoryRanges == AfterAllocate(old(memoryRanges), size)
    {
      var i := 0;
      while i < |memoryRanges|
        invariant 0 <= i <= |memoryRanges|
        invariant memoryRanges == old(memoryRanges)
        invariant forall j :: 0 <= j < i ==> memoryRanges[j].end < memoryRanges[j].start + size
      {
        var range := memoryRanges[i];
        var newStart := range.start + size;
        if newStart <= range.end {
          memoryRanges := memoryRanges[i := Range(newStart, range.end)];
          return Some(range.start - range.start % size);
        }
        i := i + 1;
      }
      return None;
    }

    method Coallesce()
      modifies this
      ensures memoryRanges == Coalesced(old(memoryRanges))
    {
      var sorted := StableSort(memoryRanges);
      var kept: seq<Range> := [];
      ghost var target := DropEmpty(Merge(sorted));
      if sorted != [] {
        var acc := sorted[0];
        var i := 1;
        while i < |sorted|
          invariant 1 <= i <= |sorted|
          invariant target == kept + DropEmpty(MergeFrom(acc, sorted[i..]))
        {
          FoldStep(kept, acc, sorted, i);
          match Join(acc, sorted[i]) {
            case Some(r) =>
              acc := r;
            case None =>
              kept := kept + Emitted(acc);
              acc := sorted[i];
          }
          i := i + 1;
        }
        FoldEnd(kept, acc, sorted);
        kept := kept + Emitted(acc);
      }
      memoryRanges := kept;
    }

    method DeallocateFrame(frame: nat, size: nat)
      modifies this
      ensures memoryRanges == AfterDeallocate(old(memoryRanges), frame, size)
      ensures WellFormed(old(memoryRanges)) ==>
                forall a: int :: Covers(memoryRanges, a) <==> Covers(old(memoryRanges), a) || frame <= a < frame + size
    {
      memoryRanges := memoryRanges + [Range(frame, frame + size)];
      Coallesce();
      if WellFormed(old(memoryRanges)) {
        DeallocateCovers(old(memoryRanges), frame, size);
      }
    }
  }
}
