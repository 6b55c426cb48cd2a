/** The first-stage frame allocator: a walk over the boot loader's memory map that can stop
    after every frame and resume at the next call. */
module BootFrames {
  import opened Options
  import opened Ranges
  import opened Sequences

  const FRAME_SIZE: nat := 4096

  datatype RegionKind = Usable | Bootloader | Firmware

  datatype MemoryRegion = MemoryRegion(start: nat, end: nat, kind: RegionKind)

  /** The start of the 4 KiB frame that contains an address. */
  function ContainingFrame(a: nat): nat {
    a - a % FRAME_SIZE
  }

  /** The frames that fit, one after the other, between two addresses. */
  function FramesBetween(start: nat, end: nat): seq<nat>
    decreases end - start
  {
    if start + FRAME_SIZE <= end
    then [ContainingFrame(start)] + FramesBetween(start + FRAME_SIZE, end)
    else []
  }

  function FramesOf(region: MemoryRegion): seq<nat> {
    if region.kind == Usable then FramesBetween(region.start, region.end) else []
  }

  /** The specification of the first stage: every frame of every usable region, in map order. */
  function AllFrames(regions: seq<MemoryRegion>): seq<nat> {
    if regions == [] then []
    else FramesOf(regions[0]) + AllFrames(regions[1..])
  }

  /** The same from one region of the map on. */
  function FramesFrom(regions: seq<MemoryRegion>, next: nat): seq<nat>
    decreases |regions| - next
  {
    if next < |regions| then FramesOf(regions[next]) + FramesFrom(regions, next + 1) else []
  }

  lemma {:induction false} FramesFromSuffix(regions: seq<MemoryRegion>, next: nat)
    requires next <= |regions|
    ensures FramesFrom(regions, next) == AllFrames(regions[next..])
    decreases |regions| - next
  {
    if next < |regions| {
      FramesFromSuffix(regions, next + 1);
      TailOfSuffix(regions, next);
    }
  }

  /** What a walk still has to hand out, from its resumable position. */
  function Pending(regions: seq<MemoryRegion>, next: nat, current: Option<Range>): seq<nat>
  {
    (if current.Some? then FramesBetween(current.value.start, current.value.end) else []) + FramesFrom(regions, next)
  }

  /** `r` is what is left of the usable region in front of the iterator. */
  predicate InsideRegion(regions: seq<MemoryRegion>, next: nat, r: Range) {
    && 0 < next <= |regions|
    && regions[next - 1].kind == Usable
    && regions[next - 1].start <= r.start && r.end == regions[next - 1].end
    && (r.start - regions[next - 1].start) % FRAME_SIZE == 0
  }

  /** The position is one the walk can be in between two calls: the region it is inside has
      already given at least one frame. */
  predicate ResumePoint(regions: seq<MemoryRegion>, next: nat, current: Option<Range>) {
    && next <= |regions|
    && match current
       case None => next == 0 || next == |regions|
       case Some(r) => InsideRegion(regions, next, r) && regions[next - 1].start < r.start <= r.end
  }

  function Rest(frames: seq<nat>, k: nat): seq<nat> {
    if k <= |frames| then frames[k..] else []
  }

  /** The `k`-th answer expected from a list of frames: the frame, or none once the list is used up. */
  function Answer(frames: seq<nat>, k: nat): Option<nat> {
    if k < |frames| then Some(frames[k]) else None
  }

  /** The answers given so far, and what is left, of the frames a walk had to hand out. */
  predicate Progress(answers: seq<Option<nat>>, frames: seq<nat>, left: seq<nat>) {
    && left == Rest(frames, |answers|)
    && forall k :: 0 <= k < |answers| ==> answers[k] == Answer(frames, k)
  }

  lemma ProgressStep(answers: seq<Option<nat>>, frames: seq<nat>, left: seq<nat>)
    requires Progress(answers, frames, left)
    ensures Progress(answers + [Answer(left, 0)], frames, Rest(left, 1))
  {
  }

  lemma TakeFrame(regions: seq<MemoryRegion>, next: nat, r: Range)
    requires InsideRegion(regions, next, r) && r.start + FRAME_SIZE <= r.end
    ensures ResumePoint(regions, next, Some(Range(r.start + FRAME_SIZE, r.end)))
    ensures Pending(regions, next, Some(r)) ==
            [ContainingFrame(r.start)] + Pending(regions, next, Some(Range(r.start + FRAME_SIZE, r.end)))
  {
    CatAssociative([ContainingFrame(r.start)], FramesBetween(r.start + FRAME_SIZE, r.end), FramesFrom(regions, next));
  }

  lemma LeaveRegion(regions: seq<MemoryRegion>, next: nat, r: Range)
    requires next <= |regions| && r.end < r.start + FRAME_SIZE
    ensures Pending(regions, next, Some(r)) == Pending(regions, next, None)
  {
  }

  lemma SkipRegion(regions: seq<MemoryRegion>, next: nat)
    requires next < |regions| && regions[next].kind != Usable
    ensures Pending(regions, next, None) == Pending(regions, next + 1, None)
  {
  }

  lemma EnterRegion(regions: seq<MemoryRegion>, next: nat)
    requires next < |regions| && regions[next].kind == Usable
    ensures Pending(regions, next, None) ==
            Pending(regions, next + 1, Some(Range(regions[next].start, regions[next].end)))
  {
  }

  class BootInfoFrameAllocator {
    const regions: seq<MemoryRegion>
    var next: nat
    var currentRegion: Option<Range>

    ghost predicate Valid()
      reads this
    {
      ResumePoint(regions, next, currentRegion)
    }

    ghost function Remaining(): seq<nat>
      requires Valid()
      reads this
    {
      Pending(regions, next, currentRegion)
    }

    constructor (memoryMap: seq<MemoryRegion>)
      ensures Valid() && regions == memoryMap
      ensures next == 0 && currentRegion == None
      ensures Remaining() == AllFrames(memoryMap)
    {
      regions, next, currentRegion := memoryMap, 0, None;
      new;
      assert regions[0..] == regions;
      FramesFromSuffix(regions, 0);
    }

    /** Hands out the first frame of what remains and leaves the rest. */
    method AllocateFrame() returns (frame: Option<nat>)
      requires Valid()
      modifies this
      ensures Valid()
      ensures frame == Answer(old(Remaining()), 0)
      ensures Remaining() == Rest(old(Remaining()), 1)
      ensures frame.None? ==> next == |regions| && currentRegion == None
    {
      ghost var before := Remaining();
      while true
        invariant next <= |regions|
        invariant currentRegion.Some? ==> InsideRegion(regions, next, currentRegion.value)
        invariant Pending(regions, next, currentRegion) == before
        decreases |regions| - next, if currentRegion.Some? then 1 else 0
      {
        if currentRegion.Some? {
          var range := currentRegion.value;
          var newStart := range.start + FRAME_SIZE;
          if newStart <= range.end {
            TakeFrame(regions, next, range);
            currentRegion := Some(Range(newStart, range.end));
            frame := Some(ContainingFrame(range.start));
            assert Rest(before, 1) == Remaining();
            return;
          } else {
            LeaveRegion(regions, next, range);
            currentRegion := None;
          }
        } else {
          var found := NextUsableRegion();
          if !found {
            return None;
          }
        }
      }
    }

    /** The inner loop: advances the iterator to the next usable region, if there is one. */
    method NextUsableRegion() returns (found: bool)
      requires next <= |regions| && currentRegion == None
      modifies this
      ensures old(next) <= next <= |regions|
      ensures found == currentRegion.Some?
      ensures found ==> old(next) < next && InsideRegion(regions, next, currentRegion.value)
      ensures !found ==> next == |regions|
      ensures Pending(regions, next, currentRegion) == old(Pending(regions, next, currentRegion))
    {
      ghost var before := Pending(regions, next, None);
      while true
        invariant old(next) <= next <= |regions| && currentRegion == None
        invariant Pending(regions, next, None) == before
        decreases |regions| - next
      {
        if next == |regions| {
          return false;
        }
        var possibleNextRange := regions[next];
        next := next + 1;
        if possibleNextRange.kind != Usable {
          SkipRegion(regions, next - 1);
          continue;
        }
        EnterRegion(regions, next - 1);
        currentRegion := Some(Range(possibleNextRange.start, possibleNextRange.end));
        return true;
      }
    }

    /** Any number of calls in a row returns exactly the specified list, and then nothing for ever. */
    method AllocateFrames(n: nat) returns (frames: seq<Option<nat>>)
      requires Valid()
      modifies this
      ensures Valid() && |frames| == n
      ensures Progress(frames, old(Remaining()), Remaining())
    {
      ghost var before := Remaining();
      frames := [];
      while |frames| < n
        invariant Valid() && |frames| <= n
        invariant Progress(frames, before, Remaining())
      {
        ProgressStep(frames, before, Remaining());
        var frame := AllocateFrame();
        frames := frames + [frame];
      }
    }
  }

  // ---------------------------------------------------------------- what the specified list contains

  lemma {:induction false} FramesBetweenMembers(start: nat, end: nat, f: nat)
    requires start % FRAME_SIZE == 0
    ensures f in FramesBetween(start, end) <==> f % FRAME_SIZE == 0 && start <= f && f + FRAME_SIZE <= end
    decreases end - start
  {
    if start + FRAME_SIZE <= end {
      FramesBetweenMembers(start + FRAME_SIZE, end, f);
    }
  }

  predicate AlignedMap(regions: seq<MemoryRegion>) {
    forall i :: 0 <= i < |regions| ==> regions[i].start % FRAME_SIZE == 0 && regions[i].end % FRAME_SIZE == 0
  }

  /** A memory map the boot loader may pass: frame-aligned, non-empty regions that do not overlap. */
  predicate ValidMap(regions: seq<MemoryRegion>) {
    && AlignedMap(regions)
    && (forall i :: 0 <= i < |regions| ==> regions[i].start < regions[i].end)
    && (forall i, j :: 0 <= i < j < |regions| ==>
          regions[i].end <= regions[j].start || regions[j].end <= regions[i].start)
  }

  predicate UsableFrame(regions: seq<MemoryRegion>, f: nat) {
    exists i :: 0 <= i < |regions| && regions[i].kind == Usable && f % FRAME_SIZE == 0
                && regions[i].start <= f && f + FRAME_SIZE <= regions[i].end
  }

  /** Complete and sound: a frame is handed out in the first stage exactly when it is a whole
      frame inside a usable region. */
  lemma {:induction false} AllFramesMembers(regions: seq<MemoryRegion>, f: nat)
    requires AlignedMap(regions)
    ensures f in AllFrames(regions) <==> UsableFrame(regions, f)
  {
    if regions != [] {
      var rest := regions[1..];
      AllFramesMembers(rest, f);
      FramesBetweenMembers(regions[0].start, regions[0].end, f);
      if UsableFrame(rest, f) {
        var i :| 0 <= i < |rest| && rest[i].kind == Usable && f % FRAME_SIZE == 0
                 && rest[i].start <= f && f + FRAME_SIZE <= rest[i].end;
        assert regions[i + 1] == rest[i];
      }
      if UsableFrame(regions, f) {
        var i :| 0 <= i < |regions| && regions[i].kind == Usable && f % FRAME_SIZE == 0
                 && regions[i].start <= f && f + FRAME_SIZE <= regions[i].end;
        assert i > 0 ==> rest[i - 1] == regions[i];
      }
    }
  }

  lemma DistinctCat(s: seq<nat>, t: seq<nat>)
    requires Distinct(s) && Distinct(t)
    requires forall x :: x in s ==> x !in t
    ensures Distinct(s + t)
  {
    forall i, j | 0 <= i < j < |s + t| ensures (s + t)[i] != (s + t)[j] {
      if i < |s| <= j {
        assert (s + t)[i] in s && (s + t)[j] in t;
      }
    }
  }

  lemma {:induction false} FramesBetweenDistinct(start: nat, end: nat)
    requires start % FRAME_SIZE == 0
    ensures Distinct(FramesBetween(start, end))
    decreases end - start
  {
    if start + FRAME_SIZE <= end {
      FramesBetweenDistinct(start + FRAME_SIZE, end);
      FramesBetweenMembers(start + FRAME_SIZE, end, start);
      DistinctCat([start], FramesBetween(start + FRAME_SIZE, end));
    }
  }

  /** No frame is ever handed out twice by the first stage. */
  lemma {:induction false} AllFramesDistinct(regions: seq<MemoryRegion>)
    requires ValidMap(regions)
    ensures Distinct(AllFrames(regions))
  {
    if regions != [] {
      var rest := regions[1..];
      AllFramesDistinct(rest);
      if regions[0].kind == Usable {
        FramesBetweenDistinct(regions[0].start, regions[0].end);
        forall f | f in FramesBetween(regions[0].start, regions[0].end) ensures f !in AllFrames(rest) {
          FramesBetweenMembers(regions[0].start, regions[0].end, f);
          AllFramesMembers(rest, f);
          forall i | 0 <= i < |rest|
            ensures !(rest[i].start <= f && f + FRAME_SIZE <= rest[i].end)
          {
            assert rest[i] == regions[i + 1];
          }
        }
        DistinctCat(FramesBetween(regions[0].start, regions[0].end), AllFrames(rest));
      } else {
        assert [] + AllFrames(rest) == AllFrames(rest);
      }
    }
  }

  /** `containing_address` rounds down: the frames taken from a region all lie inside it exactly
      when the region starts on a frame boundary. */
  lemma FramesInsideIffAligned(region: MemoryRegion)
    requires region.start + FRAME_SIZE <= region.end
    ensures (forall f :: f in FramesBetween(region.start, region.end) ==>
               region.start <= f && f + FRAME_SIZE <= region.end)
            <==> region.start % FRAME_SIZE == 0
  {
    if region.start % FRAME_SIZE == 0 {
      forall f | f in FramesBetween(region.start, region.end)
        ensures region.start <= f && f + FRAME_SIZE <= region.end
      {
        FramesBetweenMembers(region.start, region.end, f);
      }
    } else {
      assert ContainingFrame(region.start) in FramesBetween(region.start, region.end);
    }
  }

  predicate Ascending(s: seq<nat>) {
    forall i, j :: 0 <= i < j < |s| ==> s[i] < s[j]
  }

  lemma AscendingCat(s: seq<nat>, t: seq<nat>)
    requires Ascending(s) && Ascending(t) && forall i, j :: 0 <= i < |s| && 0 <= j < |t| ==> s[i] < t[j]
    ensures Ascending(s + t)
  {
  }

  lemma {:induction false} FramesBetweenAscending(start: nat, end: nat)
    requires start % FRAME_SIZE == 0
    ensures Ascending(FramesBetween(start, end))
    decreases end - start
  {
    if start + FRAME_SIZE <= end {
      var rest := FramesBetween(start + FRAME_SIZE, end);
      FramesBetweenAscending(start + FRAME_SIZE, end);
      forall j | 0 <= j < |rest| ensures start < rest[j] {
        FramesBetweenMembers(start + FRAME_SIZE, end, rest[j]);
      }
      AscendingCat([start], rest);
    }
  }

  lemma RegionsApart(region: MemoryRegion, rest: seq<MemoryRegion>, f: nat, g: nat)
    requires region.start % FRAME_SIZE == 0 && AlignedMap(rest)
    requires forall i :: 0 <= i < |rest| ==> region.end <= rest[i].start
    requires f in FramesOf(region) && g in AllFrames(rest)
    ensures f < g
  {
    FramesBetweenMembers(region.start, region.end, f);
    AllFramesMembers(rest, g);
  }

  /** Frames are handed out in map order: on a map sorted by address, in ascending order. */
  lemma {:induction false} AllFramesAscending(regions: seq<MemoryRegion>)
    requires AlignedMap(regions)
    requires forall i, j :: 0 <= i < j < |regions| ==> regions[i].end <= regions[j].start
    ensures Ascending(AllFrames(regions))
  {
    if regions != [] {
      var first, rest := FramesOf(regions[0]), regions[1..];
      AllFramesAscending(rest);
      FramesBetweenAscending(regions[0].start, regions[0].end);
      forall i, j | 0 <= i < |first| && 0 <= j < |AllFrames(rest)| ensures first[i] < AllFrames(rest)[j] {
        RegionsApart(regions[0], rest, first[i], AllFrames(rest)[j]);
      }
      AscendingCat(first, AllFrames(rest));
    }
  }

  // ---------------------------------------------------------------- what has been handed out

  /** The frames given away before the walk reached its resumable position. */
  function Handed(regions: seq<MemoryRegion>, next: nat, current: Option<Range>): seq<nat>
    requires ResumePoint(regions, next, current)
  {
    if current.Some?
    then AllFrames(regions[..next - 1]) + FramesBetween(regions[next - 1].start, current.value.start)
    else AllFrames(regions[..next])
  }

  lemma {:induction false} AllFramesCat(a: seq<MemoryRegion>, b: seq<MemoryRegion>)
    ensures AllFrames(a + b) == AllFrames(a) + AllFrames(b)
  {
    if a == [] {
      assert a + b == b;
    } else {
      AllFramesCat(a[1..], b);
      TailOfCat(a, b);
      CatAssociative(FramesOf(a[0]), AllFrames(a[1..]), AllFrames(b));
    }
  }

  lemma {:induction false} FramesBetweenSplit(start: nat, mid: nat, end: nat)
    requires start <= mid <= end && (mid - start) % FRAME_SIZE == 0
    ensures FramesBetween(start, end) == FramesBetween(start, mid) + FramesBetween(mid, end)
    decreases mid - start
  {
    if start < mid {
      FramesBetweenSplit(start + FRAME_SIZE, mid, end);
    }
  }

  /** Handed-out and pending frames make up the whole specified list, wherever the walk stopped. */
  lemma HandedAndPending(regions: seq<MemoryRegion>, next: nat, current: Option<Range>)
    requires ResumePoint(regions, next, current)
    ensures AllFrames(regions) == Handed(regions, next, current) + Pending(regions, next, current)
  {
    var before, after := regions[..next], regions[next..];
    assert regions == before + after;
    AllFramesCat(before, after);
    FramesFromSuffix(regions, next);
    if current.Some? {
      HandedInside(regions, next, current.value);
      CatAssociative(Handed(regions, next, current), FramesBetween(current.value.start, current.value.end), AllFrames(after));
    }
  }

  lemma HandedInside(regions: seq<MemoryRegion>, next: nat, r: Range)
    requires ResumePoint(regions, next, Some(r))
    ensures AllFrames(regions[..next]) == Handed(regions, next, Some(r)) + FramesBetween(r.start, r.end)
  {
    var last := regions[next - 1];
    PrefixSnoc(regions, next);
    AllFramesCat(regions[..next - 1], [last]);
    SingleRegion(last);
    FramesBetweenSplit(last.start, r.start, last.end);
    CatAssociative(AllFrames(regions[..next - 1]), FramesBetween(last.start, r.start), FramesBetween(r.start, r.end));
  }

  lemma SingleRegion(region: MemoryRegion)
    requires region.kind == Usable
    ensures AllFrames([region]) == FramesBetween(region.start, region.end)
  {
    assert [region][1..] == [];
    assert AllFrames([]) == [];
  }
}
