/** The hand-over from the first to the second frame allocator, and what holds across both. */
module TwoStages {
  import opened Options
  import opened Ranges
  import opened Sequences
  import opened BootFrames
  import opened SmartFrames
  import opened FrameRuns

  function RegionRange(region: MemoryRegion): Range {
    Range(region.start, region.end)
  }

  predicate NonUsableRange(regions: seq<MemoryRegion>, r: Range) {
    exists i :: 0 <= i < |regions| && regions[i].kind != Usable && r == RegionRange(regions[i])
  }

  /** The kept ranges are exactly those of the non-usable regions. */
  lemma {:induction false} KeptRangesMembers(regions: seq<MemoryRegion>, r: Range)
    ensures r in KeptRanges(regions) <==> NonUsableRange(regions, r)
  {
    if regions != [] {
      var rest := regions[1..];
      KeptRangesMembers(rest, r);
      if NonUsableRange(rest, r) {
        var j :| 0 <= j < |rest| && rest[j].kind != Usable && r == RegionRange(rest[j]);
        assert regions[j + 1] == rest[j];
      }
      if NonUsableRange(regions, r) {
        var j :| 0 <= j < |regions| && regions[j].kind != Usable && r == RegionRange(regions[j]);
        assert j > 0 ==> rest[j - 1] == regions[j];
      }
    }
  }

  lemma KeptRangesFit(x: Range, regions: seq<MemoryRegion>)
    requires forall i :: 0 <= i < |regions| ==> Fits(x, RegionRange(regions[i]))
    ensures FitsAll(x, KeptRanges(regions))
  {
    var k := KeptRanges(regions);
    forall i | 0 <= i < |k| ensures Fits(x, k[i]) {
      KeptRangesMembers(regions, k[i]);
    }
  }

  /** The kept ranges are in map order, so they are as well formed as the map. */
  lemma {:induction false} KeptRangesShape(regions: seq<MemoryRegion>)
    requires ValidMap(regions)
    ensures PairwiseFits(KeptRanges(regions)) && Aligned(KeptRanges(regions), FRAME_SIZE)
    ensures forall i :: 0 <= i < |KeptRanges(regions)| ==> KeptRanges(regions)[i].start < KeptRanges(regions)[i].end
  {
    if regions != [] {
      var rest := regions[1..];
      KeptRangesShape(rest);
      forall i | 0 <= i < |rest| ensures Fits(RegionRange(regions[0]), RegionRange(rest[i])) {
        assert rest[i] == regions[i + 1];
      }
      KeptRangesFit(RegionRange(regions[0]), rest);
    }
  }

  /** An address belongs to the second stage exactly when it is in a non-usable region the walk had
      not reached, or in what the walk left of its current region. */
  lemma InitialCovers(regions: seq<MemoryRegion>, next: nat, current: Option<Range>, a: int)
    requires ValidMap(regions) && ResumePoint(regions, next, current)
    ensures Covers(InitialRanges(regions, next, current), a) <==>
            || (current.Some? && current.value.Has(a))
            || (exists i :: next <= i < |regions| && regions[i].kind != Usable && RegionRange(regions[i]).Has(a))
  {
    var tail := regions[next..];
    var last := if current.Some? then [current.value] else [];
    CoversCat(KeptRanges(tail), last, a);
    KeptCovers(regions, next, a);
    if current.Some? {
      assert last[0] == current.value;
    }
  }

  lemma KeptCovers(regions: seq<MemoryRegion>, next: nat, a: int)
    requires next <= |regions|
    ensures Covers(KeptRanges(regions[next..]), a) <==>
            exists i :: next <= i < |regions| && regions[i].kind != Usable && RegionRange(regions[i]).Has(a)
  {
    var tail := regions[next..];
    CoversIn(KeptRanges(tail), a);
    if i :| next <= i < |regions| && regions[i].kind != Usable && RegionRange(regions[i]).Has(a) {
      assert tail[i - next] == regions[i];
      KeptRangesMembers(tail, RegionRange(regions[i]));
    }
    if r :| r in KeptRanges(tail) && r.Has(a) {
      KeptRangesMembers(tail, r);
      var j :| 0 <= j < |tail| && tail[j].kind != Usable && r == RegionRange(tail[j]);
      assert tail[j] == regions[next + j];
    }
  }

  lemma CurrentFits(regions: seq<MemoryRegion>, next: nat, r: Range)
    requires ValidMap(regions) && ResumePoint(regions, next, Some(r))
    ensures FitsAll(r, KeptRanges(regions[next..]))
    ensures r.start % FRAME_SIZE == 0 && r.end % FRAME_SIZE == 0
  {
    var tail := regions[next..];
    forall i | 0 <= i < |tail| ensures Fits(r, RegionRange(tail[i])) {
      assert tail[i] == regions[next + i];
    }
    KeptRangesFit(r, tail);
  }

  /** The list `init` builds is one from which a run may start, even when the walk had just used up
      its current region and the list ends in an empty range. */
  lemma InitialRangesStart(regions: seq<MemoryRegion>, next: nat, current: Option<Range>)
    requires ValidMap(regions) && ResumePoint(regions, next, current)
    ensures Start(InitialRanges(regions, next, current), FRAME_SIZE)
  {
    var kept := KeptRanges(regions[next..]);
    var origin := InitialRanges(regions, next, current);
    KeptRangesShape(regions[next..]);
    if current.Some? {
      CurrentFits(regions, next, current.value);
      assert PairwiseFits(origin) by {
        assert origin == kept + [current.value];
      }
      if current.value.start == current.value.end {
        var a: int := current.value.start - 1;
        InitialCovers(regions, next, current, a);
        assert RegionRange(regions[next - 1]).Has(a);
        assert !Covers(origin, a);
      }
      assert NoStrayDrain(origin, origin);
    } else {
      assert origin == kept;
    }
  }

  lemma HandedFrameInside(regions: seq<MemoryRegion>, next: nat, current: Option<Range>, f: nat)
    requires ValidMap(regions) && ResumePoint(regions, next, current) && f in Handed(regions, next, current)
    ensures exists i :: 0 <= i < next && regions[i].kind == Usable && regions[i].start <= f
                        && f + FRAME_SIZE <= (if current.Some? && i == next - 1 then current.value.start else regions[i].end)
  {
    var upTo := if current.Some? then next - 1 else next;
    var before := regions[..upTo];
    AllFramesMembers(before, f);
    if current.Some? {
      FramesBetweenMembers(regions[next - 1].start, current.value.start, f);
    }
    if UsableFrame(before, f) {
      var i :| 0 <= i < |before| && before[i].kind == Usable && f % FRAME_SIZE == 0
               && before[i].start <= f && f + FRAME_SIZE <= before[i].end;
      assert before[i] == regions[i];
    }
  }

  /** An address of a region before `next` is in no region from `next` on. */
  lemma EarlierNotLater(regions: seq<MemoryRegion>, next: nat, i: nat, a: int)
    requires ValidMap(regions) && i < next <= |regions| && RegionRange(regions[i]).Has(a)
    ensures forall j :: next <= j < |regions| ==> !RegionRange(regions[j]).Has(a)
    ensures i < next - 1 ==> !RegionRange(regions[next - 1]).Has(a)
  {
    forall j | i < j < |regions| ensures !RegionRange(regions[j]).Has(a) {
      assert regions[i].end <= regions[j].start || regions[j].end <= regions[i].start;
    }
  }

  /** No address of a frame handed out at boot is given to the second stage. */
  lemma HandedNotInitial(regions: seq<MemoryRegion>, next: nat, current: Option<Range>, f: nat, a: int)
    requires ValidMap(regions) && ResumePoint(regions, next, current) && f in Handed(regions, next, current)
    requires FrameRange(f, FRAME_SIZE).Has(a)
    ensures !Covers(InitialRanges(regions, next, current), a)
  {
    HandedFrameInside(regions, next, current, f);
    var i :| 0 <= i < next && regions[i].kind == Usable && regions[i].start <= f
             && f + FRAME_SIZE <= (if current.Some? && i == next - 1 then current.value.start else regions[i].end);
    EarlierNotLater(regions, next, i, a);
    assert current.Some? ==> !current.value.Has(a);
    InitialCovers(regions, next, current, a);
  }

  /** Across both stages no frame is ever held twice: boot frames are distinct, and on every run of
      the second stage they share no address with a frame it holds or with its free ranges. */
  lemma NoFrameHeldTwice(regions: seq<MemoryRegion>, next: nat, current: Option<Range>, evs: seq<Event>)
    requires ValidMap(regions) && ResumePoint(regions, next, current)
    requires AllowedRun(FrameState(InitialRanges(regions, next, current), {}), evs, FRAME_SIZE)
    ensures var st := Run(FrameState(InitialRanges(regions, next, current), {}), evs, FRAME_SIZE);
            && Distinct(Handed(regions, next, current))
            && (forall f, a: int :: f in Handed(regions, next, current) && FrameRange(f, FRAME_SIZE).Has(a)
                  ==> !Covers(st.ranges, a) && !Held(st.live, FRAME_SIZE, a))
            && (forall a: int :: !(Covers(st.ranges, a) && Held(st.live, FRAME_SIZE, a)))
            && (match AllocatedFrame(st.ranges, FRAME_SIZE)
                case None => true
                case Some(f) => f !in st.live && f !in Handed(regions, next, current))
  {
    var origin := InitialRanges(regions, next, current);
    var st := Run(FrameState(origin, {}), evs, FRAME_SIZE);
    InitialRangesStart(regions, next, current);
    EveryRun(origin, evs, FRAME_SIZE);
    AllFramesDistinct(regions);
    HandedAndPending(regions, next, current);
    var handed := Handed(regions, next, current);
    forall i, j | 0 <= i < j < |handed| ensures handed[i] != handed[j] {
      assert handed[i] == AllFrames(regions)[i] && handed[j] == AllFrames(regions)[j];
    }
    forall f, a: int | f in handed && FrameRange(f, FRAME_SIZE).Has(a)
      ensures !Covers(st.ranges, a) && !Held(st.live, FRAME_SIZE, a)
    {
      HandedNotInitial(regions, next, current, f, a);
    }
    if AllocatedFrame(st.ranges, FRAME_SIZE).Some? {
      var f := AllocatedFrame(st.ranges, FRAME_SIZE).value;
      assert Covers(st.ranges, f) && FrameRange(f, FRAME_SIZE).Has(f);
    }
  }

  predicate UsableAddress(regions: seq<MemoryRegion>, a: int) {
    exists i :: 0 <= i < |regions| && regions[i].kind == Usable && RegionRange(regions[i]).Has(a)
  }

  lemma UnusableStart(regions: seq<MemoryRegion>, i: nat)
    requires ValidMap(regions) && i < |regions| && regions[i].kind != Usable
    ensures RegionRange(regions[i]).Has(regions[i].start) && !UsableAddress(regions, regions[i].start)
  {
  }

  /** `init` keeps the remaining regions that are *not* usable, so the second stage owns only usable
      memory exactly when every region the walk had not reached is usable. */
  lemma OnlyUsableIff(regions: seq<MemoryRegion>, next: nat, current: Option<Range>)
    requires ValidMap(regions) && ResumePoint(regions, next, current)
    ensures (forall a: int :: Covers(InitialRanges(regions, next, current), a) ==> UsableAddress(regions, a))
            <==> (forall i :: next <= i < |regions| ==> regions[i].kind == Usable)
  {
    if forall i :: next <= i < |regions| ==> regions[i].kind == Usable {
      forall a: int | Covers(InitialRanges(regions, next, current), a) ensures UsableAddress(regions, a) {
        InitialCovers(regions, next, current, a);
        assert RegionRange(regions[next - 1]).Has(a);
      }
    } else {
      var i :| next <= i < |regions| && regions[i].kind != Usable;
      UnusableStart(regions, i);
      InitialCovers(regions, next, current, regions[i].start);
    }
  }

  /** Position `i` is the first region from `next` on that is not usable. */
  predicate FirstKept(regions: seq<MemoryRegion>, next: nat, i: nat) {
    && next <= i < |regions| && regions[i].kind != Usable
    && forall j :: next <= j < i ==> regions[j].kind == Usable
  }

  lemma {:induction false} KeptRangesHead(regions: seq<MemoryRegion>, i: nat)
    requires FirstKept(regions, 0, i)
    ensures KeptRanges(regions) != [] && KeptRanges(regions)[0] == RegionRange(regions[i])
  {
    if i > 0 {
      assert regions[1..][i - 1] == regions[i];
      assert forall j :: 0 <= j < i - 1 ==> regions[1..][j] == regions[j + 1];
      KeptRangesHead(regions[1..], i - 1);
    }
  }

  lemma {:induction false} NothingKept(regions: seq<MemoryRegion>)
    requires forall j :: 0 <= j < |regions| ==> regions[j].kind == Usable
    ensures KeptRanges(regions) == []
  {
    if regions != [] {
      NothingKept(regions[1..]);
    }
  }

  lemma WholeFrame(r: Range)
    requires r.start % FRAME_SIZE == 0 && r.end % FRAME_SIZE == 0 && r.start < r.end
    ensures r.start + FRAME_SIZE <= r.end
  {
  }

  lemma FirstFrameKept(regions: seq<MemoryRegion>, next: nat, current: Option<Range>, i: nat)
    requires ValidMap(regions) && ResumePoint(regions, next, current) && FirstKept(regions, next, i)
    ensures AllocatedFrame(InitialRanges(regions, next, current), FRAME_SIZE) == Some(regions[i].start)
  {
    var tail := regions[next..];
    assert FirstKept(tail, 0, i - next);
    KeptRangesHead(tail, i - next);
    assert InitialRanges(regions, next, current)[0] == RegionRange(regions[i]);
    WholeFrame(RegionRange(regions[i]));
  }

  lemma FirstFrameCurrent(regions: seq<MemoryRegion>, next: nat, current: Option<Range>)
    requires ValidMap(regions) && ResumePoint(regions, next, current)
    requires forall j :: next <= j < |regions| ==> regions[j].kind == Usable
    ensures AllocatedFrame(InitialRanges(regions, next, current), FRAME_SIZE) ==
            if current.Some? && current.value.start < current.value.end then Some(current.value.start) else None
  {
    NothingKept(regions[next..]);
    var origin := InitialRanges(regions, next, current);
    if current.Some? {
      CurrentFits(regions, next, current.value);
      assert origin == [current.value];
      assert origin[1..] == [];
      if current.value.start < current.value.end {
        WholeFrame(current.value);
      }
    }
  }

  /** Where the second stage begins: with the first unreached region that is not usable, and with what is
      left of the walk's current region only if there is none. */
  lemma FirstFrameOfSecondStage(regions: seq<MemoryRegion>, next: nat, current: Option<Range>)
    requires ValidMap(regions) && ResumePoint(regions, next, current)
    ensures forall i: nat :: FirstKept(regions, next, i) ==>
              AllocatedFrame(InitialRanges(regions, next, current), FRAME_SIZE) == Some(regions[i].start)
    ensures (forall j :: next <= j < |regions| ==> regions[j].kind == Usable) ==>
              AllocatedFrame(InitialRanges(regions, next, current), FRAME_SIZE) ==
              if current.Some? && current.value.start < current.value.end then Some(current.value.start) else None
  {
    forall i: nat | FirstKept(regions, next, i)
      ensures AllocatedFrame(InitialRanges(regions, next, current), FRAME_SIZE) == Some(regions[i].start)
    {
      FirstFrameKept(regions, next, current, i);
    }
    if forall j :: next <= j < |regions| ==> regions[j].kind == Usable {
      FirstFrameCurrent(regions, next, current);
    }
  }

  /** With two frame sizes in use the rounding in `containing_address` matters: after one 4 KiB frame
      a 2 MiB allocation returns a frame that contains it. */
  lemma MixedSizesOverlap()
    ensures var s := [Range(0, 0x40_0000)];
            var t := AfterAllocate(s, 0x1000);
            AllocatedFrame(s, 0x1000) == Some(0) && AllocatedFrame(t, 0x20_0000) == Some(0)
  {
    var t := AfterAllocate([Range(0, 0x40_0000)], 0x1000);
    assert t == [Range(0x1000, 0x40_0000)];
    assert FirstFit(t, 0x20_0000) == 0;
  }

  /** The frame returned lies wholly in free memory exactly when what the rounding adds in front of the
      range does; if the range starts on a boundary of the requested size, it adds nothing. */
  lemma FrameFreeIff(s: seq<Range>, size: nat)
    requires 0 < size && AllocatedFrame(s, size).Some?
    ensures var f, start := AllocatedFrame(s, size).value, s[FirstFit(s, size)].start;
            && ((forall a: int :: f <= a < f + size ==> Covers(s, a))
                <==> (forall a: int :: f <= a < start ==> Covers(s, a)))
            && (f == start <==> start % size == 0)
  {
    var k := FirstFit(s, size);
    var f, start := AllocatedFrame(s, size).value, s[k].start;
    assert f <= start < f + size;
    forall a: int | start <= a < f + size ensures Covers(s, a) {
      assert s[k].Has(a);
    }
  }
}
