/** Whole runs of the two-stage frame allocator: what every sequence of allocations and frees keeps. */
module FrameRuns {
  import opened Options
  import opened Ranges
  import opened Coalescing
  import opened Alignment
  import opened SmartFrames

  /** The free list and the frames currently held, after some run of the second stage. */
  datatype FrameState = FrameState(ranges: seq<Range>, live: set<nat>)

  /** A client step. Only a frame that is held may be given back. */
  datatype Event = Allocate | Deallocate(frame: nat)

  function FrameRange(f: nat, size: nat): Range {
    Range(f, f + size)
  }

  predicate Held(live: set<nat>, size: nat, a: int) {
    exists f :: f in live && FrameRange(f, size).Has(a)
  }

  predicate Allowed(st: FrameState, ev: Event) {
    ev.Deallocate? ==> ev.frame in st.live
  }

  function Apply(st: FrameState, ev: Event, size: nat): FrameState
    requires 0 < size
  {
    match ev
    case Allocate =>
      var f := AllocatedFrame(st.ranges, size);
      FrameState(AfterAllocate(st.ranges, size), if f.Some? then st.live + {f.value} else st.live)
    case Deallocate(f) =>
      FrameState(AfterDeallocate(st.ranges, f, size), st.live - {f})
  }

  predicate AllowedRun(st: FrameState, evs: seq<Event>, size: nat)
    requires 0 < size
    decreases |evs|
  {
    evs == [] || (Allowed(st, evs[0]) && AllowedRun(Apply(st, evs[0], size), evs[1..], size))
  }

  function Run(st: FrameState, evs: seq<Event>, size: nat): FrameState
    requires 0 < size
    decreases |evs|
  {
    if evs == [] then st else Run(Apply(st, evs[0], size), evs[1..], size)
  }

  predicate Aligned(s: seq<Range>, size: nat)
    requires 0 < size
  {
    forall i :: 0 <= i < |s| ==> s[i].start % size == 0 && s[i].end % size == 0
  }

  /** An empty range listed after a non-empty one with the same start marks an address whose
      predecessor the second stage never owned. */
  predicate NoStrayDrain(ranges: seq<Range>, origin: seq<Range>) {
    forall i, j :: 0 <= i < j < |ranges| && ranges[i].start < ranges[i].end
                   && ranges[j] == Range(ranges[i].start, ranges[i].start)
      ==> !Covers(origin, ranges[j].start - 1)
  }

  /** What every run keeps. `origin` is the list that `init` built. */
  ghost predicate Inv(origin: seq<Range>, st: FrameState, size: nat) {
    && 0 < size
    && WellFormed(st.ranges) && PairwiseFits(st.ranges) && Aligned(st.ranges, size)
    && NoStrayDrain(st.ranges, origin)
    && (forall f :: f in st.live ==> f % size == 0 && FitsAll(FrameRange(f, size), st.ranges))
    && (forall a: int :: Covers(origin, a) <==> Covers(st.ranges, a) || Held(st.live, size, a))
  }

  lemma AlignedGap(a: nat, b: nat, size: nat)
    requires 0 < size && a % size == 0 && b % size == 0 && a < b
    ensures a + size <= b
    ensures (a + size) % size == 0
  {
    var p, q := a / size, b / size;
    assert a == size * p && b == size * q;
    assert q <= p ==> size * q <= size * p;
    assert size * (p + 1) <= size * q;
    AddOneMultiple(a, size);
  }

  lemma AddOneMultiple(a: nat, size: nat)
    requires 0 < size && a % size == 0
    ensures (a + size) % size == 0
  {
    var q := a / size;
    assert a + size == size * (q + 1);
    ProductMod(size, q + 1);
  }

  lemma FrameCovers(s: seq<Range>, f: nat, size: nat, a: int)
    ensures Covers(s + [FrameRange(f, size)], a) <==> Covers(s, a) || FrameRange(f, size).Has(a)
  {
    CoversCat(s, [FrameRange(f, size)], a);
    assert Covers([FrameRange(f, size)], a) <==> [FrameRange(f, size)][0].Has(a);
  }

  lemma AlignedFramesFit(f: nat, r: Range, size: nat)
    requires 0 < size && f % size == 0 && r.start % size == 0 && r.end % size == 0 && r.start <= r.end
    ensures Fits(FrameRange(f, size), r) <==> !r.Has(f)
  {
    if f < r.start { AlignedGap(f, r.start, size); }
    if f < r.end { AlignedGap(f, r.end, size); }
  }

  // ---------------------------------------------------------------- allocation

  /** Under the invariant first fit takes the first non-empty range, and its frame is exactly the
      piece cut off; it fails only when nothing at all is free. */
  lemma AllocateTakesFirstFree(origin: seq<Range>, st: FrameState, size: nat)
    requires Inv(origin, st, size)
    ensures var k := FirstFit(st.ranges, size);
            && (forall j :: 0 <= j < k ==> st.ranges[j].start == st.ranges[j].end)
            && AllocatedFrame(st.ranges, size) == (if k < |st.ranges| then Some(st.ranges[k].start) else None)
            && (k == |st.ranges| <==> forall a: int :: !Covers(st.ranges, a))
  {
    var k := FirstFit(st.ranges, size);
    forall j | 0 <= j < k ensures st.ranges[j].start == st.ranges[j].end {
      if st.ranges[j].start < st.ranges[j].end {
        AlignedGap(st.ranges[j].start, st.ranges[j].end, size);
      }
    }
    if k < |st.ranges| {
      assert Covers(st.ranges, st.ranges[k].start);
    }
  }

  lemma AllocateCovers(origin: seq<Range>, st: FrameState, size: nat, a: int)
    requires Inv(origin, st, size) && FirstFit(st.ranges, size) < |st.ranges|
    ensures var f := st.ranges[FirstFit(st.ranges, size)].start;
            && (Covers(AfterAllocate(st.ranges, size), a) <==> Covers(st.ranges, a) && !FrameRange(f, size).Has(a))
            && (FrameRange(f, size).Has(a) ==> Covers(st.ranges, a))
  {
    var k := FirstFit(st.ranges, size);
    var t := AfterAllocate(st.ranges, size);
    var f := st.ranges[k].start;
    if Covers(t, a) {
      var i :| 0 <= i < |t| && t[i].Has(a);
      assert st.ranges[i].Has(a);
      assert i < k ==> Fits(st.ranges[i], st.ranges[k]);
      assert k < i ==> Fits(st.ranges[k], st.ranges[i]);
    }
    if Covers(st.ranges, a) && !FrameRange(f, size).Has(a) {
      var i :| 0 <= i < |st.ranges| && st.ranges[i].Has(a);
      assert t[i].Has(a);
    }
    if FrameRange(f, size).Has(a) {
      assert st.ranges[k].Has(a);
    }
  }

  lemma AllocateKeepsFits(origin: seq<Range>, st: FrameState, size: nat)
    requires Inv(origin, st, size) && FirstFit(st.ranges, size) < |st.ranges|
    ensures var t := AfterAllocate(st.ranges, size);
            WellFormed(t) && PairwiseFits(t) && Aligned(t, size)
  {
    var k := FirstFit(st.ranges, size);
    var s, t := st.ranges, AfterAllocate(st.ranges, size);
    AddOneMultiple(s[k].start, size);
    forall i, j | 0 <= i < j < |t| ensures Fits(t[i], t[j]) {
      assert Fits(s[i], s[j]);
    }
  }

  lemma AllocateKeepsNoStrayDrain(origin: seq<Range>, s: seq<Range>, k: nat, r: Range)
    requires NoStrayDrain(s, origin) && PairwiseFits(s) && k < |s| && (forall j :: 0 <= j < k ==> s[j].start == s[j].end)
    requires s[k].start < r.start <= r.end == s[k].end
    ensures NoStrayDrain(s[k := r], origin)
  {
    var t := s[k := r];
    forall i, j | 0 <= i < j < |t| && t[i].start < t[i].end && t[j] == Range(t[i].start, t[i].start)
      ensures !Covers(origin, t[j].start - 1)
    {
      assert j != k && Fits(s[i], s[j]);
    }
  }

  lemma AllocateKeepsShape(origin: seq<Range>, st: FrameState, size: nat)
    requires Inv(origin, st, size) && FirstFit(st.ranges, size) < |st.ranges|
    ensures var t := AfterAllocate(st.ranges, size);
            WellFormed(t) && PairwiseFits(t) && Aligned(t, size) && NoStrayDrain(t, origin)
  {
    var k := FirstFit(st.ranges, size);
    AllocateTakesFirstFree(origin, st, size);
    AllocateKeepsFits(origin, st, size);
    AllocateKeepsNoStrayDrain(origin, st.ranges, k, Range(st.ranges[k].start + size, st.ranges[k].end));
  }

  /** An allocation keeps the invariant and hands out a frame nobody holds. */
  lemma AllocateKeepsInv(origin: seq<Range>, st: FrameState, size: nat)
    requires Inv(origin, st, size)
    ensures Inv(origin, Apply(st, Allocate, size), size)
    ensures AllocatedFrame(st.ranges, size).Some? ==> AllocatedFrame(st.ranges, size).value !in st.live
  {
    var k := FirstFit(st.ranges, size);
    AllocateTakesFirstFree(origin, st, size);
    if k < |st.ranges| {
      var f, t := st.ranges[k].start, AfterAllocate(st.ranges, size);
      var st' := Apply(st, Allocate, size);
      AllocateKeepsShape(origin, st, size);
      assert f !in st.live by {
        assert f in st.live ==> Fits(FrameRange(f, size), st.ranges[k]);
      }
      forall g | g in st'.live ensures g % size == 0 && FitsAll(FrameRange(g, size), t) {
        forall i | 0 <= i < |t| ensures Fits(FrameRange(g, size), t[i]) {
          assert g in st.live ==> Fits(FrameRange(g, size), st.ranges[i]);
          assert i < k ==> Fits(st.ranges[i], st.ranges[k]);
          assert k < i ==> Fits(st.ranges[k], st.ranges[i]);
        }
      }
      forall a: int ensures Covers(origin, a) <==> Covers(t, a) || Held(st'.live, size, a) {
        AllocateCovers(origin, st, size, a);
        assert Held(st'.live, size, a) <==> Held(st.live, size, a) || FrameRange(f, size).Has(a);
      }
    }
  }

  // ---------------------------------------------------------------- freeing

  lemma PushKeepsShape(origin: seq<Range>, st: FrameState, f: nat, size: nat)
    requires Inv(origin, st, size) && f in st.live
    ensures var s := st.ranges + [FrameRange(f, size)];
            WellFormed(s) && PairwiseFits(s) && !Blocked(s)
  {
    var s := st.ranges + [FrameRange(f, size)];
    forall i, j | 0 <= i < j < |s| && s[i].start < s[i].end && s[j] == Range(s[i].start, s[i].start)
      ensures !EndsAt(s, s[i].start)
    {
      assert s[i] == st.ranges[i] && s[j] == st.ranges[j];
      var e: int := s[j].start;
      assert !Covers(origin, e - 1);
      FrameCovers(st.ranges, f, size, e - 1);
      assert FrameRange(f, size).Has(e - 1) ==> Held(st.live, size, e - 1);
      assert !Covers(s, e - 1);
      forall k | 0 <= k < |s| && s[k].start < s[k].end ensures s[k].end != e {
        assert s[k].end == e ==> s[k].Has(e - 1);
      }
    }
  }

  lemma {:induction false} AlignedMerge(acc: Range, rest: seq<Range>, size: nat)
    requires 0 < size && Aligned(rest, size) && Aligned([acc], size)
    ensures Aligned(MergeFrom(acc, rest), size)
    decreases |rest|
  {
    if rest != [] {
      assert [acc][0] == acc;
      match Join(acc, rest[0])
      case Some(r) => AlignedMerge(r, rest[1..], size);
      case None => AlignedMerge(rest[0], rest[1..], size);
    }
  }

  lemma {:induction false} DropEmptyAligned(s: seq<Range>, size: nat)
    requires 0 < size && Aligned(s, size)
    ensures Aligned(DropEmpty(s), size)
  {
    if s != [] {
      DropEmptyAligned(s[1..], size);
    }
  }

  lemma CoalescedAligned(s: seq<Range>, size: nat)
    requires 0 < size && Aligned(s, size)
    ensures Aligned(Coalesced(s), size)
  {
    var t := StableSort(s);
    StableSortFacts(s);
    MultisetMembers(s, t);
    forall i | 0 <= i < |t| ensures t[i].start % size == 0 && t[i].end % size == 0 {
      assert t[i] in t;
    }
    if t != [] {
      AlignedMerge(t[0], t[1..], size);
    }
    DropEmptyAligned(Merge(t), size);
  }

  /** A free leaves the list canonical, covering exactly the old addresses and the freed frame. */
  lemma DeallocateCanonical(origin: seq<Range>, st: FrameState, f: nat, size: nat)
    requires Inv(origin, st, size) && f in st.live
    ensures Canonical(AfterDeallocate(st.ranges, f, size))
    ensures Aligned(AfterDeallocate(st.ranges, f, size), size)
    ensures forall a: int :: Covers(AfterDeallocate(st.ranges, f, size), a)
                             <==> Covers(st.ranges, a) || FrameRange(f, size).Has(a)
  {
    var s := st.ranges + [FrameRange(f, size)];
    PushKeepsShape(origin, st, f, size);
    CoalescedCanonicalIff(s);
    AddOneMultiple(f, size);
    CoalescedAligned(s, size);
    forall a: int ensures Covers(Coalesced(s), a) <==> Covers(st.ranges, a) || FrameRange(f, size).Has(a) {
      CoalescedCovers(s, a);
      FrameCovers(st.ranges, f, size, a);
    }
  }

  lemma DistinctFramesApart(f: nat, g: nat, size: nat, a: int)
    requires 0 < size && f % size == 0 && g % size == 0 && f != g
    ensures !(FrameRange(f, size).Has(a) && FrameRange(g, size).Has(a))
  {
    if f < g { AlignedGap(f, g, size); } else { AlignedGap(g, f, size); }
  }

  lemma DeallocateKeepsInv(origin: seq<Range>, st: FrameState, f: nat, size: nat)
    requires Inv(origin, st, size) && f in st.live
    ensures Inv(origin, Apply(st, Deallocate(f), size), size)
  {
    var st' := Apply(st, Deallocate(f), size);
    var t := st'.ranges;
    DeallocateCanonical(origin, st, f, size);
    forall g | g in st'.live ensures FitsAll(FrameRange(g, size), t) {
      forall i | 0 <= i < |t| ensures Fits(FrameRange(g, size), t[i]) {
        AlignedFramesFit(g, t[i], size);
        if t[i].Has(g) {
          assert Covers(t, g);
          DistinctFramesApart(f, g, size, g);
          NotCovered(g, st.ranges, size);
          assert false;
        }
      }
    }
    forall a: int ensures Covers(origin, a) <==> Covers(t, a) || Held(st'.live, size, a) {
      if Held(st.live, size, a) && !FrameRange(f, size).Has(a) {
        var g :| g in st.live && FrameRange(g, size).Has(a);
        assert g in st'.live;
      }
      if FrameRange(f, size).Has(a) {
        assert Held(st.live, size, a);
      }
    }
  }

  lemma NotCovered(g: nat, s: seq<Range>, size: nat)
    requires 0 < size && FitsAll(FrameRange(g, size), s)
    ensures !Covers(s, g)
  {
    forall i | 0 <= i < |s| ensures !s[i].Has(g) {
      assert Fits(FrameRange(g, size), s[i]);
    }
  }

  // ---------------------------------------------------------------- every run

  lemma {:induction false} RunKeepsInv(origin: seq<Range>, st: FrameState, evs: seq<Event>, size: nat)
    requires Inv(origin, st, size) && AllowedRun(st, evs, size)
    ensures Inv(origin, Run(st, evs, size), size)
    decreases |evs|
  {
    if evs != [] {
      match evs[0] {
        case Allocate => AllocateKeepsInv(origin, st, size);
        case Deallocate(f) => DeallocateKeepsInv(origin, st, f, size);
      }
      RunKeepsInv(origin, Apply(st, evs[0], size), evs[1..], size);
    }
  }

  /** A list from which a run may start. */
  predicate Start(origin: seq<Range>, size: nat) {
    && 0 < size && WellFormed(origin) && PairwiseFits(origin) && Aligned(origin, size)
    && NoStrayDrain(origin, origin)
  }

  /** `t` is canonical and covers exactly the addresses of `s` and of `r`. */
  ghost predicate CanonicalWith(s: seq<Range>, r: Range, t: seq<Range>) {
    Canonical(t) && forall a: int :: Covers(t, a) <==> Covers(s, a) || r.Has(a)
  }

  /** On every run from a fresh second stage: free and held frames make up exactly what `init`
      built and never overlap, an allocation returns a frame that was free and not held and fails
      only when nothing is free, and a free yields the one canonical list of the free addresses. */
  lemma EveryRun(origin: seq<Range>, evs: seq<Event>, size: nat)
    requires Start(origin, size) && AllowedRun(FrameState(origin, {}), evs, size)
    ensures var st := Run(FrameState(origin, {}), evs, size);
            && (forall a: int :: Covers(origin, a) <==> Covers(st.ranges, a) || Held(st.live, size, a))
            && (forall a: int :: !(Covers(st.ranges, a) && Held(st.live, size, a)))
            && (forall f, a: int :: f in st.live && FrameRange(f, size).Has(a) ==> Covers(origin, a))
            && (match AllocatedFrame(st.ranges, size)
                case None => forall a: int :: !Covers(st.ranges, a)
                case Some(f) => f !in st.live && forall a :: f <= a < f + size ==> Covers(st.ranges, a))
            && (forall f, t :: f in st.live ==>
                  (CanonicalWith(st.ranges, FrameRange(f, size), t) <==> t == AfterDeallocate(st.ranges, f, size)))
  {
    var st := Run(FrameState(origin, {}), evs, size);
    RunKeepsInv(origin, FrameState(origin, {}), evs, size);
    forall a: int ensures !(Covers(st.ranges, a) && Held(st.live, size, a)) {
      HeldNotFree(origin, st, size, a);
    }
    AllocateTakesFirstFree(origin, st, size);
    AllocateKeepsInv(origin, st, size);
    if AllocatedFrame(st.ranges, size).Some? {
      var f := AllocatedFrame(st.ranges, size).value;
      forall a | f <= a < f + size ensures Covers(st.ranges, a) {
        AllocateCovers(origin, st, size, a);
      }
    }
    forall f, t | f in st.live
      ensures CanonicalWith(st.ranges, FrameRange(f, size), t) <==> t == AfterDeallocate(st.ranges, f, size)
    {
      DeallocateCanonical(origin, st, f, size);
      if CanonicalWith(st.ranges, FrameRange(f, size), t) {
        CanonicalUnique(t, AfterDeallocate(st.ranges, f, size));
      }
    }
  }

  lemma HeldNotFree(origin: seq<Range>, st: FrameState, size: nat, a: int)
    requires Inv(origin, st, size)
    ensures !(Covers(st.ranges, a) && Held(st.live, size, a))
  {
    forall i, f | 0 <= i < |st.ranges| && f in st.live ensures !(st.ranges[i].Has(a) && FrameRange(f, size).Has(a)) {
      assert Fits(FrameRange(f, size), st.ranges[i]);
    }
  }
}
