/** The pure part of the second-stage frame allocator: the stable sort by start address, the pairwise
    merge, and exactly when sorting and merging reach the canonical form. */
module Coalescing {
  import opened Options
  import opened Ranges

  // ---------------------------------------------------------------- the stable sort

  function InsertByStart(x: Range, t: seq<Range>): seq<Range> {
    if t == [] || x.start <= t[0].start then [x] + t
    else [t[0]] + InsertByStart(x, t[1..])
  }

  function StableSort(s: seq<Range>): seq<Range> {
    if s == [] then [] else InsertByStart(s[0], StableSort(s[1..]))
  }

  /** The ranges of `s` with one given start, in list order. */
  function WithStart(s: seq<Range>, k: nat): seq<Range> {
    if s == [] then []
    else (if s[0].start == k then [s[0]] else []) + WithStart(s[1..], k)
  }

  lemma {:induction false} InsertPermutes(x: Range, t: seq<Range>)
    ensures multiset(InsertByStart(x, t)) == multiset(t) + multiset{x}
  {
    if t != [] && t[0].start < x.start {
      InsertPermutes(x, t[1..]);
      assert t == [t[0]] + t[1..];
    }
  }

  lemma InsertMembers(x: Range, t: seq<Range>)
    ensures forall i :: 0 <= i < |InsertByStart(x, t)| ==> InsertByStart(x, t)[i] == x || InsertByStart(x, t)[i] in t
  {
    InsertPermutes(x, t);
    var u := InsertByStart(x, t);
    forall i | 0 <= i < |u| ensures u[i] == x || u[i] in t {
      assert u[i] in multiset(u);
    }
  }

  lemma ConsSorted(x: Range, t: seq<Range>)
    requires SortedByStart(t) && forall i :: 0 <= i < |t| ==> x.start <= t[i].start
    ensures SortedByStart([x] + t)
  {
  }

  lemma {:induction false} InsertSorted(x: Range, t: seq<Range>)
    requires SortedByStart(t)
    ensures SortedByStart(InsertByStart(x, t))
  {
    if t == [] || x.start <= t[0].start {
      ConsSorted(x, t);
    } else {
      InsertSorted(x, t[1..]);
      InsertMembers(x, t[1..]);
      ConsSorted(t[0], InsertByStart(x, t[1..]));
    }
  }

  lemma {:induction false} WithStartHead(s: seq<Range>, k: nat)
    requires SortedByStart(s) && WithStart(s, k) != []
    ensures s != [] && s[0].start <= k
  {
    if s[0].start != k && s[1..] != [] {
      WithStartHead(s[1..], k);
    }
  }

  lemma WithStartCons(x: Range, t: seq<Range>, k: nat)
    ensures WithStart([x] + t, k) == (if x.start == k then [x] else []) + WithStart(t, k)
  {
    assert ([x] + t)[1..] == t;
  }

  lemma {:induction false} InsertStable(x: Range, t: seq<Range>, k: nat)
    ensures WithStart(InsertByStart(x, t), k) == (if x.start == k then [x] else []) + WithStart(t, k)
  {
    if t == [] || x.start <= t[0].start {
      WithStartCons(x, t, k);
    } else {
      InsertStable(x, t[1..], k);
      WithStartCons(t[0], InsertByStart(x, t[1..]), k);
    }
  }

  /** Sorting by start is a stable sort: sorted, a permutation, and ranges with equal starts keep their order. */
  lemma {:induction false} StableSortFacts(s: seq<Range>)
    ensures SortedByStart(StableSort(s))
    ensures multiset(StableSort(s)) == multiset(s)
    ensures forall k :: WithStart(StableSort(s), k) == WithStart(s, k)
  {
    if s != [] {
      assert s == [s[0]] + s[1..];
      StableSortFacts(s[1..]);
      InsertSorted(s[0], StableSort(s[1..]));
      InsertPermutes(s[0], StableSort(s[1..]));
      forall k ensures WithStart(StableSort(s), k) == WithStart(s, k) {
        InsertStable(s[0], StableSort(s[1..]), k);
      }
    }
  }

  lemma SameHead(t: seq<Range>, u: seq<Range>)
    requires SortedByStart(t) && SortedByStart(u) && t != []
    requires forall k :: WithStart(t, k) == WithStart(u, k)
    ensures u != [] && u[0] == t[0]
  {
    assert WithStart(t, t[0].start)[0] == t[0];
    WithStartHead(u, t[0].start);
    assert WithStart(u, u[0].start)[0] == u[0];
    WithStartHead(t, u[0].start);
  }

  /** Any sorted list with the same sublist at every start is the stable sort, whatever algorithm produced it. */
  lemma {:induction false} StableSortUnique(t: seq<Range>, u: seq<Range>)
    requires SortedByStart(t) && SortedByStart(u)
    requires forall k :: WithStart(t, k) == WithStart(u, k)
    ensures t == u
  {
    if t == [] {
      if u != [] {
        SameHead(u, t);
      }
    } else {
      SameHead(t, u);
      forall k ensures WithStart(t[1..], k) == WithStart(u[1..], k) {
        var n := if t[0].start == k then 1 else 0;
        assert WithStart(t, k) == WithStart(u, k);
        assert WithStart(t, k)[n..] == WithStart(t[1..], k);
        assert WithStart(u, k)[n..] == WithStart(u[1..], k);
      }
      StableSortUnique(t[1..], u[1..]);
    }
  }

  // ---------------------------------------------------------------- merging neighbours

  /** The closure given to `coalesce`: join two ranges that touch, in either order. */
  function Join(x: Range, y: Range): Option<Range> {
    if x.end == y.start then Some(Range(x.start, y.end))
    else if y.end == x.start then Some(Range(y.start, x.end))
    else None
  }

  /** The fold behind `coalesce`: `acc` is the range being grown. */
  function MergeFrom(acc: Range, rest: seq<Range>): seq<Range>
    decreases |rest|
  {
    if rest == [] then [acc]
    else match Join(acc, rest[0])
      case Some(r) => MergeFrom(r, rest[1..])
      case None => [acc] + MergeFrom(rest[0], rest[1..])
  }

  function Merge(t: seq<Range>): seq<Range> {
    if t == [] then [] else MergeFrom(t[0], t[1..])
  }

  function DropEmpty(s: seq<Range>): seq<Range> {
    if s == [] then []
    else (if s[0].start != s[0].end then [s[0]] else []) + DropEmpty(s[1..])
  }

  /** What one `coallesce` call turns the range list into. */
  function Coalesced(s: seq<Range>): seq<Range> {
    DropEmpty(Merge(StableSort(s)))
  }

  // ---------------------------------------------------------------- coverage

  lemma MultisetMembers(s: seq<Range>, t: seq<Range>)
    requires multiset(s) == multiset(t)
    ensures forall r :: r in s <==> r in t
    ensures WellFormed(s) ==> WellFormed(t)
  {
    forall r ensures r in s <==> r in t {
      assert r in s <==> r in multiset(s);
      assert r in t <==> r in multiset(t);
    }
    forall i | 0 <= i < |t| ensures t[i] in s { assert t[i] in t; }
  }

  lemma {:induction false} MergeCovers(acc: Range, rest: seq<Range>, a: int)
    requires acc.start <= acc.end && WellFormed(rest)
    requires SortedByStart(rest) && (rest != [] ==> acc.start <= rest[0].start)
    ensures WellFormed(MergeFrom(acc, rest))
    ensures Covers(MergeFrom(acc, rest), a) <==> acc.Has(a) || Covers(rest, a)
    decreases |rest|
  {
    if rest == [] {
      assert Covers([acc], a) <==> [acc][0].Has(a);
    } else {
      assert rest == [rest[0]] + rest[1..];
      CoversCat([rest[0]], rest[1..], a);
      assert Covers([rest[0]], a) <==> [rest[0]][0].Has(a);
      match Join(acc, rest[0])
      case Some(r) => MergeCovers(r, rest[1..], a);
      case None =>
        MergeCovers(rest[0], rest[1..], a);
        CoversCat([acc], MergeFrom(rest[0], rest[1..]), a);
        assert Covers([acc], a) <==> [acc][0].Has(a);
    }
  }

  lemma {:induction false} DropEmptyCovers(s: seq<Range>, a: int)
    ensures Covers(DropEmpty(s), a) <==> Covers(s, a)
  {
    if s != [] {
      DropEmptyCovers(s[1..], a);
      assert s == [s[0]] + s[1..];
      CoversCat([s[0]], s[1..], a);
      CoversCat([s[0]], DropEmpty(s[1..]), a);
      assert Covers([s[0]], a) <==> [s[0]][0].Has(a);
      assert [] + DropEmpty(s[1..]) == DropEmpty(s[1..]);
    }
  }

  lemma MergedCovers(t: seq<Range>, a: int)
    requires WellFormed(t) && SortedByStart(t)
    ensures Covers(DropEmpty(Merge(t)), a) <==> Covers(t, a)
  {
    DropEmptyCovers(Merge(t), a);
    if t != [] {
      MergeCovers(t[0], t[1..], a);
      assert t == [t[0]] + t[1..];
      CoversCat([t[0]], t[1..], a);
      assert Covers([t[0]], a) <==> [t[0]][0].Has(a);
    }
  }

  /** `coallesce` neither loses nor invents an address, on any list of ranges that run forwards. */
  lemma CoalescedCovers(s: seq<Range>, a: int)
    requires WellFormed(s)
    ensures Covers(Coalesced(s), a) <==> Covers(s, a)
  {
    var t := StableSort(s);
    StableSortFacts(s);
    MultisetMembers(s, t);
    CoversIn(s, a);
    CoversIn(t, a);
    MergedCovers(t, a);
  }

  // ---------------------------------------------------------------- what stops a merge

  /** Some non-empty range stops exactly at `e`. */
  predicate EndsAt(s: seq<Range>, e: nat) {
    exists k :: 0 <= k < |s| && s[k].start < s[k].end == e
  }

  /** Some non-empty range from position `n` on starts exactly at `e`. */
  predicate StartsAt(s: seq<Range>, n: nat, e: nat) {
    exists k :: n <= k < |s| && e == s[k].start < s[k].end
  }

  /** An emptied range is listed after the range `r`, which starts at its address. */
  predicate DrainedAfter(s: seq<Range>, r: Range) {
    exists i, j :: 0 <= i < j < |s| && s[i] == r && s[j] == Range(r.start, r.start)
  }

  /** Such an emptied range has a range ending at its address, and `r` is followed by another: after
      `r` is merged with the first, the emptied range keeps it from being merged with the last. */
  ghost predicate Blocked(s: seq<Range>) {
    exists r :: r in s && r.start < r.end && DrainedAfter(s, r) && EndsAt(s, r.start) && StartsAt(s, 0, r.end)
  }

  lemma {:induction false} WithStartMembers(s: seq<Range>, k: nat, x: Range)
    ensures x in WithStart(s, k) <==> x in s && x.start == k
  {
    if s != [] {
      WithStartMembers(s[1..], k, x);
      assert s == [s[0]] + s[1..];
    }
  }

  lemma DrainedAfterCons(x: Range, s: seq<Range>, r: Range)
    ensures DrainedAfter([x] + s, r) <==> DrainedAfter(s, r) || (x == r && Range(r.start, r.start) in s)
  {
    var c := [x] + s;
    if DrainedAfter(c, r) {
      var i, j :| 0 <= i < j < |c| && c[i] == r && c[j] == Range(r.start, r.start);
      assert c[j] == s[j - 1];
      assert i > 0 ==> c[i] == s[i - 1];
    }
    if DrainedAfter(s, r) {
      var i, j :| 0 <= i < j < |s| && s[i] == r && s[j] == Range(r.start, r.start);
      assert c[i + 1] == r && c[j + 1] == Range(r.start, r.start);
    }
    if x == r && Range(r.start, r.start) in s {
      var j :| 0 <= j < |s| && s[j] == Range(r.start, r.start);
      assert c[0] == r && c[j + 1] == Range(r.start, r.start);
    }
  }

  /** The order among equal starts is all that matters. */
  lemma {:induction false} DrainedAfterWithStart(s: seq<Range>, r: Range)
    ensures DrainedAfter(s, r) <==> DrainedAfter(WithStart(s, r.start), r)
  {
    if s != [] {
      var x, rest := s[0], s[1..];
      assert s == [x] + rest;
      DrainedAfterWithStart(rest, r);
      DrainedAfterCons(x, rest, r);
      WithStartMembers(rest, r.start, Range(r.start, r.start));
      if x.start == r.start {
        DrainedAfterCons(x, WithStart(rest, r.start), r);
      } else {
        assert WithStart(s, r.start) == WithStart(rest, r.start);
      }
    }
  }

  lemma SameMembersSameEdges(s: seq<Range>, t: seq<Range>, e: nat)
    requires forall r :: r in s ==> r in t
    ensures EndsAt(s, e) ==> EndsAt(t, e)
    ensures StartsAt(s, 0, e) ==> StartsAt(t, 0, e)
  {
    if EndsAt(s, e) {
      var k :| 0 <= k < |s| && s[k].start < s[k].end == e;
      assert s[k] in t;
    }
    if StartsAt(s, 0, e) {
      var k :| 0 <= k < |s| && e == s[k].start < s[k].end;
      assert s[k] in t;
    }
  }

  lemma SortKeepsBlockedHalf(s: seq<Range>, t: seq<Range>)
    requires (forall r :: r in s <==> r in t) && (forall k :: WithStart(s, k) == WithStart(t, k))
    ensures Blocked(s) ==> Blocked(t)
  {
    if Blocked(s) {
      var r :| r in s && r.start < r.end && DrainedAfter(s, r) && EndsAt(s, r.start) && StartsAt(s, 0, r.end);
      DrainedAfterWithStart(s, r);
      DrainedAfterWithStart(t, r);
      SameMembersSameEdges(s, t, r.start);
      SameMembersSameEdges(s, t, r.end);
      assert r in t;
    }
  }

  lemma SortKeepsBlocked(s: seq<Range>)
    ensures Blocked(StableSort(s)) <==> Blocked(s)
  {
    StableSortFacts(s);
    MultisetMembers(s, StableSort(s));
    SortKeepsBlockedHalf(s, StableSort(s));
    SortKeepsBlockedHalf(StableSort(s), s);
  }

  lemma {:induction false} InsertKeepsFits(x: Range, t: seq<Range>)
    requires SortedByStart(t) && PairwiseFits(t) && FitsAll(x, t)
    ensures PairwiseFits(InsertByStart(x, t))
  {
    if t != [] && t[0].start < x.start {
      InsertKeepsFits(x, t[1..]);
      InsertMembers(x, t[1..]);
    }
  }

  lemma {:induction false} SortKeepsFits(s: seq<Range>)
    requires PairwiseFits(s)
    ensures PairwiseFits(StableSort(s))
  {
    if s != [] {
      var t := StableSort(s[1..]);
      SortKeepsFits(s[1..]);
      StableSortFacts(s[1..]);
      MultisetMembers(s[1..], t);
      forall i | 0 <= i < |t| ensures Fits(s[0], t[i]) {
        assert t[i] in t;
      }
      InsertKeepsFits(s[0], t);
    }
  }

  // ---------------------------------------------------------------- unblocked merges reach the canonical form

  /** Non-empty ranges come in order with a gap between any two. */
  predicate Separated(m: seq<Range>) {
    forall i, j :: 0 <= i < j < |m| && m[i].start < m[i].end && m[j].start < m[j].end ==> m[i].end < m[j].start
  }

  /** `acc` stands for the ranges of `t` before position `n`, which the fold has already taken in. */
  predicate AccOk(t: seq<Range>, n: nat, acc: Range)
    requires n <= |t|
  {
    && acc.start <= acc.end
    && (forall j :: n <= j < |t| ==> acc.start <= t[j].start)
    && (forall j :: n <= j < |t| && t[j].start < t[j].end ==> Fits(acc, t[j]))
    && (forall j :: n <= j < |t| && t[j].start == t[j].end && acc.start < t[j].start < acc.end ==> !StartsAt(t, 0, acc.end))
    && (acc.start < acc.end ==> EndsAt(t, acc.end))
  }

  predicate Input(t: seq<Range>) {
    WellFormed(t) && SortedByStart(t) && PairwiseFits(t)
  }

  lemma JoinKeepsAccOk(t: seq<Range>, n: nat, acc: Range)
    requires n < |t| && Input(t) && !Blocked(t)
    requires AccOk(t, n, acc) && Join(acc, t[n]).Some?
    ensures AccOk(t, n + 1, Join(acc, t[n]).value)
  {
    var y := t[n];
    if y.start == y.end {
      assert Join(acc, y).value == acc;
    } else {
      var r := Range(acc.start, y.end);
      assert Join(acc, y).value == r;
      forall j | n < j < |t| && t[j].start < t[j].end ensures Fits(r, t[j]) {
        assert Fits(y, t[j]);
      }
      forall j | n < j < |t| && t[j].start == t[j].end && r.start < t[j].start < r.end ensures !StartsAt(t, 0, r.end) {
        assert Fits(y, t[j]);
        assert DrainedAfter(t, y);
        assert y in t;
      }
      assert EndsAt(t, r.end);
    }
  }

  lemma LeaveKeepsAccOk(t: seq<Range>, n: nat)
    requires n < |t| && Input(t)
    ensures AccOk(t, n + 1, t[n])
  {
  }

  /** Once the fold leaves `acc`, everything non-empty still to come starts beyond its end. */
  lemma LeavesGap(t: seq<Range>, n: nat, acc: Range, m: nat)
    requires n < |t| && Input(t) && AccOk(t, n, acc) && Join(acc, t[n]).None? && acc.start < acc.end
    requires n <= m < |t| && t[m].start < t[m].end
    ensures acc.end < t[m].start
  {
    assert Fits(acc, t[m]);
    assert t[m].start == acc.end ==> StartsAt(t, 0, acc.end);
  }

  lemma {:induction false} MergeSeparates(t: seq<Range>, n: nat, acc: Range)
    requires n <= |t| && Input(t) && !Blocked(t) && AccOk(t, n, acc)
    ensures var m := MergeFrom(acc, t[n..]);
            && WellFormed(m) && Separated(m)
            && forall i :: 0 <= i < |m| && m[i].start < m[i].end ==>
                 (acc.start < acc.end && m[i].start == acc.start) || StartsAt(t, n, m[i].start)
    decreases |t| - n
  {
    if n < |t| {
      assert t[n..][1..] == t[n + 1..];
      var y := t[n];
      if Join(acc, y).Some? {
        var r := Join(acc, y).value;
        JoinKeepsAccOk(t, n, acc);
        MergeSeparates(t, n + 1, r);
        JoinStarts(t, n, acc, MergeFrom(r, t[n + 1..]));
      } else {
        LeaveKeepsAccOk(t, n);
        MergeSeparates(t, n + 1, y);
        LeaveStarts(t, n, acc, MergeFrom(y, t[n + 1..]));
      }
    }
  }

  /** Where a merged range may start, carried back over one joined range. */
  lemma JoinStarts(t: seq<Range>, n: nat, acc: Range, m: seq<Range>)
    requires n < |t| && Input(t) && AccOk(t, n, acc) && Join(acc, t[n]).Some?
    requires var r := Join(acc, t[n]).value;
             forall i :: 0 <= i < |m| && m[i].start < m[i].end ==>
               (r.start < r.end && m[i].start == r.start) || StartsAt(t, n + 1, m[i].start)
    ensures forall i :: 0 <= i < |m| && m[i].start < m[i].end ==>
              (acc.start < acc.end && m[i].start == acc.start) || StartsAt(t, n, m[i].start)
  {
    var r := Join(acc, t[n]).value;
    assert acc.start == acc.end && r.start < r.end ==> StartsAt(t, n, r.start);
    forall e | StartsAt(t, n + 1, e) ensures StartsAt(t, n, e) { }
  }

  lemma LeaveStarts(t: seq<Range>, n: nat, acc: Range, m: seq<Range>)
    requires n < |t| && Input(t) && AccOk(t, n, acc) && Join(acc, t[n]).None? && WellFormed(m) && Separated(m)
    requires forall i :: 0 <= i < |m| && m[i].start < m[i].end ==>
               (t[n].start < t[n].end && m[i].start == t[n].start) || StartsAt(t, n + 1, m[i].start)
    ensures var l := [acc] + m;
            && WellFormed(l) && Separated(l)
            && forall i :: 0 <= i < |l| && l[i].start < l[i].end ==>
                 (acc.start < acc.end && l[i].start == acc.start) || StartsAt(t, n, l[i].start)
  {
    forall i | 0 <= i < |m| && m[i].start < m[i].end
      ensures StartsAt(t, n, m[i].start) && (acc.start < acc.end ==> acc.end < m[i].start)
    {
      assert t[n].start < t[n].end && m[i].start == t[n].start ==> StartsAt(t, n, m[i].start);
      var k :| n <= k < |t| && m[i].start == t[k].start < t[k].end;
      if acc.start < acc.end {
        LeavesGap(t, n, acc, k);
      }
    }
  }

  lemma {:induction false} DropEmptyCanonical(m: seq<Range>)
    requires WellFormed(m) && Separated(m)
    ensures Canonical(DropEmpty(m))
    ensures forall r :: r in DropEmpty(m) ==> r in m && r.start < r.end
  {
    if m != [] {
      DropEmptyCanonical(m[1..]);
      var d := DropEmpty(m[1..]);
      forall i | 0 <= i < |d| ensures d[i] in m[1..] && d[i].start < d[i].end { assert d[i] in d; }
    }
  }

  // ---------------------------------------------------------------- blocked merges do not

  /** How far the fold may have come while `t[i]` is followed by the emptied `t[j]`. */
  predicate Phase(t: seq<Range>, n: nat, acc: Range, i: nat, j: nat)
    requires i < |t|
  {
    && acc.start <= acc.end
    && (n <= i ==> acc.end <= t[i].start)
    && (i < n <= j ==> acc.end <= t[i].end && (t[i].start <= acc.start || acc.end == t[i].end))
    && (j < n ==> t[i].start <= acc.start)
  }

  /** The merged range does not reach across the emptied one. */
  predicate DoesNotCross(r: Range, x: Range) {
    x.end <= r.end || r.start <= x.start
  }

  lemma PhaseStep(t: seq<Range>, n: nat, acc: Range, i: nat, j: nat)
    requires Input(t) && i < j < |t| && n < |t| && t[i].start < t[i].end && t[j] == Range(t[i].start, t[i].start)
    requires Phase(t, n, acc, i, j)
    ensures match Join(acc, t[n])
            case Some(r) => Phase(t, n + 1, r, i, j)
            case None => Phase(t, n + 1, t[n], i, j) && DoesNotCross(t[i], acc)
  {
    assert n < i ==> Fits(t[n], t[i]) && t[n].start <= t[i].start;
    assert i < n ==> Fits(t[i], t[n]) && t[i].start <= t[n].start;
    assert n < j ==> t[n].start <= t[j].start;
  }

  lemma {:induction false} MergeDoesNotCross(t: seq<Range>, n: nat, acc: Range, i: nat, j: nat)
    requires Input(t) && i < j < |t| && n <= |t| && t[i].start < t[i].end && t[j] == Range(t[i].start, t[i].start)
    requires Phase(t, n, acc, i, j)
    ensures forall x :: x in MergeFrom(acc, t[n..]) ==> DoesNotCross(t[i], x)
    decreases |t| - n
  {
    if n < |t| {
      assert t[n..][1..] == t[n + 1..];
      PhaseStep(t, n, acc, i, j);
      match Join(acc, t[n])
      case Some(r) => MergeDoesNotCross(t, n + 1, r, i, j);
      case None => MergeDoesNotCross(t, n + 1, t[n], i, j);
    }
  }

  lemma {:induction false} DropEmptyMembers(s: seq<Range>, r: Range)
    ensures r in DropEmpty(s) ==> r in s
  {
    if s != [] {
      DropEmptyMembers(s[1..], r);
    }
  }

  /** In a canonical list the address after a range belongs to no range. */
  lemma CanonicalGap(c: seq<Range>, k: nat)
    requires Canonical(c) && k < |c|
    ensures !Covers(c, c[k].end)
  {
    forall m | 0 <= m < |c| ensures !c[m].Has(c[k].end) {
      assert m < k ==> c[m].end < c[k].start;
      assert k < m ==> c[k].end < c[m].start;
    }
  }

  /** A canonical list that covers both sides of `r` and `r` itself has one range across it. */
  lemma CanonicalCrosses(c: seq<Range>, r: Range)
    requires Canonical(c) && r.start < r.end && forall a: int :: r.start - 1 <= a <= r.end ==> Covers(c, a)
    ensures exists x :: x in c && !DoesNotCross(r, x)
  {
    var a: int := r.start - 1;
    assert Covers(c, a);
    var k :| 0 <= k < |c| && c[k].Has(a);
    CanonicalGap(c, k);
    assert r.end < c[k].end;
    assert c[k] in c && !DoesNotCross(r, c[k]);
  }

  lemma MergedDoesNotCross(t: seq<Range>, i: nat, j: nat)
    requires Input(t) && i < j < |t| && t[i].start < t[i].end && t[j] == Range(t[i].start, t[i].start)
    ensures forall x :: x in DropEmpty(Merge(t)) ==> DoesNotCross(t[i], x)
  {
    assert 0 < i ==> Fits(t[0], t[i]) && t[0].start <= t[i].start;
    assert Phase(t, 1, t[0], i, j);
    MergeDoesNotCross(t, 1, t[0], i, j);
    forall x | x in DropEmpty(Merge(t)) ensures DoesNotCross(t[i], x) {
      DropEmptyMembers(Merge(t), x);
    }
  }

  lemma BlockedNotCanonical(t: seq<Range>)
    requires Input(t) && Blocked(t)
    ensures !Canonical(DropEmpty(Merge(t)))
  {
    var r :| r in t && r.start < r.end && DrainedAfter(t, r) && EndsAt(t, r.start) && StartsAt(t, 0, r.end);
    var i, j :| 0 <= i < j < |t| && t[i] == r && t[j] == Range(r.start, r.start);
    var c := DropEmpty(Merge(t));
    MergedDoesNotCross(t, i, j);
    forall a: int | r.start - 1 <= a <= r.end ensures Covers(c, a) {
      BlockedCovers(t, r, a);
      MergedCovers(t, a);
    }
    if Canonical(c) {
      CanonicalCrosses(c, r);
    }
  }

  lemma BlockedCovers(t: seq<Range>, r: Range, a: int)
    requires r in t && EndsAt(t, r.start) && StartsAt(t, 0, r.end) && r.start - 1 <= a <= r.end
    ensures Covers(t, a)
  {
    var k :| 0 <= k < |t| && t[k].start < t[k].end == r.start;
    var m :| 0 <= m < |t| && r.end == t[m].start < t[m].end;
    var i :| 0 <= i < |t| && t[i] == r;
    assert t[k].Has(r.start - 1) && t[m].Has(r.end);
    assert r.start <= a < r.end ==> t[i].Has(a);
  }

  /** `coallesce` reaches the canonical form (sorted, non-empty, disjoint, fully merged) exactly when the
      list is not blocked, for every list of ranges that do not overlap. */
  lemma CoalescedCanonicalIff(s: seq<Range>)
    requires WellFormed(s) && PairwiseFits(s)
    ensures Canonical(Coalesced(s)) <==> !Blocked(s)
  {
    var t := StableSort(s);
    StableSortFacts(s);
    MultisetMembers(s, t);
    SortKeepsFits(s);
    SortKeepsBlocked(s);
    if Blocked(t) {
      BlockedNotCanonical(t);
    } else {
      if t != [] {
        LeaveKeepsAccOk(t, 0);
        MergeSeparates(t, 1, t[0]);
      }
      DropEmptyCanonical(Merge(t));
    }
  }

  /** The smallest blocked list: the merge leaves two touching ranges apart. */
  lemma BlockedExample()
    ensures var s := [Range(0, 1), Range(1, 2), Range(1, 1), Range(2, 3)];
            WellFormed(s) && PairwiseFits(s) && Blocked(s) && !Canonical(Coalesced(s))
  {
    var s := [Range(0, 1), Range(1, 2), Range(1, 1), Range(2, 3)];
    assert s[1] == Range(1, 2) && s[2] == Range(1, 1);
    assert DrainedAfter(s, Range(1, 2));
    assert EndsAt(s, 1) by { assert s[0].end == 1; }
    assert StartsAt(s, 0, 2) by { assert s[3].start == 2; }
    assert Range(1, 2) in s;
    CoalescedCanonicalIff(s);
  }
}
