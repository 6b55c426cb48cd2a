/** Half-open address ranges: which addresses a list of them covers, how often, and the canonical
    list for a set of addresses. */
module Ranges {
  datatype Range = Range(start: nat, end: nat) {
    predicate Has(a: int) {
      start <= a < end
    }
  }

  predicate WellFormed(s: seq<Range>) {
    forall i :: 0 <= i < |s| ==> s[i].start <= s[i].end
  }

  /** Some range of the list holds address `a`. */
  predicate Covers(s: seq<Range>, a: int) {
    exists i :: 0 <= i < |s| && s[i].Has(a)
  }

  /** Two ranges do not overlap, and an empty one does not sit strictly inside the other. */
  predicate Fits(x: Range, y: Range) {
    x.end <= y.start || y.end <= x.start
  }

  predicate PairwiseFits(s: seq<Range>) {
    forall i, j :: 0 <= i < j < |s| ==> Fits(s[i], s[j])
  }

  predicate FitsAll(x: Range, s: seq<Range>) {
    forall i :: 0 <= i < |s| ==> Fits(x, s[i])
  }

  predicate SortedByStart(s: seq<Range>) {
    forall i, j :: 0 <= i < j < |s| ==> s[i].start <= s[j].start
  }

  /** Sorted, no empty range, no overlap, and no two ranges touch. */
  predicate Canonical(s: seq<Range>) {
    && (forall i :: 0 <= i < |s| ==> s[i].start < s[i].end)
    && (forall i, j :: 0 <= i < j < |s| ==> s[i].end < s[j].start)
  }

  lemma CoversIn(s: seq<Range>, a: int)
    ensures Covers(s, a) <==> exists r :: r in s && r.Has(a)
  {
    if r :| r in s && r.Has(a) {
      var i :| 0 <= i < |s| && s[i] == r;
    }
  }

  lemma CoversCat(s: seq<Range>, t: seq<Range>, a: int)
    ensures Covers(s + t, a) <==> Covers(s, a) || Covers(t, a)
  {
    CoversIn(s, a);
    CoversIn(t, a);
    CoversIn(s + t, a);
  }

  /** A set of addresses has only one canonical list, so `coallesce` computes it and nothing else. */
  lemma {:induction false} CanonicalUnique(s: seq<Range>, t: seq<Range>)
    requires Canonical(s) && Canonical(t)
    requires forall a: int :: Covers(s, a) <==> Covers(t, a)
    ensures s == t
  {
    if s == [] {
      if t != [] {
        assert Covers(t, t[0].start) by { assert t[0].Has(t[0].start); }
      }
    } else {
      CanonicalHead(s, t);
      CanonicalHead(t, s);
      forall a: int ensures Covers(s[1..], a) <==> Covers(t[1..], a) {
        CanonicalTail(s, a);
        CanonicalTail(t, a);
      }
      CanonicalUnique(s[1..], t[1..]);
    }
  }

  lemma CanonicalTail(s: seq<Range>, a: int)
    requires Canonical(s) && s != []
    ensures Covers(s[1..], a) <==> Covers(s, a) && s[0].end < a
  {
    if Covers(s[1..], a) {
      var i :| 0 <= i < |s[1..]| && s[1..][i].Has(a);
      assert s[i + 1].Has(a);
    }
    if Covers(s, a) && s[0].end < a {
      var i :| 0 <= i < |s| && s[i].Has(a);
      assert s[1..][i - 1].Has(a);
    }
  }

  lemma CanonicalHead(s: seq<Range>, t: seq<Range>)
    requires Canonical(s) && Canonical(t) && s != []
    requires forall a: int :: Covers(s, a) <==> Covers(t, a)
    ensures t != [] && t[0].start <= s[0].start && s[0].end <= t[0].end
  {
    assert s[0].Has(s[0].start);
    assert Covers(t, s[0].start);
    var i :| 0 <= i < |t| && t[i].Has(s[0].start);
    assert t[0].start <= t[i].start;
    assert t[0].Has(t[0].start);
    assert Covers(s, t[0].start);
    var j :| 0 <= j < |s| && s[j].Has(t[0].start);
    assert s[0].start <= s[j].start;
    assert !Covers(t, t[0].end);
    assert t[0].end < s[0].end ==> s[0].Has(t[0].end);
  }

  // ---------------------------------------------------------------- counting owners of an address

  /** How many ranges of the list hold address `a`. */
  function Count(s: seq<Range>, a: int): nat {
    if s == [] then 0 else (if s[0].Has(a) then 1 else 0) + Count(s[1..], a)
  }

  function Without<T>(s: seq<T>, k: nat): seq<T>
    requires k < |s|
  {
    s[..k] + s[k + 1..]
  }

  function NonEmpty(r: Range): seq<Range> {
    if r.start < r.end then [r] else []
  }

  lemma {:induction false} CountCat(s: seq<Range>, t: seq<Range>, a: int)
    ensures Count(s + t, a) == Count(s, a) + Count(t, a)
  {
    if s == [] {
      assert s + t == t;
    } else {
      assert (s + t)[1..] == s[1..] + t;
      CountCat(s[1..], t, a);
    }
  }

  lemma CountOne(r: Range, a: int)
    ensures Count([r], a) == if r.Has(a) then 1 else 0
    ensures Count(NonEmpty(r), a) == if r.Has(a) then 1 else 0
  {
    assert [r][1..] == [];
  }

  lemma CountWithout(s: seq<Range>, k: nat, a: int)
    requires k < |s|
    ensures Count(s, a) == Count(Without(s, k), a) + if s[k].Has(a) then 1 else 0
  {
    assert s == s[..k] + ([s[k]] + s[k + 1..]);
    CountCat(s[..k], [s[k]] + s[k + 1..], a);
    CountCat([s[k]], s[k + 1..], a);
    CountOne(s[k], a);
    CountCat(s[..k], s[k + 1..], a);
  }

  lemma CountMember(s: seq<Range>, k: nat, a: int)
    requires k < |s| && s[k].Has(a)
    ensures Count(s, a) >= 1
  {
    CountWithout(s, k, a);
  }

  lemma CountPair(s: seq<Range>, i: nat, j: nat, a: int)
    requires i < j < |s| && s[i].Has(a) && s[j].Has(a)
    ensures Count(s, a) >= 2
  {
    CountWithout(s, j, a);
    assert Without(s, j)[i] == s[i];
    CountMember(Without(s, j), i, a);
  }

  function IndexOf<T(==)>(s: seq<T>, r: T): (k: nat)
    requires r in s
    ensures k < |s| && s[k] == r
  {
    if s[0] == r then 0 else 1 + IndexOf(s[1..], r)
  }
}
