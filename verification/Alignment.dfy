/** `align_up` and the machine word it works on. */
module Alignment {
  /** One more than the largest `usize`. */
  const USIZE_LIMIT: nat := 0x1_0000_0000_0000_0000

  function Pow2(k: nat): (p: nat)
    ensures p >= 1
  {
    if k == 0 then 1 else 2 * Pow2(k - 1)
  }

  ghost predicate PowerOfTwo(a: nat) {
    exists k: nat :: k < 64 && a == Pow2(k)
  }

  /** Bitwise `&` on words of `w` bits. */
  function BitAnd(w: nat, x: nat, y: nat): nat {
    if w == 0 then 0 else (x % 2) * (y % 2) + 2 * BitAnd(w - 1, x / 2, y / 2)
  }

  /** Bitwise `!` on words of `w` bits. */
  function BitNot(w: nat, x: nat): nat {
    if w == 0 then 0 else (1 - x % 2) + 2 * BitNot(w - 1, x / 2)
  }

  /** `(addr + align - 1) & !(align - 1)`, wrapping as the machine does. */
  function AlignUp(addr: nat, align: nat): nat
    requires 1 <= align
  {
    BitAnd(64, (addr + align - 1) % USIZE_LIMIT, BitNot(64, align - 1))
  }

  lemma {:induction false} AndOnes(w: nat, x: nat)
    requires x < Pow2(w)
    ensures BitAnd(w, x, BitNot(w, 0)) == x
  {
    if w > 0 {
      AndOnes(w - 1, x / 2);
      assert BitNot(w, 0) == 1 + 2 * BitNot(w - 1, 0);
      assert BitNot(w, 0) / 2 == BitNot(w - 1, 0);
    }
  }

  lemma MulStep(d: nat, p: nat, q: nat)
    requires p < q
    ensures d * p + d <= d * q
  {
    assert d * (p + 1) <= d * q;
  }

  /** Quotient and remainder are the only pair that fits. */
  lemma DivModUnique(x: nat, d: nat, q: nat, r: nat)
    requires 0 < d && x == d * q + r && r < d
    ensures x / d == q && x % d == r
  {
    var p, s := x / d, x % d;
    assert x == d * p + s;
    if q < p {
      MulStep(d, q, p);
    } else if p < q {
      MulStep(d, p, q);
    }
  }

  lemma ModTwice(x: nat, m: nat)
    requires 1 <= m
    ensures x % (2 * m) == x % 2 + 2 * ((x / 2) % m)
  {
    var h := x / 2;
    var q, s := h / m, h % m;
    assert h == m * q + s;
    assert x == 2 * h + x % 2;
    assert x == (2 * m) * q + (x % 2 + 2 * s) by {
      assert 2 * (m * q) == (2 * m) * q;
    }
    DivModUnique(x, 2 * m, q, x % 2 + 2 * s);
  }

  lemma RoundDownTwice(x: nat, m: nat)
    requires 1 <= m
    ensures RoundDown(x, 2 * m) == 2 * RoundDown(x / 2, m)
  {
    ModTwice(x, m);
  }

  lemma MaskStep(w: nat, x: nat, m: nat, n: nat)
    requires 0 < w && 1 <= m && n == BitNot(w - 1, m - 1)
    requires BitAnd(w - 1, x / 2, n) == RoundDown(x / 2, m)
    ensures BitAnd(w, x, BitNot(w, 2 * m - 1)) == RoundDown(x, 2 * m)
  {
    assert (2 * m - 1) % 2 == 1 && (2 * m - 1) / 2 == m - 1;
    assert BitNot(w, 2 * m - 1) == 2 * n;
    assert (2 * n) % 2 == 0 && (2 * n) / 2 == n;
    assert BitAnd(w, x, 2 * n) == 2 * BitAnd(w - 1, x / 2, n);
    RoundDownTwice(x, m);
  }

  /** Masking off the low `k` bits rounds down to a multiple of `2^k`. */
  lemma {:induction false} MaskRoundsDown(w: nat, k: nat, x: nat)
    requires k <= w && x < Pow2(w)
    ensures BitAnd(w, x, BitNot(w, Pow2(k) - 1)) == RoundDown(x, Pow2(k))
    decreases w
  {
    if k == 0 {
      AndOnes(w, x);
    } else {
      var m := Pow2(k - 1);
      MaskRoundsDown(w - 1, k - 1, x / 2);
      MaskStep(w, x, m, BitNot(w - 1, m - 1));
      assert Pow2(k) == 2 * m;
    }
  }

  lemma Pow2Sixteen()
    ensures Pow2(16) == 0x1_0000
  {
    assert Pow2(4) == 16;
    assert Pow2(8) == 256;
    assert Pow2(12) == 0x1000;
  }

  lemma Pow2Word()
    ensures Pow2(64) == USIZE_LIMIT
  {
    Pow2Sixteen();
    Pow2Add(16, 16);
    Pow2Add(32, 32);
  }

  lemma {:induction false} Pow2Add(i: nat, j: nat)
    ensures Pow2(i + j) == Pow2(i) * Pow2(j)
  {
    if i > 0 {
      Pow2Add(i - 1, j);
      assert Pow2(i + j) == 2 * Pow2(i - 1 + j);
    }
  }

  lemma {:induction false} Pow2Grows(i: nat, j: nat)
    requires i < j
    ensures Pow2(i) < Pow2(j)
  {
    if i + 1 < j {
      Pow2Grows(i, j - 1);
    }
  }

  /** A smaller power of two divides a larger one. */
  lemma PowersDivide(a: nat, b: nat)
    requires PowerOfTwo(a) && PowerOfTwo(b) && a <= b
    ensures 0 < a && b % a == 0
  {
    var i: nat :| i < 64 && a == Pow2(i);
    var j: nat :| j < 64 && b == Pow2(j);
    if j < i {
      Pow2Grows(j, i);
    }
    var d := Pow2(j - i);
    Pow2Add(i, j - i);
    assert b == a * d;
    ProductMod(a, d);
  }

  lemma ProductMod(a: nat, q: nat)
    requires 0 < a
    ensures (a * q) % a == 0
  {
    DivModUnique(a * q, a, q, 0);
  }

  lemma DividesTransitive(a: nat, b: nat, c: nat)
    requires 0 < a && 0 < b && b % a == 0 && c % b == 0
    ensures c % a == 0
  {
    var p, q := b / a, c / b;
    assert c == (a * p) * q == a * (p * q);
    ProductMod(a, p * q);
  }

  /** The multiple of `align` at or below `x`. */
  function RoundDown(x: nat, align: nat): nat
    requires 0 < align
  {
    x - x % align
  }

  /** `r` is the least multiple of `align` at or above `addr`. */
  ghost predicate LeastMultiple(addr: nat, align: nat, r: nat)
    requires 0 < align
  {
    r % align == 0 && addr <= r && forall m: nat :: m % align == 0 && addr <= m ==> r <= m
  }

  lemma RoundDownFacts(x: nat, align: nat)
    requires 0 < align
    ensures RoundDown(x, align) % align == 0 && RoundDown(x, align) <= x < RoundDown(x, align) + align
  {
    var q := x / align;
    assert RoundDown(x, align) == align * q;
    ProductMod(align, q);
  }

  lemma MultiplesApart(align: nat, m: nat, r: nat)
    requires 0 < align && m % align == 0 && r % align == 0 && m < r
    ensures m + align <= r
  {
    var p, q := m / align, r / align;
    assert m == align * p && r == align * q;
    assert align * (q - p) == r - m;
    MulStep(align, p, q);
  }

  lemma RoundedIsLeast(addr: nat, align: nat)
    requires 0 < align
    ensures LeastMultiple(addr, align, RoundDown(addr + align - 1, align))
  {
    var r := RoundDown(addr + align - 1, align);
    RoundDownFacts(addr + align - 1, align);
    forall m: nat | m % align == 0 && addr <= m ensures r <= m {
      if m < r {
        MultiplesApart(align, m, r);
      }
    }
  }

  /** The bit trick rounds the wrapped sum down. */
  lemma {:induction false} AlignUpRounds(addr: nat, align: nat)
    requires PowerOfTwo(align)
    ensures 1 <= align < USIZE_LIMIT
    ensures AlignUp(addr, align) == RoundDown((addr + align - 1) % USIZE_LIMIT, align)
  {
    var k: nat :| k < 64 && align == Pow2(k);
    Pow2Word();
    Pow2Grows(k, 64);
    MaskRoundsDown(64, k, (addr + align - 1) % USIZE_LIMIT);
  }

  /** A sum that wraps leaves a result below the address. */
  lemma {:induction false} WrappedIsBelow(addr: nat, align: nat)
    requires PowerOfTwo(align) && addr < USIZE_LIMIT <= addr + align - 1
    ensures 1 <= align && AlignUp(addr, align) < addr
  {
    AlignUpRounds(addr, align);
    var x := addr + align - 1;
    DivModUnique(x, USIZE_LIMIT, 1, x - USIZE_LIMIT);
    RoundDownFacts(x - USIZE_LIMIT, align);
  }

  lemma SmallMod(x: nat, m: nat)
    requires x < m
    ensures x % m == x
  {
  }

  lemma {:induction false} UnwrappedRounds(addr: nat, align: nat)
    requires PowerOfTwo(align) && addr + align - 1 < USIZE_LIMIT
    ensures 1 <= align && AlignUp(addr, align) == RoundDown(addr + align - 1, align)
  {
    AlignUpRounds(addr, align);
    SmallMod(addr + align - 1, USIZE_LIMIT);
  }

  lemma {:induction false} UnwrappedIsLeast(addr: nat, align: nat)
    requires PowerOfTwo(align) && addr + align - 1 < USIZE_LIMIT
    ensures 1 <= align && LeastMultiple(addr, align, AlignUp(addr, align))
  {
    UnwrappedRounds(addr, align);
    RoundedIsLeast(addr, align);
  }

  /** The bit trick computes the least multiple of a power of two at or above the address exactly
      when the sum fits in a machine word. */
  lemma {:induction false} AlignUpLeastIff(addr: nat, align: nat)
    requires PowerOfTwo(align) && addr < USIZE_LIMIT
    ensures 1 <= align
    ensures LeastMultiple(addr, align, AlignUp(addr, align)) <==> addr + align - 1 < USIZE_LIMIT
    ensures addr <= AlignUp(addr, align) <==> addr + align - 1 < USIZE_LIMIT
  {
    if addr + align - 1 < USIZE_LIMIT {
      UnwrappedIsLeast(addr, align);
    } else {
      WrappedIsBelow(addr, align);
    }
  }

  /** What callers use: aligned, not below the address, and less than one step above it. */
  lemma {:induction false} AlignUpFacts(addr: nat, align: nat)
    requires PowerOfTwo(align) && addr + align <= USIZE_LIMIT
    ensures 1 <= align && AlignUp(addr, align) % align == 0
    ensures addr <= AlignUp(addr, align) < addr + align
    ensures addr % align == 0 ==> AlignUp(addr, align) == addr
  {
    UnwrappedRounds(addr, align);
    RoundDownFacts(addr + align - 1, align);
    if addr % align == 0 && addr < RoundDown(addr + align - 1, align) {
      MultiplesApart(align, addr, RoundDown(addr + align - 1, align));
    }
  }

  /** One more than the largest `isize`. */
  const ISIZE_LIMIT: nat := 0x8000_0000_0000_0000

  /** A memory layout as Rust allows it: a power-of-two alignment, and a size that still fits in an
      `isize` after rounding up to it. */
  datatype Layout = Layout(size: nat, align: nat) {
    ghost predicate Valid() {
      PowerOfTwo(align) && size + align <= ISIZE_LIMIT
    }
  }

  function Max(a: nat, b: nat): nat {
    if a < b then b else a
  }
}
