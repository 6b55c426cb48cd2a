/** Rows of pixels in a flat byte buffer: where a pixel's bytes lie for a given row pitch, and what
    copying whole rows does to every single byte. */
module PixelRows {
  import opened Bytes

  /** The first byte of pixel `(x, y)` when a row takes `pitch` pixels of `bpp` bytes. */
  function Offset(pitch: nat, bpp: nat, x: nat, y: nat): nat {
    (y * pitch + x) * bpp
  }

  /** The byte for channel `c` of the `k`-th pixel of a run. */
  function Channel(bpp: nat, k: nat, c: nat): nat {
    k * bpp + c
  }

  /** The buffer with `data` written at `offset`. */
  function Splice(buf: seq<Byte>, offset: nat, data: seq<Byte>): seq<Byte>
    requires offset + |data| <= |buf|
  {
    buf[..offset] + data + buf[offset + |data|..]
  }

  lemma MulMonotone(a: nat, b: nat, k: nat)
    requires a <= b
    ensures a * k <= b * k
  {
  }

  /** A run of `n` pixels inside one row ends inside the buffer. */
  lemma RunInBounds(pitch: nat, bpp: nat, height: nat, x: nat, y: nat, n: nat)
    requires x + n <= pitch && y < height
    ensures Offset(pitch, bpp, x, y) + n * bpp == (y * pitch + x + n) * bpp <= height * pitch * bpp
  {
    MulMonotone(y + 1, height, pitch);
    assert (y + 1) * pitch == y * pitch + pitch;
    MulMonotone(y * pitch + x + n, height * pitch, bpp);
  }

  /** A byte of pixel `q` lies among the bytes of pixels `p..p+n` exactly when the pixel does. */
  lemma ByteInRun(p: nat, n: nat, q: nat, c: nat, bpp: nat)
    requires c < bpp
    ensures p * bpp <= q * bpp + c < (p + n) * bpp <==> p <= q < p + n
  {
    if p <= q { MulMonotone(p, q, bpp); } else { MulMonotone(q + 1, p, bpp); assert (q + 1) * bpp == q * bpp + bpp; }
    if q < p + n { MulMonotone(q + 1, p + n, bpp); assert (q + 1) * bpp == q * bpp + bpp; } else { MulMonotone(p + n, q, bpp); }
  }

  /** A pixel lies among `n` pixels of row `y` from column `x` exactly when its row and column say so. */
  lemma PixelInRun(pitch: nat, x: nat, y: nat, n: nat, x': nat, y': nat)
    requires x + n <= pitch && x' < pitch
    ensures y * pitch + x <= y' * pitch + x' < y * pitch + x + n <==> y' == y && x <= x' < x + n
  {
    if y < y' { MulMonotone(y + 1, y', pitch); assert (y + 1) * pitch == y * pitch + pitch; }
    if y' < y { MulMonotone(y' + 1, y, pitch); assert (y' + 1) * pitch == y' * pitch + pitch; }
  }

  /** The bytes of the run that starts at `(x, y)`, seen from pixel `(x', y')`. */
  lemma RunMembership(pitch: nat, bpp: nat, x: nat, y: nat, n: nat, x': nat, y': nat, c: nat)
    requires x + n <= pitch && x' < pitch && c < bpp
    ensures var i := Offset(pitch, bpp, x', y') + c;
            && (Offset(pitch, bpp, x, y) <= i < Offset(pitch, bpp, x, y) + n * bpp <==> y' == y && x <= x' < x + n)
            && (y' == y && x <= x' ==> i - Offset(pitch, bpp, x, y) == Channel(bpp, x' - x, c))
  {
    var p, q := y * pitch + x, y' * pitch + x';
    ByteInRun(p, n, q, c, bpp);
    PixelInRun(pitch, x, y, n, x', y');
    assert (p + n) * bpp == p * bpp + n * bpp;
    if y' == y && x <= x' {
      assert q == p + (x' - x);
      assert q * bpp == p * bpp + (x' - x) * bpp;
    }
  }

  /** The byte for channel `c` of a pixel. */
  function At(buf: seq<Byte>, pitch: nat, bpp: nat, x: nat, y: nat, c: nat): Byte
    requires Offset(pitch, bpp, x, y) + c < |buf|
  {
    buf[Offset(pitch, bpp, x, y) + c]
  }

  predicate InBuffer(buf: seq<Byte>, pitch: nat, bpp: nat, height: nat) {
    height * pitch * bpp <= |buf|
  }

  lemma PixelInBounds(pitch: nat, bpp: nat, height: nat, x: nat, y: nat, c: nat)
    requires x < pitch && y < height && c < bpp
    ensures Offset(pitch, bpp, x, y) + c < height * pitch * bpp
  {
    RunInBounds(pitch, bpp, height, x, y, 1);
  }

  /** Writing one run changes the pixels of that run and no other byte. */
  lemma SpliceAt(buf: seq<Byte>, pitch: nat, bpp: nat, height: nat, x: nat, y: nat, n: nat, data: seq<Byte>,
                 x': nat, y': nat, c: nat)
    requires InBuffer(buf, pitch, bpp, height) && x + n <= pitch && y < height && |data| <= n * bpp
    requires x' < pitch && y' < height && c < bpp && (n <= 1 || |data| == n * bpp)
    ensures Offset(pitch, bpp, x, y) + |data| <= |buf|
    ensures Offset(pitch, bpp, x', y') + c < |buf|
    ensures At(Splice(buf, Offset(pitch, bpp, x, y), data), pitch, bpp, x', y', c) ==
            if y' == y && x <= x' < x + n && Channel(bpp, x' - x, c) < |data|
            then data[Channel(bpp, x' - x, c)] else At(buf, pitch, bpp, x', y', c)
  {
    RunInBounds(pitch, bpp, height, x, y, n);
    PixelInBounds(pitch, bpp, height, x', y', c);
    RunMembership(pitch, bpp, x, y, n, x', y', c);
  }

  // ---------------------------------------------------------------- several rows

  /** Bytes to be put at an offset. */
  datatype Write = Write(offset: nat, data: seq<Byte>) {
    predicate Covers(i: int) {
      offset <= i < offset + |data|
    }
  }

  predicate WritesFit(writes: seq<Write>, size: nat) {
    forall k :: 0 <= k < |writes| ==> writes[k].offset + |writes[k].data| <= size
  }

  /** The buffer after some writes, in order. */
  function ApplyWrites(buf: seq<Byte>, writes: seq<Write>): (r: seq<Byte>)
    requires WritesFit(writes, |buf|)
    ensures |r| == |buf|
    decreases |writes|
  {
    if writes == [] then buf
    else
      var last := |writes| - 1;
      Splice(ApplyWrites(buf, writes[..last]), writes[last].offset, writes[last].data)
  }

  lemma {:induction false} WritesMiss(buf: seq<Byte>, writes: seq<Write>, i: nat)
    requires WritesFit(writes, |buf|) && i < |buf|
    requires forall k :: 0 <= k < |writes| ==> !writes[k].Covers(i)
    ensures ApplyWrites(buf, writes)[i] == buf[i]
    decreases |writes|
  {
    if writes != [] {
      WritesMiss(buf, writes[..|writes| - 1], i);
      assert !writes[|writes| - 1].Covers(i);
    }
  }

  lemma {:induction false} WritesHit(buf: seq<Byte>, writes: seq<Write>, k: nat, i: nat)
    requires WritesFit(writes, |buf|) && i < |buf| && k < |writes| && writes[k].Covers(i)
    requires forall j :: k < j < |writes| ==> !writes[j].Covers(i)
    ensures ApplyWrites(buf, writes)[i] == writes[k].data[i - writes[k].offset]
    decreases |writes|
  {
    if k < |writes| - 1 {
      WritesHit(buf, writes[..|writes| - 1], k, i);
      assert !writes[|writes| - 1].Covers(i);
    }
  }

  predicate AllOfLength(rows: seq<seq<Byte>>, length: nat) {
    forall j :: 0 <= j < |rows| ==> |rows[j]| == length
  }

  /** Row `j` of the list goes to column `x` of row `y + j`. */
  function RowWrites(pitch: nat, bpp: nat, x: nat, y: nat, rows: seq<seq<Byte>>): (writes: seq<Write>)
    ensures |writes| == |rows|
    ensures forall j :: 0 <= j < |rows| ==> writes[j] == Write(Offset(pitch, bpp, x, y + j), rows[j])
  {
    seq(|rows|, j requires 0 <= j < |rows| => Write(Offset(pitch, bpp, x, y + j), rows[j]))
  }

  lemma RowWritesFit(pitch: nat, bpp: nat, height: nat, x: nat, y: nat, n: nat, rows: seq<seq<Byte>>, limit: nat)
    requires x + n <= pitch && y + |rows| <= height && AllOfLength(rows, n * bpp) && height * pitch * bpp <= limit
    ensures WritesFit(RowWrites(pitch, bpp, x, y, rows), limit)
  {
    var writes := RowWrites(pitch, bpp, x, y, rows);
    forall j | 0 <= j < |rows| ensures writes[j].offset + |writes[j].data| <= limit {
      RunInBounds(pitch, bpp, height, x, y + j, n);
    }
  }

  /** The rows written one below the other. */
  function CopyRows(buf: seq<Byte>, pitch: nat, bpp: nat, height: nat, x: nat, y: nat, n: nat, rows: seq<seq<Byte>>): (r: seq<Byte>)
    requires InBuffer(buf, pitch, bpp, height) && x + n <= pitch && y + |rows| <= height
    requires AllOfLength(rows, n * bpp)
    ensures |r| == |buf|
  {
    RowWritesFit(pitch, bpp, height, x, y, n, rows, |buf|);
    ApplyWrites(buf, RowWrites(pitch, bpp, x, y, rows))
  }

  /** Which of the writes reaches a byte of pixel `(x', y')`. */
  lemma RowWriteCovers(pitch: nat, bpp: nat, x: nat, y: nat, n: nat, rows: seq<seq<Byte>>, j: nat, x': nat, y': nat, c: nat)
    requires x + n <= pitch && x' < pitch && c < bpp && AllOfLength(rows, n * bpp) && j < |rows|
    ensures var w, i := RowWrites(pitch, bpp, x, y, rows)[j], Offset(pitch, bpp, x', y') + c;
            && (w.Covers(i) <==> y' == y + j && x <= x' < x + n)
            && (w.Covers(i) ==> i - w.offset == Channel(bpp, x' - x, c))
  {
    RunMembership(pitch, bpp, x, y + j, n, x', y', c);
  }

  /** Copying rows changes exactly the pixels of those rows and columns. */
  lemma CopyRowsAt(buf: seq<Byte>, pitch: nat, bpp: nat, height: nat, x: nat, y: nat, n: nat,
                   rows: seq<seq<Byte>>, x': nat, y': nat, c: nat)
    requires InBuffer(buf, pitch, bpp, height) && x + n <= pitch && y + |rows| <= height
    requires AllOfLength(rows, n * bpp)
    requires x' < pitch && y' < height && c < bpp
    ensures Offset(pitch, bpp, x', y') + c < |buf|
    ensures y <= y' < y + |rows| && x <= x' < x + n ==> Channel(bpp, x' - x, c) < |rows[y' - y]|
    ensures At(CopyRows(buf, pitch, bpp, height, x, y, n, rows), pitch, bpp, x', y', c) ==
            if y <= y' < y + |rows| && x <= x' < x + n
            then rows[y' - y][Channel(bpp, x' - x, c)] else At(buf, pitch, bpp, x', y', c)
  {
    PixelInBounds(pitch, bpp, height, x', y', c);
    RowWritesFit(pitch, bpp, height, x, y, n, rows, |buf|);
    var writes, i := RowWrites(pitch, bpp, x, y, rows), Offset(pitch, bpp, x', y') + c;
    forall j | 0 <= j < |writes| ensures writes[j].Covers(i) <==> y' == y + j && x <= x' < x + n {
      RowWriteCovers(pitch, bpp, x, y, n, rows, j, x', y', c);
    }
    if y <= y' < y + |rows| && x <= x' < x + n {
      RowWriteCovers(pitch, bpp, x, y, n, rows, y' - y, x', y', c);
      WritesHit(buf, writes, y' - y, i);
    } else {
      WritesMiss(buf, writes, i);
    }
  }

  /** A byte past the last row is not touched. */
  lemma CopyRowsBeyond(buf: seq<Byte>, pitch: nat, bpp: nat, height: nat, x: nat, y: nat, n: nat,
                       rows: seq<seq<Byte>>, i: nat)
    requires InBuffer(buf, pitch, bpp, height) && x + n <= pitch && y + |rows| <= height
    requires AllOfLength(rows, n * bpp)
    requires height * pitch * bpp <= i < |buf|
    ensures CopyRows(buf, pitch, bpp, height, x, y, n, rows)[i] == buf[i]
  {
    RowWritesFit(pitch, bpp, height, x, y, n, rows, i);
    RowWritesFit(pitch, bpp, height, x, y, n, rows, |buf|);
    WritesMiss(buf, RowWrites(pitch, bpp, x, y, rows), i);
  }

  lemma DivDown(i: nat, d: nat, m: nat)
    requires 0 < d && i < m * d
    ensures i / d < m && i == (i / d) * d + i % d
  {
    var q := i / d;
    assert i == d * q + i % d;
    if m <= q { MulMonotone(m, q, d); }
  }

  ghost predicate ZeroAt(buf: seq<Byte>, pitch: nat, bpp: nat, x: nat, y: nat, c: nat) {
    Offset(pitch, bpp, x, y) + c < |buf| && At(buf, pitch, bpp, x, y, c) == 0
  }

  ghost predicate SamePixel(a: seq<Byte>, b: seq<Byte>, pitch: nat, bpp: nat, x: nat, y: nat, c: nat)
    requires |a| == |b|
  {
    Offset(pitch, bpp, x, y) + c < |a| && At(a, pitch, bpp, x, y, c) == At(b, pitch, bpp, x, y, c)
  }

  /** Two buffers of exactly this many pixels are equal once every channel of every pixel is. */
  lemma SameByPixels(a: seq<Byte>, b: seq<Byte>, pitch: nat, bpp: nat, height: nat)
    requires |a| == |b| == height * pitch * bpp
    requires forall x: nat, y: nat, c: nat :: x < pitch && y < height && c < bpp ==> SamePixel(a, b, pitch, bpp, x, y, c)
    ensures a == b
  {
    forall i | 0 <= i < |a| ensures a[i] == b[i] {
      assert bpp != 0 && pitch != 0;
      DivDown(i, bpp, height * pitch);
      var p, c := i / bpp, i % bpp;
      DivDown(p, pitch, height);
      var y, x := p / pitch, p % pitch;
      assert SamePixel(a, b, pitch, bpp, x, y, c);
    }
  }

  // ---------------------------------------------------------------- in place

  lemma SpliceStep(buf: seq<Byte>, offset: nat, src: seq<Byte>, i: nat)
    requires offset + |src| <= |buf| && i < |src|
    ensures Splice(buf, offset, src[..i])[offset + i := src[i]] == Splice(buf, offset, src[..i + 1])
  {
  }

  /** `copy_nonoverlapping`; the bound is what makes the raw copy legal. */
  method CopyBytes(src: seq<Byte>, dst: array<Byte>, offset: nat)
    requires offset + |src| <= dst.Length
    modifies dst
    ensures dst[..] == Splice(old(dst[..]), offset, src)
  {
    var i := 0;
    while i < |src|
      invariant 0 <= i <= |src|
      invariant dst[..] == Splice(old(dst[..]), offset, src[..i])
    {
      SpliceStep(old(dst[..]), offset, src, i);
      dst[offset + i] := src[i];
      i := i + 1;
    }
    assert src[..i] == src;
  }

  lemma CopyRowsSnoc(buf: seq<Byte>, pitch: nat, bpp: nat, height: nat, x: nat, y: nat, n: nat, rows: seq<seq<Byte>>, row: seq<Byte>)
    requires InBuffer(buf, pitch, bpp, height) && x + n <= pitch && y + |rows| < height
    requires |row| == n * bpp && AllOfLength(rows, n * bpp)
    ensures AllOfLength(rows + [row], n * bpp)
    ensures Offset(pitch, bpp, x, y + |rows|) + |row| <= |buf|
    ensures CopyRows(buf, pitch, bpp, height, x, y, n, rows + [row]) ==
            Splice(CopyRows(buf, pitch, bpp, height, x, y, n, rows), Offset(pitch, bpp, x, y + |rows|), row)
  {
    var before, after := RowWrites(pitch, bpp, x, y, rows), RowWrites(pitch, bpp, x, y, rows + [row]);
    assert after[..|rows|] == before;
    assert after[|rows|] == Write(Offset(pitch, bpp, x, y + |rows|), row);
    RowWritesFit(pitch, bpp, height, x, y, n, rows + [row], |buf|);
  }

  /** One more row after those already copied. */
  method CopyRow(row: seq<Byte>, dst: array<Byte>, offset: nat, ghost before: seq<Byte>, ghost pitch: nat, ghost bpp: nat,
                 ghost height: nat, ghost x: nat, ghost y: nat, ghost n: nat, ghost rows: seq<seq<Byte>>)
    requires InBuffer(before, pitch, bpp, height) && x + n <= pitch && y + |rows| < height
    requires |row| == n * bpp && AllOfLength(rows, n * bpp)
    requires dst[..] == CopyRows(before, pitch, bpp, height, x, y, n, rows)
    requires offset == Offset(pitch, bpp, x, y + |rows|)
    modifies dst
    ensures dst[..] == CopyRows(before, pitch, bpp, height, x, y, n, rows + [row])
  {
    CopyRowsSnoc(before, pitch, bpp, height, x, y, n, rows, row);
    CopyBytes(row, dst, offset);
  }
}
