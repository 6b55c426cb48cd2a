/** The double-buffered display: pixel-by-pixel drawing, the row-copy fast paths, and the copy of the
    back buffer to the screen. */
module Framebuffer {
  import opened Bytes
  import opened PixelRows
  import opened Alignment

  datatype PixelFormat = Rgb | Bgr | U8 | Other

  datatype Info = Info(width: nat, height: nat, stride: nat, bytesPerPixel: nat, format: PixelFormat)

  datatype Color = Color(red: Byte, green: Byte, blue: Byte)

  datatype Pixel = Pixel(point: Point, color: Color)

  type I32 = v: int | -0x8000_0000 <= v < 0x8000_0000

  /** A pixel coordinate as the drawing library passes it; it may lie off the screen. */
  datatype Point = Point(x: I32, y: I32)

  /** A rectangle all of whose points have such coordinates. */
  type Rectangle = r: RawRectangle | r.InRange() witness Rectangle(0, 0, 0, 0)

  datatype RawRectangle = Rectangle(x: int, y: int, width: nat, height: nat) {
    predicate InRange() {
      && -0x8000_0000 <= x && x + width <= 0x8000_0000
      && -0x8000_0000 <= y && y + height <= 0x8000_0000
    }
  }

  /** A cast from `i32` to `usize`: negative coordinates become huge. */
  function AsUsize(v: I32): nat {
    if v < 0 then v + 0x1_0000_0000_0000_0000 else v
  }

  function Gray(color: Color): Byte {
    color.red / 3 + color.green / 3 + color.blue / 3
  }

  /** The bytes `draw_pixel` writes. */
  function PixelBytes(format: PixelFormat, color: Color): seq<Byte> {
    match format
    case Rgb => [color.red, color.green, color.blue]
    case Bgr => [color.blue, color.green, color.red]
    case U8 => [Gray(color)]
    case Other => []
  }

  /** How a 32-bit word lies in memory. */
  function LittleEndian(word: nat): seq<Byte> {
    [word % 256, word / 256 % 256, word / 65536 % 256, word / 16777216 % 256]
  }

  /** Bitwise `|`. */
  function BitOr(x: nat, y: nat): nat
    decreases x + y
  {
    if x + y == 0 then 0 else (if x % 2 + y % 2 == 0 then 0 else 1) + 2 * BitOr(x / 2, y / 2)
  }

  /** `<<` by `k` bits in a 32-bit word. */
  function ShiftLeft(x: nat, k: nat): nat {
    x * Pow2(k) % 0x1_0000_0000
  }

  function Packed(a: Byte, b: Byte, c: Byte): nat {
    BitOr(BitOr(a, ShiftLeft(b, 8)), ShiftLeft(c, 16))
  }

  /** The bytes of one element of the row the fast paths copy: a packed word, or a gray byte. */
  function FastPixel(format: PixelFormat, color: Color): seq<Byte> {
    match format
    case Rgb => LittleEndian(Packed(color.red, color.green, color.blue))
    case Bgr => LittleEndian(Packed(color.blue, color.green, color.red))
    case U8 => [Gray(color)]
    case Other => []
  }

  /** The format is known and a pixel has room for it. */
  predicate Drawable(info: Info) {
    match info.format
    case Rgb => 3 <= info.bytesPerPixel
    case Bgr => 3 <= info.bytesPerPixel
    case U8 => 1 <= info.bytesPerPixel
    case Other => false
  }

  /** What the debug assertions of the fast paths demand. */
  predicate FastDrawable(info: Info) {
    match info.format
    case Rgb => info.bytesPerPixel == 4
    case Bgr => info.bytesPerPixel == 4
    case U8 => info.bytesPerPixel == 1
    case Other => false
  }

  /** A screen the boot loader may describe. */
  predicate ValidInfo(info: Info) {
    && info.width <= info.stride
    && info.width < 0x8000_0000 && info.height < 0x8000_0000
  }

  predicate OnScreen(info: Info, p: Point) {
    AsUsize(p.x) < info.width && AsUsize(p.y) < info.height
  }

  predicate BackBuffer(info: Info, buf: seq<Byte>) {
    |buf| == info.height * info.width * info.bytesPerPixel
  }

  lemma FastPixelBytes(format: PixelFormat, color: Color)
    requires format != Other
    ensures |PixelBytes(format, color)| <= |FastPixel(format, color)|
    ensures forall c :: 0 <= c < |FastPixel(format, color)| ==>
              FastPixel(format, color)[c] == if c < |PixelBytes(format, color)| then PixelBytes(format, color)[c] else 0
  {
    if format == Rgb { PackedWord(color.red, color.green, color.blue); }
    if format == Bgr { PackedWord(color.blue, color.green, color.red); }
  }

  lemma {:induction false} OrZero(y: nat)
    ensures BitOr(0, y) == y
  {
    if y > 0 { OrZero(y / 2); }
  }

  lemma Halves(y: nat)
    ensures (2 * y) % 2 == 0 && (2 * y) / 2 == y
  {
  }

  lemma {:induction false} OrDouble(x: nat, y: nat)
    ensures BitOr(x, 2 * y) == x % 2 + 2 * BitOr(x / 2, y)
  {
    Halves(y);
    if x + 2 * y == 0 {
      assert BitOr(x / 2, y) == 0;
    }
  }

  lemma DoubleProduct(q: nat, p: nat)
    ensures q * (2 * p) == 2 * (q * p)
  {
  }

  /** An or of a short word with a word whose low bits are clear is their sum. */
  lemma {:induction false} OrIsSum(k: nat, x: nat, q: nat)
    requires x < Pow2(k)
    ensures BitOr(x, q * Pow2(k)) == x + q * Pow2(k)
  {
    if k == 0 {
      OrZero(q);
    } else {
      DoubleProduct(q, Pow2(k - 1));
      OrDouble(x, q * Pow2(k - 1));
      OrIsSum(k - 1, x / 2, q);
    }
  }

  lemma ByteShifts()
    ensures Pow2(8) == 256 && Pow2(16) == 65536
  {
    Pow2Sixteen();
    assert Pow2(4) == 16;
    assert Pow2(8) == 256;
  }

  lemma ProductBound(b: nat, p: nat, m: nat, n: nat)
    requires b <= m && p <= n
    ensures b * p <= m * n
  {
    assert b * p <= b * n;
  }

  /** A byte shifted above everything in the word so far is added to it. */
  lemma OrByte(x: nat, b: Byte, k: nat, p: nat)
    requires Pow2(k) == p <= 65536 && x < p
    ensures BitOr(x, ShiftLeft(b, k)) == x + b * p
  {
    ProductBound(b, p, 255, 65536);
    SmallMod(b * p, 0x1_0000_0000);
    OrIsSum(k, x, b);
  }

  lemma PackedIsSum(a: Byte, b: Byte, c: Byte)
    ensures Packed(a, b, c) == a + b * 256 + c * 65536
  {
    ByteShifts();
    OrByte(a, b, 8, 256);
    OrByte(a + b * 256, c, 16, 65536);
  }

  lemma SumBytes(word: nat, a: Byte, b: Byte, c: Byte)
    requires word == a + b * 256 + c * 65536
    ensures LittleEndian(word) == [a, b, c, 0]
  {
    DivModUnique(word, 256, b + c * 256, a);
    DivModUnique(b + c * 256, 256, c, b);
    DivModUnique(word, 65536, c, a + b * 256);
    DivModUnique(word, 16777216, 0, word);
  }

  /** The packed word lies in memory as the three colour bytes followed by a zero. */
  lemma PackedWord(a: Byte, b: Byte, c: Byte)
    ensures LittleEndian(Packed(a, b, c)) == [a, b, c, 0]
  {
    PackedIsSum(a, b, c);
    SumBytes(Packed(a, b, c), a, b, c);
  }

  // ---------------------------------------------------------------- drawing pixel by pixel

  function AfterPixel(info: Info, buf: seq<Byte>, p: Point, color: Color): (r: seq<Byte>)
    requires ValidInfo(info) && Drawable(info) && BackBuffer(info, buf)
    ensures |r| == |buf|
  {
    if OnScreen(info, p) then
      RunInBounds(info.width, info.bytesPerPixel, info.height, p.x, p.y, 1);
      Splice(buf, Offset(info.width, info.bytesPerPixel, p.x, p.y), PixelBytes(info.format, color))
    else buf
  }

  /** The reference: every pixel of the list drawn on its own, in order, off-screen ones ignored. */
  function AfterPixels(info: Info, buf: seq<Byte>, pixels: seq<Pixel>): (r: seq<Byte>)
    requires ValidInfo(info) && Drawable(info) && BackBuffer(info, buf)
    ensures |r| == |buf|
    decreases |pixels|
  {
    if pixels == [] then buf
    else
      var last := pixels[|pixels| - 1];
      AfterPixel(info, AfterPixels(info, buf, pixels[..|pixels| - 1]), last.point, last.color)
  }

  lemma AfterPixelAt(info: Info, buf: seq<Byte>, p: Point, color: Color, x: nat, y: nat, c: nat)
    requires ValidInfo(info) && Drawable(info) && BackBuffer(info, buf)
    requires x < info.width && y < info.height && c < info.bytesPerPixel
    ensures Offset(info.width, info.bytesPerPixel, x, y) + c < |buf|
    ensures At(AfterPixel(info, buf, p, color), info.width, info.bytesPerPixel, x, y, c) ==
            if p == Point(x, y) && c < |PixelBytes(info.format, color)| then PixelBytes(info.format, color)[c]
            else At(buf, info.width, info.bytesPerPixel, x, y, c)
  {
    PixelInBounds(info.width, info.bytesPerPixel, info.height, x, y, c);
    if OnScreen(info, p) {
      SpliceAt(buf, info.width, info.bytesPerPixel, info.height, p.x, p.y, 1, PixelBytes(info.format, color), x, y, c);
    }
  }

  /** What drawing a list of pixels of one colour does to every byte. */
  lemma {:induction false} AfterPixelsAt(info: Info, buf: seq<Byte>, pixels: seq<Pixel>, color: Color, x: nat, y: nat, c: nat)
    requires ValidInfo(info) && Drawable(info) && BackBuffer(info, buf)
    requires forall i :: 0 <= i < |pixels| ==> pixels[i].color == color
    requires x < info.width && y < info.height && c < info.bytesPerPixel
    ensures Offset(info.width, info.bytesPerPixel, x, y) + c < |buf|
    ensures At(AfterPixels(info, buf, pixels), info.width, info.bytesPerPixel, x, y, c) ==
            if Pixel(Point(x, y), color) in pixels && c < |PixelBytes(info.format, color)|
            then PixelBytes(info.format, color)[c] else At(buf, info.width, info.bytesPerPixel, x, y, c)
    decreases |pixels|
  {
    if pixels == [] {
      PixelInBounds(info.width, info.bytesPerPixel, info.height, x, y, c);
    } else {
      var last := |pixels| - 1;
      assert pixels == pixels[..last] + [pixels[last]];
      AfterPixelsAt(info, buf, pixels[..last], color, x, y, c);
      AfterPixelAt(info, AfterPixels(info, buf, pixels[..last]), pixels[last].point, color, x, y, c);
    }
  }

  /** The buffer shows this colour at the pixel: which byte holds which component, and what gray means. */
  predicate Shows(info: Info, buf: seq<Byte>, x: nat, y: nat, color: Color)
    requires Drawable(info) && Offset(info.width, info.bytesPerPixel, x, y) + info.bytesPerPixel <= |buf|
  {
    var at := Offset(info.width, info.bytesPerPixel, x, y);
    match info.format
    case Rgb => buf[at] == color.red && buf[at + 1] == color.green && buf[at + 2] == color.blue
    case Bgr => buf[at + 2] == color.red && buf[at + 1] == color.green && buf[at] == color.blue
    case U8 =>
      var gray: int, red: int, green: int, blue: int := buf[at], color.red, color.green, color.blue;
      3 * gray == red + green + blue - red % 3 - green % 3 - blue % 3
  }

  lemma PixelBytesShow(info: Info, buf: seq<Byte>, x: nat, y: nat, color: Color)
    requires Drawable(info) && Offset(info.width, info.bytesPerPixel, x, y) + info.bytesPerPixel <= |buf|
    requires forall c: nat :: c < |PixelBytes(info.format, color)| ==>
               At(buf, info.width, info.bytesPerPixel, x, y, c) == PixelBytes(info.format, color)[c]
    ensures Shows(info, buf, x, y, color)
  {
    assert At(buf, info.width, info.bytesPerPixel, x, y, 0) == PixelBytes(info.format, color)[0];
    if info.format != U8 {
      assert At(buf, info.width, info.bytesPerPixel, x, y, 1) == PixelBytes(info.format, color)[1];
      assert At(buf, info.width, info.bytesPerPixel, x, y, 2) == PixelBytes(info.format, color)[2];
    }
  }

  /** What any list of pixels does to one byte: the last pixel drawn at that point decides, and without
      one the byte stays. */
  lemma {:induction false} LastPixelDecides(info: Info, buf: seq<Byte>, pixels: seq<Pixel>, k: nat, x: nat, y: nat, c: nat)
    requires ValidInfo(info) && Drawable(info) && BackBuffer(info, buf) && k <= |pixels|
    requires x < info.width && y < info.height && c < info.bytesPerPixel
    requires k < |pixels| ==> pixels[k].point == Point(x, y)
    requires forall j :: 0 <= j < |pixels| && (j > k || k == |pixels|) ==> pixels[j].point != Point(x, y)
    ensures Offset(info.width, info.bytesPerPixel, x, y) + c < |buf|
    ensures At(AfterPixels(info, buf, pixels), info.width, info.bytesPerPixel, x, y, c) ==
            if k < |pixels| && c < |PixelBytes(info.format, pixels[k].color)| then PixelBytes(info.format, pixels[k].color)[c]
            else At(if k < |pixels| then AfterPixels(info, buf, pixels[..k]) else buf,
                    info.width, info.bytesPerPixel, x, y, c)
    decreases |pixels|
  {
    PixelInBounds(info.width, info.bytesPerPixel, info.height, x, y, c);
    if pixels != [] {
      var last := |pixels| - 1;
      var before := AfterPixels(info, buf, pixels[..last]);
      AfterPixelAt(info, before, pixels[last].point, pixels[last].color, x, y, c);
      if k != last {
        LastPixelDecides(info, buf, pixels[..last], if k < last then k else last, x, y, c);
        assert k < last ==> pixels[..last][..k] == pixels[..k];
      }
    }
  }

  /** Drawing shows, at every point, the colour of the last pixel of the list there. */
  lemma LastPixelShows(info: Info, buf: seq<Byte>, pixels: seq<Pixel>, k: nat, x: nat, y: nat)
    requires ValidInfo(info) && Drawable(info) && BackBuffer(info, buf) && k < |pixels|
    requires x < info.width && y < info.height && pixels[k].point == Point(x, y)
    requires forall j :: k < j < |pixels| ==> pixels[j].point != Point(x, y)
    ensures Offset(info.width, info.bytesPerPixel, x, y) + info.bytesPerPixel <= |buf|
    ensures Shows(info, AfterPixels(info, buf, pixels), x, y, pixels[k].color)
  {
    PixelInBounds(info.width, info.bytesPerPixel, info.height, x, y, info.bytesPerPixel - 1);
    forall c: nat | c < |PixelBytes(info.format, pixels[k].color)|
      ensures At(AfterPixels(info, buf, pixels), info.width, info.bytesPerPixel, x, y, c) ==
              PixelBytes(info.format, pixels[k].color)[c]
    {
      LastPixelDecides(info, buf, pixels, k, x, y, c);
    }
    PixelBytesShow(info, AfterPixels(info, buf, pixels), x, y, pixels[k].color);
  }

  // ---------------------------------------------------------------- points and clipping

  function RowPoints(x: int, y: I32, n: nat): seq<Point>
    requires -0x8000_0000 <= x && x + n <= 0x8000_0000
  {
    seq(n, i requires 0 <= i < n => Point(x + i, y))
  }

  /** Every point of a rectangle, row by row. */
  function Points(area: Rectangle): seq<Point>
    decreases area.height
  {
    if area.height == 0 then []
    else RowPoints(area.x, area.y, area.width) + Points(area.(y := area.y + 1, height := area.height - 1))
  }

  /** The pixels of a rectangle in one colour. */
  function Colored(area: Rectangle, color: Color): seq<Pixel> {
    var points := Points(area);
    seq(|points|, i requires 0 <= i < |points| => Pixel(points[i], color))
  }

  lemma ColoredMembers(area: Rectangle, color: Color, p: Point)
    ensures Pixel(p, color) in Colored(area, color) <==> Contains(area, p)
  {
    PointsMembers(area, p);
    var points := Points(area);
    if p in points {
      var i :| 0 <= i < |points| && points[i] == p;
      assert Colored(area, color)[i] == Pixel(p, color);
    }
  }

  predicate Contains(area: Rectangle, p: Point) {
    area.x <= p.x < area.x + area.width && area.y <= p.y < area.y + area.height
  }

  lemma {:induction false} PointsMembers(area: Rectangle, p: Point)
    ensures p in Points(area) <==> Contains(area, p)
    decreases area.height
  {
    if area.height > 0 {
      var row := RowPoints(area.x, area.y, area.width);
      var below := area.(y := area.y + 1, height := area.height - 1);
      PointsMembers(below, p);
      if p.y == area.y && area.x <= p.x < area.x + area.width {
        assert row[p.x - area.x] == p;
      }
    }
  }

  function Min(a: int, b: int): int {
    if a < b then a else b
  }

  function MaxInt(a: int, b: int): int {
    if a < b then b else a
  }

  /** The part of a rectangle on the screen, or the zero rectangle when there is none. */
  function Clip(info: Info, area: Rectangle): (r: Rectangle)
    requires ValidInfo(info)
    ensures r.x + r.width <= info.width && r.y + r.height <= info.height && 0 <= r.x && 0 <= r.y
    ensures forall p: Point :: Contains(r, p) <==>
              Contains(area, p) && 0 <= p.x < info.width && 0 <= p.y < info.height
  {
    var x0, y0 := MaxInt(0, area.x), MaxInt(0, area.y);
    var x1, y1 := Min(info.width, area.x + area.width), Min(info.height, area.y + area.height);
    if x0 < x1 && y0 < y1 then Rectangle(x0, y0, x1 - x0, y1 - y0) else Rectangle(0, 0, 0, 0)
  }

  // ---------------------------------------------------------------- the row-copy fast path

  /** One row of `n` identical pixels. */
  function Wide(pixel: seq<Byte>, n: nat): (r: seq<Byte>)
    ensures |r| == n * |pixel|
    ensures forall k, c :: 0 <= k < n && 0 <= c < |pixel| ==> Channel(|pixel|, k, c) < |r| && r[Channel(|pixel|, k, c)] == pixel[c]
  {
    if n == 0 then []
    else
      var rest := Wide(pixel, n - 1);
      rest + pixel
  }

  /** The row the fast paths copy. */
  function SolidRow(info: Info, color: Color, n: nat): (r: seq<Byte>)
    requires FastDrawable(info)
    ensures |r| == n * info.bytesPerPixel
  {
    Wide(FastPixel(info.format, color), n)
  }

  function Repeat(row: seq<Byte>, n: nat): (rows: seq<seq<Byte>>)
    ensures |rows| == n && forall j :: 0 <= j < n ==> rows[j] == row
  {
    seq(n, _ => row)
  }

  function AfterFill(info: Info, buf: seq<Byte>, r: Rectangle, color: Color): (b: seq<Byte>)
    requires FastDrawable(info) && BackBuffer(info, buf)
    requires 0 <= r.x && 0 <= r.y && r.x + r.width <= info.width && r.y + r.height <= info.height
    ensures |b| == |buf|
  {
    CopyRows(buf, info.width, info.bytesPerPixel, info.height, r.x, r.y, r.width,
             Repeat(SolidRow(info, color, r.width), r.height))
  }

  /** The bytes of a pixel that no colour byte goes to. */
  ghost predicate PaddingZero(info: Info, buf: seq<Byte>)
    requires BackBuffer(info, buf)
  {
    forall x: nat, y: nat, c: nat :: x < info.width && y < info.height && ColorBytes(info.format) <= c < info.bytesPerPixel ==>
      ZeroAt(buf, info.width, info.bytesPerPixel, x, y, c)
  }

  function ColorBytes(format: PixelFormat): nat {
    match format case Rgb => 3 case Bgr => 3 case U8 => 1 case Other => 0
  }

  lemma AfterFillAt(info: Info, buf: seq<Byte>, r: Rectangle, color: Color, x: nat, y: nat, c: nat)
    requires FastDrawable(info) && BackBuffer(info, buf)
    requires 0 <= r.x && 0 <= r.y && r.x + r.width <= info.width && r.y + r.height <= info.height
    requires ValidInfo(info) && x < info.width && y < info.height && c < info.bytesPerPixel
    ensures Offset(info.width, info.bytesPerPixel, x, y) + c < |buf|
    ensures At(AfterFill(info, buf, r, color), info.width, info.bytesPerPixel, x, y, c) ==
            if Contains(r, Point(x, y)) then FastPixel(info.format, color)[c]
            else At(buf, info.width, info.bytesPerPixel, x, y, c)
  {
    var wide := SolidRow(info, color, r.width);
    CopyRowsAt(buf, info.width, info.bytesPerPixel, info.height, r.x, r.y, r.width, Repeat(wide, r.height), x, y, c);
  }

  /** The fast path gives exactly the back buffer that drawing each point of the unclipped area on its
      own would give, provided the fourth byte of every pixel is zero, as it always is. */
  lemma FillEqualsPixels(info: Info, buf: seq<Byte>, area: Rectangle, color: Color)
    requires ValidInfo(info) && Drawable(info) && FastDrawable(info) && BackBuffer(info, buf) && PaddingZero(info, buf)
    ensures AfterPixels(info, buf, Colored(area, color)) ==
            if Clip(info, area) == Rectangle(0, 0, 0, 0) then buf else AfterFill(info, buf, Clip(info, area), color)
  {
    var w, b, h := info.width, info.bytesPerPixel, info.height;
    var drawn := AfterPixels(info, buf, Colored(area, color));
    var r := Clip(info, area);
    var filled := if r == Rectangle(0, 0, 0, 0) then buf else AfterFill(info, buf, r, color);
    forall x: nat, y: nat, c: nat | x < w && y < h && c < b ensures SamePixel(drawn, filled, w, b, x, y, c) {
      AfterPixelsAt(info, buf, Colored(area, color), color, x, y, c);
      ColoredMembers(area, color, Point(x, y));
      FastPixelBytes(info.format, color);
      assert ColorBytes(info.format) <= c ==> ZeroAt(buf, w, b, x, y, c);
      AfterFillAt(info, buf, r, color, x, y, c);
      assert Contains(r, Point(x, y)) <==> Contains(area, Point(x, y));
    }
    SameByPixels(drawn, filled, w, b, h);
  }

  lemma AllZeroPadding(info: Info, buf: seq<Byte>)
    requires BackBuffer(info, buf) && forall i :: 0 <= i < |buf| ==> buf[i] == 0
    ensures PaddingZero(info, buf)
  {
    forall x: nat, y: nat, c: nat | x < info.width && y < info.height && ColorBytes(info.format) <= c < info.bytesPerPixel
      ensures ZeroAt(buf, info.width, info.bytesPerPixel, x, y, c)
    {
      PixelInBounds(info.width, info.bytesPerPixel, info.height, x, y, c);
    }
  }

  lemma PixelKeepsPadding(info: Info, buf: seq<Byte>, p: Point, color: Color)
    requires ValidInfo(info) && Drawable(info) && BackBuffer(info, buf) && PaddingZero(info, buf)
    ensures PaddingZero(info, AfterPixel(info, buf, p, color))
  {
    var drawn := AfterPixel(info, buf, p, color);
    forall x: nat, y: nat, c: nat | x < info.width && y < info.height && ColorBytes(info.format) <= c < info.bytesPerPixel
      ensures ZeroAt(drawn, info.width, info.bytesPerPixel, x, y, c)
    {
      assert ZeroAt(buf, info.width, info.bytesPerPixel, x, y, c);
      AfterPixelAt(info, buf, p, color, x, y, c);
    }
  }

  lemma {:induction false} PixelsKeepPadding(info: Info, buf: seq<Byte>, pixels: seq<Pixel>)
    requires ValidInfo(info) && Drawable(info) && BackBuffer(info, buf) && PaddingZero(info, buf)
    ensures PaddingZero(info, AfterPixels(info, buf, pixels))
    decreases |pixels|
  {
    if pixels != [] {
      var last := |pixels| - 1;
      PixelsKeepPadding(info, buf, pixels[..last]);
      PixelKeepsPadding(info, AfterPixels(info, buf, pixels[..last]), pixels[last].point, pixels[last].color);
    }
  }

  // ---------------------------------------------------------------- showing the back buffer

  /** The first `n` rows of the back buffer. */
  function BackRows(info: Info, back: seq<Byte>, n: nat): (rows: seq<seq<Byte>>)
    requires BackBuffer(info, back) && n <= info.height
    ensures |rows| == n
    ensures forall j :: 0 <= j < n ==> |rows[j]| == info.width * info.bytesPerPixel
    ensures forall j :: 0 <= j < n ==>
              Offset(info.width, info.bytesPerPixel, 0, j) + info.width * info.bytesPerPixel <= |back|
              && rows[j] == back[Offset(info.width, info.bytesPerPixel, 0, j)..][..info.width * info.bytesPerPixel]
  {
    if n == 0 then []
    else
      RunInBounds(info.width, info.bytesPerPixel, info.height, 0, n - 1, info.width);
      BackRows(info, back, n - 1)
      + [back[Offset(info.width, info.bytesPerPixel, 0, n - 1)..][..info.width * info.bytesPerPixel]]
  }

  function AfterFrame(info: Info, screen: seq<Byte>, back: seq<Byte>, n: nat): (r: seq<Byte>)
    requires ValidInfo(info) && BackBuffer(info, back) && n <= info.height
    requires InBuffer(screen, info.stride, info.bytesPerPixel, info.height)
    ensures |r| == |screen|
  {
    CopyRows(screen, info.stride, info.bytesPerPixel, info.height, 0, 0, info.width, BackRows(info, back, n))
  }

  lemma BackRowsSnoc(info: Info, back: seq<Byte>, y: nat, row: seq<Byte>)
    requires BackBuffer(info, back) && y < info.height
    requires Offset(info.width, info.bytesPerPixel, 0, y) + info.width * info.bytesPerPixel <= |back|
    requires row == back[Offset(info.width, info.bytesPerPixel, 0, y)..][..info.width * info.bytesPerPixel]
    ensures BackRows(info, back, y + 1) == BackRows(info, back, y) + [row]
  {
  }

  lemma BackRowAt(info: Info, back: seq<Byte>, x: nat, y: nat, c: nat)
    requires BackBuffer(info, back) && x < info.width && y < info.height && c < info.bytesPerPixel
    ensures Offset(info.width, info.bytesPerPixel, x, y) + c < |back|
    ensures Channel(info.bytesPerPixel, x, c) < info.width * info.bytesPerPixel
    ensures BackRows(info, back, info.height)[y][Channel(info.bytesPerPixel, x, c)] ==
            At(back, info.width, info.bytesPerPixel, x, y, c)
  {
    PixelInBounds(info.width, info.bytesPerPixel, info.height, x, y, c);
    RunMembership(info.width, info.bytesPerPixel, 0, y, info.width, x, y, c);
    ByteInRun(0, info.width, x, c, info.bytesPerPixel);
  }

  /** Each pixel of the screen shows the same pixel of the back buffer although the two have different
      row pitches, and the padding at the end of each row stays as it was. */
  lemma FrameShowsBackBuffer(info: Info, screen: seq<Byte>, back: seq<Byte>, x: nat, y: nat, c: nat)
    requires ValidInfo(info) && BackBuffer(info, back)
    requires InBuffer(screen, info.stride, info.bytesPerPixel, info.height)
    requires x < info.stride && y < info.height && c < info.bytesPerPixel
    ensures Offset(info.stride, info.bytesPerPixel, x, y) + c < |screen|
    ensures x < info.width ==> Offset(info.width, info.bytesPerPixel, x, y) + c < |back|
    ensures At(AfterFrame(info, screen, back, info.height), info.stride, info.bytesPerPixel, x, y, c) ==
            if x < info.width then At(back, info.width, info.bytesPerPixel, x, y, c)
            else At(screen, info.stride, info.bytesPerPixel, x, y, c)
  {
    CopyRowsAt(screen, info.stride, info.bytesPerPixel, info.height, 0, 0, info.width, BackRows(info, back, info.height), x, y, c);
    if x < info.width {
      BackRowAt(info, back, x, y, c);
    }
  }

  /** Nothing after the last row of the screen is touched. */
  lemma FrameKeepsRest(info: Info, screen: seq<Byte>, back: seq<Byte>, i: nat)
    requires ValidInfo(info) && BackBuffer(info, back)
    requires info.height * info.stride * info.bytesPerPixel <= i < |screen|
    ensures AfterFrame(info, screen, back, info.height)[i] == screen[i]
  {
    CopyRowsBeyond(screen, info.stride, info.bytesPerPixel, info.height, 0, 0, info.width, BackRows(info, back, info.height), i);
  }

  // ---------------------------------------------------------------- the display

  /** The three cases of `draw_pixel`. */
  method WritePixel(buffer: array<Byte>, byteOffset: nat, format: PixelFormat, color: Color)
    requires format != Other && byteOffset + |PixelBytes(format, color)| <= buffer.Length
    modifies buffer
    ensures buffer[..] == Splice(old(buffer[..]), byteOffset, PixelBytes(format, color))
  {
    match format {
      case Rgb =>
        buffer[byteOffset] := color.red;
        buffer[byteOffset + 1] := color.green;
        buffer[byteOffset + 2] := color.blue;
      case Bgr =>
        buffer[byteOffset] := color.blue;
        buffer[byteOffset + 1] := color.green;
        buffer[byteOffset + 2] := color.red;
      case U8 =>
        buffer[byteOffset] := Gray(color);
    }
  }

  class Display {
    const info: Info
    const framebuffer: array<Byte>
    const backbuffer: array<Byte>

    ghost predicate Valid()
      reads framebuffer, backbuffer
    {
      && ValidInfo(info) && Drawable(info) && framebuffer != backbuffer
      && BackBuffer(info, backbuffer[..]) && PaddingZero(info, backbuffer[..])
      && InBuffer(framebuffer[..], info.stride, info.bytesPerPixel, info.height)
    }

    constructor (info: Info, framebuffer: array<Byte>)
      requires ValidInfo(info) && Drawable(info)
      requires InBuffer(framebuffer[..], info.stride, info.bytesPerPixel, info.height)
      ensures Valid() && fresh(backbuffer) && this.info == info && this.framebuffer == framebuffer
      ensures forall i :: 0 <= i < backbuffer.Length ==> backbuffer[i] == 0
    {
      this.info := info;
      this.framebuffer := framebuffer;
      backbuffer := new Byte[info.height * info.width * info.bytesPerPixel](_ => 0);
      new;
      AllZeroPadding(info, backbuffer[..]);
    }

    method DrawPixel(pixel: Pixel)
      requires Valid()
      modifies backbuffer
      ensures Valid() && backbuffer[..] == AfterPixel(info, old(backbuffer[..]), pixel.point, pixel.color)
    {
      PixelKeepsPadding(info, backbuffer[..], pixel.point, pixel.color);
      var x, y := AsUsize(pixel.point.x), AsUsize(pixel.point.y);
      if x < info.width && y < info.height {
        var byteOffset := (y * info.width + x) * info.bytesPerPixel;
        RunInBounds(info.width, info.bytesPerPixel, info.height, x, y, 1);
        WritePixel(backbuffer, byteOffset, info.format, pixel.color);
      }
    }

    method DrawIter(pixels: seq<Pixel>)
      requires Valid()
      modifies backbuffer
      ensures Valid() && backbuffer[..] == AfterPixels(info, old(backbuffer[..]), pixels)
    {
      ghost var before := backbuffer[..];
      var i := 0;
      while i < |pixels|
        invariant 0 <= i <= |pixels| && Valid()
        invariant backbuffer[..] == AfterPixels(info, before, pixels[..i])
      {
        assert pixels[..i + 1][..i] == pixels[..i];
        DrawPixel(pixels[i]);
        i := i + 1;
      }
      assert pixels[..|pixels|] == pixels;
    }

    /** The row copies leave what drawing every pixel of the area on its own would leave. */
    method FillSolid(area: Rectangle, color: Color)
      requires Valid() && FastDrawable(info)
      modifies backbuffer
      ensures Valid() && backbuffer[..] == AfterPixels(info, old(backbuffer[..]), Colored(area, color))
    {
      ghost var before := backbuffer[..];
      FillEqualsPixels(info, before, area, color);
      PixelsKeepPadding(info, before, Colored(area, color));
      var intersection := Clip(info, area);
      if intersection == Rectangle(0, 0, 0, 0) {
        return;
      }
      var wide := SolidRow(info, color, intersection.width);
      FillRows(intersection.x, intersection.y, intersection.width, intersection.height, wide);
    }

    method FillRows(x: nat, top: nat, n: nat, rows: nat, wide: seq<Byte>)
      requires BackBuffer(info, backbuffer[..]) && |wide| == n * info.bytesPerPixel
      requires x + n <= info.width && top + rows <= info.height
      modifies backbuffer
      ensures backbuffer[..] == CopyRows(old(backbuffer[..]), info.width, info.bytesPerPixel, info.height,
                                         x, top, n, Repeat(wide, rows))
    {
      ghost var before := backbuffer[..];
      var y := top;
      while y < top + rows
        invariant top <= y <= top + rows
        invariant backbuffer[..] == CopyRows(before, info.width, info.bytesPerPixel, info.height, x, top, n, Repeat(wide, y - top))
      {
        var offset := Offset(info.width, info.bytesPerPixel, x, y);
        ghost var done := Repeat(wide, y - top);
        CopyRow(wide, backbuffer, offset, before, info.width, info.bytesPerPixel, info.height, x, top, n, done);
        assert Repeat(wide, y + 1 - top) == done + [wide];
        y := y + 1;
      }
    }

    method Clear(color: Color)
      requires Valid() && FastDrawable(info)
      modifies backbuffer
      ensures Valid()
      ensures backbuffer[..] == AfterPixels(info, old(backbuffer[..]), Colored(Rectangle(0, 0, info.width, info.height), color))
    {
      ghost var before := backbuffer[..];
      ghost var screen := Rectangle(0, 0, info.width, info.height);
      ClearEqualsPixels(info, before, color);
      PixelsKeepPadding(info, before, Colored(screen, color));
      var wide := SolidRow(info, color, info.width);
      ClearRows(wide);
    }

    method ClearRows(wide: seq<Byte>)
      requires BackBuffer(info, backbuffer[..]) && |wide| == info.width * info.bytesPerPixel
      modifies backbuffer
      ensures backbuffer[..] == CopyRows(old(backbuffer[..]), info.width, info.bytesPerPixel, info.height,
                                         0, 0, info.width, Repeat(wide, info.height))
    {
      ghost var before := backbuffer[..];
      var y := 0;
      while y < info.height
        invariant 0 <= y <= info.height
        invariant backbuffer[..] == CopyRows(before, info.width, info.bytesPerPixel, info.height, 0, 0, info.width, Repeat(wide, y))
      {
        var offset := Offset(info.width, info.bytesPerPixel, 0, y);
        CopyRow(wide, backbuffer, offset, before, info.width, info.bytesPerPixel, info.height, 0, 0, info.width, Repeat(wide, y));
        assert Repeat(wide, y + 1) == Repeat(wide, y) + [wide];
        y := y + 1;
      }
    }

    method DrawFrame()
      requires Valid()
      modifies framebuffer
      ensures Valid() && framebuffer[..] == AfterFrame(info, old(framebuffer[..]), backbuffer[..], info.height)
    {
      ShowRows();
    }

    method ShowRows()
      requires ValidInfo(info) && framebuffer != backbuffer && BackBuffer(info, backbuffer[..])
      requires InBuffer(framebuffer[..], info.stride, info.bytesPerPixel, info.height)
      modifies framebuffer
      ensures framebuffer[..] == AfterFrame(info, old(framebuffer[..]), backbuffer[..], info.height)
    {
      ghost var before, back := framebuffer[..], backbuffer[..];
      var y := 0;
      while y < info.height
        invariant 0 <= y <= info.height && backbuffer[..] == back
        invariant framebuffer[..] == AfterFrame(info, before, back, y)
      {
        ShowRow(y, before);
        y := y + 1;
      }
    }

    method ShowRow(y: nat, ghost before: seq<Byte>)
      requires ValidInfo(info) && framebuffer != backbuffer && BackBuffer(info, backbuffer[..]) && y < info.height
      requires InBuffer(before, info.stride, info.bytesPerPixel, info.height)
      requires framebuffer[..] == AfterFrame(info, before, backbuffer[..], y)
      modifies framebuffer
      ensures framebuffer[..] == AfterFrame(info, before, backbuffer[..], y + 1)
    {
      var wideOffset := Offset(info.width, info.bytesPerPixel, 0, y);
      var offset := Offset(info.stride, info.bytesPerPixel, 0, y);
      RunInBounds(info.width, info.bytesPerPixel, info.height, 0, y, info.width);
      var row := backbuffer[wideOffset..][..info.width * info.bytesPerPixel];
      ghost var rows := BackRows(info, backbuffer[..], y);
      BackRowsSnoc(info, backbuffer[..], y, row);
      CopyRow(row, framebuffer, offset, before, info.stride, info.bytesPerPixel, info.height, 0, 0, info.width, rows);
    }
  }

  lemma ClipScreen(info: Info)
    requires ValidInfo(info)
    ensures var screen := Rectangle(0, 0, info.width, info.height);
            Clip(info, screen) == if info.width == 0 || info.height == 0 then Rectangle(0, 0, 0, 0) else screen
  {
  }

  lemma ClearEqualsPixels(info: Info, buf: seq<Byte>, color: Color)
    requires ValidInfo(info) && Drawable(info) && FastDrawable(info) && BackBuffer(info, buf) && PaddingZero(info, buf)
    ensures AfterPixels(info, buf, Colored(Rectangle(0, 0, info.width, info.height), color)) ==
            AfterFill(info, buf, Rectangle(0, 0, info.width, info.height), color)
  {
    var screen := Rectangle(0, 0, info.width, info.height);
    FillEqualsPixels(info, buf, screen, color);
    ClipScreen(info);
    if info.width == 0 || info.height == 0 {
      EmptyBuffer(info, buf);
    }
  }

  lemma EmptyBuffer(info: Info, buf: seq<Byte>)
    requires BackBuffer(info, buf) && (info.width == 0 || info.height == 0)
    ensures buf == []
  {
  }
}
