/** The printed page as a whole: its geometry, its grey pixels, and the packed dots they are
    screened into.  This is the page the prototype filter describes; the streaming filter
    has to arrive at the same one. */
module PageModel {
  import opened Arithmetic
  import opened Bytes

  /** The raster header fields the filter uses. */
  datatype PageHeader = PageHeader(
    pageW: word, pageH: word, width: word, height: word, bytesPerLine: word,
    bitsPerPixel: word, colorSpace: word, numCopies: word, mediaType: word,
    resX: word, resY: word)
  {
    /** What main lets through before it sizes anything from these fields. */
    ghost predicate Accepted() {
      && bitsPerPixel == 8 && 0 < width <= MAX_DOTS && 0 < height <= MAX_DOTS
      && width <= bytesPerLine <= MAX_DOTS
      && (colorSpace == CSPACE_W || colorSpace == CSPACE_SW)
    }
  }

  const MAX_DOTS := 32768
  const CSPACE_W := 0
  const CSPACE_SW := 18

  datatype JobOptions = JobOptions(
    density: word, dpi1200: bool, negative: bool, rotate180: bool, manualDuplex: bool, tray: word)

  datatype Paper = Paper(pageW: word, pageH: word, videoX: word, videoY: word, dmpaper: word)

  /** The paper table, looked up by size in points. */
  const PAPERS := 23

  function PaperAt(i: nat): Paper
    requires i < PAPERS
  {
    match i
    case 0 => Paper(420, 595, 3264, 4736, 11)
    case 1 => Paper(595, 842, 4736, 6784, 9)
    case 2 => Paper(612, 792, 4864, 6368, 1)
    case 3 => Paper(612, 1008, 4864, 8192, 5)
    case 4 => Paper(516, 729, 4064, 5856, 13)
    case 5 => Paper(279, 540, 2112, 4288, 37)
    case 6 => Paper(312, 624, 2368, 4992, 27)
    case 7 => Paper(459, 649, 3616, 5184, 28)
    case 8 => Paper(297, 684, 2240, 5472, 20)
    case 9 => Paper(283, 420, 2144, 3264, 43)
    case 10 => Paper(524, 737, 4160, 5920, 263)
    case 11 => Paper(553, 765, 4384, 6144, 264)
    case 12 => Paper(369, 524, 2848, 4160, 266)
    case 13 => Paper(383, 553, 2976, 4384, 260)
    case 14 => Paper(298, 420, 2272, 3264, 70)
    case 15 => Paper(499, 709, 3936, 5696, 34)
    case 16 => Paper(522, 756, 4128, 6080, 7)
    case 17 => Paper(612, 936, 4864, 7584, 14)
    case 18 => Paper(612, 972, 4864, 7872, 269)
    case 19 => Paper(396, 612, 3072, 4864, 6)
    case 20 => Paper(323, 459, 2464, 3616, 31)
    case 21 => Paper(340, 652, 2624, 5216, 270)
    case _ => Paper(354, 499, 2720, 3936, 271)
  }

  const DMPAPER_A5_ROTATED := 61

  datatype Layout = Layout(dmpaper: word, videoX: nat, videoY: nat, depth: nat, rotate90: bool) {
    ghost predicate Valid() {
      && 0 < videoX <= MAX_DOTS && videoX % 32 == 0 && 0 < videoY <= MAX_DOTS
      && (depth == 1 || depth == 2)
    }

    /** The page before the quarter turn. */
    function SrcW(): nat { if rotate90 then videoY else videoX }

    function SrcH(): nat { if rotate90 then videoX else videoY }

    /** Packed bytes in one row of the bitmap: one or two bits a dot. */
    function RowBytes(): (n: nat)
      ensures Valid() ==> n == videoX / PerByte(depth) == videoX * depth / 8
    {
      (if depth == 2 then 2 * videoX else videoX) / 8
    }
  }

  datatype Option<T> = None | Some(value: T)

  /** The first paper of that size. */
  function PaperFrom(i: nat, pageW: word, pageH: word): Option<Paper>
    decreases PAPERS - i
  {
    if i >= PAPERS then None
    else if PaperAt(i).pageW == pageW && PaperAt(i).pageH == pageH then Some(PaperAt(i))
    else PaperFrom(i + 1, pageW, pageH)
  }

  predicate OfSize(i: nat, pageW: word, pageH: word)
    requires i < PAPERS
  {
    PaperAt(i).pageW == pageW && PaperAt(i).pageH == pageH
  }

  /** Paper `at` is of that size and no earlier one is. */
  ghost predicate FirstOfSize(at: nat, pageW: word, pageH: word) {
    && at < PAPERS && OfSize(at, pageW, pageH)
    && forall j: nat :: j < at ==> !OfSize(j, pageW, pageH)
  }

  lemma {:induction false} FoundFrom(i: nat, at: nat, pageW: word, pageH: word)
    requires i <= at && FirstOfSize(at, pageW, pageH)
    ensures PaperFrom(i, pageW, pageH) == Some(PaperAt(at))
    decreases at - i
  {
    if i < at {
      assert !OfSize(i, pageW, pageH);
      FoundFrom(i + 1, at, pageW, pageH);
    }
  }

  lemma {:induction false} NoneFrom(i: nat, pageW: word, pageH: word)
    requires forall j: nat :: j < PAPERS ==> !OfSize(j, pageW, pageH)
    ensures PaperFrom(i, pageW, pageH) == None
    decreases PAPERS - i
  {
    if i < PAPERS {
      assert !OfSize(i, pageW, pageH);
      NoneFrom(i + 1, pageW, pageH);
    }
  }

  /** The table has a paper of that size if and only if one is found, and it is the first. */
  method FindPaper(pageW: word, pageH: word) returns (r: Option<Paper>)
    ensures r.None? <==> forall j: nat :: j < PAPERS ==> !OfSize(j, pageW, pageH)
    ensures r.Some? ==> exists at: nat :: FirstOfSize(at, pageW, pageH) && r.value == PaperAt(at)
    ensures r == PaperFrom(0, pageW, pageH)
  {
    var i := 0;
    while i < PAPERS
      invariant 0 <= i <= PAPERS
      invariant forall j: nat :: j < i ==> !OfSize(j, pageW, pageH)
    {
      if OfSize(i, pageW, pageH) {
        FoundFrom(0, i, pageW, pageH);
        return Some(PaperAt(i));
      }
      i := i + 1;
    }
    NoneFrom(0, pageW, pageH);
    r := None;
  }

  /** n rounded up to a multiple of m, in 32-bit arithmetic. */
  function RoundUp(n: word, m: int): word
    requires m == 8 || m == 32
  {
    (n + m - 1) % 0x1_0000_0000 / m * m
  }

  /** The geometry of a page: that of a paper in the table, of A5 sideways, or a custom one. */
  function Geometry(hdr: PageHeader, dpi1200: bool): Layout {
    var depth := if dpi1200 then 2 else 1;
    var paper := PaperFrom(0, hdr.pageW, hdr.pageH);
    var a5 := PaperFrom(0, 420, 595);
    if paper.Some? then
      Layout(paper.value.dmpaper, paper.value.videoX, paper.value.videoY, depth, false)
    else if hdr.pageW == 421 && hdr.pageH == 595 && a5.Some? then
      Layout(DMPAPER_A5_ROTATED, a5.value.videoY, a5.value.videoX, depth, true)
    else Layout(0, RoundUp(hdr.width, 32), RoundUp(hdr.height, 8), depth, false)
  }

  method PageLayout(hdr: PageHeader, dpi1200: bool) returns (lay: Layout)
    ensures lay == Geometry(hdr, dpi1200)
  {
    var depth, rotate90 := if dpi1200 then 2 else 1, false;
    var paper := FindPaper(hdr.pageW, hdr.pageH);
    if paper.None? && hdr.pageW == 421 && hdr.pageH == 595 {
      paper := FindPaper(420, 595);
      rotate90 := paper.Some?;
    }
    if paper.Some? {
      var a := paper.value;
      lay := if rotate90 then Layout(DMPAPER_A5_ROTATED, a.videoY, a.videoX, depth, true)
             else Layout(a.dmpaper, a.videoX, a.videoY, depth, false);
    } else {
      lay := Layout(0, RoundUp(hdr.width, 32), RoundUp(hdr.height, 8), depth, false);
    }
  }

  predicate Fits(p: Paper) {
    && 0 < p.videoX <= MAX_DOTS && 0 < p.videoY <= MAX_DOTS
    && p.videoX % 32 == 0 && (p.pageW == 420 ==> p.videoY % 32 == 0)
  }

  lemma {:induction false} PapersFit(i: nat, pageW: word, pageH: word)
    ensures var r := PaperFrom(i, pageW, pageH);
      r.Some? ==> Fits(r.value) && r.value.pageW == pageW && r.value.pageH == pageH
    decreases PAPERS - i
  {
    if i < PAPERS {
      assert Fits(PaperAt(i));
      PapersFit(i + 1, pageW, pageH);
    }
  }

  /** Every accepted header has a usable geometry: rows of whole bytes, and a bitmap that
      fits the limits. */
  lemma GeometryFits(hdr: PageHeader, dpi1200: bool)
    requires hdr.Accepted()
    ensures Geometry(hdr, dpi1200).Valid()
  {
    PapersFit(0, hdr.pageW, hdr.pageH);
    PapersFit(0, 420, 595);
    RoundUpFits(hdr.width, 32);
    RoundUpFits(hdr.height, 8);
  }

  lemma RoundUpFits(n: word, m: int)
    requires (m == 8 || m == 32) && 0 < n <= MAX_DOTS
    ensures n <= RoundUp(n, m) <= MAX_DOTS && RoundUp(n, m) % m == 0
  {
  }

  // ------------------------------------------------------------- grey pixels

  /** The raster laid out on a page `w` dots wide: white wherever it does not reach. */
  function Laid(lines: seq<seq<byte>>, hdr: PageHeader, w: nat, y: int, x: int): byte
    requires |lines| == hdr.height && 0 <= y && 0 <= x
    requires forall k :: 0 <= k < |lines| ==> |lines[k]| >= hdr.width
  {
    if y < hdr.height && x < Min(hdr.width, w) then lines[y][x] else 255
  }

  ghost predicate Lined(lines: seq<seq<byte>>, hdr: PageHeader) {
    && |lines| == hdr.height
    && forall k :: 0 <= k < |lines| ==> |lines[k]| == hdr.bytesPerLine >= hdr.width
  }

  /** The page upright or turned round, before any quarter turn. */
  function Upright(lines: seq<seq<byte>>, hdr: PageHeader, w: nat, h: nat, rotate180: bool,
                   y: int, x: int): byte
    requires Lined(lines, hdr) && 0 <= y < h && 0 <= x < w
  {
    if rotate180 then Laid(lines, hdr, w, h - 1 - y, w - 1 - x) else Laid(lines, hdr, w, y, x)
  }

  function UprightRow(lines: seq<seq<byte>>, hdr: PageHeader, w: nat, h: nat, rotate180: bool, y: int)
      : (row: seq<byte>)
    requires Lined(lines, hdr) && 0 <= y < h
    ensures |row| == w
  {
    seq(w, x requires 0 <= x < w => Upright(lines, hdr, w, h, rotate180, y, x))
  }

  /** Row y of the grey page as it reaches the engine: the quarter turn, clockwise, last. */
  function GrayRow(lines: seq<seq<byte>>, hdr: PageHeader, lay: Layout, rotate180: bool, y: int)
      : (row: seq<byte>)
    requires Lined(lines, hdr) && 0 <= y < lay.videoY
    ensures |row| == lay.videoX
  {
    if lay.rotate90 then
      seq(lay.videoX, x requires 0 <= x < lay.videoX =>
        Upright(lines, hdr, lay.videoY, lay.videoX, rotate180, lay.videoX - 1 - x, y))
    else UprightRow(lines, hdr, lay.videoX, lay.videoY, rotate180, y)
  }

  // ------------------------------------------------------------------- dots

  /** The 16 by 16 threshold matrix; any one will do. */
  type Screen = s: seq<byte> | |s| == 256 witness seq(256, _ => 0)

  /** The threshold of a dot: the screen is laid over the page and over again. */
  ghost function Thr(screen: Screen, y: int, x: int): byte
    requires 0 <= y && 0 <= x
  {
    screen[y % 16 * 16 + x % 16]
  }

  /** The two-bit dot code of an ink level. */
  function LevelCode(level: int): nat {
    if level <= 0 then 0 else if level < 24 then 1 else if level < 64 then 2 else 3
  }

  function Base(depth: nat): nat { if depth == 1 then 2 else 4 }

  /** The dot code of one grey pixel. */
  function Code(gray: byte, thr: byte, depth: nat, negative: bool): (c: nat)
    ensures c < Base(depth)
  {
    if depth == 1 then
      if negative then (if gray >= thr then 1 else 0) else (if gray < thr then 1 else 0)
    else
      var code := LevelCode(if gray == 0 then 255 else 255 - gray - thr);
      if negative then 3 - code else code
  }

  ghost function RowCodes(row: seq<byte>, screen: Screen, y: nat, depth: nat, negative: bool): (codes: seq<nat>)
    ensures |codes| == |row|
  {
    seq(|row|, x requires 0 <= x < |row| => Code(row[x], Thr(screen, y, x), depth, negative))
  }

  /** The number whose digits in the given base are the codes, most significant first. */
  function CodeNumber(codes: seq<nat>, base: nat): nat {
    if codes == [] then 0
    else CodeNumber(codes[..|codes| - 1], base) * base + codes[|codes| - 1]
  }

  function Power(base: nat, n: nat): nat { if n == 0 then 1 else base * Power(base, n - 1) }

  ghost predicate InBase(codes: seq<nat>, base: nat) {
    forall k :: 0 <= k < |codes| ==> codes[k] < base
  }

  lemma {:induction false} CodeNumberBound(codes: seq<nat>, base: nat)
    requires InBase(codes, base)
    ensures CodeNumber(codes, base) < Power(base, |codes|)
  {
    if codes != [] {
      var n := |codes| - 1;
      CodeNumberBound(codes[..n], base);
      NextDigit(CodeNumber(codes[..n], base), codes[n], base, Power(base, n));
    }
  }

  lemma NextDigit(d: nat, last: nat, base: nat, p: nat)
    requires d < p && last < base
    ensures d * base + last < base * p
  {
    assert (p - 1 - d) * base >= 0;
    assert (p - 1 - d) * base == p * base - base - d * base;
  }

  /** Pixels to a byte. */
  function PerByte(depth: nat): nat { if depth == 1 then 8 else 4 }

  lemma PowerOfByte(depth: nat)
    ensures Power(Base(depth), PerByte(depth)) == 256
  {
    assert Power(2, 4) == 16;
    assert Power(2, 6) == 64;
    assert Power(4, 2) == 16;
  }

  /** One byte's worth of codes. */
  function PackByte(codes: seq<nat>, depth: nat): byte
    requires |codes| == PerByte(depth) && InBase(codes, Base(depth))
  {
    CodeNumberBound(codes, Base(depth));
    PowerOfByte(depth);
    CodeNumber(codes, Base(depth))
  }

  /** The first pixel of byte k. */
  function Start(depth: nat, k: nat): nat { if depth == 1 then 8 * k else 4 * k }

  /** The codes of byte k. */
  function Group(codes: seq<nat>, depth: nat, k: nat): (g: seq<nat>)
    requires Start(depth, k + 1) <= |codes|
    ensures |g| == PerByte(depth)
  {
    codes[Start(depth, k)..Start(depth, k + 1)]
  }

  function Pack(codes: seq<nat>, depth: nat): (bytes: seq<byte>)
    requires InBase(codes, Base(depth))
    ensures |bytes| == |codes| / PerByte(depth)
  {
    seq(|codes| / PerByte(depth), k requires 0 <= k < |codes| / PerByte(depth) =>
      PackByte(Group(codes, depth, k), depth))
  }

  /** One packed row of the page. */
  ghost function DotRow(row: seq<byte>, screen: Screen, y: nat, depth: nat, negative: bool): (b: seq<byte>)
    ensures |b| == |row| / PerByte(depth)
  {
    Pack(RowCodes(row, screen, y, depth, negative), depth)
  }

  /** Row y of the page bitmap. */
  ghost function BitmapRow(lines: seq<seq<byte>>, hdr: PageHeader, lay: Layout, opt: JobOptions,
                     screen: Screen, y: nat): (b: seq<byte>)
    requires Lined(lines, hdr) && lay.Valid() && y < lay.videoY
    ensures |b| == lay.RowBytes()
  {
    DotRow(GrayRow(lines, hdr, lay, opt.rotate180, y), screen, y, lay.depth, opt.negative)
  }

  /** The whole packed page. */
  ghost function Bitmap(lines: seq<seq<byte>>, hdr: PageHeader, lay: Layout, opt: JobOptions,
                  screen: Screen): seq<seq<byte>>
    requires Lined(lines, hdr) && lay.Valid()
  {
    seq(lay.videoY, y requires 0 <= y < lay.videoY => BitmapRow(lines, hdr, lay, opt, screen, y))
  }

  // --------------------------------------------------- packing and negation

  lemma {:induction false} DigitRecovered(codes: seq<nat>, base: nat, k: nat)
    requires InBase(codes, base) && k < |codes|
    ensures base > 0 && Power(base, |codes| - 1 - k) > 0
    ensures CodeNumber(codes, base) / Power(base, |codes| - 1 - k) % base == codes[k]
  {
    var n := |codes| - 1;
    var d, last := CodeNumber(codes[..n], base), codes[n];
    PowerPositive(base, n - k);
    if k == n {
      DivModUnique(d * base + last, d, last, base);
    } else {
      DigitRecovered(codes[..n], base, k);
      var p := Power(base, n - 1 - k);
      assert Power(base, n - k) == base * p;
      DropDigit(d, last, base, p);
    }
  }

  lemma {:induction false} PowerPositive(base: nat, n: nat)
    requires base > 0
    ensures Power(base, n) > 0
  {
    if n > 0 { PowerPositive(base, n - 1); }
  }

  /** Dividing by base * p drops the last digit before dividing by p. */
  lemma DropDigit(d: nat, last: nat, base: nat, p: nat)
    requires last < base && p > 0 && base * p > 0
    ensures (d * base + last) / (base * p) == d / p
  {
    var q, r := d / p, d % p;
    Distribute(q * p, r, base);
    Regroup(q, p, base);
    NextDigit(r, last, base, p);
    DivModUnique(d * base + last, q, r * base + last, base * p);
  }

  /** Code j of a packed byte, most significant bits first. */
  function CodeAt(b: byte, depth: nat, j: nat): nat
    requires j < PerByte(depth)
  {
    PowerPositive(Base(depth), PerByte(depth) - 1 - j);
    b / Power(Base(depth), PerByte(depth) - 1 - j) % Base(depth)
  }

  /** Packing loses nothing: every pixel's dot code can be read back. */
  lemma PackedCodeRecovered(codes: seq<nat>, depth: nat, k: nat, j: nat)
    requires InBase(codes, Base(depth)) && j < PerByte(depth) && k < |codes| / PerByte(depth)
    ensures Start(depth, k) + j < |codes|
    ensures CodeAt(Pack(codes, depth)[k], depth, j) == codes[Start(depth, k) + j]
  {
    DigitRecovered(Group(codes, depth, k), Base(depth), j);
  }

  /** The dot that depth 1 makes of a grey level: black below the threshold, or white under
      NegativePrint. */
  ghost predicate OneBitDot(code: nat, gray: byte, thr: byte, negative: bool) {
    code == if (gray < thr) != negative then 1 else 0
  }

  /** The dot that depth 2 makes: the ink that is left of a level once the threshold is taken
      off, in four steps, full black having all of it whatever the threshold. */
  ghost predicate TwoBitDot(code: nat, gray: byte, thr: byte, negative: bool) {
    var ink := if gray == 0 then 255 else 255 - gray - thr;
    var dot := if negative then 3 - code else code;
    && 0 <= dot <= 3
    && (dot >= 1 <==> ink >= 1) && (dot >= 2 <==> ink >= 24) && (dot == 3 <==> ink >= 64)
  }

  /** The dot at row y and column x of the page, read back from the packed bitmap, is the one
      that the grey page and the screen call for at that place of the sheet: row y of the
      screen's sixteen, column x of its sixteen. */
  lemma DotMeans(lines: seq<seq<byte>>, hdr: PageHeader, lay: Layout, opt: JobOptions, screen: Screen,
                 y: nat, x: nat)
    requires Lined(lines, hdr) && lay.Valid() && y < lay.videoY && x < lay.videoX
    ensures x / PerByte(lay.depth) < lay.RowBytes()
    ensures var row := Bitmap(lines, hdr, lay, opt, screen)[y];
      var code := CodeAt(row[x / PerByte(lay.depth)], lay.depth, x % PerByte(lay.depth));
      var gray := GrayRow(lines, hdr, lay, opt.rotate180, y)[x];
      var thr := screen[16 * (y % 16)..][..16][x % 16];
      && (lay.depth == 1 ==> OneBitDot(code, gray, thr, opt.negative))
      && (lay.depth == 2 ==> TwoBitDot(code, gray, thr, opt.negative))
  {
    var k, j := x / PerByte(lay.depth), x % PerByte(lay.depth);
    var gray := GrayRow(lines, hdr, lay, opt.rotate180, y);
    var codes := RowCodes(gray, screen, y, lay.depth, opt.negative);
    PixelPlace(lay, x);
    PackedCodeRecovered(codes, lay.depth, k, j);
    assert codes[x] == Code(gray[x], Thr(screen, y, x), lay.depth, opt.negative);
  }

  lemma PixelPlace(lay: Layout, x: nat)
    requires lay.Valid() && x < lay.videoX
    ensures x / PerByte(lay.depth) < lay.videoX / PerByte(lay.depth) == lay.RowBytes()
    ensures x % PerByte(lay.depth) < PerByte(lay.depth)
    ensures Start(lay.depth, x / PerByte(lay.depth)) + x % PerByte(lay.depth) == x
  {
    PlaceInBytes(x, lay.videoX, PerByte(lay.depth));
  }

  /** A pixel of a row of whole bytes lies in one of them. */
  lemma PlaceInBytes(x: nat, width: nat, per: nat)
    requires (per == 8 || per == 4) && x < width && width % 8 == 0
    ensures x / per < width / per && x % per < per && per * (x / per) + x % per == x
  {
    if per == 8 {
      assert width == 8 * (width / 8);
    } else {
      assert width == 4 * (width / 4);
    }
  }

  /** At depth 1 the code is a bit of the byte, the leftmost pixel first; at depth 2 it is two
      bits. */
  lemma CodeIsBits(b: byte, j: nat)
    requires j < 8
    ensures CodeAt(b, 1, j) == if Bit(b, j) then 1 else 0
    ensures j < 4 ==> CodeAt(b, 2, j) == b / [64, 16, 4, 1][j] % 4
  {
    PowersOfTwo();
    HalvedIsQuotient(b, 7 - j);
  }

  lemma PowersOfTwo()
    ensures forall n :: 0 <= n < 8 ==> Power(2, n) == [1, 2, 4, 8, 16, 32, 64, 128][n]
    ensures forall n :: 0 <= n < 4 ==> Power(4, n) == [1, 4, 16, 64][n]
  {
    assert Power(2, 3) == 8;
    assert Power(2, 5) == 32;
    assert Power(2, 7) == 128;
  }

  lemma {:induction false} HalvedIsQuotient(x: nat, n: nat)
    ensures Power(2, n) > 0 && Halved(x, n) == x / Power(2, n)
  {
    PowerPositive(2, n);
    if n > 0 {
      HalvedIsQuotient(x / 2, n - 1);
      var p := Power(2, n - 1);
      assert p > 0;
      DropDigit(x / 2, x % 2, 2, p);
      assert x / 2 * 2 + x % 2 == x;
    }
  }

  ghost predicate Opposite(a: seq<nat>, b: seq<nat>, base: nat) {
    |a| == |b| && InBase(a, base) && forall k :: 0 <= k < |a| ==> b[k] == base - 1 - a[k]
  }

  lemma {:induction false} OppositeDigits(a: seq<nat>, b: seq<nat>, base: nat)
    requires Opposite(a, b, base)
    ensures CodeNumber(a, base) + CodeNumber(b, base) == Power(base, |a|) - 1
  {
    if a != [] {
      var n := |a| - 1;
      OppositeDigits(a[..n], b[..n], base);
      OppositeSum(CodeNumber(a[..n], base), CodeNumber(b[..n], base), a[n], base, Power(base, n));
    }
  }

  lemma OppositeSum(da: nat, db: nat, last: nat, base: nat, p: nat)
    requires da + db == p - 1
    ensures (da * base + last) + (db * base + (base - 1 - last)) == base * p - 1
  {
  }

  /** NegativePrint turns every byte of the page into its complement, padding included. */
  lemma NegativeIsComplement(lines: seq<seq<byte>>, hdr: PageHeader, lay: Layout, opt: JobOptions,
                             screen: Screen, y: nat, k: nat)
    requires Lined(lines, hdr) && lay.Valid() && y < lay.videoY && k < lay.RowBytes()
    ensures BitmapRow(lines, hdr, lay, opt.(negative := true), screen, y)[k]
            == 255 - BitmapRow(lines, hdr, lay, opt.(negative := false), screen, y)[k]
  {
    var row := GrayRow(lines, hdr, lay, opt.rotate180, y);
    var pos, neg := RowCodes(row, screen, y, lay.depth, false), RowCodes(row, screen, y, lay.depth, true);
    assert Opposite(pos, neg, Base(lay.depth));
    OppositeBytes(pos, neg, lay.depth, k);
  }

  lemma OppositeBytes(pos: seq<nat>, neg: seq<nat>, depth: nat, k: nat)
    requires Opposite(pos, neg, Base(depth)) && InBase(neg, Base(depth)) && k < |pos| / PerByte(depth)
    ensures Pack(neg, depth)[k] == 255 - Pack(pos, depth)[k]
  {
    OppositeDigits(Group(pos, depth, k), Group(neg, depth, k), Base(depth));
    PowerOfByte(depth);
  }

  lemma {:induction false} NoCodes(codes: seq<nat>, base: nat)
    requires forall k :: 0 <= k < |codes| ==> codes[k] == 0
    ensures CodeNumber(codes, base) == 0
  {
    if codes != [] {
      NoCodes(codes[..|codes| - 1], base);
    }
  }

  /** White paper takes no toner, and under NegativePrint it is solid black: which is why the
      blank sheet of a manual duplex job is not rendered but left all zero. */
  lemma WhiteRow(row: seq<byte>, screen: Screen, y: nat, depth: nat, k: nat)
    requires (depth == 1 || depth == 2) && k < |row| / PerByte(depth)
    requires forall x :: 0 <= x < |row| ==> row[x] == 255
    ensures DotRow(row, screen, y, depth, false)[k] == 0
    ensures DotRow(row, screen, y, depth, true)[k] == 255
  {
    var pos, neg := RowCodes(row, screen, y, depth, false), RowCodes(row, screen, y, depth, true);
    NoCodes(Group(pos, depth, k), Base(depth));
    OppositeBytes(pos, neg, depth, k);
  }
}
