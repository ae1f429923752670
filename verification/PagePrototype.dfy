/** The prototype's own way to the same page: lay out the whole grey page first, then walk it
    with a left-shifting accumulator. */
module PagePrototype {
  import opened Bytes
  import opened Buffers
  import opened PageModel
  import opened PageRender

  /** HT_TABLE_2BIG: one 0, twenty-three 1s, forty 2s, the rest 3s. */
  function LevelTable(level: int): nat
    requires 0 <= level < 256
  {
    if level < 1 then 0 else if level < 1 + 23 then 1 else if level < 1 + 23 + 40 then 2 else 3
  }

  /** The prototype's dot code: thresholds compared the other way round under negation, and
      levels clamped before they are looked up. */
  function TableCode(gray: byte, thr: byte, depth: nat, negative: bool): nat {
    if depth == 1 then
      if (if negative then thr <= gray else gray < thr) then 1 else 0
    else
      var v := LevelTable(if gray == 0 then 255 else Max(0, 255 - gray - thr));
      if negative then 3 - v else v
  }

  lemma TableCodeAgrees(gray: byte, thr: byte, depth: nat, negative: bool)
    ensures TableCode(gray, thr, depth, negative) == Code(gray, thr, depth, negative)
  {
  }

  /** n rounded up to a multiple of m, with no limit to its size. */
  function RoundUpFreely(n: nat, m: nat): (r: nat)
    requires m == 8 || m == 32
    ensures r % m == 0 && n <= r < n + m
  {
    (n + m - 1) / m * m
  }

  /** The filter's rounding and the prototype's part exactly where the sum leaves 32 bits. */
  lemma RoundingsAgree(n: word, m: int)
    requires m == 8 || m == 32
    ensures RoundUp(n, m) == RoundUpFreely(n, m) <==> n <= 0x1_0000_0000 - m
  {
  }

  /** The prototype's table: width and height in points, width and height in dots, and the code. */
  const PAPER_TABLE: seq<(word, word, word, word, word)> := [
    (420, 595, 3264, 4736, 11), (595, 842, 4736, 6784, 9), (612, 792, 4864, 6368, 1),
    (612, 1008, 4864, 8192, 5), (516, 729, 4064, 5856, 13), (279, 540, 2112, 4288, 37),
    (312, 624, 2368, 4992, 27), (459, 649, 3616, 5184, 28), (297, 684, 2240, 5472, 20),
    (283, 420, 2144, 3264, 43), (524, 737, 4160, 5920, 263), (553, 765, 4384, 6144, 264),
    (369, 524, 2848, 4160, 266), (383, 553, 2976, 4384, 260), (298, 420, 2272, 3264, 70),
    (499, 709, 3936, 5696, 34), (522, 756, 4128, 6080, 7), (612, 936, 4864, 7584, 14),
    (612, 972, 4864, 7872, 269), (396, 612, 3072, 4864, 6), (323, 459, 2464, 3616, 31),
    (340, 652, 2624, 5216, 270), (354, 499, 2720, 3936, 271)]

  /** The two tables hold the same papers in the same order. */
  lemma TablesAgree(i: nat)
    requires i < PAPERS
    ensures |PAPER_TABLE| == PAPERS
    ensures var (w, h, x, y, code) := PAPER_TABLE[i]; PaperAt(i) == Paper(w, h, x, y, code)
  {
  }

  /** A search of the prototype's own table. */
  method SearchTable(size: (word, word)) returns (r: Option<(word, word, word)>)
    ensures r == match PaperFrom(0, size.0, size.1)
                 case None => None
                 case Some(p) => Some((p.dmpaper, p.videoX, p.videoY))
  {
    TablesAgree(0);
    var i := 0;
    while i < |PAPER_TABLE|
      invariant 0 <= i <= |PAPER_TABLE| == PAPERS
      invariant forall j: nat :: j < i ==> !OfSize(j, size.0, size.1)
    {
      TablesAgree(i);
      var (w, h, x, y, code) := PAPER_TABLE[i];
      if size == (w, h) {
        FoundFrom(0, i, size.0, size.1);
        return Some((code, x, y));
      }
      i := i + 1;
    }
    NoneFrom(0, size.0, size.1);
    r := None;
  }

  /** page_geometry, with the depth that goes with it: the table, A5 sideways, or the raster's
      own size rounded up. */
  method PageGeometry(hdr: PageHeader, dpi1200: bool) returns (lay: Layout)
    ensures lay == Geometry(hdr, dpi1200) <==>
      Known(hdr) || (hdr.width <= 0x1_0000_0000 - 32 && hdr.height <= 0x1_0000_0000 - 8)
    ensures !Known(hdr) ==>
      && lay.videoX % 32 == 0 && hdr.width <= lay.videoX < hdr.width + 32
      && lay.videoY % 8 == 0 && hdr.height <= lay.videoY < hdr.height + 8
  {
    var depth := if dpi1200 then 2 else 1;
    var paper := SearchTable((hdr.pageW, hdr.pageH));
    if paper.Some? {
      var (code, x, y) := paper.value;
      return Layout(code, x, y, depth, false);
    }
    if (hdr.pageW, hdr.pageH) == (421, 595) {
      paper := SearchTable((420, 595));
      if paper.Some? {
        var (_, x, y) := paper.value;
        return Layout(61, y, x, depth, true);
      }
    }
    lay := CustomPage(hdr, depth);
  }

  /** A page of a size that is not known. */
  method CustomPage(hdr: PageHeader, depth: nat) returns (lay: Layout)
    ensures lay == Layout(0, RoundUp(hdr.width, 32), RoundUp(hdr.height, 8), depth, false) <==>
      hdr.width <= 0x1_0000_0000 - 32 && hdr.height <= 0x1_0000_0000 - 8
    ensures lay.videoX % 32 == 0 && hdr.width <= lay.videoX < hdr.width + 32
    ensures lay.videoY % 8 == 0 && hdr.height <= lay.videoY < hdr.height + 8
  {
    RoundingsAgree(hdr.width, 32);
    RoundingsAgree(hdr.height, 8);
    lay := Layout(0, RoundUpFreely(hdr.width, 32), RoundUpFreely(hdr.height, 8), depth, false);
  }

  /** The size is in the table, or is A5 sideways and A5 is. */
  predicate Known(hdr: PageHeader) {
    || PaperFrom(0, hdr.pageW, hdr.pageH).Some?
    || (hdr.pageW == 421 && hdr.pageH == 595 && PaperFrom(0, 420, 595).Some?)
  }

  /** The prototype's page, geometry and all: for every header the filter accepts it is the
      filter's. */
  method PrototypePage(lines: seq<seq<byte>>, hdr: PageHeader, opt: JobOptions, screen: Screen)
      returns (out: array<byte>)
    requires hdr.Accepted() && Lined(lines, hdr)
    ensures Geometry(hdr, opt.dpi1200).Valid()
    ensures out[..] == Flatten(Bitmap(lines, hdr, Geometry(hdr, opt.dpi1200), opt, screen))
  {
    GeometryFits(hdr, opt.dpi1200);
    var lay := PageGeometry(hdr, opt.dpi1200);
    out := Halftone(lines, hdr, lay, opt, screen);
  }

  /** Source row sy padded white to the page's width, turned end for end if need be. */
  method UprightLine(lines: seq<seq<byte>>, hdr: PageHeader, w: nat, h: nat, rotate180: bool, y: nat)
      returns (row: seq<byte>)
    requires Lined(lines, hdr) && y < h
    ensures row == UprightRow(lines, hdr, w, h, rotate180, y)
  {
    var sy := if rotate180 then h - 1 - y else y;
    var white: seq<byte> := seq(w, _ => 255);
    row := white;
    if sy < hdr.height {
      row := lines[sy][..Min(hdr.width, w)];
      row := row + white[|row|..];
    }
    if rotate180 {
      row := Reversed(row);
    }
  }

  /** The grey page, as a list of rows. */
  method GrayPage(lines: seq<seq<byte>>, hdr: PageHeader, lay: Layout, rotate180: bool)
      returns (rows: seq<seq<byte>>)
    requires Lined(lines, hdr) && lay.Valid()
    ensures |rows| == lay.videoY
    ensures forall y :: 0 <= y < lay.videoY ==> rows[y] == GrayRow(lines, hdr, lay, rotate180, y)
  {
    var srcW, srcH := lay.SrcW(), lay.SrcH();
    rows := [];
    var y := 0;
    while y < srcH
      invariant 0 <= y <= srcH && |rows| == y
      invariant forall d :: 0 <= d < y ==> rows[d] == UprightRow(lines, hdr, srcW, srcH, rotate180, d)
    {
      var row := UprightLine(lines, hdr, srcW, srcH, rotate180, y);
      rows := rows + [row];
      y := y + 1;
    }
    if lay.rotate90 {
      forall y | 0 <= y < lay.videoY
        ensures (forall d :: 0 <= d < |rows| ==> |rows[d]| == lay.videoY)
                && TurnedRow90(rows, lay.videoX, y) == GrayRow(lines, hdr, lay, rotate180, y)
      {
        TurnedIsGray(rows, lay, lines, hdr, rotate180, y);
      }
      rows := seq(lay.videoY, y requires 0 <= y < lay.videoY => TurnedRow90(rows, lay.videoX, y));
    }
  }

  lemma TurnedIsGray(rows: seq<seq<byte>>, lay: Layout, lines: seq<seq<byte>>, hdr: PageHeader,
                     rotate180: bool, y: nat)
    requires Lined(lines, hdr) && lay.rotate90 && |rows| == lay.videoX && y < lay.videoY
    requires forall d :: 0 <= d < |rows| ==>
      rows[d] == UprightRow(lines, hdr, lay.videoY, lay.videoX, rotate180, d)
    ensures forall d :: 0 <= d < |rows| ==> |rows[d]| == lay.videoY
    ensures TurnedRow90(rows, lay.videoX, y) == GrayRow(lines, hdr, lay, rotate180, y)
  {
  }

  /** Row y of the turned page: out[y][x] = rows[h - 1 - x][y]. */
  function TurnedRow90(rows: seq<seq<byte>>, w: nat, y: nat): (row: seq<byte>)
    requires |rows| == w && forall d :: 0 <= d < w ==> y < |rows[d]|
    ensures |row| == w
  {
    seq(w, x requires 0 <= x < w => rows[w - 1 - x][y])
  }

  /** The packed page. */
  method Halftone(lines: seq<seq<byte>>, hdr: PageHeader, lay: Layout, opt: JobOptions, screen: Screen)
      returns (out: array<byte>)
    requires Lined(lines, hdr) && lay.Valid()
    ensures out[..] == Flatten(Bitmap(lines, hdr, lay, opt, screen))
  {
    var rows := GrayPage(lines, hdr, lay, opt.rotate180);
    out := PackPage(rows, lay, opt, screen);
    assert ScreenedRows(rows, lay, opt, screen) == Bitmap(lines, hdr, lay, opt, screen);
  }

  ghost function ScreenedRows(rows: seq<seq<byte>>, lay: Layout, opt: JobOptions, screen: Screen)
      : (bitmap: seq<seq<byte>>)
    requires lay.Valid() && forall y :: 0 <= y < |rows| ==> |rows[y]| == lay.videoX
    ensures |bitmap| == |rows| && forall y :: 0 <= y < |rows| ==> |bitmap[y]| == lay.RowBytes()
  {
    seq(|rows|, y requires 0 <= y < |rows| => DotRow(rows[y], screen, y, lay.depth, opt.negative))
  }

  method PackPage(rows: seq<seq<byte>>, lay: Layout, opt: JobOptions, screen: Screen)
      returns (out: array<byte>)
    requires lay.Valid() && |rows| == lay.videoY
    requires forall y :: 0 <= y < |rows| ==> |rows[y]| == lay.videoX
    ensures out[..] == Flatten(ScreenedRows(rows, lay, opt, screen))
  {
    out := PackRows(rows, lay.videoX, lay.RowBytes(), lay.depth, opt.negative, screen,
                    ScreenedRows(rows, lay, opt, screen));
  }

  method PackRows(rows: seq<seq<byte>>, width: nat, bpl: nat, depth: nat, negative: bool, screen: Screen,
                  ghost bitmap: seq<seq<byte>>)
      returns (out: array<byte>)
    requires (depth == 1 || depth == 2) && width % 8 == 0 && bpl == width / PerByte(depth)
    requires |bitmap| == |rows|
    requires forall y :: 0 <= y < |rows| ==> |rows[y]| == width && |bitmap[y]| == bpl
    requires forall y :: 0 <= y < |rows| ==> bitmap[y] == DotRow(rows[y], screen, y, depth, negative)
    ensures out[..] == Flatten(bitmap)
  {
    var n := |rows|;
    out := new byte[n * bpl](_ => 0);
    var y := 0;
    while y < n
      invariant 0 <= y <= n
      invariant forall d: nat :: d < y ==> RowIs(out[..], d, bpl, bitmap[d])
    {
      ghost var was := out[..];
      PackPageRow(out, rows[y], n, bpl, depth, negative, screen, y);
      forall d: nat | d < y ensures RowIs(out[..], d, bpl, bitmap[d]) {
        RowKept(was, out[..], d, y, bpl, bitmap[d]);
      }
      y := y + 1;
    }
    RowsFlatten(out[..], bitmap, bpl);
  }

  method PackPageRow(out: array<byte>, row: seq<byte>, n: nat, bpl: nat, depth: nat, negative: bool,
                     screen: Screen, y: nat)
    requires (depth == 1 || depth == 2) && |row| % 8 == 0 && bpl == |row| / PerByte(depth)
    requires y < n && out.Length == n * bpl
    modifies out
    ensures RowIs(out[..], y, bpl, DotRow(row, screen, y, depth, negative))
    ensures OnlyRow(old(out[..]), out[..], y, bpl)
  {
    RowInside(y, n, bpl);
    PackRowAt(out, y * bpl, bpl, row, screen, y, depth, negative);
  }

  method PackRowAt(out: array<byte>, at: nat, bpl: nat, row: seq<byte>, screen: Screen, y: nat,
                   depth: nat, negative: bool)
    requires (depth == 1 || depth == 2) && |row| % 8 == 0 && bpl == |row| / PerByte(depth)
    requires at == y * bpl && at + bpl <= out.Length
    modifies out
    ensures RowIs(out[..], y, bpl, DotRow(row, screen, y, depth, negative))
    ensures OnlyRow(old(out[..]), out[..], y, bpl)
  {
    ghost var was := out[..];
    PackRow(out, at, row, screen, y, depth, negative);
    RowWritten(was, out[..], y, bpl, at, DotRow(row, screen, y, depth, negative));
  }

  /** Screen one grey row into the bitmap at `at`. */
  method PackRow(out: array<byte>, at: nat, row: seq<byte>, screen: Screen, y: nat, depth: nat,
                 negative: bool)
    requires (depth == 1 || depth == 2) && |row| % 8 == 0
    requires at + |row| / PerByte(depth) <= out.Length
    modifies out
    ensures out[at..at + |row| / PerByte(depth)] == DotRow(row, screen, y, depth, negative)
    ensures OnlyWithin(out, at, |row| / PerByte(depth))
  {
    ghost var codes := RowCodes(row, screen, y, depth, negative);
    PackCodes(out, at, row, screen, y, depth, negative, codes, Pack(codes, depth));
  }

  method PackCodes(out: array<byte>, at: nat, row: seq<byte>, screen: Screen, y: nat, depth: nat,
                   negative: bool, ghost codes: seq<nat>, ghost bytes: seq<byte>)
    requires (depth == 1 || depth == 2) && |row| % 8 == 0
    requires |codes| == |row| && InBase(codes, Base(depth))
    requires forall x :: 0 <= x < |row| ==> codes[x] == Code(row[x], Thr(screen, y, x), depth, negative)
    requires bytes == Pack(codes, depth) && at + |bytes| <= out.Length
    modifies out
    ensures forall k :: 0 <= k < |bytes| ==> out[at + k] == bytes[k]
    ensures OnlyWithin(out, at, |bytes|)
  {
    var ppb := PerByte(depth);
    var trow := y % 16 * 16;
    var thr: seq<byte> := seq(|row|, x requires 0 <= x < |row| => screen[trow + x % 16]);
    ScreenRow(screen, y, thr);
    var acc, x := 0, 0;
    ghost var pos, j := 0, 0;
    while x < |row|
      invariant 0 <= x <= |row| && Shifted(codes, depth, x, pos, j, acc)
      invariant forall k :: 0 <= k < pos ==> out[at + k] == bytes[k]
      invariant OnlyWithin(out, at, |bytes|)
    {
      var v := TableCode(row[x], thr[x], depth, negative);
      assert v == codes[x];
      ShiftedNext(codes, depth, x, pos, j, acc, bytes);
      acc := acc * Base(depth) + v;
      if x % ppb == ppb - 1 {
        StoreNumber(out, at, x / ppb, acc, bytes);
        acc := 0;
        pos, j := pos + 1, 0;
      } else {
        j := j + 1;
      }
      x := x + 1;
    }
  }

  /** The thresholds of a row, laid out once for all its pixels. */
  lemma ScreenRow(screen: Screen, y: nat, thr: seq<byte>)
    requires forall x :: 0 <= x < |thr| ==> thr[x] == screen[y % 16 * 16 + x % 16]
    ensures forall x :: 0 <= x < |thr| ==> thr[x] == Thr(screen, y, x)
  {
  }

  /** Byte pos of the row, behind those that are there. */
  method StoreNumber(out: array<byte>, at: nat, pos: nat, b: byte, ghost bytes: seq<byte>)
    requires pos < |bytes| && at + |bytes| <= out.Length && b == bytes[pos]
    requires forall k :: 0 <= k < pos ==> out[at + k] == bytes[k]
    modifies out
    ensures forall k :: 0 <= k < pos + 1 ==> out[at + k] == bytes[k]
    ensures OnlyWithin(out, at, |bytes|)
  {
    out[at + pos] := b;
  }

  /** Where PackCodes stands at pixel x: j codes into byte pos, read so far as a number. */
  ghost predicate Shifted(codes: seq<nat>, depth: nat, x: nat, pos: nat, j: nat, acc: int) {
    && (depth == 1 || depth == 2) && j < PerByte(depth) && x == Start(depth, pos) + j <= |codes|
    && if j == 0 then acc == 0
       else
         && Start(depth, pos + 1) <= |codes|
         && acc == CodeNumber(Group(codes, depth, pos)[..j], Base(depth))
  }

  lemma ShiftedNext(codes: seq<nat>, depth: nat, x: nat, pos: nat, j: nat, acc: int, bytes: seq<byte>)
    requires Shifted(codes, depth, x, pos, j, acc) && x < |codes|
    requires |codes| % 8 == 0 && InBase(codes, Base(depth)) && bytes == Pack(codes, depth)
    ensures x % PerByte(depth) == j && x / PerByte(depth) == pos
    ensures var more := acc * Base(depth) + codes[x];
      if j == PerByte(depth) - 1
      then && pos < |bytes| && more == bytes[pos] && Shifted(codes, depth, x + 1, pos + 1, 0, 0)
      else Shifted(codes, depth, x + 1, pos, j + 1, more)
  {
    PlaceInByte(depth, pos, j, x);
    GroupFits(|codes|, depth, pos, j);
    var group := Group(codes, depth, pos);
    assert group[j] == codes[x];
    assert group[..j + 1][..j] == group[..j];
    assert group[..|group|] == group;
  }

  lemma PlaceInByte(depth: nat, pos: nat, j: nat, x: nat)
    requires (depth == 1 || depth == 2) && j < PerByte(depth) && x == Start(depth, pos) + j
    ensures x % PerByte(depth) == j && x / PerByte(depth) == pos
  {
  }
}
