/** Rendering one page, twice over: line by line into an uninitialised bitmap, as the filter
    does it, and whole page first, as the prototype does.  Both arrive at the same dots. */
module PageRender {
  import opened Arithmetic
  import opened Bytes
  import opened Buffers
  import opened PageModel

  // ------------------------------------------------------------- one dot row

  /** 1 << (depth * n) counts the values of n codes. */
  lemma {:induction false} ShiftIsPower(depth: nat, n: nat)
    requires depth == 1 || depth == 2
    ensures Two(depth * n) == Power(Base(depth), n)
  {
    if n > 0 {
      ShiftIsPower(depth, n - 1);
      if depth == 2 {
        assert Two(2 * n) == 2 * (2 * Two(2 * n - 2));
      }
    }
  }

  /** What the accumulator holds after j codes of a byte: the codes so far, moved up to make
      room for the rest. */
  ghost function Gathered(codes: seq<nat>, depth: nat, j: nat): nat
    requires j <= |codes| == PerByte(depth)
  {
    CodeNumber(codes[..j], Base(depth)) * Power(Base(depth), PerByte(depth) - j)
  }

  lemma GatherNext(codes: seq<nat>, depth: nat, j: nat)
    requires j < |codes| == PerByte(depth) && InBase(codes, Base(depth))
    ensures Gathered(codes, depth, j + 1)
            == Gathered(codes, depth, j) + codes[j] * Power(Base(depth), PerByte(depth) - j - 1)
  {
    var base, p := Base(depth), Power(Base(depth), PerByte(depth) - j - 1);
    var d := CodeNumber(codes[..j], base);
    assert codes[..j + 1][..j] == codes[..j];
    Distribute(d * base, codes[j], p);
    Regroup(d, base, p);
  }

  lemma GatherAll(codes: seq<nat>, depth: nat)
    requires |codes| == PerByte(depth) && InBase(codes, Base(depth))
    ensures Gathered(codes, depth, |codes|) == PackByte(codes, depth)
  {
    assert codes[..|codes|] == codes;
  }

  lemma GatherNone(codes: seq<nat>, depth: nat)
    requires |codes| == PerByte(depth)
    ensures Gathered(codes, depth, 0) == 0
  {
  }

  /** The packed bitmap, fresh from the heap: its bytes are whatever they are until they are
      written, and it counts how often each of them is. */
  class Canvas {
    const dots: array<byte>
    ghost var puts: seq<nat>

    ghost predicate Valid()
      reads this
    {
      |puts| == dots.Length
    }

    constructor (size: nat)
      ensures Valid() && fresh(dots) && dots.Length == size && Even(puts, 0)
    {
      dots, puts := new byte[size], seq(size, _ => 0);
    }

    method Put(at: nat, b: byte)
      requires Valid() && at < dots.Length
      modifies this, dots
      ensures dots[..] == old(dots[..])[at := b]
      ensures puts == old(puts)[at := old(puts)[at] + 1]
    {
      dots[at] := b;
      puts := puts[at := puts[at] + 1];
    }
  }

  /** Every byte has been written that many times. */
  ghost predicate Even(puts: seq<nat>, times: nat) {
    forall k :: 0 <= k < |puts| ==> puts[k] == times
  }

  /** Each of the n bytes at `at` has been written once more, and no other byte has. */
  ghost predicate OncePut(was: seq<nat>, now: seq<nat>, at: int, n: int) {
    && |was| == |now|
    && forall k :: 0 <= k < |was| ==> now[k] == was[k] + if at <= k < at + n then 1 else 0
  }

  /** Dither one grey row into the packed bitmap at `at`, each byte of it once.  The
      accumulator's low bits are clear below `shift`, so adding a shifted code is or-ing it in. */
  method HalftoneRow(out: Canvas, at: nat, gray: array<byte>, width: nat, y: nat, depth: nat,
                     negative: bool, screen: Screen)
    requires (depth == 1 || depth == 2) && width <= gray.Length && width % 8 == 0
    requires out.Valid() && at + width / PerByte(depth) <= out.dots.Length && out.dots != gray
    modifies out, out.dots
    ensures out.Valid() && OncePut(old(out.puts), out.puts, at, width / PerByte(depth))
    ensures out.dots[at..at + width / PerByte(depth)]
            == DotRow(gray[..width], screen, y, depth, negative)
    ensures OnlyWithin(out.dots, at, width / PerByte(depth))
  {
    ghost var codes := RowCodes(gray[..width], screen, y, depth, negative);
    PutDots(out, at, gray, width, y, depth, negative, screen, codes, Pack(codes, depth));
  }

  /** HalftoneRow's loop. */
  method PutDots(out: Canvas, at: nat, gray: array<byte>, width: nat, y: nat, depth: nat,
                 negative: bool, screen: Screen, ghost codes: seq<nat>, ghost bytes: seq<byte>)
    requires (depth == 1 || depth == 2) && width <= gray.Length && width % 8 == 0
    requires |codes| == width && InBase(codes, Base(depth))
    requires forall x :: 0 <= x < width ==> codes[x] == Code(gray[x], Thr(screen, y, x), depth, negative)
    requires bytes == Pack(codes, depth)
    requires out.Valid() && at + |bytes| <= out.dots.Length && out.dots != gray
    modifies out, out.dots
    ensures out.Valid() && OncePut(old(out.puts), out.puts, at, |bytes|)
    ensures forall k :: 0 <= k < |bytes| ==> out.dots[at + k] == bytes[k]
    ensures OnlyWithin(out.dots, at, |bytes|)
  {
    var x, pos, acc, shift := 0, 0, 0, 8;
    ghost var j := 0;
    while x < width
      invariant 0 <= x <= width && Midway(codes, depth, x, pos, j, acc, shift)
      invariant out.Valid() && OncePut(old(out.puts), out.puts, at, pos)
      invariant forall k :: 0 <= k < pos ==> out.dots[at + k] == bytes[k]
      invariant OnlyWithin(out.dots, at, |bytes|)
    {
      var thr := screen[y % 16 * 16..][x % 16];
      assert thr == Thr(screen, y, x);
      var code := Code(gray[x], thr, depth, negative);
      pos, acc, shift, j := PutDot(out, at, x, code, depth, pos, acc, shift, j, codes, bytes);
      x := x + 1;
    }
    AllStored(codes, depth, x, pos, j, acc, shift);
  }

  /** One turn of the loop: one more code, and the byte once it is complete. */
  method PutDot(out: Canvas, at: nat, ghost x: nat, code: nat, depth: nat, pos: nat, acc: int, shift: int,
                ghost j: nat, ghost codes: seq<nat>, ghost bytes: seq<byte>)
      returns (pos': nat, acc': int, shift': int, ghost j': nat)
    requires Midway(codes, depth, x, pos, j, acc, shift) && x < |codes| && code == codes[x]
    requires |codes| % 8 == 0 && InBase(codes, Base(depth)) && bytes == Pack(codes, depth)
    requires out.Valid() && at + |bytes| <= out.dots.Length
    requires forall k :: 0 <= k < pos ==> out.dots[at + k] == bytes[k]
    modifies out, out.dots
    ensures Midway(codes, depth, x + 1, pos', j', acc', shift')
    ensures out.Valid() && pos <= pos' && OncePut(old(out.puts), out.puts, at + pos, pos' - pos)
    ensures forall k :: 0 <= k < pos' ==> out.dots[at + k] == bytes[k]
    ensures OnlyWithin(out.dots, at, |bytes|)
  {
    MidwayNext(codes, depth, x, pos, j, acc, shift, bytes);
    pos', shift', j' := pos, shift - depth, j + 1;
    acc' := acc + code * Two(shift');
    if shift' == 0 {
      StoreByte(out, at, pos, acc', bytes);
      pos', acc', shift', j' := pos + 1, 0, 8, 0;
    }
  }

  /** A whole row has been taken: every byte of it is stored. */
  lemma AllStored(codes: seq<nat>, depth: nat, x: nat, pos: nat, j: nat, acc: int, shift: int)
    requires Midway(codes, depth, x, pos, j, acc, shift) && x == |codes| && |codes| % 8 == 0
    ensures pos == |codes| / PerByte(depth)
  {
  }

  /** Byte pos of the row, behind those that are there. */
  method StoreByte(out: Canvas, at: nat, pos: nat, b: byte, ghost bytes: seq<byte>)
    requires out.Valid() && pos < |bytes| && at + |bytes| <= out.dots.Length && b == bytes[pos]
    requires forall k :: 0 <= k < pos ==> out.dots[at + k] == bytes[k]
    modifies out, out.dots
    ensures out.Valid() && OncePut(old(out.puts), out.puts, at + pos, 1)
    ensures forall k :: 0 <= k < pos + 1 ==> out.dots[at + k] == bytes[k]
    ensures OnlyWithin(out.dots, at, |bytes|)
  {
    ghost var was := out.dots[..];
    out.Put(at + pos, b);
    forall k | 0 <= k < out.dots.Length ensures out.dots[k] == was[at + pos := b][k] {
      assert out.dots[..][k] == out.dots[k];
    }
  }

  /** Where HalftoneRow stands at pixel x: j codes into byte pos, `shift` bits to go. */
  ghost predicate Midway(codes: seq<nat>, depth: nat, x: nat, pos: nat, j: nat, acc: int, shift: int) {
    && (depth == 1 || depth == 2) && j < PerByte(depth)
    && x == Start(depth, pos) + j <= |codes|
    && shift == (if depth == 1 then 8 - j else 8 - 2 * j)
    && if j == 0 then acc == 0
       else
         && Start(depth, pos + 1) <= |codes|
         && acc == Gathered(Group(codes, depth, pos), depth, j)
  }

  lemma GroupFits(n: nat, depth: nat, pos: nat, j: nat)
    requires (depth == 1 || depth == 2) && n % 8 == 0 && Start(depth, pos) + j < n
    ensures Start(depth, pos + 1) <= n
  {
  }

  lemma MidwayNext(codes: seq<nat>, depth: nat, x: nat, pos: nat, j: nat, acc: int, shift: int,
                   bytes: seq<byte>)
    requires Midway(codes, depth, x, pos, j, acc, shift) && x < |codes|
    requires |codes| % 8 == 0 && InBase(codes, Base(depth)) && bytes == Pack(codes, depth)
    ensures shift >= depth
    ensures var more := acc + codes[x] * Two(shift - depth);
      if shift == depth
      then && pos < |bytes| && more == bytes[pos]
           && Midway(codes, depth, x + 1, pos + 1, 0, 0, 8)
      else Midway(codes, depth, x + 1, pos, j + 1, more, shift - depth)
  {
    GroupFits(|codes|, depth, pos, j);
    var group := Group(codes, depth, pos);
    assert group[j] == codes[x];
    Gather(group, codes[x], depth, j);
    GatherNone(group, depth);
  }

  /** One more code gathered, the last of the byte or not. */
  lemma Gather(codes: seq<nat>, code: nat, depth: nat, j: nat)
    requires (depth == 1 || depth == 2) && j < |codes| == PerByte(depth) && InBase(codes, Base(depth))
    requires code == codes[j]
    ensures var shift := if depth == 1 then 7 - j else 6 - 2 * j;
      && Gathered(codes, depth, j + 1) == Gathered(codes, depth, j) + code * Two(shift)
      && (j + 1 == |codes| ==> Gathered(codes, depth, j + 1) == PackByte(codes, depth))
  {
    GatherNext(codes, depth, j);
    ShiftIsPower(depth, PerByte(depth) - j - 1);
    GatherAll(codes, depth);
  }

  // -------------------------------------------------------------- the raster

  datatype RasterPage = RasterPage(hdr: PageHeader, lines: seq<seq<byte>>)

  /** The raster stream: pages still to come, and the lines left of the current one.  A read
      may fail at any point, unless the stream is intact. */
  class Raster {
    var pages: seq<RasterPage>
    var lines: seq<seq<byte>>
    /** Every read succeeds while there is data. */
    const intact: bool

    constructor (pages: seq<RasterPage>, intact: bool)
      ensures this.pages == pages && lines == [] && this.intact == intact
    {
      this.pages, lines, this.intact := pages, [], intact;
    }

    /** What becomes of one dealing with the stream. */
    method Try() returns (ok: bool)
      ensures intact ==> ok
    {
      ok := *;
      ok := ok || intact;
    }

    /** The next page header; only found if the lines of the page before were all read. */
    method ReadHeader() returns (ok: bool, hdr: PageHeader)
      modifies this
      ensures ok ==> old(pages) != [] && old(lines) == []
      ensures ok ==> hdr == old(pages)[0].hdr && pages == old(pages)[1..] && lines == old(pages)[0].lines
      ensures !ok ==> pages == old(pages) && lines == old(lines)
      ensures intact ==> ok == (old(pages) != [] && old(lines) == [])
    {
      hdr := PageHeader(0, 0, 0, 0, 0, 0, 0, 0, 0, 0, 0);
      ok := Try();
      if pages == [] || lines != [] {
        ok := false;
      } else if ok {
        hdr, lines, pages := pages[0].hdr, pages[0].lines, pages[1..];
      }
    }

    /** The next line of the current page. */
    method ReadPixels() returns (ok: bool, line: seq<byte>)
      modifies `lines
      ensures ok ==> old(lines) != [] && line == old(lines)[0] && lines == old(lines)[1..]
      ensures !ok ==> lines == old(lines)
      ensures intact ==> ok == (old(lines) != [])
    {
      line := [];
      ok := Try();
      if lines == [] {
        ok := false;
      } else if ok {
        line, lines := lines[0], lines[1..];
      }
    }
  }

  // ---------------------------------------------------------- line by line

  /** Turn the first w bytes of the row end for end. */
  method ReverseRow(row: array<byte>, w: nat)
    requires 0 < w <= row.Length
    modifies row
    ensures row[..w] == Reversed(old(row[..w]))
    ensures OnlyWithin(row, 0, w)
  {
    var a, b := 0, w - 1;
    while a < b
      invariant 0 <= a && a + b == w - 1
      invariant forall k :: 0 <= k < w ==>
        row[k] == if k < a || b < k then old(row[w - 1 - k]) else old(row[k])
      invariant OnlyWithin(row, 0, w)
    {
      row[a], row[b] := row[b], row[a];
      a, b := a + 1, b - 1;
    }
  }

  /** Line y of the raster as laid on a page w dots wide, unturned. */
  function LaidRow(full: seq<seq<byte>>, hdr: PageHeader, w: nat, y: nat): (row: seq<byte>)
    requires Lined(full, hdr)
    ensures |row| == w
  {
    seq(w, x requires 0 <= x < w => Laid(full, hdr, w, y, x))
  }

  /** Bring line y of the page into the row buffer: read it and whiten what it does not
      cover, or leave the row white below the raster. */
  method LoadRow(ras: Raster, row: array<byte>, w: nat, y: nat, hdr: PageHeader,
                 ghost full: seq<seq<byte>>) returns (ok: bool)
    requires Lined(full, hdr) && w <= row.Length && hdr.bytesPerLine <= row.Length
    requires y < hdr.height ==> ras.lines <= full[y..]
    requires y > hdr.height ==> forall k :: 0 <= k < w ==> row[k] == 255
    modifies ras`lines, row
    ensures ok ==> row[..w] == LaidRow(full, hdr, w, y)
    ensures ok && y < hdr.height ==> old(ras.lines) != [] && ras.lines == old(ras.lines)[1..]
    ensures y >= hdr.height ==> ok && ras.lines == old(ras.lines)
    ensures ras.intact && y < hdr.height ==> ok == (old(ras.lines) != [])
  {
    ok := true;
    if y < hdr.height {
      var line;
      ok, line := ras.ReadPixels();
      if !ok {
        return;
      }
      assert line == full[y];
      var i := 0;
      while i < |line|
        invariant 0 <= i <= |line|
        invariant forall k :: 0 <= k < i ==> row[k] == line[k]
        modifies row
      {
        row[i] := line[i];
        i := i + 1;
      }
      var copyW := Min(hdr.width, w);
      Fill(row, copyW, row.Length, 255);
    } else if y == hdr.height {
      Fill(row, 0, row.Length, 255);
    }
  }

  /** Row d of a buffer of rows `width` bytes wide. */
  ghost predicate RowIs<T>(s: seq<T>, d: nat, width: nat, row: seq<T>) {
    && d * width + width <= |s|
    && s[d * width..d * width + width] == row
  }

  lemma RowsApart(d: nat, e: nat, width: nat)
    requires d < e
    ensures d * width + width <= e * width
  {
    assert (e - d - 1) * width >= 0;
    assert (e - d - 1) * width == e * width - d * width - width;
  }

  lemma RowInside(d: nat, n: nat, width: nat)
    requires d < n
    ensures d * width + width <= n * width
  {
    RowsApart(d, n, width);
  }

  /** Only row e of the buffer has been written. */
  ghost predicate OnlyRow<T>(was: seq<T>, now: seq<T>, e: nat, width: nat) {
    && |was| == |now|
    && forall k :: 0 <= k < |was| && !(e * width <= k < e * width + width) ==> now[k] == was[k]
  }

  /** Writing row e leaves row d as it was. */
  lemma RowKept<T>(was: seq<T>, now: seq<T>, d: nat, e: nat, width: nat, row: seq<T>)
    requires d != e && RowIs(was, d, width, row) && OnlyRow(was, now, e, width)
    ensures RowIs(now, d, width, row)
  {
    if d < e { RowsApart(d, e, width); } else { RowsApart(e, d, width); }
  }

  lemma {:induction false} RowsFlatten(s: seq<byte>, rows: seq<seq<byte>>, width: nat)
    requires |s| == |rows| * width
    requires forall d :: 0 <= d < |rows| ==> |rows[d]| == width
    requires forall d: nat :: d < |rows| ==> RowIs(s, d, width, rows[d])
    ensures s == Flatten(rows)
    decreases |rows|
  {
    if rows != [] {
      var n := |rows| - 1;
      RowInside(n, |rows|, width);
      assert n * width + width == |rows| * width;
      var init := s[..n * width];
      assert RowIs(s, n, width, rows[n]);
      forall d: nat | d < n ensures RowIs(init, d, width, rows[..n][d]) {
        assert RowIs(s, d, width, rows[d]);
        RowInside(d, n, width);
        assert init[d * width..d * width + width] == s[d * width..d * width + width];
      }
      RowsFlatten(init, rows[..n], width);
      assert rows == rows[..n] + [rows[n]];
      FlattenSnoc(rows[..n], rows[n]);
      assert s == init + s[n * width..];
    }
  }

  /** Where line y of the raster goes. */
  function Target(y: nat, h: nat, rotate180: bool): nat
    requires y < h
  {
    if rotate180 then h - 1 - y else y
  }

  /** The rows that the first y lines have gone to. */
  predicate Placed(d: nat, y: nat, h: nat, rotate180: bool) {
    if rotate180 then h - y <= d < h else d < y
  }

  lemma PlacedNext(d: nat, y: nat, h: nat, rotate180: bool)
    requires y < h
    ensures Placed(d, y + 1, h, rotate180) <==> Placed(d, y, h, rotate180) || d == Target(y, h, rotate180)
    ensures !Placed(Target(y, h, rotate180), y, h, rotate180)
  {
  }

  /** What the buffers of a page hold, and how often each byte of the bitmap was written. */
  datatype Picture = Picture(dots: seq<byte>, puts: seq<nat>, gray: seq<byte>)

  /** The bitmap, the row buffer, and the grey page that only the quarter turn needs. */
  datatype Work = Work(bitmap: Canvas, row: array<byte>, gray: array<byte>) {
    ghost predicate Sized(lay: Layout, hdr: PageHeader)
      reads bitmap
    {
      && bitmap.Valid() && bitmap.dots != row && gray != row && gray != bitmap.dots
      && bitmap.dots.Length == lay.videoY * lay.RowBytes()
      && row.Length >= Max(Max(lay.videoX, lay.SrcW()), hdr.bytesPerLine)
      && (lay.rotate90 ==> gray.Length == lay.SrcH() * lay.SrcW())
    }

    ghost function Now(): Picture
      reads bitmap, bitmap.dots, gray
    {
      Picture(bitmap.dots[..], bitmap.puts, gray[..])
    }
  }

  /** Everything a page is made from but its lines. */
  datatype Page = Page(hdr: PageHeader, lay: Layout, opt: JobOptions, screen: Screen) {
    ghost predicate Valid(full: seq<seq<byte>>) {
      && Lined(full, hdr) && lay.Valid() && 0 < lay.SrcW() && 0 < lay.SrcH()
    }

    ghost function Dots(full: seq<seq<byte>>, y: nat): (b: seq<byte>)
      requires Valid(full) && y < lay.videoY
      ensures |b| == lay.RowBytes()
    {
      BitmapRow(full, hdr, lay, opt, screen, y)
    }

    ghost function Upright(full: seq<seq<byte>>, y: nat): (row: seq<byte>)
      requires Valid(full) && y < lay.SrcH()
      ensures |row| == lay.SrcW()
    {
      UprightRow(full, hdr, lay.SrcW(), lay.SrcH(), opt.rotate180, y)
    }
  }

  /** A row of bytes all written so many times. */
  function Times(width: nat, n: nat): seq<nat> { seq(width, _ => n) }

  /** Row d of the bitmap is screened, and each byte of it has been written once. */
  ghost predicate Dotted(p: Page, full: seq<seq<byte>>, v: Picture, d: nat)
    requires p.Valid(full) && d < p.lay.videoY
  {
    && RowIs(v.dots, d, p.lay.RowBytes(), p.Dots(full, d))
    && RowIs(v.puts, d, p.lay.RowBytes(), Times(p.lay.RowBytes(), 1))
  }

  /** Row d of the page is where it belongs: screened into the bitmap, or kept grey for the
      quarter turn. */
  ghost predicate RowDone(p: Page, full: seq<seq<byte>>, v: Picture, d: nat)
    requires p.Valid(full) && d < p.lay.SrcH()
  {
    if p.lay.rotate90 then RowIs(v.gray, d, p.lay.SrcW(), p.Upright(full, d))
    else Dotted(p, full, v, d)
  }

  /** No byte of row d of the bitmap has been written yet. */
  ghost predicate Bare(p: Page, v: Picture, d: nat) {
    RowIs(v.puts, d, p.lay.RowBytes(), Times(p.lay.RowBytes(), 0))
  }

  /** The rows that the first y lines have gone to are where they belong, and the rest of the
      bitmap has not been written. */
  ghost predicate RowsDone(p: Page, full: seq<seq<byte>>, v: Picture, y: nat)
    requires p.Valid(full)
  {
    forall d: nat :: d < p.lay.SrcH() ==>
      if Placed(d, y, p.lay.SrcH(), p.opt.rotate180) then RowDone(p, full, v, d)
      else !p.lay.rotate90 ==> Bare(p, v, d)
  }

  lemma TurnedRow(p: Page, full: seq<seq<byte>>, y: nat)
    requires p.Valid(full) && y < p.lay.SrcH()
    ensures var laid := LaidRow(full, p.hdr, p.lay.SrcW(), y);
      p.Upright(full, Target(y, p.lay.SrcH(), p.opt.rotate180))
      == if p.opt.rotate180 then Reversed(laid) else laid
  {
  }

  /** What is said of the other rows of a page still holds when row `dst` is placed. */
  ghost predicate OthersKept(p: Page, full: seq<seq<byte>>, v: Picture, v': Picture, dst: nat)
    requires p.Valid(full)
  {
    forall d: nat :: d < p.lay.SrcH() && d != dst ==>
      && (RowDone(p, full, v, d) ==> RowDone(p, full, v', d))
      && (!p.lay.rotate90 && Bare(p, v, d) ==> Bare(p, v', d))
  }

  lemma GrayKept(p: Page, full: seq<seq<byte>>, v: Picture, v': Picture, dst: nat)
    requires p.Valid(full) && p.lay.rotate90 && OnlyRow(v.gray, v'.gray, dst, p.lay.SrcW())
    ensures OthersKept(p, full, v, v', dst)
  {
    forall d: nat | d < p.lay.SrcH() && d != dst && RowDone(p, full, v, d)
      ensures RowDone(p, full, v', d)
    {
      RowKept(v.gray, v'.gray, d, dst, p.lay.SrcW(), p.Upright(full, d));
    }
  }

  lemma DotsKept(p: Page, full: seq<seq<byte>>, v: Picture, v': Picture, dst: nat)
    requires p.Valid(full) && !p.lay.rotate90
    requires OnlyRow(v.dots, v'.dots, dst, p.lay.RowBytes()) && OnlyRow(v.puts, v'.puts, dst, p.lay.RowBytes())
    ensures OthersKept(p, full, v, v', dst)
  {
    var width := p.lay.RowBytes();
    forall d: nat | d < p.lay.SrcH() && d != dst
      ensures RowDone(p, full, v, d) ==> RowDone(p, full, v', d)
      ensures Bare(p, v, d) ==> Bare(p, v', d)
    {
      if RowDone(p, full, v, d) {
        DottedKept(p, full, v, v', d, dst);
      }
      if Bare(p, v, d) {
        RowKept(v.puts, v'.puts, d, dst, width, Times(width, 0));
      }
    }
  }

  lemma DottedKept(p: Page, full: seq<seq<byte>>, v: Picture, v': Picture, d: nat, dst: nat)
    requires p.Valid(full) && d < p.lay.videoY && d != dst && Dotted(p, full, v, d)
    requires OnlyRow(v.dots, v'.dots, dst, p.lay.RowBytes()) && OnlyRow(v.puts, v'.puts, dst, p.lay.RowBytes())
    ensures Dotted(p, full, v', d)
  {
    RowKept(v.dots, v'.dots, d, dst, p.lay.RowBytes(), p.Dots(full, d));
    RowKept(v.puts, v'.puts, d, dst, p.lay.RowBytes(), Times(p.lay.RowBytes(), 1));
  }

  /** Place the row buffer's line as row `dst`. */
  method PlaceRow(p: Page, w: Work, dst: nat, ghost full: seq<seq<byte>>)
    requires p.Valid(full) && w.Sized(p.lay, p.hdr) && dst < p.lay.SrcH()
    requires w.row[..p.lay.SrcW()] == p.Upright(full, dst)
    requires !p.lay.rotate90 ==> Bare(p, w.Now(), dst)
    modifies w.bitmap, w.bitmap.dots, w.gray
    ensures w.Sized(p.lay, p.hdr) && RowDone(p, full, w.Now(), dst)
    ensures OthersKept(p, full, old(w.Now()), w.Now(), dst)
    ensures p.lay.rotate90 ==> w.bitmap.puts == old(w.bitmap.puts)
  {
    ghost var was := w.Now();
    if p.lay.rotate90 {
      StoreRow(w.gray, w.row, dst, p.lay.SrcH(), p.lay.SrcW());
      GrayKept(p, full, was, w.Now(), dst);
    } else {
      DitherRow(w.bitmap, w.row, p, dst);
      DotsKept(p, full, was, w.Now(), dst);
    }
  }

  lemma RowWritten(was: seq<byte>, now: seq<byte>, dst: nat, width: nat, at: nat, bytes: seq<byte>)
    requires at == dst * width && at + width <= |now| == |was| && now[at..at + width] == bytes
    requires forall k :: 0 <= k < |was| && !(at <= k < at + width) ==> now[k] == was[k]
    ensures RowIs(now, dst, width, bytes) && OnlyRow(was, now, dst, width)
  {
  }

  /** Keep a grey row for the quarter turn. */
  method StoreRow(gray: array<byte>, row: array<byte>, dst: nat, n: nat, width: nat)
    requires dst < n && gray.Length == n * width && width <= row.Length && gray != row
    modifies gray
    ensures RowIs(gray[..], dst, width, row[..width])
    ensures OnlyRow(old(gray[..]), gray[..], dst, width)
  {
    RowInside(dst, n, width);
    ghost var was := gray[..];
    CopyRow(gray, dst * width, row, width);
    RowWritten(was, gray[..], dst, width, dst * width, row[..width]);
  }

  function RowStart(d: nat, n: nat, width: nat, ghost total: int): (at: nat)
    requires d < n && total == n * width
    ensures at == d * width && at + width <= total
  {
    RowInside(d, n, width);
    d * width
  }

  lemma WidthInBytes(lay: Layout)
    requires lay.Valid()
    ensures lay.videoX % 8 == 0 && lay.RowBytes() == lay.videoX / PerByte(lay.depth)
  {
  }

  /** Screen a grey row into row `dst` of the bitmap. */
  method DitherRow(bitmap: Canvas, row: array<byte>, p: Page, dst: nat)
    requires p.lay.Valid() && dst < p.lay.videoY && bitmap.Valid() && bitmap.dots != row
    requires bitmap.dots.Length == p.lay.videoY * p.lay.RowBytes() && p.lay.videoX <= row.Length
    modifies bitmap, bitmap.dots
    ensures bitmap.Valid() && PutOnce(old(bitmap.puts), bitmap.puts, dst, p.lay.RowBytes())
    ensures RowIs(bitmap.dots[..], dst, p.lay.RowBytes(),
                  DotRow(row[..p.lay.videoX], p.screen, dst, p.lay.depth, p.opt.negative))
    ensures OnlyRow(old(bitmap.dots[..]), bitmap.dots[..], dst, p.lay.RowBytes())
  {
    var bpl := p.lay.RowBytes();
    WidthInBytes(p.lay);
    var at := RowStart(dst, p.lay.videoY, bpl, bitmap.dots.Length);
    DitherAt(bitmap, at, bpl, row, p.lay.videoX, p.lay.depth, p.opt.negative, p.screen, dst);
  }

  method DitherAt(bitmap: Canvas, at: nat, bpl: nat, row: array<byte>, width: nat, depth: nat,
                  negative: bool, screen: Screen, dst: nat)
    requires (depth == 1 || depth == 2) && width % 8 == 0 && bitmap.Valid() && bitmap.dots != row
    requires width <= row.Length
    requires bpl == width / PerByte(depth) && at == dst * bpl && at + bpl <= bitmap.dots.Length
    modifies bitmap, bitmap.dots
    ensures bitmap.Valid() && PutOnce(old(bitmap.puts), bitmap.puts, dst, bpl)
    ensures RowIs(bitmap.dots[..], dst, bpl, DotRow(row[..width], screen, dst, depth, negative))
    ensures OnlyRow(old(bitmap.dots[..]), bitmap.dots[..], dst, bpl)
  {
    ghost var was, puts := bitmap.dots[..], bitmap.puts;
    ghost var dots := DotRow(row[..width], screen, dst, depth, negative);
    HalftoneRow(bitmap, at, row, width, dst, depth, negative, screen);
    RowWritten(was, bitmap.dots[..], dst, bpl, at, dots);
    RowCounted(puts, bitmap.puts, dst, bpl, at);
  }

  /** Row d has been written once more, and nothing else has: if it was bare, then once. */
  ghost predicate PutOnce(was: seq<nat>, now: seq<nat>, d: nat, width: nat) {
    && OnlyRow(was, now, d, width)
    && (RowIs(was, d, width, Times(width, 0)) ==> RowIs(now, d, width, Times(width, 1)))
  }

  lemma RowCounted(was: seq<nat>, now: seq<nat>, d: nat, width: nat, at: nat)
    requires at == d * width && at + width <= |was| && OncePut(was, now, at, width)
    ensures PutOnce(was, now, d, width)
  {
    if RowIs(was, d, width, Times(width, 0)) {
      forall k | at <= k < at + width ensures now[k] == 1 {
        assert was[k] == was[at..at + width][k - at];
      }
    }
  }

  method CopyRow(dst: array<byte>, at: nat, src: array<byte>, n: nat)
    requires n <= src.Length && at + n <= dst.Length && dst != src
    modifies dst
    ensures dst[at..at + n] == src[..n] && OnlyWithin(dst, at, n)
  {
    var i := 0;
    while i < n
      invariant 0 <= i <= n
      invariant forall k :: 0 <= k < i ==> dst[at + k] == src[k]
      invariant OnlyWithin(dst, at, n)
    {
      dst[at + i] := src[i];
      i := i + 1;
    }
  }

  /** Read the raster line by line, turn each line if the page is upside down, and place it. */
  method RenderLines(ras: Raster, p: Page, w: Work, ghost full: seq<seq<byte>>) returns (ok: bool)
    requires p.Valid(full) && w.Sized(p.lay, p.hdr) && ras.lines <= full && Even(w.bitmap.puts, 0)
    modifies ras`lines, w.bitmap, w.bitmap.dots, w.row, w.gray
    ensures w.Sized(p.lay, p.hdr)
    ensures ok ==> forall d: nat :: d < p.lay.SrcH() ==> RowDone(p, full, w.Now(), d)
    ensures p.lay.rotate90 ==> Even(w.bitmap.puts, 0)
    ensures ok ==> |old(ras.lines)| >= Min(p.hdr.height, p.lay.SrcH())
                   && ras.lines == old(ras.lines)[Min(p.hdr.height, p.lay.SrcH())..]
    ensures ras.intact ==> ok == (|old(ras.lines)| >= Min(p.hdr.height, p.lay.SrcH()))
  {
    var srcW, srcH := p.lay.SrcW(), p.lay.SrcH();
    ghost var start := ras.lines;
    NothingDone(p, w, full);
    var y := 0;
    while y < srcH
      invariant 0 <= y <= srcH && w.Sized(p.lay, p.hdr)
      invariant |start| >= Min(y, p.hdr.height) && ras.lines == start[Min(y, p.hdr.height)..]
      invariant y > p.hdr.height ==> forall k :: 0 <= k < srcW ==> w.row[k] == 255
      invariant RowsDone(p, full, w.Now(), y)
      invariant p.lay.rotate90 ==> Even(w.bitmap.puts, 0)
    {
      ok := RenderLine(ras, p, w, y, full);
      if !ok {
        return;
      }
      y := y + 1;
    }
    ok := true;
    assert forall d: nat :: d < srcH ==> Placed(d, srcH, srcH, p.opt.rotate180);
  }

  /** A row of a bitmap that has not been written. */
  lemma BareRow(puts: seq<nat>, d: nat, n: nat, width: nat)
    requires Even(puts, 0) && d < n && |puts| == n * width
    ensures RowIs(puts, d, width, Times(width, 0))
  {
    RowInside(d, n, width);
    BarePiece(puts, d * width, width);
  }

  lemma BarePiece(puts: seq<nat>, at: nat, width: nat)
    requires Even(puts, 0) && at + width <= |puts|
    ensures puts[at..at + width] == Times(width, 0)
  {
  }

  lemma NothingDone(p: Page, w: Work, full: seq<seq<byte>>)
    requires p.Valid(full) && w.Sized(p.lay, p.hdr) && Even(w.bitmap.puts, 0)
    ensures RowsDone(p, full, w.Now(), 0)
  {
    if !p.lay.rotate90 {
      forall d: nat | d < p.lay.SrcH() ensures Bare(p, w.Now(), d) {
        BareRow(w.bitmap.puts, d, p.lay.videoY, p.lay.RowBytes());
      }
    }
  }

  /** Row `dst` has been placed as well. */
  lemma OneRowDone(p: Page, full: seq<seq<byte>>, v: Picture, v': Picture, y: nat, dst: nat)
    requires p.Valid(full) && y < p.lay.SrcH() && dst == Target(y, p.lay.SrcH(), p.opt.rotate180)
    requires RowsDone(p, full, v, y) && RowDone(p, full, v', dst) && OthersKept(p, full, v, v', dst)
    ensures RowsDone(p, full, v', y + 1)
  {
    forall d: nat | d < p.lay.SrcH() ensures
      Placed(d, y + 1, p.lay.SrcH(), p.opt.rotate180)
      <==> Placed(d, y, p.lay.SrcH(), p.opt.rotate180) || d == dst
    {
      PlacedNext(d, y, p.lay.SrcH(), p.opt.rotate180);
    }
  }

  method RenderLine(ras: Raster, p: Page, w: Work, y: nat, ghost full: seq<seq<byte>>) returns (ok: bool)
    requires p.Valid(full) && w.Sized(p.lay, p.hdr) && y < p.lay.SrcH()
    requires y < p.hdr.height ==> ras.lines <= full[y..]
    requires y > p.hdr.height ==> forall k :: 0 <= k < p.lay.SrcW() ==> w.row[k] == 255
    requires RowsDone(p, full, w.Now(), y)
    modifies ras`lines, w.bitmap, w.bitmap.dots, w.row, w.gray
    ensures w.Sized(p.lay, p.hdr)
    ensures p.lay.rotate90 ==> w.bitmap.puts == old(w.bitmap.puts)
    ensures ok ==> RowsDone(p, full, w.Now(), y + 1)
    ensures ok && y < p.hdr.height ==> old(ras.lines) != [] && ras.lines == old(ras.lines)[1..]
    ensures y >= p.hdr.height ==> ok && ras.lines == old(ras.lines)
    ensures ras.intact && y < p.hdr.height ==> ok == (old(ras.lines) != [])
    ensures ok && y >= p.hdr.height ==> forall k :: 0 <= k < p.lay.SrcW() ==> w.row[k] == 255
  {
    ghost var was := w.Now();
    var srcW, srcH := p.lay.SrcW(), p.lay.SrcH();
    ok := LoadRow(ras, w.row, srcW, y, p.hdr, full);
    if !ok {
      return;
    }
    TurnedRow(p, full, y);
    if p.opt.rotate180 {
      ReverseRow(w.row, srcW);
    }
    var dst := Target(y, srcH, p.opt.rotate180);
    PlacedNext(dst, y, srcH, p.opt.rotate180);
    if y >= p.hdr.height {
      assert forall x :: 0 <= x < srcW ==> LaidRow(full, p.hdr, srcW, y)[x] == 255;
      forall k | 0 <= k < srcW ensures w.row[k] == 255 {
        assert w.row[..srcW][k] == 255;
      }
    }
    assert w.Now() == was;
    PlaceRow(p, w, dst, full);
    OneRowDone(p, full, was, w.Now(), y, dst);
  }

  /** The first y rows of a turned page are in the bitmap, and the rest of it has not been
      written. */
  ghost predicate Turned(p: Page, full: seq<seq<byte>>, v: Picture, y: nat)
    requires p.Valid(full)
  {
    forall d: nat :: d < p.lay.videoY ==> if d < y then Dotted(p, full, v, d) else Bare(p, v, d)
  }

  lemma OneRowTurned(p: Page, full: seq<seq<byte>>, v: Picture, v': Picture, y: nat)
    requires p.Valid(full) && y < p.lay.videoY && Turned(p, full, v, y) && Dotted(p, full, v', y)
    requires OnlyRow(v.dots, v'.dots, y, p.lay.RowBytes()) && OnlyRow(v.puts, v'.puts, y, p.lay.RowBytes())
    ensures Turned(p, full, v', y + 1)
  {
    var width := p.lay.RowBytes();
    forall d: nat | d < p.lay.videoY && d != y
      ensures if d < y then Dotted(p, full, v', d) else Bare(p, v', d)
    {
      if d < y {
        assert Dotted(p, full, v, d);
        DottedKept(p, full, v, v', d, y);
      } else {
        assert Bare(p, v, d);
        RowKept(v.puts, v'.puts, d, y, width, Times(width, 0));
      }
    }
  }

  /** Turn the grey page and screen it: column y, taken upwards, becomes row y. */
  method TurnPage(p: Page, w: Work, ghost full: seq<seq<byte>>)
    requires p.Valid(full) && w.Sized(p.lay, p.hdr) && p.lay.rotate90 && Even(w.bitmap.puts, 0)
    requires forall d: nat :: d < p.lay.SrcH() ==> RowIs(w.gray[..], d, p.lay.SrcW(), p.Upright(full, d))
    modifies w.bitmap, w.bitmap.dots, w.row
    ensures w.Sized(p.lay, p.hdr)
    ensures forall d: nat :: d < p.lay.videoY ==> Dotted(p, full, w.Now(), d)
  {
    NoRowTurned(p, w, full);
    var y := 0;
    while y < p.lay.videoY
      invariant 0 <= y <= p.lay.videoY && w.Sized(p.lay, p.hdr)
      invariant w.gray[..] == old(w.gray[..]) && Turned(p, full, w.Now(), y)
    {
      TurnOneRow(p, w, y, full);
      y := y + 1;
    }
  }

  lemma NoRowTurned(p: Page, w: Work, full: seq<seq<byte>>)
    requires p.Valid(full) && w.Sized(p.lay, p.hdr) && Even(w.bitmap.puts, 0)
    ensures Turned(p, full, w.Now(), 0)
  {
    forall d: nat | d < p.lay.videoY ensures Bare(p, w.Now(), d) {
      BareRow(w.bitmap.puts, d, p.lay.videoY, p.lay.RowBytes());
    }
  }

  /** Row y of the turned page. */
  method TurnOneRow(p: Page, w: Work, y: nat, ghost full: seq<seq<byte>>)
    requires p.Valid(full) && w.Sized(p.lay, p.hdr) && p.lay.rotate90 && y < p.lay.videoY
    requires forall d: nat :: d < p.lay.SrcH() ==> RowIs(w.gray[..], d, p.lay.SrcW(), p.Upright(full, d))
    requires Turned(p, full, w.Now(), y)
    modifies w.bitmap, w.bitmap.dots, w.row
    ensures w.Sized(p.lay, p.hdr) && Turned(p, full, w.Now(), y + 1)
  {
    ghost var was := w.Now();
    TurnRow(p, w, y, full);
    assert Bare(p, was, y) && w.Now() == was;
    DitherRow(w.bitmap, w.row, p, y);
    assert Dotted(p, full, w.Now(), y);
    OneRowTurned(p, full, was, w.Now(), y);
  }

  method TurnRow(p: Page, w: Work, y: nat, ghost full: seq<seq<byte>>)
    requires p.Valid(full) && w.Sized(p.lay, p.hdr) && p.lay.rotate90 && y < p.lay.videoY
    requires forall d: nat :: d < p.lay.SrcH() ==> RowIs(w.gray[..], d, p.lay.SrcW(), p.Upright(full, d))
    modifies w.row
    ensures w.row[..p.lay.videoX] == GrayRow(full, p.hdr, p.lay, p.opt.rotate180, y)
  {
    var srcW, srcH := p.lay.SrcW(), p.lay.SrcH();
    ghost var want := GrayRow(full, p.hdr, p.lay, p.opt.rotate180, y);
    var x := 0;
    while x < p.lay.videoX
      invariant 0 <= x <= p.lay.videoX
      invariant forall k :: 0 <= k < x ==> w.row[k] == want[k]
    {
      var d := srcH - 1 - x;
      TurnedPixel(p, full, w.gray[..], y, x);
      w.row[x] := w.gray[d * srcW + y];
      x := x + 1;
    }
  }

  lemma TurnedPixel(p: Page, full: seq<seq<byte>>, gray: seq<byte>, y: nat, x: nat)
    requires p.Valid(full) && p.lay.rotate90 && y < p.lay.videoY && x < p.lay.videoX
    requires RowIs(gray, p.lay.SrcH() - 1 - x, p.lay.SrcW(), p.Upright(full, p.lay.SrcH() - 1 - x))
    ensures var at := (p.lay.SrcH() - 1 - x) * p.lay.SrcW() + y;
      0 <= at < |gray| && gray[at] == GrayRow(full, p.hdr, p.lay, p.opt.rotate180, y)[x]
  {
    var row := p.Upright(full, p.lay.SrcH() - 1 - x);
    PixelOfRow(gray, p.lay.SrcH() - 1 - x, p.lay.SrcW(), row, y);
    assert GrayRow(full, p.hdr, p.lay, p.opt.rotate180, y)[x] == row[y];
  }

  lemma PixelOfRow(s: seq<byte>, d: nat, width: nat, row: seq<byte>, y: nat)
    requires RowIs(s, d, width, row) && y < width
    ensures 0 <= d * width + y < |s| && s[d * width + y] == row[y]
  {
  }

  /** Render one page.  `full` is the raster's page with any lines that never arrive filled
      in somehow: only lines below the page buffer can be missing from a page that renders.
      The bitmap comes uninitialised from the heap and each byte of it is written once. */
  method RenderPage(ras: Raster, hdr: PageHeader, opt: JobOptions, screen: Screen, heap: Heap,
                    ghost full: seq<seq<byte>>)
      returns (ok: bool, lay: Layout, bitmap: Canvas)
    requires hdr.Accepted() && Lined(full, hdr) && ras.lines <= full
    modifies ras`lines
    ensures lay == Geometry(hdr, opt.dpi1200) && lay.Valid()
    ensures ok ==> bitmap.dots[..] == Flatten(Bitmap(full, hdr, lay, opt, screen))
    ensures ok ==> bitmap.Valid() && Even(bitmap.puts, 1)
    ensures ok ==> |old(ras.lines)| >= Min(hdr.height, lay.SrcH())
    ensures ras.intact && heap.ample ==> ok == (|old(ras.lines)| >= Min(hdr.height, lay.SrcH()))
    ensures ok && ras.intact && |old(ras.lines)| <= hdr.height ==> ras.lines == []
  {
    GeometryFits(hdr, opt.dpi1200);
    lay := PageLayout(hdr, opt.dpi1200);
    ok, bitmap := NewBitmap(lay, heap);
    if ok {
      ok := FillBitmap(ras, Page(hdr, lay, opt, screen), bitmap, heap, full);
    }
  }

  method NewBitmap(lay: Layout, heap: Heap) returns (ok: bool, bitmap: Canvas)
    ensures fresh(bitmap) && fresh(bitmap.dots) && bitmap.Valid() && Even(bitmap.puts, 0)
    ensures ok ==> bitmap.dots.Length == lay.videoY * lay.RowBytes()
    ensures heap.ample ==> ok
  {
    ok := heap.Grant();
    bitmap := new Canvas(if ok then lay.videoY * lay.RowBytes() else 0);
  }

  method FillBitmap(ras: Raster, p: Page, bitmap: Canvas, heap: Heap, ghost full: seq<seq<byte>>)
      returns (ok: bool)
    requires p.Valid(full) && ras.lines <= full && bitmap.Valid() && Even(bitmap.puts, 0)
    requires bitmap.dots.Length == p.lay.videoY * p.lay.RowBytes()
    modifies ras`lines, bitmap, bitmap.dots
    ensures bitmap.Valid()
    ensures ok ==> bitmap.dots[..] == Flatten(Bitmap(full, p.hdr, p.lay, p.opt, p.screen))
    ensures ok ==> Even(bitmap.puts, 1)
    ensures ok ==> |old(ras.lines)| >= Min(p.hdr.height, p.lay.SrcH())
    ensures ras.intact && heap.ample ==> ok == (|old(ras.lines)| >= Min(p.hdr.height, p.lay.SrcH()))
    ensures ok && ras.intact && |old(ras.lines)| <= p.hdr.height ==> ras.lines == []
  {
    ok := heap.Grant();
    if ok && p.lay.rotate90 {
      ok := heap.Grant();
    }
    if !ok {
      return;
    }
    var rowlen := Max(Max(p.lay.videoX, p.lay.SrcW()), p.hdr.bytesPerLine);
    var row := new byte[rowlen];
    var gray := new byte[if p.lay.rotate90 then p.lay.SrcH() * p.lay.SrcW() else 0];
    Fill(row, 0, rowlen, 255);
    var w := Work(bitmap, row, gray);
    ok := RenderLines(ras, p, w, full);
    if ok {
      FinishBitmap(p, w, full);
      DrainLines(ras, Max(p.hdr.height - p.lay.SrcH(), 0));
    }
  }

  /** All rows placed: turn the page if it lies on its side.  The bitmap's rows are written as
      the lines are placed, or else here. */
  method FinishBitmap(p: Page, w: Work, ghost full: seq<seq<byte>>)
    requires p.Valid(full) && w.Sized(p.lay, p.hdr)
    requires forall d: nat :: d < p.lay.SrcH() ==> RowDone(p, full, w.Now(), d)
    requires p.lay.rotate90 ==> Even(w.bitmap.puts, 0)
    modifies w.bitmap, w.bitmap.dots, w.row
    ensures w.bitmap.Valid() && Even(w.bitmap.puts, 1)
    ensures w.bitmap.dots[..] == Flatten(Bitmap(full, p.hdr, p.lay, p.opt, p.screen))
  {
    if p.lay.rotate90 {
      forall d: nat | d < p.lay.SrcH()
        ensures RowIs(w.gray[..], d, p.lay.SrcW(), p.Upright(full, d))
      {
        assert RowDone(p, full, w.Now(), d);
      }
      TurnPage(p, w, full);
    } else {
      forall d: nat | d < p.lay.videoY ensures Dotted(p, full, w.Now(), d) {
        assert RowDone(p, full, w.Now(), d);
      }
    }
    BitmapDone(p, w.Now(), full);
  }

  /** Read the lines below the sheet and forget them: the next header comes only behind
      them. */
  method DrainLines(ras: Raster, n: nat)
    modifies ras`lines
    ensures ras.intact ==> ras.lines == old(ras.lines)[Min(n, |old(ras.lines)|)..]
  {
    var i := 0;
    while i < n
      invariant 0 <= i <= n
      invariant i <= |old(ras.lines)| && ras.lines == old(ras.lines)[i..]
    {
      var ok, _ := ras.ReadPixels();
      if !ok {
        return;
      }
      i := i + 1;
    }
  }

  lemma BitmapDone(p: Page, v: Picture, full: seq<seq<byte>>)
    requires p.Valid(full) && |v.dots| == |v.puts| == p.lay.videoY * p.lay.RowBytes()
    requires forall d: nat :: d < p.lay.videoY ==> Dotted(p, full, v, d)
    ensures v.dots == Flatten(Bitmap(full, p.hdr, p.lay, p.opt, p.screen)) && Even(v.puts, 1)
  {
    var rows, width := Bitmap(full, p.hdr, p.lay, p.opt, p.screen), p.lay.RowBytes();
    forall d: nat | d < |rows| ensures RowIs(v.dots, d, width, rows[d]) {
      assert Dotted(p, full, v, d) && rows[d] == p.Dots(full, d);
    }
    RowsFlatten(v.dots, rows, width);
    forall d: nat | d < p.lay.videoY ensures RowIs(v.puts, d, width, Times(width, 1)) {
      assert Dotted(p, full, v, d);
    }
    AllPut(v.puts, p.lay.videoY, width);
  }

  /** Every row has been written once, so every byte has. */
  lemma AllPut(puts: seq<nat>, n: nat, width: nat)
    requires |puts| == n * width
    requires forall d: nat :: d < n ==> RowIs(puts, d, width, Times(width, 1))
    ensures Even(puts, 1)
  {
    forall k | 0 <= k < |puts| ensures puts[k] == 1 {
      var d := RowHolding(k, n, width);
      assert RowIs(puts, d, width, Times(width, 1));
      assert puts[k] == puts[d * width..d * width + width][k - d * width];
    }
  }

  /** The row that byte k lies in. */
  lemma RowHolding(k: nat, n: nat, width: nat) returns (d: nat)
    requires k < n * width
    ensures d < n && d * width <= k < d * width + width
  {
    d := 0;
    while d * width + width <= k
      invariant d < n && d * width <= k
      decreases n - d
    {
      Distribute(d, 1, width);
      if d + 1 == n {
        assert false;
      }
      d := d + 1;
    }
  }
}
