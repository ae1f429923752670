/** The prototype's own way to the stream: its paper table, its packing of numbers, its chunks
    and pages, and its run over a whole raster, which ends in the filter's document. */
module StreamPrototype {
  import opened Bytes
  import opened PageModel
  import opened PagePrototype
  import opened PageRender
  import opened PageStream
  import opened PrintJob
  import opened PrintMain
  import opened ZjStream

  // ----------------------------------------------------------------- numbers

  /** Four bytes, most significant first. */
  function Pack32(x: word): (b: seq<byte>)
    ensures |b| == 4
  {
    [x / 0x100_0000, x / 0x1_0000 % 256, x / 256 % 256, x % 256]
  }

  lemma DigitsApart(x: nat, a: nat, b: nat, c: nat, d: nat)
    requires b < 256 && c < 256 && d < 256 && x == 0x100_0000 * a + 0x1_0000 * b + 256 * c + d
    ensures x / 0x100_0000 == a && x / 0x1_0000 % 256 == b && x / 256 % 256 == c && x % 256 == d
  {
    assert x / 256 == 0x1_0000 * a + 256 * b + c;
    assert x / 0x1_0000 == 256 * a + b;
  }

  /** As the filter has them. */
  lemma PackedAlike(x: word)
    ensures Pack32(x) == Be32(x)
  {
    var hi, lo := x / 0x1_0000, x % 0x1_0000;
    DigitsApart(x, hi / 256, hi % 256, lo / 256, lo % 256);
  }

  function Pack16(x: word16): (b: seq<byte>)
    ensures b == Be16(x)
  {
    [x / 256, x % 256]
  }

  // ------------------------------------------------------------------ chunks

  /** An item as the prototype has it: a type and a number that may not fit. */
  type Pair = (word16, nat)

  predicate Fit(items: seq<Pair>) {
    forall k :: 0 <= k < |items| ==> items[k].1 < 0x1_0000_0000
  }

  ghost function ItemsOf(items: seq<Pair>): (r: seq<Item>)
    requires Fit(items)
    ensures |r| == |items|
  {
    seq(|items|, k requires 0 <= k < |items| => Item(items[k].0, items[k].1))
  }

  /** A chunk can be packed if each number in it fits the field it goes to. */
  ghost predicate Packable(items: seq<Pair>, raw: seq<byte>) {
    Fit(items) && 12 * |items| < 0x1_0000 && 16 + 12 * |items| + |raw| < 0x1_0000_0000
  }

  /** An item record. */
  function PackItem(p: Pair): (b: seq<byte>)
    requires p.1 < 0x1_0000_0000
  {
    Pack32(12) + Pack16(p.0) + [1] + [0] + Pack32(p.1)
  }

  lemma ItemPacked(p: Pair)
    requires p.1 < 0x1_0000_0000
    ensures PackItem(p) == ItemBytes(Item(p.0, p.1))
  {
    PackedAlike(12);
    PackedAlike(p.1);
  }

  lemma NextPacked(items: seq<Pair>, i: nat)
    requires i < |items| && Fit(items[..i]) && items[i].1 < 0x1_0000_0000
    ensures Fit(items[..i + 1])
    ensures ItemsBytes(ItemsOf(items[..i + 1])) == ItemsBytes(ItemsOf(items[..i])) + PackItem(items[i])
  {
    ItemPacked(items[i]);
    var last := Item(items[i].0, items[i].1);
    ItemsConcat(ItemsOf(items[..i]), [last]);
    assert ItemsOf(items[..i + 1]) == ItemsOf(items[..i]) + [last];
    assert ItemsBytes([last]) == ItemBytes(last) + ItemsBytes([]);
  }

  function PackHead(size: word, kind: word, n: word, itemBytes: word16): seq<byte> {
    Pack32(size) + Pack32(kind) + Pack32(n) + Pack16(itemBytes) + Pack16(0x5a5a)
  }

  lemma FieldsPacked(size: word, kind: word, n: word, itemBytes: word16)
    ensures PackHead(size, kind, n, itemBytes) == FieldBytes(size, kind, n, itemBytes)
  {
    PackedAlike(size);
    PackedAlike(kind);
    PackedAlike(n);
    FiveParts(Be32(size), Be32(kind), Be32(n), Be16(itemBytes), Be16(0x5a5a));
  }

  lemma HeadPacked(c: Chunk, size: word, n: word, itemBytes: word16)
    requires size == c.Size() && n == |c.items| && itemBytes == 12 * |c.items|
    ensures PackHead(size, c.kind, n, itemBytes) == HeaderBytes(c)
  {
    FieldsPacked(size, c.kind, n, itemBytes);
    HeaderHolds(c);
    SameFields(c, size, n, itemBytes);
  }

  lemma SameFields(c: Chunk, size: word, n: word, itemBytes: word16)
    requires size == c.Size() && n == |c.items| && itemBytes == 12 * |c.items|
    ensures size == c.Size() % 0x1_0000_0000 && itemBytes == 12 * |c.items| % 0x1_0000
  {
  }

  lemma FiveParts(a: seq<byte>, b: seq<byte>, c: seq<byte>, d: seq<byte>, e: seq<byte>)
    ensures a + b + c + d + e == a + (b + (c + (d + e)))
  {
  }

  /** One chunk, or the error its packing raises. */
  method PackChunk(kind: word, items: seq<Pair>, raw: seq<byte>) returns (r: Option<seq<byte>>)
    ensures r.Some? <==> Packable(items, raw)
    ensures r.Some? ==> r.value == ChunkBytes(Chunk(kind, ItemsOf(items), raw))
  {
    var ok, body := PackItems(items);
    if !ok || 12 * |items| >= 0x1_0000 || 16 + |body| + |raw| >= 0x1_0000_0000 {
      return None;
    }
    body := body + raw;
    HeadPacked(Chunk(kind, ItemsOf(items), raw), 16 + |body|, |items|, |items| * 12);
    r := Some(PackHead(16 + |body|, kind, |items|, |items| * 12) + body);
  }

  method PackItems(items: seq<Pair>) returns (ok: bool, body: seq<byte>)
    ensures ok <==> Fit(items)
    ensures ok ==> body == ItemsBytes(ItemsOf(items))
  {
    body := [];
    var i := 0;
    while i < |items|
      invariant 0 <= i <= |items| && Fit(items[..i])
      invariant body == ItemsBytes(ItemsOf(items[..i]))
    {
      if items[i].1 >= 0x1_0000_0000 {
        return false, body;
      }
      NextPacked(items, i);
      body := body + PackItem(items[i]);
      i := i + 1;
    }
    assert items[..i] == items;
    ok := true;
  }

  // ------------------------------------------------------------------- pages

  /** The page's size can be said: it is known, or not too large for its items. */
  ghost predicate Sayable(hdr: PageHeader, dmpaper: word) {
    dmpaper == 0 ==> hdr.pageW * 600 / 72 < 0x1_0000_0000 && hdr.pageH * 600 / 72 < 0x1_0000_0000
  }

  lemma FitInserted(base: seq<Pair>, more: seq<Pair>)
    requires Fit(base) && base != []
    ensures Fit(base[..1] + more + base[1..]) <==> Fit(more)
  {
    var all := base[..1] + more + base[1..];
    assert forall k :: 0 <= k < |more| ==> all[k + 1] == more[k];
  }

  lemma ItemsInserted(base: seq<Pair>, more: seq<Pair>)
    requires Fit(base) && Fit(more) && base != []
    ensures Fit(base[..1] + more + base[1..])
    ensures ItemsOf(base[..1] + more + base[1..]) == ItemsOf(base[..1]) + ItemsOf(more) + ItemsOf(base[1..])
  {
    FitInserted(base, more);
  }

  method JobPairs(hdr: PageHeader, opt: JobOptions) returns (items: seq<Pair>)
    ensures Fit(items) && ItemsOf(items) == JobItems(hdr, opt)
  {
    var media := if hdr.mediaType == 0 then 1 else hdr.mediaType;
    var source := opt.tray;
    if media != 1 {
      source := 1;
    }
    var copies := if hdr.numCopies == 0 then 1 else hdr.numCopies;
    items := [(4, copies), (5, source), (6, media), (7, 1), (8, hdr.resX), (9, hdr.resY), (22, 0)];
  }

  method SizePairs(lay: Layout, opt: JobOptions) returns (items: seq<Pair>)
    requires lay.Valid()
    ensures Fit(items) && ItemsOf(items) == SizeItems(lay, opt)
  {
    items := [(12, lay.videoX * lay.depth), (13, lay.videoY), (16, lay.depth), (17, lay.videoX),
              (18, lay.videoY), (0xff00, opt.density)];
  }

  method CustomPairs(hdr: PageHeader) returns (items: seq<Pair>)
    ensures |items| == 3
    ensures Fit(items) <==> Sayable(hdr, 0)
    ensures Fit(items) ==> ItemsOf(items) == CustomItems(hdr)
  {
    items := [(26, 0), (24, hdr.pageW * 600 / 72), (25, hdr.pageH * 600 / 72)];
    assert Fit(items) ==> items[1].1 < 0x1_0000_0000 && items[2].1 < 0x1_0000_0000;
  }

  lemma ThreeOf(a: seq<Pair>, b: seq<Pair>, c: seq<Pair>)
    requires Fit(a) && Fit(b) && Fit(c)
    ensures Fit(a + b + c) && ItemsOf(a + b + c) == ItemsOf(a) + ItemsOf(b) + ItemsOf(c)
  {
  }

  /** The items of a page; those of a custom size go in behind the first. */
  method StartPairs(hdr: PageHeader, lay: Layout, opt: JobOptions) returns (items: seq<Pair>)
    requires lay.Valid()
    ensures Fit(items) <==> Sayable(hdr, lay.dmpaper)
    ensures |items| <= 17
    ensures Fit(items) ==> ItemsOf(items) == PageItems(hdr, lay, opt)
  {
    var first: seq<Pair> := [(3, lay.dmpaper)];
    var job := JobPairs(hdr, opt);
    var size := SizePairs(lay, opt);
    items := first + job + size;
    ThreeOf(first, job, size);
    assert ItemsOf(first) == [Item(3, lay.dmpaper)];
    assert items[..1] == first && items[1..] == job + size;
    if lay.dmpaper == 0 {
      var more := CustomPairs(hdr);
      FitInserted(items, more);
      if Fit(more) {
        ThreeOf([], job, size);
        assert [] + job == job;
        ItemsInserted(items, more);
        InTurn(ItemsOf(first) + ItemsOf(more), ItemsOf(job), ItemsOf(size));
        assert ItemsOf(job + size) == ItemsOf(job) + ItemsOf(size);
      }
      items := items[..1] + more + items[1..];
    } else {
      assert [Item(3, lay.dmpaper)] + [] == [Item(3, lay.dmpaper)];
    }
  }

  /** The entity's blocks, each as a chunk. */
  method PackBlocks(bid: seq<byte>, before: seq<byte>) returns (out: seq<byte>)
    ensures out == before + ChunksBytes(RawChunks(5, Blocks(bid)))
  {
    out := before;
    ghost var done: seq<seq<byte>>, goal := [], Blocks(bid);
    NoneWritten(before, goal);
    var off := 0;
    assert bid[0..] == bid;
    while off < |bid|
      invariant 0 <= off <= |bid| && Written(before, out, done, Blocks(bid[off..]), goal)
    {
      var to := Min(off + 65536, |bid|);
      NextBlock(bid, off, to - off, done);
      BlockSnoc(before, done, bid[off..to]);
      var c := PackChunk(5, [], bid[off..to]);
      assert ItemsOf([]) == [];
      done := done + [bid[off..to]];
      out := out + c.value;
      off := to;
    }
    assert bid[off..] == [];
    AllWritten(before, out, done, goal);
  }

  /** A chunk that has no items and is not too long can always be packed. */
  method PackRaw(kind: word, raw: seq<byte>) returns (b: seq<byte>)
    requires |raw| <= 65536
    ensures b == ChunkBytes(Chunk(kind, [], raw))
  {
    var r := PackChunk(kind, [], raw);
    assert ItemsOf([]) == [];
    b := r.value;
  }

  /** One page: its chunks are the filter's, or its size cannot be said. */
  method EmitPage(hdr: PageHeader, lay: Layout, opt: JobOptions, bie: seq<byte>) returns (r: Option<seq<byte>>)
    requires lay.Valid() && |bie| >= 20
    ensures r.Some? <==> Sayable(hdr, lay.dmpaper)
    ensures r.Some? ==> r.value == ChunksBytes(PageChunks(hdr, lay, opt, bie))
  {
    var items := StartPairs(hdr, lay, opt);
    r := PackChunk(2, items, []);
    if r.None? {
      return;
    }
    var bih, bid := bie[..20], bie[20..];
    var head := PackRaw(4, bih);
    var out := PackBlocks(bid, r.value + head);
    var tail := PackRaw(6, []);
    var last := PackRaw(3, []);
    PageLaidOut([], Chunk(2, PageItems(hdr, lay, opt), []), Chunk(4, [], bih), RawChunks(5, Blocks(bid)),
                Chunk(6, [], []), Chunk(3, [], []));
    FromNothing(r.value);
    r := Some(out + tail + last);
  }

  lemma FromNothing(a: seq<byte>)
    ensures [] + a == a
  {
  }

  // ----------------------------------------------------------------- the run

  /** Every line of the page is there, and its size can be said. */
  ghost predicate Complete(page: RasterPage, cfg: Config) {
    && page.hdr.Accepted() && Lined(page.lines, page.hdr)
    && |Entity(page, cfg)| >= 20
  }

  lemma CompletePrintable(page: RasterPage, cfg: Config)
    requires Complete(page, cfg)
    ensures Completed(page) == page.lines && Printable(page, cfg)
  {
    assert page.lines + [] == page.lines;
  }

  /** One page of the raster, from its lines to its chunks. */
  method PrintPage(page: RasterPage, cfg: Config) returns (r: Option<seq<byte>>)
    requires page.hdr.Accepted() && Completed(page) == page.lines && Lined(page.lines, page.hdr)
    requires Printable(page, cfg)
    ensures r.Some? <==> Sayable(page.hdr, Geometry(page.hdr, cfg.opt.dpi1200).dmpaper)
    ensures r.Some? ==> r.value == SideBytes(Printed(page), cfg)
  {
    GeometryFits(page.hdr, cfg.opt.dpi1200);
    var lay := PageGeometry(page.hdr, cfg.opt.dpi1200);
    var bitmap := Halftone(page.lines, page.hdr, lay, cfg.opt, cfg.screen);
    var bie := cfg.coder(bitmap[..], lay.videoX * lay.depth, lay.videoY);
    r := EmitPage(page.hdr, lay, cfg.opt, bie);
  }

  /** Three words of the toner parameters. */
  function HexRow(a: word, b: word, c: word): (r: seq<byte>)
    ensures |r| == 12
  {
    Pack32(a) + Pack32(b) + Pack32(c)
  }

  function HexBlob(): seq<byte> {
    HexRow(0x00000051, 0x0073006e, 0x0096007a) + HexRow(0x00640096, 0x00c80064, 0x00510064)
    + HexRow(0x00640064, 0x00640064, 0x00640064) + HexRow(0x00640064, 0x00640064, 0x00640064)
    + HexRow(0x00780087, 0x009600b4, 0x00c80078) + HexRow(0x009600be, 0x015e0190, 0x00640064)
  }

  /** The toner parameters are the same in both forms. */
  lemma ParametersAgree()
    ensures HexBlob() == ParamBlob()
  {
    assert HexRow(0x00000051, 0x0073006e, 0x0096007a) == PARAM_ROWS[0];
    assert HexRow(0x00640096, 0x00c80064, 0x00510064) == PARAM_ROWS[1];
    assert HexRow(0x00640064, 0x00640064, 0x00640064) == PARAM_ROWS[2];
    assert HexRow(0x00640064, 0x00640064, 0x00640064) == PARAM_ROWS[3];
    assert HexRow(0x00780087, 0x009600b4, 0x00c80078) == PARAM_ROWS[4];
    assert HexRow(0x009600be, 0x015e0190, 0x00640064) == PARAM_ROWS[5];
  }

  /** A string of characters as bytes. */
  function Ascii(text: string): (b: seq<byte>)
    requires forall k :: 0 <= k < |text| ==> text[k] < 128 as char
    ensures |b| == |text|
  {
    seq(|text|, k requires 0 <= k < |text| => text[k] as int)
  }

  /** The escape and the magic, spelt out. */
  lemma EscapesAgree()
    ensures [0x1b] + Ascii("%-12345X") == UEL && Ascii("JZJZ") == MAGIC
  {
  }

  /** What comes before the pages. */
  method Front() returns (out: seq<byte>)
    ensures out == UEL + MAGIC + ChunksBytes(Opening())
  {
    EscapesAgree();
    ParametersAgree();
    var params := PackRaw(0x11, HexBlob());
    var pairs: seq<Pair> := [(0, 0), (1, 0), (2, 1)];
    assert Fit(pairs) && ItemsOf(pairs) == [Item(0, 0), Item(1, 0), Item(2, 1)];
    var doc := PackChunk(0, pairs, []);
    TwoChunks(UEL + MAGIC, Opening()[0], Opening()[1]);
    out := [0x1b] + Ascii("%-12345X") + Ascii("JZJZ") + params + doc.value;
  }

  ghost predicate AllComplete(pages: seq<RasterPage>, cfg: Config) {
    forall k :: 0 <= k < |pages| ==> Complete(pages[k], cfg)
  }

  ghost predicate AllSayable(pages: seq<RasterPage>, cfg: Config) {
    forall k :: 0 <= k < |pages| ==> SizeSayable(pages[k].hdr, cfg)
  }

  ghost predicate SizeSayable(hdr: PageHeader, cfg: Config) {
    Sayable(hdr, Geometry(hdr, cfg.opt.dpi1200).dmpaper)
  }

  /** What the loop over the pages has come to. */
  ghost predicate Printing(pages: seq<RasterPage>, cfg: Config, i: nat, start: seq<byte>, out: seq<byte>) {
    i <= |pages| && AllSayable(pages[..i], cfg) && Shown(cfg, pages[..i], start, out)
  }

  lemma NoPagePrinted(pages: seq<RasterPage>, cfg: Config, start: seq<byte>)
    requires !cfg.opt.manualDuplex
    ensures Printing(pages, cfg, 0, start, start)
  {
    assert pages[..0] == [];
    assert start + ChunksBytes(AllChunks(InOrder([]), cfg)) == start;
  }

  lemma OnePagePrinted(pages: seq<RasterPage>, cfg: Config, i: nat, start: seq<byte>, out: seq<byte>)
    requires !cfg.opt.manualDuplex && i < |pages| && Printing(pages, cfg, i, start, out)
    requires SizeSayable(pages[i].hdr, cfg)
    ensures Printing(pages, cfg, i + 1, start, out + SideBytes(Printed(pages[i]), cfg))
  {
    ShownNext(cfg, pages[..i], pages[i], start, out);
    assert pages[..i + 1] == pages[..i] + [pages[i]];
  }

  method PrintPages(pages: seq<RasterPage>, cfg: Config, start: seq<byte>) returns (ok: bool, out: seq<byte>)
    requires !cfg.opt.manualDuplex && AllComplete(pages, cfg)
    ensures ok <==> AllSayable(pages, cfg)
    ensures ok ==> Shown(cfg, pages, start, out)
  {
    out := start;
    var i := 0;
    NoPagePrinted(pages, cfg, start);
    while i < |pages|
      invariant Printing(pages, cfg, i, start, out)
    {
      CompletePrintable(pages[i], cfg);
      var page := PrintPage(pages[i], cfg);
      if page.None? {
        return false, out;
      }
      OnePagePrinted(pages, cfg, i, start, out);
      out := out + page.value;
      i := i + 1;
    }
    assert pages[..i] == pages;
    ok := true;
  }

  lemma WholeRun(pages: seq<RasterPage>, cfg: Config, out: seq<byte>)
    requires !cfg.opt.manualDuplex && Shown(cfg, pages, UEL + MAGIC + ChunksBytes(Opening()), out)
    ensures out + ChunkBytes(Chunk(1, [], [])) + UEL == DocumentBytes(Document(pages, cfg, NotReplayed))
  {
    ShownIsBody(cfg, pages, UEL + MAGIC + ChunksBytes(Opening()), out);
    DocumentSent(pages, cfg, NotReplayed);
    OneChunk(Closing()[0]);
  }

  /** The prototype's run over a raster: byte for byte the document that the filter writes of the
      same pages, unless a page of a custom size is so large that its size cannot be said. */
  method Prototype(pages: seq<RasterPage>, cfg: Config) returns (r: Option<seq<byte>>)
    requires !cfg.opt.manualDuplex && AllComplete(pages, cfg)
    ensures r.Some? <==> AllSayable(pages, cfg)
    ensures r.Some? ==> r.value == DocumentBytes(Document(pages, cfg, NotReplayed))
  {
    var front := Front();
    var ok, out := PrintPages(pages, cfg, front);
    if !ok {
      return None;
    }
    var end := PackRaw(1, []);
    EscapesAgree();
    WholeRun(pages, cfg, out);
    r := Some(out + end + ([0x1b] + Ascii("%-12345X")));
  }
}
