/** What the print filter sends for a job: the document as a list of chunks, its grammar, and
    which page goes on which side of which sheet in manual duplex. */
module PrintJob {
  import opened Bytes
  import opened PageModel
  import opened PageRender
  import opened PageStream
  import opened ZjStream

  /** All that a job's pages depend on besides the raster. */
  datatype Config = Config(opt: JobOptions, screen: Screen, coder: Coder)

  const PARAM_ROWS: seq<seq<byte>> := [
    [0x00, 0x00, 0x00, 0x51, 0x00, 0x73, 0x00, 0x6e, 0x00, 0x96, 0x00, 0x7a],
    [0x00, 0x64, 0x00, 0x96, 0x00, 0xc8, 0x00, 0x64, 0x00, 0x51, 0x00, 0x64],
    [0x00, 0x64, 0x00, 0x64, 0x00, 0x64, 0x00, 0x64, 0x00, 0x64, 0x00, 0x64],
    [0x00, 0x64, 0x00, 0x64, 0x00, 0x64, 0x00, 0x64, 0x00, 0x64, 0x00, 0x64],
    [0x00, 0x78, 0x00, 0x87, 0x00, 0x96, 0x00, 0xb4, 0x00, 0xc8, 0x00, 0x78],
    [0x00, 0x96, 0x00, 0xbe, 0x01, 0x5e, 0x01, 0x90, 0x00, 0x64, 0x00, 0x64]]

  /** The toner parameters. */
  function ParamBlob(): (b: seq<byte>)
    ensures |b| == 72
  {
    PARAM_ROWS[0] + PARAM_ROWS[1] + PARAM_ROWS[2] + PARAM_ROWS[3] + PARAM_ROWS[4] + PARAM_ROWS[5]
  }

  /** Before the pages, and after them. */
  ghost function Opening(): seq<Chunk> {
    [Chunk(PANTUM_PARAM, [], ParamBlob()),
     Chunk(START_DOC, [Item(0, 0), Item(1, 0), Item(2, 1)], [])]
  }

  ghost function Closing(): seq<Chunk> { [Chunk(END_DOC, [], [])] }

  // ------------------------------------------------------------- one page

  /** The raster library hands out lines of the announced length, and no more of them than
      the header announces; a truncated file has fewer. */
  ghost predicate FromLibrary(page: RasterPage) {
    && |page.lines| <= page.hdr.height
    && forall k :: 0 <= k < |page.lines| ==> |page.lines[k]| == page.hdr.bytesPerLine
  }

  /** The page's lines; the ones that never came stand in as white. */
  function Completed(page: RasterPage): seq<seq<byte>> {
    var missing := Max(page.hdr.height - |page.lines|, 0);
    page.lines + seq(missing, _ => seq(page.hdr.bytesPerLine, _ => 255))
  }

  ghost function Entity(page: RasterPage, cfg: Config): seq<byte>
    requires Lined(Completed(page), page.hdr) && page.hdr.Accepted()
  {
    GeometryFits(page.hdr, cfg.opt.dpi1200);
    var lay := Geometry(page.hdr, cfg.opt.dpi1200);
    cfg.coder(Flatten(Bitmap(Completed(page), page.hdr, lay, cfg.opt, cfg.screen)),
              lay.videoX * lay.depth, lay.videoY)
  }

  /** The page can be printed: its header is accepted, every line that lies on the sheet is
      there, and the encoder makes a whole entity of it. */
  ghost predicate Printable(page: RasterPage, cfg: Config) {
    && page.hdr.Accepted() && FromLibrary(page)
    && |page.lines| >= Min(page.hdr.height, Geometry(page.hdr, cfg.opt.dpi1200).SrcH())
    && |Entity(page, cfg)| >= BIH_LEN
  }

  ghost function PageOf(page: RasterPage, cfg: Config): seq<Chunk> {
    if Printable(page, cfg) then
      GeometryFits(page.hdr, cfg.opt.dpi1200);
      PageChunks(page.hdr, Geometry(page.hdr, cfg.opt.dpi1200), cfg.opt, Entity(page, cfg))
    else []
  }

  /** A sheet with no toner at all.  On a quarter-turned sheet its bitmap has the size of the
      page before the turn, unlike the size the page announces. */
  ghost function BlankEntity(hdr: PageHeader, cfg: Config): seq<byte> {
    var lay := Geometry(hdr, cfg.opt.dpi1200);
    cfg.coder(Zeros(lay.SrcW() * lay.depth / 8 * lay.SrcH()), lay.SrcW() * lay.depth, lay.SrcH())
  }

  ghost function Zeros(n: nat): seq<byte> { seq(n, _ => 0) }

  /** The blank sheet is what the encoder makes of a bitmap without a set bit, whatever the
      options. */
  lemma BlankIsClear(hdr: PageHeader, cfg: Config) returns (z: seq<byte>)
    ensures var lay := Geometry(hdr, cfg.opt.dpi1200);
      && BlankEntity(hdr, cfg) == cfg.coder(z, lay.SrcW() * lay.depth, lay.SrcH())
      && |z| == lay.SrcW() * lay.depth / 8 * lay.SrcH()
    ensures forall k :: 0 <= k < |z| ==> z[k] == 0
  {
    var lay := Geometry(hdr, cfg.opt.dpi1200);
    z := Zeros(lay.SrcW() * lay.depth / 8 * lay.SrcH());
  }

  /** No turn of the sheet: then that bitmap is the one of a page that is white all over and is
      not printed negative.  Under NegativePrint a white page would come out solid black. */
  lemma BlankIsWhitePage(lines: seq<seq<byte>>, hdr: PageHeader, lay: Layout, opt: JobOptions, screen: Screen)
    requires Lined(lines, hdr) && lay.Valid() && !lay.rotate90
    requires forall i :: 0 <= i < |lines| ==> forall j :: 0 <= j < |lines[i]| ==> lines[i][j] == 255
    ensures Flatten(Bitmap(lines, hdr, lay, opt.(negative := false), screen))
      == Zeros(lay.SrcW() * lay.depth / 8 * lay.SrcH())
    ensures Flatten(Bitmap(lines, hdr, lay, opt.(negative := true), screen))
      == seq(lay.SrcW() * lay.depth / 8 * lay.SrcH(), _ => 255)
  {
    var pos := Bitmap(lines, hdr, lay, opt.(negative := false), screen);
    var neg := Bitmap(lines, hdr, lay, opt.(negative := true), screen);
    forall y | 0 <= y < lay.videoY
      ensures forall k :: 0 <= k < lay.RowBytes() ==> pos[y][k] == 0 && neg[y][k] == 255
    {
      forall k | 0 <= k < lay.RowBytes() ensures pos[y][k] == 0 && neg[y][k] == 255 {
        WhiteGrayRow(lines, hdr, lay, opt.rotate180, y);
        WhiteRow(GrayRow(lines, hdr, lay, opt.rotate180, y), screen, y, lay.depth, k);
      }
    }
    FlattenSame(pos, lay.RowBytes(), 0);
    FlattenSame(neg, lay.RowBytes(), 255);
  }

  lemma WhiteGrayRow(lines: seq<seq<byte>>, hdr: PageHeader, lay: Layout, rotate180: bool, y: nat)
    requires Lined(lines, hdr) && y < lay.videoY && !lay.rotate90
    requires forall i :: 0 <= i < |lines| ==> forall j :: 0 <= j < |lines[i]| ==> lines[i][j] == 255
    ensures forall x :: 0 <= x < lay.videoX ==> GrayRow(lines, hdr, lay, rotate180, y)[x] == 255
  {
    forall x | 0 <= x < lay.videoX ensures Upright(lines, hdr, lay.videoX, lay.videoY, rotate180, y, x) == 255 {
    }
  }

  lemma {:induction false} FlattenSame(rows: seq<seq<byte>>, each: nat, v: byte)
    requires forall y :: 0 <= y < |rows| ==> |rows[y]| == each
    requires forall y :: 0 <= y < |rows| ==> forall k :: 0 <= k < each ==> rows[y][k] == v
    ensures Flatten(rows) == seq(each * |rows|, _ => v)
  {
    FlattenSize(rows, each);
    if rows != [] {
      FlattenSame(rows[1..], each, v);
    }
  }

  ghost function BlankOf(hdr: PageHeader, cfg: Config): seq<Chunk> {
    if hdr.Accepted() && |BlankEntity(hdr, cfg)| >= BIH_LEN then
      GeometryFits(hdr, cfg.opt.dpi1200);
      PageChunks(hdr, Geometry(hdr, cfg.opt.dpi1200), cfg.opt, BlankEntity(hdr, cfg))
    else []
  }

  // ---------------------------------------------------------------- sides

  datatype Side = Printed(page: RasterPage) | Blank(hdr: PageHeader)

  ghost function SideChunks(side: Side, cfg: Config): seq<Chunk> {
    match side
    case Printed(page) => PageOf(page, cfg)
    case Blank(hdr) => BlankOf(hdr, cfg)
  }

  /** What a way of sending makes of a list of sides. */
  ghost function AllOf(sides: seq<Side>, send: Side -> seq<Chunk>): seq<Chunk> {
    if sides == [] then [] else send(sides[0]) + AllOf(sides[1..], send)
  }

  ghost function BytesEach(sides: seq<Side>, send: Side -> seq<Chunk>): (b: seq<seq<byte>>)
    ensures |b| == |sides|
  {
    seq(|sides|, k requires 0 <= k < |sides| => ChunksBytes(send(sides[k])))
  }

  lemma {:induction false} AllConcat(a: seq<Side>, b: seq<Side>, send: Side -> seq<Chunk>)
    ensures AllOf(a + b, send) == AllOf(a, send) + AllOf(b, send)
  {
    if a == [] {
      assert a + b == b;
    } else {
      assert (a + b)[1..] == a[1..] + b;
      AllConcat(a[1..], b, send);
    }
  }

  lemma OnlyOne(side: Side, send: Side -> seq<Chunk>)
    ensures AllOf([side], send) == send(side)
  {
  }

  /** Sending one more side. */
  lemma OneMore(start: seq<byte>, sides: seq<Side>, side: Side, send: Side -> seq<Chunk>)
    ensures start + ChunksBytes(AllOf(sides, send)) + ChunksBytes(send(side))
      == start + ChunksBytes(AllOf(sides + [side], send))
    ensures BytesEach(sides + [side], send) == BytesEach(sides, send) + [ChunksBytes(send(side))]
  {
    AllConcat(sides, [side], send);
    OnlyOne(side, send);
    ChunksAppend(start, AllOf(sides, send), send(side));
  }

  lemma {:induction false} EachAsAll(sides: seq<Side>, send: Side -> seq<Chunk>)
    ensures Flatten(BytesEach(sides, send)) == ChunksBytes(AllOf(sides, send))
  {
    if sides != [] {
      EachAsAll(sides[1..], send);
      assert BytesEach(sides, send)[1..] == BytesEach(sides[1..], send);
      ChunksConcat(send(sides[0]), AllOf(sides[1..], send));
    }
  }

  lemma EachReversed(sides: seq<Side>, send: Side -> seq<Chunk>)
    ensures Reversed(BytesEach(sides, send)) == BytesEach(Reversed(sides), send)
  {
    var a, b := Reversed(BytesEach(sides, send)), BytesEach(Reversed(sides), send);
    forall k | 0 <= k < |sides| ensures a[k] == b[k] {
      assert Reversed(sides)[k] == sides[|sides| - 1 - k];
    }
  }

  ghost function Send(cfg: Config): Side -> seq<Chunk> { (side: Side) => SideChunks(side, cfg) }

  ghost function AllChunks(sides: seq<Side>, cfg: Config): seq<Chunk> { AllOf(sides, Send(cfg)) }

  ghost function SideBytes(side: Side, cfg: Config): seq<byte> { ChunksBytes(Send(cfg)(side)) }

  ghost function BytesOf(sides: seq<Side>, cfg: Config): seq<seq<byte>> { BytesEach(sides, Send(cfg)) }

  function InOrder(pages: seq<RasterPage>): seq<Side> {
    seq(|pages|, k requires 0 <= k < |pages| => Printed(pages[k]))
  }

  /** Pages 1, 3, 5, ... */
  function FirstPass(pages: seq<RasterPage>): seq<Side> {
    seq((|pages| + 1) / 2, k requires 0 <= k < (|pages| + 1) / 2 => Printed(pages[2 * k]))
  }

  /** Pages 2, 4, 6, ... */
  function BackSides(pages: seq<RasterPage>): seq<Side> {
    seq(|pages| / 2, k requires 0 <= k < |pages| / 2 => Printed(pages[2 * k + 1]))
  }

  /** The sheet that has no back page comes first, then the backs in reverse. */
  function SecondPass(pages: seq<RasterPage>): seq<Side> {
    (if |pages| % 2 == 1 then [Blank(pages[|pages| - 1].hdr)] else []) + Reversed(BackSides(pages))
  }

  /** One more page goes to the fronts if it is an odd one, to the backs if it is even. */
  lemma NextSide(pages: seq<RasterPage>, page: RasterPage)
    ensures InOrder(pages + [page]) == InOrder(pages) + [Printed(page)]
    ensures FirstPass(pages + [page])
      == if |pages| % 2 == 0 then FirstPass(pages) + [Printed(page)] else FirstPass(pages)
    ensures BackSides(pages + [page])
      == if |pages| % 2 == 0 then BackSides(pages) else BackSides(pages) + [Printed(page)]
  {
  }

  /** If the stack goes back in so that the second pass takes the sheets of the first in
      reverse, then sheet k carries pages 2k + 1 and 2k + 2, counting sheets from zero and
      pages from one; only the last sheet of an odd job has a blank back. */
  lemma SheetsPaired(pages: seq<RasterPage>, k: nat)
    requires k < |FirstPass(pages)|
    ensures |FirstPass(pages)| == |SecondPass(pages)|
    ensures FirstPass(pages)[k] == Printed(pages[2 * k])
    ensures Reversed(SecondPass(pages))[k]
      == if 2 * k + 1 < |pages| then Printed(pages[2 * k + 1]) else Blank(pages[|pages| - 1].hdr)
  {
  }

  // ------------------------------------------------------------- documents

  /** How far the replay of a spooled job got: not begun, ended behind the pause because the
      blank sheet could not be made, or done. */
  datatype Replay = NotReplayed | CutShort | Whole

  ghost function Body(pages: seq<RasterPage>, cfg: Config, replay: Replay): seq<Chunk> {
    if !cfg.opt.manualDuplex then AllChunks(InOrder(pages), cfg)
    else
      match replay
      case NotReplayed => []
      case CutShort => AllChunks(FirstPass(pages), cfg) + [Chunk(PAUSE, [], [])]
      case Whole =>
        AllChunks(FirstPass(pages), cfg) + [Chunk(PAUSE, [], [])] + AllChunks(SecondPass(pages), cfg)
  }

  ghost function Document(pages: seq<RasterPage>, cfg: Config, replay: Replay): seq<Chunk> {
    Opening() + Body(pages, cfg, replay) + Closing()
  }

  ghost predicate AllPrintable(pages: seq<RasterPage>, cfg: Config) {
    pages == [] || (AllPrintable(pages[..|pages| - 1], cfg) && Printable(pages[|pages| - 1], cfg))
  }

  lemma {:induction false} PrintableAt(pages: seq<RasterPage>, cfg: Config, k: nat)
    requires k < |pages| && AllPrintable(pages, cfg)
    ensures Printable(pages[k], cfg)
  {
    if k < |pages| - 1 {
      PrintableAt(pages[..|pages| - 1], cfg, k);
    }
  }

  lemma SidesPrintable(pages: seq<RasterPage>, cfg: Config)
    requires AllPrintable(pages, cfg)
    ensures SidesMade(InOrder(pages), cfg)
    ensures SidesMade(FirstPass(pages), cfg)
    ensures SidesMade(BackSides(pages), cfg)
  {
    forall k: nat | k < |pages| ensures Printable(pages[k], cfg) {
      PrintableAt(pages, cfg, k);
    }
  }

  lemma SecondPrintable(pages: seq<RasterPage>, cfg: Config)
    requires AllPrintable(pages, cfg) && cfg.opt.manualDuplex && BlankReady(pages, cfg)
    ensures SidesMade(SecondPass(pages), cfg)
  {
    SidesPrintable(pages, cfg);
    BackwardsMade(BackSides(pages), cfg);
    if |pages| % 2 == 1 {
      PrintableAt(pages, cfg, |pages| - 1);
      assert SideMade(Blank(pages[|pages| - 1].hdr), cfg);
    }
  }

  lemma BackwardsMade(sides: seq<Side>, cfg: Config)
    requires SidesMade(sides, cfg)
    ensures SidesMade(Reversed(sides), cfg)
  {
  }

  /** The blank sheet of an odd duplex job can be made. */
  ghost predicate BlankReady(pages: seq<RasterPage>, cfg: Config) {
    cfg.opt.manualDuplex && |pages| % 2 == 1 ==>
      |BlankEntity(pages[|pages| - 1].hdr, cfg)| >= BIH_LEN
  }

  ghost predicate SidesMade(sides: seq<Side>, cfg: Config) {
    forall k :: 0 <= k < |sides| ==> SideMade(sides[k], cfg)
  }

  ghost predicate SideMade(side: Side, cfg: Config) {
    match side
    case Printed(page) => Printable(page, cfg)
    case Blank(hdr) => hdr.Accepted() && |BlankEntity(hdr, cfg)| >= BIH_LEN
  }

  // ---------------------------------------------------------------- grammar

  /** A reader of the document, by the numbers of the chunk types: parameters (17), document start
      (0), then pages and at most one pause (11) between them, then the end (1).  A page is its
      start (2), the entity's header (4), its data (5), the end of the entity (6) and its own
      end (3). */
  datatype State = Initial | Params | Pages(paused: bool) | PageStart(paused: bool)
                 | PageData(paused: bool) | PageTail(paused: bool) | Ended | Bad

  function Move(s: State, kind: word): State {
    match s
    case Initial => if kind == 17 then Params else Bad
    case Params => if kind == 0 then Pages(false) else Bad
    case Pages(paused) =>
      if kind == 2 then PageStart(paused)
      else if kind == 11 && !paused then Pages(true)
      else if kind == 1 then Ended
      else Bad
    case PageStart(paused) => if kind == 4 then PageData(paused) else Bad
    case PageData(paused) =>
      if kind == 5 then PageData(paused)
      else if kind == 6 then PageTail(paused)
      else Bad
    case PageTail(paused) => if kind == 3 then Pages(paused) else Bad
    case Ended => Bad
    case Bad => Bad
  }

  function Reading(s: State, chunks: seq<Chunk>): State
    decreases |chunks|
  {
    if chunks == [] then s else Reading(Move(s, chunks[0].kind), chunks[1..])
  }

  lemma {:induction false} ReadingConcat(s: State, a: seq<Chunk>, b: seq<Chunk>)
    ensures Reading(s, a + b) == Reading(Reading(s, a), b)
    decreases |a|
  {
    if a == [] {
      assert a + b == b;
    } else {
      assert (a + b)[1..] == a[1..] + b;
      ReadingConcat(Move(s, a[0].kind), a[1..], b);
    }
  }

  lemma ReadingOne(s: State, c: Chunk)
    ensures Reading(s, [c]) == Move(s, c.kind)
  {
  }

  lemma ReadingTwo(s: State, c: Chunk, d: Chunk)
    ensures Reading(s, [c, d]) == Move(Move(s, c.kind), d.kind)
  {
    assert [c, d] == [c] + [d];
    ReadingConcat(s, [c], [d]);
    ReadingOne(s, c);
    ReadingOne(Move(s, c.kind), d);
  }

  lemma {:induction false} DataStays(paused: bool, blocks: seq<seq<byte>>)
    ensures Reading(PageData(paused), RawChunks(JBIG_BID, blocks)) == PageData(paused)
  {
    if blocks != [] {
      assert RawChunks(JBIG_BID, blocks)[1..] == RawChunks(JBIG_BID, blocks[1..]);
      DataStays(paused, blocks[1..]);
    }
  }

  lemma PageReads(paused: bool, hdr: PageHeader, lay: Layout, opt: JobOptions, bie: seq<byte>)
    requires lay.Valid() && |bie| >= BIH_LEN
    ensures Reading(Pages(paused), PageChunks(hdr, lay, opt, bie)) == Pages(paused)
    ensures AllValid(PageChunks(hdr, lay, opt, bie))
  {
    PageOnTheWire(hdr, lay, opt, bie);
    var c, d := Chunk(START_PAGE, PageItems(hdr, lay, opt), []), Chunk(JBIG_BIH, [], bie[..BIH_LEN]);
    var bids := RawChunks(JBIG_BID, Blocks(bie[BIH_LEN..]));
    var e, f := Chunk(END_JBIG, [], []), Chunk(END_PAGE, [], []);
    ReadingConcat(Pages(paused), [c, d], bids + [e, f]);
    ReadingTwo(Pages(paused), c, d);
    ReadingConcat(PageData(paused), bids, [e, f]);
    DataStays(paused, Blocks(bie[BIH_LEN..]));
    ReadingTwo(PageData(paused), e, f);
  }

  lemma {:induction false} SidesRead(paused: bool, sides: seq<Side>, cfg: Config)
    requires SidesMade(sides, cfg)
    ensures Reading(Pages(paused), AllChunks(sides, cfg)) == Pages(paused)
    ensures AllValid(AllChunks(sides, cfg))
  {
    if sides != [] {
      var side := sides[0];
      assert SideMade(side, cfg);
      match side {
        case Printed(page) =>
          GeometryFits(page.hdr, cfg.opt.dpi1200);
          PageReads(paused, page.hdr, Geometry(page.hdr, cfg.opt.dpi1200), cfg.opt, Entity(page, cfg));
        case Blank(hdr) =>
          GeometryFits(hdr, cfg.opt.dpi1200);
          PageReads(paused, hdr, Geometry(hdr, cfg.opt.dpi1200), cfg.opt, BlankEntity(hdr, cfg));
      }
      SidesRead(paused, sides[1..], cfg);
      ReadingConcat(Pages(paused), SideChunks(side, cfg), AllChunks(sides[1..], cfg));
    }
  }

  lemma PassesRead(first: seq<Side>, second: seq<Side>, cfg: Config)
    requires SidesMade(first, cfg) && SidesMade(second, cfg)
    ensures var chunks := AllChunks(first, cfg) + [Chunk(PAUSE, [], [])] + AllChunks(second, cfg);
      Reading(Pages(false), chunks) == Pages(true) && AllValid(chunks)
  {
    var one, pause, two := AllChunks(first, cfg), [Chunk(PAUSE, [], [])], AllChunks(second, cfg);
    SidesRead(false, first, cfg);
    SidesRead(true, second, cfg);
    ReadingConcat(Pages(false), one, pause);
    ReadingOne(Pages(false), pause[0]);
    ReadingConcat(Pages(false), one + pause, two);
  }

  lemma BodyReads(pages: seq<RasterPage>, cfg: Config, replay: Replay)
    requires AllPrintable(pages, cfg) && (replay.Whole? ==> BlankReady(pages, cfg))
    ensures Reading(Pages(false), Body(pages, cfg, replay)).Pages?
    ensures AllValid(Body(pages, cfg, replay))
  {
    SidesPrintable(pages, cfg);
    if !cfg.opt.manualDuplex {
      SidesRead(false, InOrder(pages), cfg);
    } else if replay.CutShort? {
      PassesRead(FirstPass(pages), [], cfg);
      var chunks := Body(pages, cfg, replay);
      assert chunks + AllChunks([], cfg) == chunks;
    } else if replay.Whole? {
      SecondPrintable(pages, cfg);
      PassesRead(FirstPass(pages), SecondPass(pages), cfg);
    }
  }

  /** Whatever a job's run leaves behind is a whole document: the dump tool reads back the
      chunks it was made of, every page among them is complete, and there is at most one
      pause. */
  lemma DocumentWellFormed(pages: seq<RasterPage>, cfg: Config, replay: Replay)
    requires AllPrintable(pages, cfg) && (replay.Whole? ==> BlankReady(pages, cfg))
    ensures Reading(Initial, Document(pages, cfg, replay)) == Ended
    ensures AllValid(Document(pages, cfg, replay))
    ensures ParseSpec(DocumentBytes(Document(pages, cfg, replay)))
      == Entries([UelAt(0), MagicAt(9)] + EntriesOf(Document(pages, cfg, replay), 13))
  {
    var body := Body(pages, cfg, replay);
    BodyReads(pages, cfg, replay);
    ReadingTwo(Initial, Opening()[0], Opening()[1]);
    ReadingConcat(Initial, Opening(), body);
    ReadingConcat(Initial, Opening() + body, Closing());
    ReadingOne(Reading(Pages(false), body), Closing()[0]);
    DocumentRoundTrip(Document(pages, cfg, replay));
  }
}
