/** The print filter's run: pages rendered one after another, spooled and replayed for manual
    duplex, with a cancel that may come at any moment. */
module PrintMain {
  import opened Buffers
  import opened Bytes
  import opened DuplexSpool
  import opened PageModel
  import opened PageRender
  import opened PageStream
  import opened PrintJob
  import opened ZjStream

  /** When SIGTERM comes, if it does: the flag is up at every look from `tick` on. */
  datatype Signal = Never | At(tick: nat) {
    predicate Up(look: nat) { At? && tick <= look }
  }

  /** The looks at the flag, in the order they come: before page k is begun, when page k has
      failed, when n pages have been taken, and before they are replayed. */
  function BeforePage(k: nat): nat { 4 * k }

  function AfterFailure(k: nat): nat { 4 * k + 1 }

  function AfterPages(n: nat): nat { 4 * n + 2 }

  function BeforeReplay(n: nat): nat { 4 * n + 3 }

  /** They come in that order, and each but once. */
  lemma LooksInOrder(k: nat, n: nat)
    ensures BeforePage(k) < AfterFailure(k) < BeforePage(k + 1)
    ensures BeforePage(n) < AfterPages(n) < BeforeReplay(n) < BeforePage(n + 1)
  {
  }

  /** The flag is down before its moment and stays up from then on; without a signal it is never up. */
  lemma FlagStays(s: Signal, look: nat, later: nat)
    requires look <= later
    ensures s.Up(look) ==> s.Up(later)
    ensures s.At? ==> s.Up(s.tick) && (look < s.tick ==> !s.Up(look))
    ensures s.Never? ==> !s.Up(look)
  {
  }

  /** What a run finds around it: when it is cancelled, whether memory is ample, and whether
      its temporary files are sound. */
  datatype Env = Env(signal: Signal, heap: Heap, disk: bool)

  // -------------------------------------------------------------- one page

  /** Render one page and write it out. */
  method PrintPage(fp: Sink, ras: Raster, hdr: PageHeader, cfg: Config, heap: Heap, ghost page: RasterPage)
      returns (ok: bool)
    requires FromLibrary(page) && page.hdr == hdr && hdr.Accepted() && ras.lines == page.lines
    modifies ras`lines, fp
    ensures !ok && fp.sound ==> fp.data == old(fp.data)
    ensures ok ==> Printable(page, cfg) && fp.data == old(fp.data) + SideBytes(Printed(page), cfg)
    ensures ok && ras.intact ==> ras.lines == []
    ensures ras.intact && fp.sound && heap.ample ==> ok == Printable(page, cfg)
  {
    ghost var full := Completed(page);
    var lay, bitmap;
    ok, lay, bitmap := RenderPage(ras, hdr, cfg.opt, cfg.screen, heap, full);
    if ok {
      ok := FinishPage(fp, hdr, lay, cfg.opt, cfg.coder, bitmap.dots, lay.videoX, lay.videoY, heap);
    }
  }

  /** The blank sheet: an all-zero bitmap, in the size the page has before its quarter turn. */
  method PrintBlank(fp: Sink, hdr: PageHeader, cfg: Config, heap: Heap) returns (ok: bool)
    requires hdr.Accepted()
    modifies fp
    ensures !ok && fp.sound ==> fp.data == old(fp.data)
    ensures ok ==>
      |BlankEntity(hdr, cfg)| >= BIH_LEN && fp.data == old(fp.data) + SideBytes(Blank(hdr), cfg)
    ensures fp.sound && heap.ample ==> ok == (|BlankEntity(hdr, cfg)| >= BIH_LEN)
  {
    GeometryFits(hdr, cfg.opt.dpi1200);
    var lay := PageLayout(hdr, cfg.opt.dpi1200);
    ok := heap.Grant();
    if ok {
      var bitmap := ClearBitmap(lay.SrcW(), lay.depth, lay.SrcH());
      assert bitmap[..] == Zeros(bitmap.Length);
      ok := FinishPage(fp, hdr, lay, cfg.opt, cfg.coder, bitmap, lay.SrcW(), lay.SrcH(), heap);
    }
    if |BlankEntity(hdr, cfg)| >= BIH_LEN {
      BlankSent(hdr, cfg);
    }
  }

  lemma BlankSent(hdr: PageHeader, cfg: Config)
    requires hdr.Accepted() && |BlankEntity(hdr, cfg)| >= BIH_LEN
    ensures Geometry(hdr, cfg.opt.dpi1200).Valid()
    ensures SideBytes(Blank(hdr), cfg)
      == ChunksBytes(PageChunks(hdr, Geometry(hdr, cfg.opt.dpi1200), cfg.opt, BlankEntity(hdr, cfg)))
  {
    GeometryFits(hdr, cfg.opt.dpi1200);
  }

  method ClearBitmap(w: nat, depth: nat, h: nat) returns (bitmap: array<byte>)
    ensures fresh(bitmap) && bitmap.Length == w * depth / 8 * h
    ensures forall k :: 0 <= k < bitmap.Length ==> bitmap[k] == 0
  {
    bitmap := new byte[w * depth / 8 * h](_ => 0);
  }

  // ------------------------------------------------------------ page by page

  datatype Job = Job(cfg: Config, ras: Raster, stdout: Sink, fronts: Spool, backs: Spool, env: Env) {
    ghost predicate Valid()
      reads fronts, fronts.slots, fronts.file, backs, backs.slots, backs.file
    {
      && stdout != fronts.file && stdout != backs.file && fronts.file != backs.file
      && fronts != backs && fronts.slots != backs.slots
      && fronts.Valid() && backs.Valid()
    }

    /** No write fails, and no dealing with a spool if there is one. */
    ghost predicate Sound() {
      stdout.sound && (cfg.opt.manualDuplex ==> fronts.file.sound && backs.file.sound)
    }

    /** Nothing fails from outside. */
    ghost predicate Undisturbed() { Sound() && ras.intact && env.heap.ample }

    predicate Cancelled(look: nat) { env.signal.Up(look) }

    /** Between two pages: what was rendered is in the output, or in the spools. */
    ghost predicate Between(all: seq<RasterPage>, n: nat, start: seq<byte>)
      reads ras, stdout, fronts, fronts.slots, fronts.file, backs, backs.slots, backs.file
    {
      && Valid() && n <= |all| && AllPrintable(all[..n], cfg)
      && ras.pages == all[n..] && (ras.intact ==> ras.lines == [])
      && Shown(cfg, all[..n], start, stdout.data)
      && Spooled(cfg, all[..n], fronts.Pages(), backs.Pages())
    }
  }

  /** What the output holds while pages are read: all of them, or none if they are spooled. */
  ghost predicate Shown(cfg: Config, done: seq<RasterPage>, start: seq<byte>, data: seq<byte>) {
    if cfg.opt.manualDuplex then data == start
    else data == start + ChunksBytes(AllChunks(InOrder(done), cfg))
  }

  ghost predicate Spooled(cfg: Config, done: seq<RasterPage>, fronts: seq<seq<byte>>, backs: seq<seq<byte>>) {
    cfg.opt.manualDuplex ==>
      fronts == BytesOf(FirstPass(done), cfg) && backs == BytesOf(BackSides(done), cfg)
  }

  lemma ShownNext(cfg: Config, done: seq<RasterPage>, page: RasterPage, start: seq<byte>, data: seq<byte>)
    requires Shown(cfg, done, start, data) && !cfg.opt.manualDuplex
    ensures Shown(cfg, done + [page], start, data + SideBytes(Printed(page), cfg))
  {
    NextSide(done, page);
    OneMore(start, InOrder(done), Printed(page), Send(cfg));
  }

  lemma SpooledNext(cfg: Config, done: seq<RasterPage>, page: RasterPage,
                    fronts: seq<seq<byte>>, backs: seq<seq<byte>>)
    requires Spooled(cfg, done, fronts, backs) && cfg.opt.manualDuplex
    ensures var bytes := SideBytes(Printed(page), cfg);
      && (|done| % 2 == 0 ==> Spooled(cfg, done + [page], fronts + [bytes], backs))
      && (|done| % 2 == 1 ==> Spooled(cfg, done + [page], fronts, backs + [bytes]))
  {
    NextSide(done, page);
    OneMore([], FirstPass(done), Printed(page), Send(cfg));
    OneMore([], BackSides(done), Printed(page), Send(cfg));
  }

  /** Render page k into a spool and mark it there.  `gone` tells that the loop over the pages
      ends here. */
  method SpoolPage(sp: Spool, ras: Raster, hdr: PageHeader, cfg: Config, env: Env, k: nat,
                   ghost page: RasterPage)
      returns (gone: bool, status: int)
    requires FromLibrary(page) && page.hdr == hdr && hdr.Accepted() && ras.lines == page.lines
    requires sp.Valid()
    modifies ras`lines, sp, sp.slots, sp.file
    ensures sp.slots == old(sp.slots) || fresh(sp.slots)
    ensures !gone ==>
      && status == 0 && Printable(page, cfg) && sp.Valid()
      && sp.Pages() == old(sp.Pages()) + [SideBytes(Printed(page), cfg)]
      && (ras.intact ==> ras.lines == [])
    ensures gone ==> status == 1 || (status == 0 && env.signal.Up(AfterFailure(k)))
    ensures ras.intact && sp.file.sound && env.heap.ample && gone ==> !Printable(page, cfg)
  {
    gone, status := true, 1;
    var ok, start := sp.Position();
    if !ok {
      return;
    }
    ok := PrintPage(sp.file, ras, hdr, cfg, env.heap, page);
    if !ok {
      status := if env.signal.Up(AfterFailure(k)) then 0 else 1;
      return;
    }
    assert sp.file.data[start..] == SideBytes(Printed(page), cfg);
    sp.Extended();
    ok := sp.Mark(start, env.heap);
    if ok {
      gone, status := false, 0;
    }
  }

  /** Render page k straight into the output. */
  method ShowPage(fp: Sink, ras: Raster, hdr: PageHeader, cfg: Config, env: Env, k: nat, ghost page: RasterPage)
      returns (gone: bool, status: int)
    requires FromLibrary(page) && page.hdr == hdr && hdr.Accepted() && ras.lines == page.lines
    modifies ras`lines, fp
    ensures !gone ==>
      && status == 0 && Printable(page, cfg)
      && fp.data == old(fp.data) + SideBytes(Printed(page), cfg)
      && (ras.intact ==> ras.lines == [])
    ensures gone ==> status == 1 || (status == 0 && env.signal.Up(AfterFailure(k)))
    ensures gone && fp.sound ==> fp.data == old(fp.data)
    ensures ras.intact && fp.sound && env.heap.ample && gone ==> !Printable(page, cfg)
  {
    var ok := PrintPage(fp, ras, hdr, cfg, env.heap, page);
    gone, status := !ok, if ok || env.signal.Up(AfterFailure(k)) then 0 else 1;
  }

  lemma PrintableNext(all: seq<RasterPage>, n: nat, cfg: Config)
    requires n < |all| && AllPrintable(all[..n], cfg)
    ensures all[..n + 1] == all[..n] + [all[n]]
    ensures Printable(all[n], cfg) ==> AllPrintable(all[..n + 1], cfg)
  {
    assert all[..n + 1][..n] == all[..n];
  }

  /** Odd pages go to the fronts, even ones to the backs; `page` counts from one. */
  method SpoolTurn(job: Job, hdr: PageHeader, page: nat, ghost done: seq<RasterPage>, ghost p: RasterPage)
      returns (gone: bool, status: int)
    requires page == |done| + 1 && p.hdr == hdr && hdr.Accepted()
    requires FromLibrary(p) && job.ras.lines == p.lines
    requires job.Valid() && job.cfg.opt.manualDuplex
    requires Spooled(job.cfg, done, job.fronts.Pages(), job.backs.Pages())
    modifies job.ras`lines,
      job.fronts, job.fronts.slots, job.fronts.file, job.backs, job.backs.slots, job.backs.file
    ensures job.fronts.slots == old(job.fronts.slots) || fresh(job.fronts.slots)
    ensures job.backs.slots == old(job.backs.slots) || fresh(job.backs.slots)
    ensures !gone ==>
      && status == 0 && Printable(p, job.cfg) && job.Valid()
      && Spooled(job.cfg, done + [p], job.fronts.Pages(), job.backs.Pages())
      && (job.ras.intact ==> job.ras.lines == [])
    ensures gone ==> status == 1 || (status == 0 && job.Cancelled(AfterFailure(page - 1)))
    ensures job.Undisturbed() && gone ==> !Printable(p, job.cfg)
  {
    ghost var fronts, backs := job.fronts.Pages(), job.backs.Pages();
    if page % 2 == 1 {
      gone, status := SpoolPage(job.fronts, job.ras, hdr, job.cfg, job.env, page - 1, p);
      assert job.backs.Pages() == backs;
    } else {
      gone, status := SpoolPage(job.backs, job.ras, hdr, job.cfg, job.env, page - 1, p);
      assert job.fronts.Pages() == fronts;
    }
    SpooledNext(job.cfg, done, p, fronts, backs);
  }

  /** One page, on its way to the output or to the spool its number says. */
  method TakePage(job: Job, hdr: PageHeader, page: nat, ghost done: seq<RasterPage>, ghost p: RasterPage,
                  ghost start: seq<byte>)
      returns (gone: bool, status: int)
    requires page == |done| + 1 && p.hdr == hdr && hdr.Accepted()
    requires FromLibrary(p) && job.ras.lines == p.lines
    requires job.Valid() && Shown(job.cfg, done, start, job.stdout.data)
    requires Spooled(job.cfg, done, job.fronts.Pages(), job.backs.Pages())
    modifies job.ras`lines, job.stdout,
      job.fronts, job.fronts.slots, job.fronts.file, job.backs, job.backs.slots, job.backs.file
    ensures job.fronts.slots == old(job.fronts.slots) || fresh(job.fronts.slots)
    ensures job.backs.slots == old(job.backs.slots) || fresh(job.backs.slots)
    ensures !gone ==>
      && status == 0 && Printable(p, job.cfg) && job.Valid()
      && Shown(job.cfg, done + [p], start, job.stdout.data)
      && Spooled(job.cfg, done + [p], job.fronts.Pages(), job.backs.Pages())
      && (job.ras.intact ==> job.ras.lines == [])
    ensures gone ==> status == 1 || (status == 0 && job.Cancelled(AfterFailure(page - 1)))
    ensures gone && job.Sound() ==> Shown(job.cfg, done, start, job.stdout.data)
    ensures job.Undisturbed() && gone ==> !Printable(p, job.cfg)
  {
    if job.cfg.opt.manualDuplex {
      gone, status := SpoolTurn(job, hdr, page, done, p);
    } else {
      ShownNext(job.cfg, done, p, start, job.stdout.data);
      gone, status := ShowPage(job.stdout, job.ras, hdr, job.cfg, job.env, page - 1, p);
    }
  }

  // -------------------------------------------------------------- all pages

  /** Every page of the raster comes from the library. */
  ghost predicate AllFromLibrary(all: seq<RasterPage>) {
    forall k :: 0 <= k < |all| ==> FromLibrary(all[k])
  }

  /** Look for the next page: a header the filter can print from, while nobody has cancelled. */
  method NextHeader(ras: Raster, signal: Signal, page: nat, ghost all: seq<RasterPage>)
      returns (found: bool, status: int, hdr: PageHeader)
    requires page <= |all| && ras.pages == all[page..] && (ras.intact ==> ras.lines == [])
    modifies ras
    ensures found ==>
      && status == 0 && page < |all| && hdr == all[page].hdr && hdr.Accepted()
      && ras.lines == all[page].lines && ras.pages == all[page + 1..] && !signal.Up(BeforePage(page))
    ensures !found && status == 0 ==> ras.pages == old(ras.pages) && ras.lines == old(ras.lines)
    ensures !found && status == 0 && !signal.Up(BeforePage(page)) && ras.intact ==> page == |all|
    ensures !found && status != 0 ==> status == 1 && page < |all| && !all[page].hdr.Accepted()
  {
    found, status, hdr := false, 0, PageHeader(0, 0, 0, 0, 0, 0, 0, 0, 0, 0, 0);
    if signal.Up(BeforePage(page)) {
      return;
    }
    found, hdr := ras.ReadHeader();
    if !found {
      return;
    }
    assert all[page..][0] == all[page];
    if hdr.bitsPerPixel != 8 || hdr.width == 0 || hdr.height == 0 || hdr.width > 32768
       || hdr.height > 32768 || hdr.bytesPerLine < hdr.width || hdr.bytesPerLine > 32768
    {
      return false, 1, hdr;
    }
    if hdr.colorSpace != 0 && hdr.colorSpace != 18 {
      return false, 1, hdr;
    }
  }

  /** No page is begun once the job is cancelled. */
  ghost predicate BegunInTime(signal: Signal, n: nat) {
    n > 0 ==> !signal.Up(BeforePage(n - 1))
  }

  /** The loop over the pages has ended behind page n: what the output holds then, what an
      end without error means, and what an error is due to.  `page` counts the pages begun. */
  ghost predicate Settled(job: Job, all: seq<RasterPage>, start: seq<byte>, n: nat, page: nat, status: int)
    reads job.ras, job.stdout, job.fronts, job.fronts.slots, job.fronts.file,
      job.backs, job.backs.slots, job.backs.file
  {
    && n <= |all| && page >= n && AllPrintable(all[..n], job.cfg) && BegunInTime(job.env.signal, n)
    && (job.Sound() ==> Shown(job.cfg, all[..n], start, job.stdout.data))
    && (status == 0 && !job.Cancelled(AfterPages(n)) ==>
          page == n && job.Between(all, n, start) && (job.ras.intact ==> n == |all|))
    && (status != 0 && job.Undisturbed() ==> n < |all| && !Printable(all[n], job.cfg))
  }

  /** The loop goes on behind page n, or it has ended there. */
  ghost predicate Reading(job: Job, all: seq<RasterPage>, start: seq<byte>, n: nat, page: nat,
                          gone: bool, status: int)
    reads job.ras, job.stdout, job.fronts, job.fronts.slots, job.fronts.file,
      job.backs, job.backs.slots, job.backs.file
  {
    if gone then Settled(job, all, start, n, page, status)
    else page == n && job.Between(all, n, start) && BegunInTime(job.env.signal, n)
  }

  /** The header of page n, if there is one. */
  ghost predicate LastOf(all: seq<RasterPage>, n: nat, last: PageHeader) {
    0 < n <= |all| ==> last == all[n - 1].hdr && last.Accepted()
  }

  /** Look for the next page and take it. */
  method NextPage(job: Job, page: nat, ghost all: seq<RasterPage>, ghost start: seq<byte>)
      returns (gone: bool, status: int, seen: nat, hdr: PageHeader)
    requires AllFromLibrary(all) && job.Between(all, page, start) && BegunInTime(job.env.signal, page)
    modifies job.ras, job.stdout,
      job.fronts, job.fronts.slots, job.fronts.file, job.backs, job.backs.slots, job.backs.file
    ensures job.fronts.slots == old(job.fronts.slots) || fresh(job.fronts.slots)
    ensures job.backs.slots == old(job.backs.slots) || fresh(job.backs.slots)
    ensures !gone ==> LastOf(all, page + 1, hdr)
    ensures Reading(job, all, start, if gone then page else page + 1, seen, gone, status)
  {
    seen := page;
    var found;
    found, status, hdr := NextHeader(job.ras, job.env.signal, page, all);
    gone := !found;
    if found {
      gone, status := PageTurn(job, page, hdr, all, start);
      seen := page + 1;
    }
  }

  /** The header of the next page has been read: the rest of the loop's turn. */
  method PageTurn(job: Job, page: nat, hdr: PageHeader, ghost all: seq<RasterPage>, ghost start: seq<byte>)
      returns (gone: bool, status: int)
    requires AllFromLibrary(all) && page < |all| && hdr == all[page].hdr && hdr.Accepted()
    requires BegunInTime(job.env.signal, page) && job.Valid() && AllPrintable(all[..page], job.cfg)
    requires job.ras.pages == all[page + 1..] && job.ras.lines == all[page].lines
    requires Shown(job.cfg, all[..page], start, job.stdout.data)
    requires Spooled(job.cfg, all[..page], job.fronts.Pages(), job.backs.Pages())
    modifies job.ras`lines, job.stdout,
      job.fronts, job.fronts.slots, job.fronts.file, job.backs, job.backs.slots, job.backs.file
    ensures job.fronts.slots == old(job.fronts.slots) || fresh(job.fronts.slots)
    ensures job.backs.slots == old(job.backs.slots) || fresh(job.backs.slots)
    ensures !gone ==> job.Between(all, page + 1, start)
    ensures gone ==> Settled(job, all, start, page, page + 1, status)
  {
    gone, status := TakePage(job, hdr, page + 1, all[..page], all[page], start);
    if !gone {
      PageTaken(job, all, page, start);
    }
  }

  lemma PageTaken(job: Job, all: seq<RasterPage>, page: nat, start: seq<byte>)
    requires page < |all| && AllPrintable(all[..page], job.cfg) && Printable(all[page], job.cfg)
    requires job.Valid()
    requires job.ras.pages == all[page + 1..] && (job.ras.intact ==> job.ras.lines == [])
    requires Shown(job.cfg, all[..page] + [all[page]], start, job.stdout.data)
    requires Spooled(job.cfg, all[..page] + [all[page]], job.fronts.Pages(), job.backs.Pages())
    ensures job.Between(all, page + 1, start)
  {
    PrintableNext(all, page, job.cfg);
  }

  /** The loop over the pages: until the raster ends, a page fails, or the job is cancelled. */
  method ReadPages(job: Job, ghost all: seq<RasterPage>, ghost start: seq<byte>)
      returns (status: int, page: nat, last: PageHeader, ghost n: nat)
    requires AllFromLibrary(all) && job.Between(all, 0, start)
    modifies job.ras, job.stdout,
      job.fronts, job.fronts.slots, job.fronts.file, job.backs, job.backs.slots, job.backs.file
    ensures Settled(job, all, start, n, page, status)
    ensures LastOf(all, n, last)
  {
    last := PageHeader(0, 0, 0, 0, 0, 0, 0, 0, 0, 0, 0);
    var gone := false;
    status, page, n := 0, 0, 0;
    while !gone
      invariant job.fronts.slots == old(job.fronts.slots) || fresh(job.fronts.slots)
      invariant job.backs.slots == old(job.backs.slots) || fresh(job.backs.slots)
      invariant n <= |all| && LastOf(all, n, last)
      invariant Reading(job, all, start, n, page, gone, status)
      decreases |all| - n, !gone
    {
      var hdr;
      gone, status, page, hdr := NextPage(job, page, all, start);
      if !gone {
        last := hdr;
        n := n + 1;
      }
    }
  }

  // ---------------------------------------------------------------- replay

  lemma SentNext(start: seq<byte>, data: seq<byte>, pages: seq<seq<byte>>, i: nat)
    requires i < |pages| && data == start + Flatten(pages[..i])
    ensures data + pages[i] == start + Flatten(pages[..i + 1])
  {
    FlattenSnoc(pages[..i], pages[i]);
    assert pages[..i + 1] == pages[..i] + [pages[i]];
    ThreeParts(start, Flatten(pages[..i]), pages[i], []);
  }

  /** The fronts, in order. */
  method ReplayFronts(sp: Spool, out: Sink) returns (ok: bool)
    requires sp.Valid() && out != sp.file
    modifies out
    ensures out.sound && sp.file.sound ==> ok
    ensures ok ==> out.data == old(out.data) + Flatten(old(sp.Pages()))
  {
    ghost var start, pages := out.data, sp.Pages();
    ok := true;
    var i := 0;
    while i < sp.count
      invariant 0 <= i <= sp.count == |pages| && sp.Valid() && sp.Pages() == pages && ok
      invariant out.data == start + Flatten(pages[..i])
      modifies out
    {
      SentNext(start, out.data, pages, i);
      ok := sp.Copy(i, out);
      if !ok {
        return;
      }
      i := i + 1;
    }
    assert pages[..i] == pages;
  }

  /** The backs, last one first. */
  method ReplayBacks(sp: Spool, out: Sink) returns (ok: bool)
    requires sp.Valid() && out != sp.file
    modifies out
    ensures out.sound && sp.file.sound ==> ok
    ensures ok ==> out.data == old(out.data) + Flatten(Reversed(old(sp.Pages())))
  {
    ghost var start, pages, order := out.data, sp.Pages(), Reversed(sp.Pages());
    ok := true;
    var i := sp.count;
    while i > 0
      invariant 0 <= i <= sp.count == |pages| == |order| && sp.Valid() && sp.Pages() == pages && ok
      invariant out.data == start + Flatten(order[..|order| - i])
      modifies out
    {
      SentNext(start, out.data, order, |order| - i);
      i := i - 1;
      ok := sp.Copy(i, out);
      if !ok {
        return;
      }
    }
    assert order[..|order|] == order;
  }

  /** The blank back of the last sheet, if there is one page too few. */
  method ReplayBlank(out: Sink, odd: bool, last: PageHeader, cfg: Config, heap: Heap, ghost blank: seq<byte>)
      returns (ok: bool)
    requires last.Accepted() && blank == if odd then SideBytes(Blank(last), cfg) else []
    modifies out
    ensures !ok && out.sound ==> out.data == old(out.data)
    ensures ok ==> (odd ==> |BlankEntity(last, cfg)| >= BIH_LEN) && out.data == old(out.data) + blank
    ensures out.sound && heap.ample ==> ok == (odd ==> |BlankEntity(last, cfg)| >= BIH_LEN)
  {
    ok := true;
    if odd {
      ok := PrintBlank(out, last, cfg, heap);
    }
  }

  function BlankBack(pages: seq<RasterPage>): seq<Side>
    requires pages != []
  {
    if |pages| % 2 == 1 then [Blank(pages[|pages| - 1].hdr)] else []
  }

  /** The bytes a replay has sent: the fronts, the pause, the blank back, the backs. */
  function Sent(replay: Replay, fronts: seq<byte>, pause: seq<byte>, blank: seq<byte>,
                backs: seq<byte>): seq<byte>
  {
    match replay
    case NotReplayed => []
    case CutShort => fronts + pause
    case Whole => fronts + pause + (blank + backs)
  }

  lemma PassesAsSent(one: seq<Chunk>, pause: Chunk, two: seq<Chunk>)
    ensures ChunksBytes(one + [pause]) == ChunksBytes(one) + ChunkBytes(pause)
    ensures ChunksBytes(one + [pause] + two) == ChunksBytes(one) + ChunkBytes(pause) + ChunksBytes(two)
  {
    OneChunk(pause);
    ChunksConcat(one, [pause]);
    ChunksConcat(one + [pause], two);
  }

  lemma BodyAsSent(pages: seq<RasterPage>, cfg: Config, replay: Replay,
                   fronts: seq<seq<byte>>, backs: seq<seq<byte>>)
    requires pages != [] && cfg.opt.manualDuplex && Spooled(cfg, pages, fronts, backs)
    ensures ChunksBytes(Body(pages, cfg, replay))
      == Sent(replay, Flatten(fronts), ChunkBytes(Chunk(PAUSE, [], [])),
              ChunksBytes(AllChunks(BlankBack(pages), cfg)), Flatten(Reversed(backs)))
  {
    BacksAsSent(pages, cfg, backs);
    EachAsAll(FirstPass(pages), Send(cfg));
    var one, two := AllChunks(FirstPass(pages), cfg), AllChunks(SecondPass(pages), cfg);
    PassesAsSent(one, Chunk(PAUSE, [], []), two);
    match replay
    case NotReplayed =>
    case CutShort =>
      assert Body(pages, cfg, replay) == one + [Chunk(PAUSE, [], [])];
    case Whole =>
      assert Body(pages, cfg, replay) == one + [Chunk(PAUSE, [], [])] + two;
  }

  lemma BacksAsSent(pages: seq<RasterPage>, cfg: Config, backs: seq<seq<byte>>)
    requires pages != [] && backs == BytesOf(BackSides(pages), cfg)
    ensures ChunksBytes(AllChunks(SecondPass(pages), cfg))
      == ChunksBytes(AllChunks(BlankBack(pages), cfg)) + Flatten(Reversed(backs))
  {
    var rest := Reversed(BackSides(pages));
    EachReversed(BackSides(pages), Send(cfg));
    EachAsAll(rest, Send(cfg));
    AllConcat(BlankBack(pages), rest, Send(cfg));
    ChunksConcat(AllChunks(BlankBack(pages), cfg), AllChunks(rest, cfg));
  }

  lemma BlankAsSent(pages: seq<RasterPage>, cfg: Config)
    requires pages != []
    ensures ChunksBytes(AllChunks(BlankBack(pages), cfg))
      == if |pages| % 2 == 1 then SideBytes(Blank(pages[|pages| - 1].hdr), cfg) else []
  {
    if |pages| % 2 == 1 {
      OnlyOne(Blank(pages[|pages| - 1].hdr), Send(cfg));
    }
  }

  lemma SentInSteps(start: seq<byte>, f: seq<byte>, p: seq<byte>, more: seq<byte>)
    ensures start + f + p + [] == start + (f + p)
    ensures start + f + p + more == start + (f + p + more)
  {
  }

  /** What the output holds: what was there, and the pages as far as they have been sent. */
  ghost predicate Delivered(data: seq<byte>, start: seq<byte>, pages: seq<RasterPage>, cfg: Config, replay: Replay) {
    && data == start + ChunksBytes(Body(pages, cfg, replay))
    && (replay.Whole? ==> BlankReady(pages, cfg))
  }

  /** Fronts, pause, blank sheet if the job is odd, backs in reverse. */
  method ReplaySpools(job: Job, last: PageHeader, ghost pages: seq<RasterPage>)
      returns (status: int, ghost replay: Replay)
    requires job.Valid() && pages != []
    requires pages[|pages| - 1].hdr == last && last.Accepted() && job.cfg.opt.manualDuplex
    requires Spooled(job.cfg, pages, job.fronts.Pages(), job.backs.Pages())
    modifies job.stdout
    ensures status == 0 || job.Sound() ==>
      Delivered(job.stdout.data, old(job.stdout.data), pages, job.cfg, replay)
    ensures status == 0 ==> replay.Whole?
    ensures job.Sound() && job.env.heap.ample ==> (status == 0 <==> BlankReady(pages, job.cfg))
  {
    ghost var blank := ChunksBytes(AllChunks(BlankBack(pages), job.cfg));
    BlankAsSent(pages, job.cfg);
    ghost var fronts, backs := job.fronts.Pages(), job.backs.Pages();
    assert (job.backs.count < job.fronts.count) == (|pages| % 2 == 1);
    status, replay :=
      ReplayPasses(job.stdout, job.fronts, job.backs, last, job.cfg, job.env.heap, blank);
    BodyAsSent(pages, job.cfg, replay, fronts, backs);
  }

  method ReplayPasses(out: Sink, fronts: Spool, backs: Spool, last: PageHeader, cfg: Config, heap: Heap,
                      ghost blank: seq<byte>)
      returns (status: int, ghost replay: Replay)
    requires out != fronts.file && out != backs.file && fronts.file != backs.file
    requires fronts.Valid() && backs.Valid() && last.Accepted()
    requires blank == if backs.count < fronts.count then SideBytes(Blank(last), cfg) else []
    modifies out
    ensures status == 0 <==> replay.Whole?
    ensures status == 0 || (out.sound && fronts.file.sound && backs.file.sound) ==>
      out.data == old(out.data)
        + Sent(replay, Flatten(old(fronts.Pages())), ChunkBytes(Chunk(PAUSE, [], [])), blank,
               Flatten(Reversed(old(backs.Pages()))))
    ensures var ready := backs.count < fronts.count ==> |BlankEntity(last, cfg)| >= BIH_LEN;
      && (replay.Whole? ==> ready)
      && (out.sound && fronts.file.sound && backs.file.sound && heap.ample ==> (status == 0 <==> ready))
  {
    ghost var start, f, p, r := out.data, Flatten(fronts.Pages()), ChunkBytes(Chunk(PAUSE, [], [])),
      Flatten(Reversed(backs.Pages()));
    SentInSteps(start, f, p, blank + r);
    status, replay := 1, NotReplayed;
    var ok := ReplayFronts(fronts, out);
    if !ok {
      return;
    }
    ok := ReplayRest(out, backs, backs.count < fronts.count, last, cfg, heap, blank);
    status, replay := if ok then 0 else 1, if ok then Whole else CutShort;
  }

  /** The pause and what comes behind it. */
  method ReplayRest(out: Sink, backs: Spool, odd: bool, last: PageHeader, cfg: Config, heap: Heap,
                    ghost blank: seq<byte>)
      returns (ok: bool)
    requires out != backs.file && backs.Valid() && last.Accepted()
    requires blank == if odd then SideBytes(Blank(last), cfg) else []
    modifies out
    ensures ok || (out.sound && backs.file.sound) ==>
      out.data == old(out.data) + ChunkBytes(Chunk(PAUSE, [], []))
        + if ok then blank + Flatten(Reversed(old(backs.Pages()))) else []
    ensures ok ==> (odd ==> |BlankEntity(last, cfg)| >= BIH_LEN)
    ensures out.sound && backs.file.sound && heap.ample ==> ok == (odd ==> |BlankEntity(last, cfg)| >= BIH_LEN)
  {
    var paused := WriteChunk(out, Chunk(PAUSE, [], []));
    ghost var sent := out.data;
    ok := ReplayBlank(out, odd, last, cfg, heap, blank);
    ok := ok && paused;
    if !ok {
      return;
    }
    ok := ReplayBacks(backs, out);
    ThreeParts(sent, blank, Flatten(Reversed(old(backs.Pages()))), []);
  }

  // ------------------------------------------------------------ the whole run

  /** The escape, the magic, the parameters and the document start. */
  method Prologue(out: Sink) returns (ok: bool)
    requires out.data == []
    modifies out
    ensures out.sound ==> ok
    ensures ok ==> out.data == UEL + MAGIC + ChunksBytes(Opening())
  {
    ok := out.Write(UEL + MAGIC);
    ghost var start := UEL + MAGIC;
    assert ok ==> out.data == start;
    if ok { ok := WriteChunk(out, Chunk(PANTUM_PARAM, [], ParamBlob())); }
    if ok { ok := WriteChunk(out, Chunk(START_DOC, [Item(0, 0), Item(1, 0), Item(2, 1)], [])); }
    TwoChunks(start, Opening()[0], Opening()[1]);
  }

  lemma TwoChunks(start: seq<byte>, c: Chunk, d: Chunk)
    ensures start + ChunkBytes(c) + ChunkBytes(d) == start + ChunksBytes([c, d])
  {
    OneChunk(c);
    ChunkSnoc(start, [c], d);
    assert [c] + [d] == [c, d];
  }

  /** The document end and the closing escape; the last of it may be lost in the flush. */
  method Trailer(out: Sink) returns (ok: bool)
    modifies out
    ensures out.sound ==> ok
    ensures ok ==> out.data == old(out.data) + ChunksBytes(Closing()) + UEL
  {
    OneChunk(Closing()[0]);
    ok := WriteChunk(out, Chunk(END_DOC, [], []));
    if ok { ok := out.Write(UEL); }
    var flushed := out.Try();
    ok := ok && flushed;
  }

  lemma ShownIsBody(cfg: Config, done: seq<RasterPage>, start: seq<byte>, data: seq<byte>)
    requires Shown(cfg, done, start, data)
    ensures data == start + ChunksBytes(Body(done, cfg, NotReplayed))
  {
  }

  lemma DocumentSent(pages: seq<RasterPage>, cfg: Config, replay: Replay)
    ensures UEL + MAGIC + ChunksBytes(Opening()) + ChunksBytes(Body(pages, cfg, replay))
        + ChunksBytes(Closing()) + UEL
      == DocumentBytes(Document(pages, cfg, replay))
  {
    var a, b, c := Opening(), Body(pages, cfg, replay), Closing();
    ChunksConcat(a, b);
    ChunksConcat(a + b, c);
    FlatDocument(ChunksBytes(a), ChunksBytes(b), ChunksBytes(c));
  }

  lemma FlatDocument(a: seq<byte>, b: seq<byte>, c: seq<byte>)
    ensures UEL + MAGIC + a + b + c + UEL == UEL + (MAGIC + (a + b + c + UEL))
  {
  }

  /** Both temporary files, if the job needs them. */
  method OpenSpools(cfg: Config, disk: bool) returns (ok: bool, fronts: Spool, backs: Spool)
    ensures fresh(fronts) && fresh(fronts.file) && fresh(fronts.slots)
    ensures fresh(backs) && fresh(backs.file) && fresh(backs.slots)
    ensures fronts != backs && fronts.file != backs.file && fronts.slots != backs.slots
    ensures fronts.Valid() && backs.Valid() && fronts.Pages() == [] && backs.Pages() == []
    ensures fronts.file.sound == backs.file.sound == disk
    ensures !cfg.opt.manualDuplex || disk ==> ok
  {
    fronts := new Spool(disk);
    backs := new Spool(disk);
    ok := true;
    if cfg.opt.manualDuplex {
      ok := fronts.file.Try();
      if ok {
        ok := backs.file.Try();
      }
    }
  }

  /** One whole document of these pages; a replay that went through had its blank sheet. */
  ghost predicate WholeDocument(data: seq<byte>, pages: seq<RasterPage>, cfg: Config, replay: Replay) {
    && data == DocumentBytes(Document(pages, cfg, replay))
    && (replay.Whole? ==> BlankReady(pages, cfg))
  }

  /** The filter.  `n` pages were taken and `replay` tells how far a duplex job got. */
  method Filter(ras: Raster, cfg: Config, stdout: Sink, env: Env)
      returns (status: int, ghost n: nat, ghost replay: Replay)
    requires stdout.data == [] && ras.lines == []
    requires AllFromLibrary(ras.pages)
    modifies ras, stdout
    ensures n <= |old(ras.pages)| && AllPrintable(old(ras.pages)[..n], cfg)
    // Whatever header is rejected, read falls short, memory runs out or cancel comes: if no
    // write and no spool fails, the output is one whole document of the pages taken, or
    // nothing at all if the raster could not be opened.
    ensures stdout.sound && (cfg.opt.manualDuplex ==> env.disk) ==>
      || WholeDocument(stdout.data, old(ras.pages)[..n], cfg, replay)
      || (stdout.data == [] && status == 1 && !ras.intact)
    // Success without a cancel means that everything has been printed, whatever may fail.
    ensures status == 0 && !env.signal.Up(BeforeReplay(n)) ==>
      && WholeDocument(stdout.data, old(ras.pages)[..n], cfg, replay)
      && n > 0 && (cfg.opt.manualDuplex ==> replay.Whole?) && (ras.intact ==> n == |old(ras.pages)|)
    // Where nothing fails from outside, it is exactly the printable jobs that succeed.
    ensures
      && !env.signal.Up(BeforeReplay(n)) && ras.intact && env.heap.ample
      && stdout.sound && (cfg.opt.manualDuplex ==> env.disk)
      ==>
      (status == 0 <==>
        old(ras.pages) != [] && AllPrintable(old(ras.pages), cfg) && BlankReady(old(ras.pages), cfg))
    // A duplex job cancelled at any moment before its replay prints no page, and no job takes
    // a page once it is cancelled.
    ensures env.signal.Up(BeforeReplay(n)) || !cfg.opt.manualDuplex ==> replay.NotReplayed?
    ensures forall k: nat :: env.signal.Up(BeforePage(k)) ==> n <= k
  {
    status, n, replay := 1, 0, NotReplayed;
    assert ras.pages[..0] == [];
    var ok, fronts, backs := OpenSpools(cfg, env.disk);
    if ok {
      status, n, replay := PrintRaster(Job(cfg, ras, stdout, fronts, backs, env), ras.pages);
    }
  }

  /** The filter's run with its spools at hand. */
  method PrintRaster(job: Job, ghost all: seq<RasterPage>) returns (status: int, ghost n: nat, ghost replay: Replay)
    requires AllFromLibrary(all) && job.ras.pages == all && job.ras.lines == []
    requires job.Valid() && job.stdout.data == [] && job.fronts.Pages() == [] && job.backs.Pages() == []
    modifies job.ras, job.stdout,
      job.fronts, job.fronts.slots, job.fronts.file, job.backs, job.backs.slots, job.backs.file
    ensures n <= |all| && AllPrintable(all[..n], job.cfg) && BegunInTime(job.env.signal, n)
    ensures job.Sound() ==>
      || WholeDocument(job.stdout.data, all[..n], job.cfg, replay)
      || (job.stdout.data == [] && status == 1 && !job.ras.intact)
    ensures status == 0 && !job.Cancelled(BeforeReplay(n)) ==>
      && WholeDocument(job.stdout.data, all[..n], job.cfg, replay)
      && n > 0 && (job.cfg.opt.manualDuplex ==> replay.Whole?) && (job.ras.intact ==> n == |all|)
    ensures !job.Cancelled(BeforeReplay(n)) && job.Undisturbed() ==>
      (status == 0 <==> all != [] && AllPrintable(all, job.cfg) && BlankReady(all, job.cfg))
    ensures job.Cancelled(BeforeReplay(n)) || !job.cfg.opt.manualDuplex ==> replay.NotReplayed?
  {
    status, n, replay := 1, 0, NotReplayed;
    assert all[..0] == [] && all[0..] == all;
    var ok := job.ras.Try();
    if ok {
      ok := Prologue(job.stdout);
      if ok {
        status, n, replay := PrintDocument(job, all, job.stdout.data);
      }
    }
  }

  /** From the first page to the closing escape. */
  method PrintDocument(job: Job, ghost all: seq<RasterPage>, ghost start: seq<byte>)
      returns (status: int, ghost n: nat, ghost replay: Replay)
    requires AllFromLibrary(all) && job.Between(all, 0, start)
    requires start == UEL + MAGIC + ChunksBytes(Opening())
    modifies job.ras, job.stdout,
      job.fronts, job.fronts.slots, job.fronts.file, job.backs, job.backs.slots, job.backs.file
    ensures n <= |all| && AllPrintable(all[..n], job.cfg) && BegunInTime(job.env.signal, n)
    ensures job.Sound() || (status == 0 && !job.Cancelled(BeforeReplay(n))) ==>
      WholeDocument(job.stdout.data, all[..n], job.cfg, replay)
    ensures status == 0 && !job.Cancelled(BeforeReplay(n)) ==>
      n > 0 && (job.cfg.opt.manualDuplex ==> replay.Whole?) && (job.ras.intact ==> n == |all|)
    ensures !job.Cancelled(BeforeReplay(n)) && job.Undisturbed() ==>
      (status == 0 <==> all != [] && AllPrintable(all, job.cfg) && BlankReady(all, job.cfg))
    ensures job.Cancelled(BeforeReplay(n)) || !job.cfg.opt.manualDuplex ==> replay.NotReplayed?
  {
    var page, last;
    status, page, last, n := ReadPages(job, all, start);
    status, replay := FinishPages(job, status, page, last, all, n, start);
    DocumentSent(all[..n], job.cfg, replay);
    var ok := Trailer(job.stdout);
    if !ok {
      status := 1;
    }
  }

  lemma ReadyToReplay(job: Job, all: seq<RasterPage>, start: seq<byte>, n: nat, last: PageHeader)
    requires 0 < n <= |all| && job.Between(all, n, start) && LastOf(all, n, last)
    ensures var done := all[..n];
      && done != [] && done[|done| - 1].hdr == last && last.Accepted()
      && job.Valid() && Spooled(job.cfg, done, job.fronts.Pages(), job.backs.Pages())
  {
  }

  /** Behind the last page: complain of an empty job, or replay a spooled one. */
  method FinishPages(job: Job, before: int, page: nat, last: PageHeader, ghost all: seq<RasterPage>,
                     ghost n: nat, ghost start: seq<byte>)
      returns (status: int, ghost replay: Replay)
    requires Settled(job, all, start, n, page, before) && LastOf(all, n, last)
    modifies job.stdout
    ensures job.Sound() || (status == 0 && !job.Cancelled(BeforeReplay(n))) ==>
      Delivered(job.stdout.data, start, all[..n], job.cfg, replay)
    ensures status == 0 && !job.Cancelled(BeforeReplay(n)) ==>
      n > 0 && (job.cfg.opt.manualDuplex ==> replay.Whole?) && (job.ras.intact ==> n == |all|)
    ensures !job.Cancelled(BeforeReplay(n)) && job.Undisturbed() ==>
      (status == 0 <==> all != [] && AllPrintable(all, job.cfg) && BlankReady(all, job.cfg))
    ensures job.Cancelled(BeforeReplay(n)) || !job.cfg.opt.manualDuplex ==> replay.NotReplayed?
  {
    status, replay := before, NotReplayed;
    if job.Sound() {
      ShownIsBody(job.cfg, all[..n], start, job.stdout.data);
    }
    if status != 0 {
      if n < |all| && AllPrintable(all, job.cfg) {
        PrintableAt(all, job.cfg, n);
      }
    } else if !job.Cancelled(AfterPages(page)) {
      assert n == |all| ==> all[..n] == all;
      status, replay := FinishReading(job, page, last, all, n, start);
    }
  }

  /** The raster has ended without error and nobody had cancelled by then. */
  method FinishReading(job: Job, page: nat, last: PageHeader, ghost all: seq<RasterPage>,
                       ghost n: nat, ghost start: seq<byte>)
      returns (status: int, ghost replay: Replay)
    requires page == n && job.Between(all, n, start) && LastOf(all, n, last)
    requires job.ras.intact ==> n == |all|
    modifies job.stdout
    ensures job.Sound() || status == 0 ==> Delivered(job.stdout.data, start, all[..n], job.cfg, replay)
    ensures status == 0 && !job.Cancelled(BeforeReplay(n)) ==>
      n > 0 && (job.cfg.opt.manualDuplex ==> replay.Whole?)
    ensures !job.Cancelled(BeforeReplay(n)) && job.Undisturbed() ==>
      (status == 0 <==> n > 0 && BlankReady(all[..n], job.cfg))
    ensures job.Cancelled(BeforeReplay(n)) || !job.cfg.opt.manualDuplex ==> replay.NotReplayed?
  {
    status, replay := 0, NotReplayed;
    ShownIsBody(job.cfg, all[..n], start, job.stdout.data);
    if page == 0 {
      status := 1;
    } else if !job.Cancelled(BeforeReplay(page)) && job.cfg.opt.manualDuplex {
      ReadyToReplay(job, all, start, n, last);
      status, replay := ReplaySpools(job, last, all[..n]);
    }
  }
}
