/** What the scanner's byte stream means, apart from how it is split into transfers and how
    the frontend asks for it: a pure account of one scan, frame by frame, and of everything
    the frontend will get out of it. */
module ScanSpec {
  import opened Bytes
  import opened ScanRows
  import opened ScanPage
  import opened Wire

  const DATA_HEADER_LEN := 24
  const DATA_JPEG := 0x0f

  /** The parts of a handle that the stream drives. */
  datatype Scan = Scan(
    input: seq<byte>, job: Job, page: seq<seq<byte>>, pending: seq<byte>,
    eof: bool, scanning: bool, locked: bool, feeding: bool)

  ghost predicate Sound(s: Scan) {
    && s.job.Valid() && |s.page| <= s.job.lines
    && forall r :: 0 <= r < |s.page| ==> |s.page[r]| == s.job.BytesPerLine()
  }

  /** One data block's sub-header. */
  datatype BlockHead = BlockHead(kind: word, first: word, rows: word, planes: word, pixels: word) {
    /** The bytes of each row, which only the size of the body tells. */
    function Stride(body: nat): nat requires rows != 0 { body / rows }

    predicate Malformed(body: nat) {
      rows == 0 || planes == 0 || Stride(body) < planes
    }

    /** The useful pixels of each row. */
    function Avail(body: nat): nat
      requires !Malformed(body)
    {
      if pixels < Stride(body) / planes then pixels else Stride(body) / planes
    }
  }

  function GetBlockHead(b: seq<byte>): BlockHead
    requires |b| == DATA_HEADER_LEN
  {
    var w := Words(b);
    BlockHead(w[0], w[1], w[2], w[3], w[4])
  }

  lemma RowInBody(body: nat, rows: nat, i: nat)
    requires i < rows
    ensures 0 <= i * (body / rows) <= (i + 1) * (body / rows) <= body
    ensures (i + 1) * (body / rows) - i * (body / rows) == body / rows
  {
  }

  /** Row i of a body. */
  function BodyRow(raw: seq<byte>, rows: nat, i: nat): (row: seq<byte>)
    requires i < rows
    ensures |row| == |raw| / rows
  {
    RowInBody(|raw|, rows, i);
    raw[i * (|raw| / rows)..(i + 1) * (|raw| / rows)]
  }

  /** b is the block that a sub-header and a body make. */
  ghost predicate Matches(b: Block, head: BlockHead, raw: seq<byte>) {
    && !head.Malformed(|raw|)
    && b.first == head.first && b.avail == head.Avail(|raw|) && |b.rows| == head.rows
    && forall i :: 0 <= i < head.rows ==> b.rows[i] == BodyRow(raw, head.rows, i)
  }

  function BlockOf(head: BlockHead, raw: seq<byte>): (b: Block)
    requires !head.Malformed(|raw|)
    ensures Matches(b, head, raw)
  {
    Block(head.first, head.Avail(|raw|),
          seq(head.rows, i requires 0 <= i < head.rows => BodyRow(raw, head.rows, i)))
  }

  lemma BlockUsable(job: Job, b: Block, head: BlockHead, raw: seq<byte>)
    requires Matches(b, head, raw) && head.planes == job.Planes()
    ensures Usable(job, b)
  {
  }

  /** b is the block that these bytes make, a sub-header and a body behind it. */
  ghost predicate Carries(job: Job, b: Block, bytes: seq<byte>) {
    && |bytes| >= DATA_HEADER_LEN
    && var head := GetBlockHead(bytes[..DATA_HEADER_LEN]);
       && head.kind != DATA_JPEG && head.planes == job.Planes()
       && Matches(b, head, bytes[DATA_HEADER_LEN..])
  }

  /** b has been read, as so many bytes, from a piece of what the device sent: bytes may have
      been lost, but none is invented and none changes places. */
  ghost predicate ReadFrom(job: Job, b: Block, size: nat, piece: seq<byte>) {
    exists bytes: seq<byte> :: Sub(bytes, piece) && |bytes| == size && Carries(job, b, bytes)
  }

  /** A frame that ends the page has been read from that piece. */
  ghost predicate Ended(job: Job, piece: seq<byte>) {
    exists f: Frame :: CameFrom(f, piece) && EndsPage(job, f)
  }

  predicate EndsPage(job: Job, f: Frame) {
    f.cmd == EVT_JOB_END || (f.cmd == EVT_PAGE_END && job.feeder)
  }

  /** A block of a page: read from that piece of what the device sent, or the end of the page
      if that was read from it. */
  ghost predicate FromDevice(job: Job, b: Block, piece: seq<byte>) {
    (b == PageEnd(job) && Ended(job, piece)) || exists size: nat :: ReadFrom(job, b, size, piece)
  }

  /** The blocks have been read one behind the other from the stretch from `lo` to `hi` of
      what the device sends. */
  ghost predicate AllFromDevice(job: Job, blocks: seq<Block>, stream: seq<byte>, lo: nat, hi: nat)
    decreases |blocks|, 2
  {
    lo <= hi <= |stream| && (blocks == [] || LastFromDevice(job, blocks, stream, lo, hi))
  }

  ghost predicate LastFromDevice(job: Job, blocks: seq<Block>, stream: seq<byte>, lo: nat, hi: nat)
    requires blocks != [] && hi <= |stream|
    decreases |blocks|, 1
  {
    exists mid: nat :: lo <= mid <= hi && LastBehind(job, blocks, stream, lo, mid, hi)
  }

  /** The last block has been read behind `mid` and the others before it. */
  ghost predicate LastBehind(job: Job, blocks: seq<Block>, stream: seq<byte>, lo: nat, mid: nat, hi: nat)
    requires blocks != [] && mid <= hi <= |stream|
    decreases |blocks|, 0
  {
    && AllFromDevice(job, blocks[..|blocks| - 1], stream, lo, mid)
    && FromDevice(job, blocks[|blocks| - 1], stream[mid..hi])
  }

  lemma FromWider(job: Job, b: Block, stream: seq<byte>, lo: nat, hi: nat, lo': nat, hi': nat)
    requires lo' <= lo <= hi <= hi' <= |stream| && FromDevice(job, b, stream[lo..hi])
    ensures FromDevice(job, b, stream[lo'..hi'])
  {
    if b == PageEnd(job) && Ended(job, stream[lo..hi]) {
      var f: Frame :| CameFrom(f, stream[lo..hi]) && EndsPage(job, f);
      CameFromWider(f, stream, lo, hi, lo', hi');
    } else {
      var size: nat :| ReadFrom(job, b, size, stream[lo..hi]);
      var bytes: seq<byte> :| Sub(bytes, stream[lo..hi]) && |bytes| == size && Carries(job, b, bytes);
      SubWider(bytes, stream, lo, hi, lo', hi');
      assert ReadFrom(job, b, size, stream[lo'..hi']);
    }
  }

  /** Blocks read from a stretch have been read from any longer one. */
  lemma AllFromWider(job: Job, blocks: seq<Block>, stream: seq<byte>, lo: nat, hi: nat, lo': nat, hi': nat)
    requires AllFromDevice(job, blocks, stream, lo, hi) && lo' <= lo && hi <= hi' <= |stream|
    ensures AllFromDevice(job, blocks, stream, lo', hi')
    decreases |blocks|
  {
    if blocks != [] {
      assert LastFromDevice(job, blocks, stream, lo, hi);
      var mid: nat :| lo <= mid <= hi && LastBehind(job, blocks, stream, lo, mid, hi);
      AllFromWider(job, blocks[..|blocks| - 1], stream, lo, mid, lo', mid);
      FromWider(job, blocks[|blocks| - 1], stream, mid, hi, mid, hi');
      assert LastBehind(job, blocks, stream, lo', mid, hi');
    }
  }

  /** One more block, read behind the others. */
  lemma NextFromDevice(job: Job, blocks: seq<Block>, b: Block, stream: seq<byte>, lo: nat, mid: nat, hi: nat)
    requires AllFromDevice(job, blocks, stream, lo, mid) && mid <= hi <= |stream|
    requires FromDevice(job, b, stream[mid..hi])
    ensures AllFromDevice(job, blocks + [b], stream, lo, hi)
  {
    assert (blocks + [b])[..|blocks|] == blocks;
    assert LastBehind(job, blocks + [b], stream, lo, mid, hi);
  }

  /** One block more, read as so many bytes from that piece of what the device sent. */
  ghost predicate OneRead(job: Job, before: seq<Block>, after: seq<Block>, size: nat, piece: seq<byte>) {
    && |after| == |before| + 1 && before <= after
    && ReadFrom(job, after[|before|], size, piece)
  }

  /** The page grows by the rows a block brings, and they are queued. */
  function Queued(s: Scan, b: Block): Scan
    requires s.job.Valid() && Usable(s.job, b)
  {
    var page := Extend(s.job, s.page, b);
    s.(page := page, pending := s.pending + Flatten(page[|s.page|..]))
  }

  function Drained(s: Scan, plen: nat): Scan {
    s.(input := DrainSpec(s.input, plen).rest)
  }

  function Unlocked(s: Scan): (t: Scan)
    ensures |t.input| <= |s.input| && t.job == s.job
  {
    s.(feeding := false, locked := false,
       input := if s.locked then FrameDrained(s.input) else s.input)
  }

  /** A status, the scan after it, and whether the device refused the job and why. */
  datatype Pumped = Pumped(st: Status, s: Scan, aborted: bool, abortStatus: word)

  /** One data block. */
  function DataSpec(s: Scan, plen: nat): (p: Pumped)
    requires s.job.Valid()
    ensures |p.s.input| <= |s.input| && p.s.job == s.job
  {
    if plen < DATA_HEADER_LEN then Pumped(IoError, Drained(s, plen), false, 0)
    else HeadSpec(s, ReadSpec(s.input, DATA_HEADER_LEN), plen - DATA_HEADER_LEN)
  }

  /** A data block whose sub-header has been read, or has not. */
  function HeadSpec(s: Scan, h: Got<seq<byte>>, body: nat): (p: Pumped)
    requires s.job.Valid() && (h.st == Good ==> |h.value| == DATA_HEADER_LEN)
    ensures |p.s.input| <= |h.rest| && p.s.job == s.job
  {
    var s1 := s.(input := h.rest);
    if h.st != Good then Pumped(IoError, s1, false, 0) else BodySpec(s1, GetBlockHead(h.value), body)
  }

  lemma HeadRead(s: Scan, plen: nat, head: seq<byte>, input: seq<byte>)
    requires s.job.Valid() && plen >= DATA_HEADER_LEN
    requires Got(Good, head, input) == ReadSpec(s.input, DATA_HEADER_LEN)
    ensures |head| == DATA_HEADER_LEN
    ensures DataSpec(s, plen) == BodySpec(s.(input := input), GetBlockHead(head), plen - DATA_HEADER_LEN)
  {
  }

  function BodySpec(s: Scan, head: BlockHead, body: nat): (p: Pumped)
    requires s.job.Valid()
    ensures |p.s.input| <= |s.input| && p.s.job == s.job
  {
    if head.kind == DATA_JPEG then Pumped(Unsupported, Drained(s, body), false, 0)
    else if head.Malformed(body) || head.planes != s.job.Planes() then
      Pumped(IoError, Drained(s, body), false, 0)
    else
      var raw := ReadSpec(s.input, body);
      var s1 := s.(input := raw.rest);
      if raw.st != Good then Pumped(IoError, s1, false, 0)
      else
        BlockUsable(s.job, BlockOf(head, raw.value), head, raw.value);
        Pumped(Good, Queued(s1, BlockOf(head, raw.value)), false, 0)
  }

  /** One frame.  `report` says whether the caller wants to be told of a refused job
      rather than have it fail. */
  function PumpSpec(s: Scan, report: bool): (p: Pumped)
    requires s.job.Valid()
  {
    var f := RecvSpec(s.input);
    var s1 := s.(input := f.rest);
    if f.st != Good then Pumped(f.st, s1, false, 0)
    else FrameSpec(s1, f.value, report)
  }

  function FrameSpec(s: Scan, f: Frame, report: bool): (p: Pumped)
    requires s.job.Valid()
    ensures |p.s.input| <= |s.input| && p.s.job == s.job
  {
    if f.cmd == EVT_DATA then DataSpec(s, f.plen)
    else
      var d := Drained(s, f.plen);
      if f.cmd == EVT_ABORTED then AbortedSpec(d, f.status, report)
      else if f.cmd == EVT_JOB_END then Pumped(Good, JobEnded(d), false, 0)
      else if f.cmd == EVT_PAGE_END then Pumped(Good, PageEnded(d), false, 0)
      else Pumped(DrainSpec(s.input, f.plen).st, d, false, 0)
  }

  function AbortedSpec(d: Scan, status: word, report: bool): (p: Pumped)
    ensures |p.s.input| <= |d.input| && p.s.job == d.job
  {
    var closed := Unlocked(d.(scanning := false));
    if report then Pumped(Good, closed, true, status)
    else Pumped(if status != 0 then MapStatus(status) else IoError, closed, false, 0)
  }

  function JobEnded(d: Scan): (t: Scan)
    requires d.job.Valid()
    ensures |t.input| <= |d.input| && t.job == d.job
  {
    Unlocked(Queued(d, PageEnd(d.job)).(eof := true, scanning := false))
  }

  function PageEnded(d: Scan): (t: Scan)
    requires d.job.Valid()
    ensures |t.input| <= |d.input| && t.job == d.job
  {
    if d.job.feeder then Queued(d, PageEnd(d.job)).(eof := true, feeding := true) else d
  }

  // ---------------------------------------------------------------- progress

  lemma PumpShrinks(s: Scan, report: bool)
    requires s.job.Valid()
    ensures PumpSpec(s, report).st == Good ==> |PumpSpec(s, report).s.input| < |s.input|
    ensures PumpSpec(s, report).s.job == s.job
  {
  }

  // ---------------------------------------------------- what the reader gets

  /** The bytes a reader will get before the first status that is not Good, and that
      status. */
  datatype Yield = Yield(bytes: seq<byte>, st: Status)

  function Outcome(s: Scan): Yield
    requires s.job.Valid()
    decreases |s.input|, 1
  {
    var later := Later(s.(pending := []));
    Yield(s.pending + later.bytes, later.st)
  }

  /** The outcome once the queue has run dry. */
  function Later(s: Scan): Yield
    requires s.job.Valid()
    decreases |s.input|, 0
  {
    if s.eof || !s.scanning then Yield([], Eof)
    else
      var p := NextFrame(s);
      if p.st != Good then Yield([], p.st) else Outcome(p.s)
  }

  /** The frame a reader handles when the queue is dry. */
  function NextFrame(s: Scan): (p: Pumped)
    requires s.job.Valid()
    ensures p.st == Good ==> |p.s.input| < |s.input|
    ensures p.s.job == s.job
  {
    PumpShrinks(s, false);
    PumpSpec(s, false)
  }

  /** The page as it stands when the reader is done. */
  function FinalPage(s: Scan): seq<seq<byte>>
    requires s.job.Valid()
    decreases |s.input|
  {
    if s.eof || !s.scanning then s.page
    else
      var p := NextFrame(s.(pending := []));
      if p.st != Good then s.page else FinalPage(p.s)
  }

  /** What accepting input may do to a scan: rows are added at the end of the page, exactly
      those are queued, and the page is closed only when it is complete. */
  ghost predicate Grown(s: Scan, t: Scan) {
    t.job == s.job && GrownFrom(s.job, s.page, s.pending, s.eof, t)
  }

  ghost predicate GrownFrom(job: Job, page: seq<seq<byte>>, pending: seq<byte>, eof: bool, t: Scan) {
    && Sound(t) && page <= t.page
    && t.pending == pending + Flatten(t.page[|page|..])
    && (|page| == job.lines ==> t.page == page)
    && ((eof ==> |page| == job.lines) && t.eof ==> |t.page| == job.lines)
  }

  lemma NothingGrown(s: Scan, t: Scan)
    requires t.job == s.job && t.page == s.page && t.pending == s.pending && t.eof == s.eof
    ensures Sound(s) ==> Grown(s, t)
  {
  }

  lemma QueuedGrows(s: Scan, b: Block, eof: bool)
    requires s.job.Valid() && Usable(s.job, b)
    requires eof ==> s.eof || b.first >= s.job.lines
    ensures Sound(s) ==> Grown(s, Queued(s, b).(eof := eof))
  {
    ExtendedRows(s.job, s.page, b);
  }

  ghost predicate Accepts(s: Scan, p: Pumped) {
    Grown(s, p.s) && !p.aborted && p.st != Eof && p.s.eof == s.eof && p.s.scanning == s.scanning
  }

  lemma BodyGrows(s: Scan, head: BlockHead, body: nat)
    requires Sound(s)
    ensures Accepts(s, BodySpec(s, head, body))
  {
    NothingGrown(s, Drained(s, body));
    if head.kind != DATA_JPEG && !head.Malformed(body) && head.planes == s.job.Planes() {
      var raw := ReadSpec(s.input, body);
      var s1 := s.(input := raw.rest);
      NothingGrown(s, s1);
      if raw.st == Good {
        var b := BlockOf(head, raw.value);
        BlockUsable(s.job, b, head, raw.value);
        QueuedGrows(s1, b, s.eof);
        assert BodySpec(s, head, body) == Pumped(Good, Queued(s1, b), false, 0);
      }
    }
  }

  lemma DataGrows(s: Scan, plen: nat)
    requires Sound(s)
    ensures Accepts(s, DataSpec(s, plen))
  {
    if plen < DATA_HEADER_LEN {
      DropGrows(s, plen, DataSpec(s, plen));
    } else {
      HeadGrows(s, ReadSpec(s.input, DATA_HEADER_LEN), plen - DATA_HEADER_LEN, DataSpec(s, plen));
    }
  }

  lemma DropGrows(s: Scan, plen: nat, p: Pumped)
    requires Sound(s) && p == Pumped(IoError, Drained(s, plen), false, 0)
    ensures Accepts(s, p)
  {
    NothingGrown(s, Drained(s, plen));
  }

  lemma HeadGrows(s: Scan, h: Got<seq<byte>>, body: nat, p: Pumped)
    requires Sound(s) && (h.st == Good ==> |h.value| == DATA_HEADER_LEN) && p == HeadSpec(s, h, body)
    ensures Accepts(s, p)
  {
    var s1 := s.(input := h.rest);
    if h.st != Good {
      NothingGrown(s, s1);
    } else {
      BodyGrows(s1, GetBlockHead(h.value), body);
      AcceptsWhateverInput(s, s1, p);
    }
  }

  lemma AcceptsWhateverInput(s: Scan, t: Scan, p: Pumped)
    requires t == s.(input := t.input) && Accepts(t, p)
    ensures Accepts(s, p)
  {
  }

  lemma FrameGrows(s: Scan, f: Frame, report: bool)
    requires Sound(s)
    ensures var p := FrameSpec(s, f, report);
      && Grown(s, p.s) && p.st != Eof && (p.aborted ==> report && p.st == Good)
      && (p.st == Good && !p.aborted && s.scanning ==> p.s.scanning || p.s.eof)
  {
    if f.cmd == EVT_DATA {
      DataGrows(s, f.plen);
    } else {
      EventGrows(s, f, report);
    }
  }

  lemma EventGrows(s: Scan, f: Frame, report: bool)
    requires Sound(s) && f.cmd != EVT_DATA
    ensures var p := FrameSpec(s, f, report);
      && Grown(s, p.s) && p.st != Eof && (p.aborted ==> report && p.st == Good)
      && (p.st == Good && !p.aborted && s.scanning ==> p.s.scanning || p.s.eof)
  {
    var d := Drained(s, f.plen);
    QueuedGrows(d, PageEnd(s.job), true);
    NothingGrown(s, d);
  }

  lemma PumpGrows(s: Scan, report: bool)
    requires Sound(s)
    ensures var p := PumpSpec(s, report);
      && Grown(s, p.s) && p.st != Eof && (p.aborted ==> report && p.st == Good)
      && (p.st == Good && !p.aborted && s.scanning ==> p.s.scanning || p.s.eof)
  {
    var f := RecvSpec(s.input);
    var s1 := s.(input := f.rest);
    NothingGrown(s, s1);
    FrameGrows(s1, f.value, report);
  }

  lemma NextFrameGrows(s: Scan)
    requires Sound(s) && s.pending == []
    ensures var p := NextFrame(s);
      && Sound(p.s) && s.page <= p.s.page && p.st != Eof
      && p.s.pending == Flatten(p.s.page[|s.page|..])
      && (!s.eof && p.s.eof ==> |p.s.page| == s.job.lines)
      && (p.st == Good && s.scanning ==> p.s.scanning || p.s.eof)
  {
    PumpGrows(s, false);
  }

  /** Reading y after `delivered` gives the rows of `final` in order, and all `lines` of
      them if y ends the page. */
  ghost predicate Completes(job: Job, delivered: seq<byte>, y: Yield, final: seq<seq<byte>>) {
    && delivered + y.bytes <= Flatten(final)
    && (y.st == Eof ==> |final| == job.lines && delivered + y.bytes == Flatten(final))
  }

  lemma FlattenGrown(page: seq<seq<byte>>, longer: seq<seq<byte>>)
    requires page <= longer
    ensures Flatten(longer) == Flatten(page) + Flatten(longer[|page|..])
  {
    assert longer == page + longer[|page|..];
    FlattenConcat(page, longer[|page|..]);
  }

  /** A page read to its end without an error is a whole page: what has been delivered and
      what will be is exactly its rows in order, and there are `lines` of them. */
  lemma {:induction false} ReadToEndIsWholePage(s: Scan, delivered: seq<byte>)
    requires Sound(s) && (s.scanning || s.eof) && (s.eof ==> |s.page| == s.job.lines)
    requires delivered + s.pending == Flatten(s.page)
    ensures s.page <= FinalPage(s)
    ensures Completes(s.job, delivered, Outcome(s), FinalPage(s))
    decreases |s.input|
  {
    if !s.eof {
      var dry := s.(pending := []);
      NextFrameGrows(dry);
      var p := NextFrame(dry);
      if p.st == Good {
        FlattenGrown(s.page, p.s.page);
        ReadToEndIsWholePage(p.s, delivered + s.pending);
        Prepended(s.job, delivered, s.pending, Outcome(p.s), FinalPage(p.s));
      }
    }
  }

  lemma Prepended(job: Job, delivered: seq<byte>, pending: seq<byte>, y: Yield, final: seq<seq<byte>>)
    requires Completes(job, delivered + pending, y, final)
    ensures Completes(job, delivered, Yield(pending + y.bytes, y.st), final)
  {
  }

  /** In bytes: a page read to its end is lines times bytes per line. */
  lemma WholePageSize(s: Scan, delivered: seq<byte>)
    requires Sound(s) && (s.scanning || s.eof) && (s.eof ==> |s.page| == s.job.lines)
    requires delivered + s.pending == Flatten(s.page)
    ensures Outcome(s).st == Eof ==>
      |delivered + Outcome(s).bytes| == s.job.lines * s.job.BytesPerLine()
  {
    ReadToEndIsWholePage(s, delivered);
    FinalPageSound(s);
    FlattenSize(FinalPage(s), s.job.BytesPerLine());
  }

  lemma {:induction false} FinalPageSound(s: Scan)
    requires Sound(s)
    ensures Sound(s.(page := FinalPage(s)))
    decreases |s.input|
  {
    if !s.eof && s.scanning {
      var dry := s.(pending := []);
      NextFrameGrows(dry);
      var p := NextFrame(dry);
      if p.st == Good {
        FinalPageSound(p.s);
      }
    }
  }

  // ------------------------------------------------------- reading in pieces

  lemma SameLater(s: Scan, t: Scan) returns (later: Yield)
    requires s.job.Valid() && t == s.(pending := t.pending)
    ensures Outcome(s) == Yield(s.pending + later.bytes, later.st)
    ensures Outcome(t) == Yield(t.pending + later.bytes, later.st)
  {
    later := Later(s.(pending := []));
    assert t.(pending := []) == s.(pending := []);
  }

  /** Taking bytes off the front of the queue takes them off the front of the outcome. */
  lemma OutcomeTaken(s: Scan, t: Scan, data: seq<byte>)
    requires s.job.Valid() && t == s.(pending := t.pending) && s.pending == data + t.pending
    ensures Outcome(s) == Yield(data + Outcome(t).bytes, Outcome(t).st)
  {
    var later := SameLater(s, t);
    Taken(Outcome(s), Outcome(t), s.pending, t.pending, data, later);
  }

  lemma Taken(all: Yield, left: Yield, queue: seq<byte>, rest: seq<byte>, data: seq<byte>, later: Yield)
    requires all == Yield(queue + later.bytes, later.st) && left == Yield(rest + later.bytes, later.st)
    requires queue == data + rest
    ensures all == Yield(data + left.bytes, left.st)
  {
  }

  /** Handling a frame while the queue is empty does not change the outcome. */
  lemma OutcomePumped(s: Scan)
    requires s.job.Valid() && s.pending == [] && !s.eof && s.scanning
    ensures var p := PumpSpec(s, false);
      && p.s.job.Valid()
      && Outcome(s) == if p.st == Good then Outcome(p.s) else Yield([], p.st)
  {
    assert s.(pending := []) == s;
    assert [] + Later(s).bytes == Later(s).bytes;
    assert NextFrame(s) == PumpSpec(s, false);
  }

  /** A feeder job that ends where a page would have begun is not seen as the end of the
      paper: the page is padded first, so the reader gets a whole white one. */
  lemma JobEndBetweenPagesIsWhite(s: Scan)
    requires s.job.Valid() && s.page == [] && s.pending == []
    ensures var t := JobEnded(s);
      && t.eof && !t.scanning && |t.page| == s.job.lines
      && (forall r :: 0 <= r < |t.page| ==> t.page[r] == s.job.White())
      && t.pending == Flatten(t.page) && t.pending != []
  {
    ExtendedRows(s.job, [], PageEnd(s.job));
  }

  /** One read call that took the scan from s to t: a Good one takes bytes off the front of
      the outcome (none at all if the device was idle); any other status is the outcome's
      own, and comes only once the bytes are all out. */
  ghost predicate ReadStep(s: Scan, data: seq<byte>, st: Status, t: Scan) {
    && s.job.Valid() && t.job.Valid()
    && if st == Good
       then Outcome(s) == Yield(data + Outcome(t).bytes, Outcome(t).st)
       else Outcome(s) == Yield([], st) && data == []
  }

  /** A read call, and the scan as it left it. */
  datatype Call = Call(data: seq<byte>, st: Status, after: Scan)

  /** Calls made one after another, stopping at the first status that is not Good. */
  ghost predicate Reads(s: Scan, calls: seq<Call>)
    decreases calls
  {
    calls != [] ==>
      var c := calls[0];
      && ReadStep(s, c.data, c.st, c.after)
      && if c.st == Good then Reads(c.after, calls[1..]) else |calls| == 1
  }

  function Delivered(calls: seq<Call>): seq<byte> {
    if calls == [] then [] else calls[0].data + Delivered(calls[1..])
  }

  /** However the reading is cut up, it delivers the outcome and nothing else. */
  lemma {:induction false} ReadsDeliverOutcome(s: Scan, calls: seq<Call>)
    requires s.job.Valid() && Reads(s, calls)
    ensures Delivered(calls) <= Outcome(s).bytes
    ensures calls != [] && calls[|calls| - 1].st != Good ==>
      Outcome(s) == Yield(Delivered(calls), calls[|calls| - 1].st)
    decreases calls
  {
    if calls != [] && calls[0].st == Good {
      ReadsDeliverOutcome(calls[0].after, calls[1..]);
    }
  }

  /** Blocking or not, however transfers were split, whatever lengths were asked for and
      however often the device was found idle: the same bytes and the same final status. */
  lemma ReadingModesAgree(s: Scan, a: seq<Call>, b: seq<Call>)
    requires s.job.Valid() && Reads(s, a) && Reads(s, b) && a != [] && b != []
    requires a[|a| - 1].st != Good && b[|b| - 1].st != Good
    ensures Delivered(a) == Delivered(b) && a[|a| - 1].st == b[|b| - 1].st
  {
    ReadsDeliverOutcome(s, a);
    ReadsDeliverOutcome(s, b);
  }

  // -------------------------------------------------------- frame boundaries

  lemma UnlockStaysFramed(s: Scan)
    requires Framed(s.input)
    ensures Unlocked(s).input == if s.locked then Skip(s.input, 1) else s.input
  {
    DrainedStaysFramed(s.input);
  }

  lemma BodyStaysFramed(s: Scan, head: BlockHead, body: nat)
    requires s.job.Valid() && body <= |s.input|
    ensures BodySpec(s, head, body).s.input == s.input[body..]
  {
    ReadIs(s.input, body);
  }

  /** On every branch a data block uses up its payload, no more and no less. */
  lemma DataStaysFramed(s: Scan, plen: nat)
    requires s.job.Valid() && plen <= |s.input|
    ensures DataSpec(s, plen).s.input == s.input[plen..]
  {
    ReadIs(s.input, plen);
    if plen >= DATA_HEADER_LEN {
      ReadIs(s.input, DATA_HEADER_LEN);
      var h := ReadSpec(s.input, DATA_HEADER_LEN);
      var s1 := s.(input := h.rest);
      BodyStaysFramed(s1, GetBlockHead(h.value), plen - DATA_HEADER_LEN);
      assert DataSpec(s, plen) == BodySpec(s1, GetBlockHead(h.value), plen - DATA_HEADER_LEN);
      assert h.rest[plen - DATA_HEADER_LEN..] == s.input[plen..];
    }
  }

  /** Frames that end the job, and so make the host unlock and read the reply to that. */
  predicate EndsJob(f: Frame) { f.cmd == EVT_ABORTED || f.cmd == EVT_JOB_END }

  lemma FrameStaysFramed(s: Scan, f: Frame, report: bool, rest: seq<byte>)
    requires s.job.Valid() && f.plen <= |s.input| && rest == s.input[f.plen..] && Framed(rest)
    ensures FrameSpec(s, f, report).s.input == if EndsJob(f) && s.locked then Skip(rest, 1) else rest
  {
    var d := Drained(s, f.plen);
    ReadIs(s.input, f.plen);
    assert d.input == rest;
    if f.cmd == EVT_DATA {
      DataStaysFramed(s, f.plen);
    } else if f.cmd == EVT_ABORTED {
      UnlockStaysFramed(d.(scanning := false));
    } else if f.cmd == EVT_JOB_END {
      UnlockStaysFramed(Queued(d, PageEnd(s.job)).(eof := true, scanning := false));
    }
  }

  /** A pump takes one whole frame, and one more where it ends the job and so answers for
      the unlock.  Whatever the frame holds, the next read starts on a frame boundary. */
  lemma PumpStaysFramed(s: Scan, report: bool)
    requires s.job.Valid() && Framed(s.input)
    ensures PumpSpec(s, report).s.input
      == if s.input != [] && EndsJob(FirstFrame(s.input)) && s.locked
         then Skip(AfterFrame(s.input), 1) else Skip(s.input, 1)
    ensures Framed(PumpSpec(s, report).s.input)
  {
    RecvDrainSkips(s.input);
    SkipFramed(s.input, 1);
    if s.input != [] {
      var f := FirstFrame(s.input);
      assert s.input[HEADER_LEN..][f.plen..] == AfterFrame(s.input);
      FrameStaysFramed(s.(input := s.input[HEADER_LEN..]), f, report, AfterFrame(s.input));
      SkipFramed(AfterFrame(s.input), 1);
    }
  }
}
