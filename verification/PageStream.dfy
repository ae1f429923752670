/** One finished page bitmap on its way into the stream: compressed into a growing buffer,
    then written as START_PAGE, the JBIG entity cut into blocks, and END_PAGE. */
module PageStream {
  import opened Buffers
  import opened Bytes
  import opened PageModel
  import opened PageRender
  import opened ZjStream

  // --------------------------------------------------------- growable buffer

  class Buffer {
    var data: array<byte>
    var len: nat
    var failed: bool

    ghost predicate Valid()
      reads this
    {
      len <= data.Length
    }

    ghost function Contents(): seq<byte>
      reads this, data
      requires Valid()
    {
      data[..len]
    }

    constructor ()
      ensures Valid() && fresh(data) && Contents() == [] && !failed
    {
      data, len, failed := new byte[0], 0, false;
    }

    /** Append bytes, doubling the capacity until they fit.  A grow that fails poisons the
        buffer: nothing is appended to it any more. */
    method Append(src: seq<byte>, heap: Heap)
      requires Valid()
      modifies this, data
      ensures Valid() && (data == old(data) || fresh(data))
      ensures (old(failed) ==> failed) && (heap.ample ==> failed == old(failed))
      ensures Contents() == if failed then old(Contents()) else old(Contents()) + src
    {
      if failed {
        return;
      }
      if len + |src| > data.Length {
        Grow(len + |src|, heap);
        if failed {
          return;
        }
      }
      CopyIn(src);
      len := len + |src|;
    }

    /** A larger block with the same contents, or no more memory. */
    method Grow(need: nat, heap: Heap)
      requires Valid() && need > data.Length && !failed
      modifies this
      ensures Valid() && len == old(len) && Contents() == old(Contents())
      ensures data == old(data) || fresh(data)
      ensures (heap.ample ==> !failed) && (!failed ==> data.Length >= need)
    {
      var cap := if data.Length != 0 then data.Length else 65536;
      while cap < need
        invariant cap > 0
        decreases need - cap
      {
        cap := cap * 2;
      }
      var granted := heap.Grant();
      if !granted {
        failed := true;
        return;
      }
      var bigger := new byte[cap];
      var i := 0;
      while i < len
        invariant 0 <= i <= len && len <= data.Length <= cap && unchanged(this)
        invariant forall k :: 0 <= k < i ==> bigger[k] == data[k]
        modifies bigger
      {
        bigger[i] := data[i];
        i := i + 1;
      }
      assert bigger[..len] == data[..len];
      data := bigger;
    }

    method CopyIn(src: seq<byte>)
      requires Valid() && len + |src| <= data.Length
      modifies data
      ensures data[..len + |src|] == old(data[..len]) + src
    {
      var i := 0;
      while i < |src|
        invariant 0 <= i <= |src|
        invariant data[..len] == old(data[..len])
        invariant forall k :: 0 <= k < i ==> data[len + k] == src[k]
      {
        data[len + i] := src[i];
        i := i + 1;
      }
      assert data[len..len + |src|] == src;
    }
  }

  // ------------------------------------------------------------- compression

  /** A JBIG encoder: what it makes of a packed bitmap, its width in bits, and its height. */
  type Coder = (seq<byte>, nat, nat) -> seq<byte>

  const BIH_LEN := 20
  const BID_MAX := 0x1_0000

  /** Collect the pieces the encoder hands out, however it cuts them. */
  method Compress(bie: Buffer, coder: Coder, bitmap: seq<byte>, width: nat, height: nat, heap: Heap)
      returns (ok: bool)
    requires bie.Valid() && bie.Contents() == [] && !bie.failed
    modifies bie, bie.data
    ensures bie.Valid()
    ensures ok ==> bie.Contents() == coder(bitmap, width, height) && bie.len >= BIH_LEN
    ensures heap.ample ==> ok == (|coder(bitmap, width, height)| >= BIH_LEN)
  {
    var rest := coder(bitmap, width, height);
    ghost var all := rest;
    while rest != []
      invariant bie.Valid() && (bie.data == old(bie.data) || fresh(bie.data))
      invariant heap.ample ==> !bie.failed
      invariant !bie.failed ==> bie.Contents() + rest == all
      decreases |rest|
    {
      var n :| 0 < n <= |rest|;
      Regrouped(bie.Contents(), rest, n);
      bie.Append(rest[..n], heap);
      rest := rest[n..];
    }
    ok := !bie.failed && bie.len >= BIH_LEN;
    assert !bie.failed ==> bie.Contents() == all by {
      assert bie.Contents() + [] == bie.Contents();
    }
  }

  lemma Regrouped(have: seq<byte>, rest: seq<byte>, n: nat)
    requires n <= |rest|
    ensures have + rest[..n] + rest[n..] == have + rest
  {
  }

  // ------------------------------------------------------------ page chunks

  /** The items of START_PAGE; a custom page carries its own size. */
  ghost function PageItems(hdr: PageHeader, lay: Layout, opt: JobOptions): (items: seq<Item>)
    requires lay.Valid()
    ensures |items| == if lay.dmpaper == 0 then 17 else 14
  {
    [Item(0x03, lay.dmpaper)] + (if lay.dmpaper == 0 then CustomItems(hdr) else [])
    + JobItems(hdr, opt) + SizeItems(lay, opt)
  }

  /** In dots of a 600th of an inch. */
  ghost function CustomItems(hdr: PageHeader): (items: seq<Item>)
    ensures |items| == 3
  {
    [Item(0x1a, 0), Item(0x18, hdr.pageW * 600 / 72 % 0x1_0000_0000),
     Item(0x19, hdr.pageH * 600 / 72 % 0x1_0000_0000)]
  }

  ghost function JobItems(hdr: PageHeader, opt: JobOptions): (items: seq<Item>)
    ensures |items| == 7
  {
    var media := if hdr.mediaType != 0 then hdr.mediaType else 1;
    var tray := if media != 1 then 1 else opt.tray;
    [Item(0x04, if hdr.numCopies != 0 then hdr.numCopies else 1), Item(0x05, tray), Item(0x06, media),
     Item(0x07, 1), Item(0x08, hdr.resX), Item(0x09, hdr.resY), Item(0x16, 0)]
  }

  ghost function SizeItems(lay: Layout, opt: JobOptions): (items: seq<Item>)
    requires lay.Valid()
    ensures |items| == 6
  {
    [Item(0x0c, lay.videoX * lay.depth), Item(0x0d, lay.videoY), Item(0x10, lay.depth),
     Item(0x11, lay.videoX), Item(0x12, lay.videoY), Item(0xff00, opt.density)]
  }

  /** The items of START_PAGE, put down one behind the other. */
  method StartItems(hdr: PageHeader, lay: Layout, opt: JobOptions) returns (items: seq<Item>)
    requires lay.Valid()
    ensures items == PageItems(hdr, lay, opt)
  {
    var media := if hdr.mediaType != 0 then hdr.mediaType else 1;
    var tray := if media != 1 then 1 else opt.tray;
    items := [Item(0x03, lay.dmpaper)];
    if lay.dmpaper == 0 {
      var w, h := hdr.pageW * 600 / 72 % 0x1_0000_0000, hdr.pageH * 600 / 72 % 0x1_0000_0000;
      items := items + [Item(0x1a, 0), Item(0x18, w), Item(0x19, h)];
    }
    var copies := if hdr.numCopies != 0 then hdr.numCopies else 1;
    items := items + [Item(0x04, copies), Item(0x05, tray), Item(0x06, media), Item(0x07, 1),
                      Item(0x08, hdr.resX), Item(0x09, hdr.resY), Item(0x16, 0)];
    items := items + [Item(0x0c, lay.videoX * lay.depth), Item(0x0d, lay.videoY), Item(0x10, lay.depth),
                      Item(0x11, lay.videoX), Item(0x12, lay.videoY), Item(0xff00, opt.density)];
  }

  /** Data cut into blocks of at most BID_MAX bytes. */
  function Blocks(data: seq<byte>): seq<seq<byte>> {
    if data == [] then []
    else
      var n := Min(BID_MAX, |data|);
      [data[..n]] + Blocks(data[n..])
  }

  function RawChunks(kind: word, blocks: seq<seq<byte>>): (chunks: seq<Chunk>)
    ensures |chunks| == |blocks|
  {
    seq(|blocks|, k requires 0 <= k < |blocks| => Chunk(kind, [], blocks[k]))
  }

  ghost function PageChunks(hdr: PageHeader, lay: Layout, opt: JobOptions, bie: seq<byte>): seq<Chunk>
    requires lay.Valid() && |bie| >= BIH_LEN
  {
    [Chunk(START_PAGE, PageItems(hdr, lay, opt), []), Chunk(JBIG_BIH, [], bie[..BIH_LEN])]
    + (RawChunks(JBIG_BID, Blocks(bie[BIH_LEN..]))
    + [Chunk(END_JBIG, [], []), Chunk(END_PAGE, [], [])])
  }

  /** The blocks are never empty, never too long, and together they are the data. */
  lemma {:induction false} BlocksFaithful(data: seq<byte>)
    ensures Flatten(Blocks(data)) == data
    ensures forall k :: 0 <= k < |Blocks(data)| ==> 0 < |Blocks(data)[k]| <= BID_MAX
    ensures forall k :: 0 <= k < |Blocks(data)| - 1 ==> |Blocks(data)[k]| == BID_MAX
    decreases |data|
  {
    if data != [] {
      var n := Min(BID_MAX, |data|);
      BlocksFaithful(data[n..]);
      assert data[..n] + data[n..] == data;
    }
  }

  /** The payloads of the chunks of one kind, in order. */
  function Payload(chunks: seq<Chunk>, kind: word): seq<byte> {
    if chunks == [] then []
    else (if chunks[0].kind == kind then chunks[0].raw else []) + Payload(chunks[1..], kind)
  }

  lemma {:induction false} PayloadConcat(a: seq<Chunk>, b: seq<Chunk>, kind: word)
    ensures Payload(a + b, kind) == Payload(a, kind) + Payload(b, kind)
  {
    if a == [] {
      assert a + b == b;
    } else {
      assert (a + b)[1..] == a[1..] + b;
      PayloadConcat(a[1..], b, kind);
    }
  }

  lemma {:induction false} RawPayload(kind: word, blocks: seq<seq<byte>>)
    ensures Payload(RawChunks(kind, blocks), kind) == Flatten(blocks)
    ensures forall other: word :: other != kind ==> Payload(RawChunks(kind, blocks), other) == []
  {
    if blocks != [] {
      RawPayload(kind, blocks[1..]);
      assert RawChunks(kind, blocks)[1..] == RawChunks(kind, blocks[1..]);
    }
  }

  /** A page on the wire: every chunk fits its size field, the header chunk holds the first
      twenty bytes of the entity, and the data chunks, none empty and none over 64 KiB, hold
      all the rest in order. */
  lemma PageOnTheWire(hdr: PageHeader, lay: Layout, opt: JobOptions, bie: seq<byte>)
    requires lay.Valid() && |bie| >= BIH_LEN
    ensures var chunks := PageChunks(hdr, lay, opt, bie);
      && AllValid(chunks)
      && Payload(chunks, JBIG_BIH) + Payload(chunks, JBIG_BID) == bie
      && |Payload(chunks, JBIG_BIH)| == BIH_LEN
      && (forall k :: 0 <= k < |chunks| && chunks[k].kind == JBIG_BID ==> 0 < |chunks[k].raw| <= BID_MAX)
  {
    PartsOnTheWire(PageItems(hdr, lay, opt), bie);
  }

  /** The same of a page with any items, if there are not too many. */
  lemma PartsOnTheWire(items: seq<Item>, bie: seq<byte>)
    requires |items| <= 17 && |bie| >= BIH_LEN
    ensures var chunks := [Chunk(START_PAGE, items, []), Chunk(JBIG_BIH, [], bie[..BIH_LEN])]
        + (RawChunks(JBIG_BID, Blocks(bie[BIH_LEN..])) + [Chunk(END_JBIG, [], []), Chunk(END_PAGE, [], [])]);
      && AllValid(chunks)
      && Payload(chunks, JBIG_BIH) + Payload(chunks, JBIG_BID) == bie
      && |Payload(chunks, JBIG_BIH)| == BIH_LEN
      && (forall k :: 0 <= k < |chunks| && chunks[k].kind == JBIG_BID ==> 0 < |chunks[k].raw| <= BID_MAX)
  {
    var data := bie[BIH_LEN..];
    var front := [Chunk(START_PAGE, items, []), Chunk(JBIG_BIH, [], bie[..BIH_LEN])];
    var bids := RawChunks(JBIG_BID, Blocks(data));
    var back := [Chunk(END_JBIG, [], []), Chunk(END_PAGE, [], [])];
    BlocksFaithful(data);
    AllFitting(front, bids, back);
    PagePayload(front, data, back);
    assert bie[..BIH_LEN] + data == bie;
  }

  lemma AllFitting(front: seq<Chunk>, bids: seq<Chunk>, back: seq<Chunk>)
    requires AllValid(front) && AllValid(bids) && AllValid(back)
    requires forall k :: 0 <= k < |front| ==> front[k].kind != JBIG_BID
    requires forall k :: 0 <= k < |back| ==> back[k].kind != JBIG_BID
    requires forall k :: 0 <= k < |bids| ==> 0 < |bids[k].raw| <= BID_MAX
    ensures var chunks := front + (bids + back);
      && AllValid(chunks)
      && forall k :: 0 <= k < |chunks| && chunks[k].kind == JBIG_BID ==> 0 < |chunks[k].raw| <= BID_MAX
  {
  }

  lemma PagePayload(front: seq<Chunk>, data: seq<byte>, back: seq<Chunk>)
    requires |front| == 2 && front[0].kind == START_PAGE && front[1].kind == JBIG_BIH
    requires |back| == 2 && back[0].kind == END_JBIG && back[1].kind == END_PAGE
    ensures var chunks := front + (RawChunks(JBIG_BID, Blocks(data)) + back);
      Payload(chunks, JBIG_BIH) == front[1].raw && Payload(chunks, JBIG_BID) == data
  {
    var bids := RawChunks(JBIG_BID, Blocks(data));
    BlocksFaithful(data);
    RawPayload(JBIG_BID, Blocks(data));
    PayloadThree(front, bids, back, JBIG_BIH);
    PayloadThree(front, bids, back, JBIG_BID);
    FrontAndBack(front, back);
  }

  lemma PayloadThree(front: seq<Chunk>, bids: seq<Chunk>, back: seq<Chunk>, kind: word)
    ensures Payload(front + (bids + back), kind)
      == Payload(front, kind) + (Payload(bids, kind) + Payload(back, kind))
  {
    PayloadConcat(front, bids + back, kind);
    PayloadConcat(bids, back, kind);
  }

  lemma FrontAndBack(front: seq<Chunk>, back: seq<Chunk>)
    requires |front| == 2 && front[0].kind == START_PAGE && front[1].kind == JBIG_BIH
    requires |back| == 2 && back[0].kind == END_JBIG && back[1].kind == END_PAGE
    ensures Payload(front, JBIG_BIH) == front[1].raw && Payload(front, JBIG_BID) == []
    ensures Payload(back, JBIG_BIH) == [] && Payload(back, JBIG_BID) == []
  {
    assert Payload(front[1..][1..], JBIG_BIH) == [];
    assert Payload(back[1..][1..], JBIG_BIH) == [] && Payload(back[1..][1..], JBIG_BID) == [];
  }

  // ----------------------------------------------------------- page emission

  /** What the loop over the blocks has written, and what it still has to. */
  ghost predicate Written(start: seq<byte>, data: seq<byte>, done: seq<seq<byte>>, rest: seq<seq<byte>>,
                          goal: seq<seq<byte>>) {
    data == start + ChunksBytes(RawChunks(JBIG_BID, done)) && done + rest == goal
  }

  lemma NoneWritten(start: seq<byte>, goal: seq<seq<byte>>)
    ensures Written(start, start, [], goal, goal)
  {
  }

  lemma AllWritten(start: seq<byte>, data: seq<byte>, done: seq<seq<byte>>, goal: seq<seq<byte>>)
    requires Written(start, data, done, Blocks([]), goal)
    ensures data == start + ChunksBytes(RawChunks(JBIG_BID, goal))
  {
    assert done + [] == done;
  }

  /** Write the data chunks of an entity, block by block. */
  method WriteBlocks(fp: Sink, bie: Buffer) returns (ok: bool)
    requires bie.Valid() && bie.len >= BIH_LEN
    modifies fp
    ensures fp.sound ==> ok
    ensures ok ==>
      fp.data == old(fp.data) + ChunksBytes(RawChunks(JBIG_BID, Blocks(bie.Contents()[BIH_LEN..])))
  {
    ghost var all, start, done := bie.Contents(), fp.data, [];
    ghost var goal := Blocks(all[BIH_LEN..]);
    NoneWritten(start, goal);
    var off := BIH_LEN;
    ok := true;
    while off < bie.len && ok
      invariant BIH_LEN <= off <= bie.len == |all| && unchanged(bie) && bie.Valid() && bie.Contents() == all
      invariant (fp.sound ==> ok) && (ok ==> Written(start, fp.data, done, Blocks(all[off..]), goal))
      modifies fp
    {
      var n := Min(bie.len - off, BID_MAX);
      NextBlock(all, off, n, done);
      BlockSnoc(start, done, all[off..off + n]);
      ok := WriteBlock(fp, bie, off, n);
      done := done + [all[off..off + n]];
      off := off + n;
    }
    if ok {
      assert all[off..] == [];
      AllWritten(start, fp.data, done, goal);
    }
  }

  method WriteBlock(fp: Sink, bie: Buffer, off: nat, n: nat) returns (ok: bool)
    requires bie.Valid() && off + n <= bie.len
    modifies fp
    ensures fp.sound ==> ok
    ensures ok ==> fp.data == old(fp.data) + ChunkBytes(Chunk(JBIG_BID, [], bie.Contents()[off..off + n]))
  {
    assert bie.data[off..off + n] == bie.Contents()[off..off + n];
    ok := WriteChunk(fp, Chunk(JBIG_BID, [], bie.data[off..off + n]));
  }

  lemma NextBlock(all: seq<byte>, off: nat, n: nat, done: seq<seq<byte>>)
    requires off < |all| && n == Min(|all| - off, BID_MAX)
    ensures done + Blocks(all[off..]) == done + [all[off..off + n]] + Blocks(all[off + n..])
  {
    var rest := all[off..];
    assert rest[..n] == all[off..off + n] && rest[n..] == all[off + n..];
    assert Blocks(rest) == [rest[..n]] + Blocks(rest[n..]);
  }

  lemma BlockSnoc(start: seq<byte>, done: seq<seq<byte>>, block: seq<byte>)
    ensures start + ChunksBytes(RawChunks(JBIG_BID, done)) + ChunkBytes(Chunk(JBIG_BID, [], block))
      == start + ChunksBytes(RawChunks(JBIG_BID, done + [block]))
  {
    var c := Chunk(JBIG_BID, [], block);
    assert RawChunks(JBIG_BID, done + [block]) == RawChunks(JBIG_BID, done) + [c];
    ChunkSnoc(start, RawChunks(JBIG_BID, done), c);
  }

  lemma OneChunk(c: Chunk)
    ensures ChunksBytes([c]) == ChunkBytes(c)
  {
  }

  /** Writing one more chunk. */
  lemma ChunkSnoc(start: seq<byte>, done: seq<Chunk>, c: Chunk)
    ensures start + ChunksBytes(done) + ChunkBytes(c) == start + ChunksBytes(done + [c])
  {
    ChunksConcat(done, [c]);
    OneChunk(c);
    ThreeParts(start, ChunksBytes(done), ChunkBytes(c), []);
  }

  /** Writing more chunks. */
  lemma ChunksAppend(start: seq<byte>, done: seq<Chunk>, more: seq<Chunk>)
    ensures start + ChunksBytes(done) + ChunksBytes(more) == start + ChunksBytes(done + more)
  {
    ChunksConcat(done, more);
    ThreeParts(start, ChunksBytes(done), ChunksBytes(more), []);
  }

  /** Write one page. */
  method EmitPage(fp: Sink, hdr: PageHeader, lay: Layout, opt: JobOptions, bie: Buffer) returns (ok: bool)
    requires lay.Valid() && bie.Valid() && bie.len >= BIH_LEN
    modifies fp
    ensures fp.sound ==> ok
    ensures ok ==> fp.data == old(fp.data) + ChunksBytes(PageChunks(hdr, lay, opt, bie.Contents()))
  {
    ghost var all, start := bie.Contents(), fp.data;
    var items := StartItems(hdr, lay, opt);
    var c0, c1 := Chunk(START_PAGE, items, []), Chunk(JBIG_BIH, [], bie.data[..BIH_LEN]);
    assert c1.raw == all[..BIH_LEN];
    ok := WriteChunk(fp, c0);
    if ok { ok := WriteChunk(fp, c1); }
    if ok { ok := WriteBlocks(fp, bie); }
    var c2, c3 := Chunk(END_JBIG, [], []), Chunk(END_PAGE, [], []);
    if ok { ok := WriteChunk(fp, c2); }
    if ok { ok := WriteChunk(fp, c3); }
    PageLaidOut(start, c0, c1, RawChunks(JBIG_BID, Blocks(all[BIH_LEN..])), c2, c3);
  }

  lemma PageLaidOut(start: seq<byte>, c0: Chunk, c1: Chunk, mid: seq<Chunk>, c2: Chunk, c3: Chunk)
    ensures start + ChunkBytes(c0) + ChunkBytes(c1) + ChunksBytes(mid) + ChunkBytes(c2) + ChunkBytes(c3)
      == start + ChunksBytes([c0, c1] + (mid + [c2, c3]))
  {
    assert start + ChunksBytes([]) == start;
    ChunkSnoc(start, [], c0);
    ChunkSnoc(start, [c0], c1);
    assert [] + [c0] == [c0] && [c0] + [c1] == [c0, c1];
    ChunksAppend(start, [c0, c1], mid);
    ChunkSnoc(start, [c0, c1] + mid, c2);
    ChunkSnoc(start, [c0, c1] + mid + [c2], c3);
    assert [c0, c1] + mid + [c2] + [c3] == [c0, c1] + (mid + [c2, c3]);
  }

  /** Compress a page bitmap and write the page out.  A page whose compression fails leaves
      no trace in the stream. */
  method FinishPage(fp: Sink, hdr: PageHeader, lay: Layout, opt: JobOptions, coder: Coder,
                    bitmap: array<byte>, width: nat, height: nat, heap: Heap)
      returns (ok: bool)
    requires lay.Valid()
    modifies fp
    ensures !ok && fp.sound ==> fp.data == old(fp.data)
    ensures heap.ample && fp.sound ==> ok == (|coder(bitmap[..], width * lay.depth, height)| >= BIH_LEN)
    ensures ok ==>
      && |coder(bitmap[..], width * lay.depth, height)| >= BIH_LEN
      && fp.data == old(fp.data)
           + ChunksBytes(PageChunks(hdr, lay, opt, coder(bitmap[..], width * lay.depth, height)))
  {
    var bie := new Buffer();
    ok := Compress(bie, coder, bitmap[..], width * lay.depth, height, heap);
    if ok {
      ok := EmitPage(fp, hdr, lay, opt, bie);
    }
  }
}
