/** Which blocks a stream brings, frame by frame, and that the page the reader gets is made of
    exactly those. */
module ScanStream {
  import opened Bytes
  import opened ScanRows
  import opened ScanPage
  import opened Wire
  import opened ScanSpec

  /** What one frame brings to a page: the block of a data frame that is accepted, or the end
      of the page. */
  function FrameBlocks(job: Job, input: seq<byte>): (blocks: seq<Block>) {
    var f := RecvSpec(input);
    if f.st != Good then []
    else if f.value.cmd == EVT_DATA then DataBlocks(job, f.rest, f.value.plen)
    else if f.value.cmd == EVT_JOB_END || (f.value.cmd == EVT_PAGE_END && job.feeder) then [PageEnd(job)]
    else []
  }

  function DataBlocks(job: Job, input: seq<byte>, plen: nat): seq<Block> {
    var h := ReadSpec(input, DATA_HEADER_LEN);
    if plen < DATA_HEADER_LEN || h.st != Good then []
    else BodyBlocks(job, h.rest, GetBlockHead(h.value), plen - DATA_HEADER_LEN)
  }

  function BodyBlocks(job: Job, input: seq<byte>, head: BlockHead, body: nat): seq<Block> {
    var raw := ReadSpec(input, body);
    if head.kind == DATA_JPEG || head.Malformed(body) || head.planes != job.Planes() || raw.st != Good then []
    else [BlockOf(head, raw.value)]
  }

  /** What the frames bring that are still to be read for the page. */
  function StreamBlocks(s: Scan): seq<Block>
    requires s.job.Valid()
    decreases |s.input|
  {
    if s.eof || !s.scanning then []
    else
      var p := NextFrame(s.(pending := []));
      if p.st != Good then [] else FrameBlocks(s.job, s.input) + StreamBlocks(p.s)
  }

  /** t's page is s's with the blocks added. */
  ghost predicate Adds(s: Scan, blocks: seq<Block>, t: Scan)
    requires s.job.Valid()
  {
    && |blocks| <= 1 && AllUsable(s.job, blocks) && t.job == s.job
    && t.page == if blocks == [] then s.page else Extend(s.job, s.page, blocks[0])
  }

  lemma BodyAdds(s: Scan, input: seq<byte>, head: BlockHead, body: nat)
    requires s.job.Valid()
    ensures Adds(s, BodyBlocks(s.job, input, head, body), BodySpec(s.(input := input), head, body).s)
  {
    var raw := ReadSpec(input, body);
    if !head.Malformed(body) && head.planes == s.job.Planes() && raw.st == Good {
      BlockUsable(s.job, BlockOf(head, raw.value), head, raw.value);
    }
  }

  lemma DataAdds(s: Scan, plen: nat)
    requires s.job.Valid()
    ensures Adds(s, DataBlocks(s.job, s.input, plen), DataSpec(s, plen).s)
  {
    var h := ReadSpec(s.input, DATA_HEADER_LEN);
    if plen >= DATA_HEADER_LEN && h.st == Good {
      HeadRead(s, plen, h.value, h.rest);
      BodyAdds(s, h.rest, GetBlockHead(h.value), plen - DATA_HEADER_LEN);
    }
  }

  lemma FrameAdds(s: Scan, report: bool)
    requires s.job.Valid()
    ensures Adds(s, FrameBlocks(s.job, s.input), PumpSpec(s, report).s)
  {
    var f := RecvSpec(s.input);
    if f.st == Good && f.value.cmd == EVT_DATA {
      DataAdds(s.(input := f.rest), f.value.plen);
    }
  }

  lemma PageAdded(job: Job, blocks: seq<Block>, more: seq<Block>)
    requires job.Valid() && AllUsable(job, blocks) && AllUsable(job, more) && |more| <= 1
    ensures AllUsable(job, blocks + more)
    ensures PageOf(job, blocks + more)
      == if more == [] then PageOf(job, blocks) else Extend(job, PageOf(job, blocks), more[0])
  {
    if more == [] {
      assert blocks + more == blocks;
    } else {
      assert (blocks + more)[..|blocks|] == blocks;
    }
  }

  /** The next frame of the page, if there is one: the page grows by what it brings. */
  lemma StreamStep(s: Scan) returns (more: seq<Block>, t: Scan, over: bool)
    requires s.job.Valid()
    ensures over ==> StreamBlocks(s) == [] && FinalPage(s) == s.page
    ensures !over ==>
      && Adds(s, more, t) && |t.input| < |s.input|
      && StreamBlocks(s) == more + StreamBlocks(t) && FinalPage(s) == FinalPage(t)
  {
    var dry := s.(pending := []);
    more, t := FrameBlocks(s.job, s.input), NextFrame(dry).s;
    over := s.eof || !s.scanning || NextFrame(dry).st != Good;
    if !over {
      FrameAdds(dry, false);
    }
  }

  /** The page as it stands when the reader is done is made of the blocks it had and the
      blocks the rest of the stream brings, in order, and of nothing else. */
  lemma {:induction false} FinalPageOfStream(s: Scan, blocks: seq<Block>)
    requires s.job.Valid() && AllUsable(s.job, blocks) && s.page == PageOf(s.job, blocks)
    ensures AllUsable(s.job, blocks + StreamBlocks(s))
    ensures FinalPage(s) == PageOf(s.job, blocks + StreamBlocks(s))
    decreases |s.input|
  {
    var more, t, over := StreamStep(s);
    if over {
      InTurn(blocks, [], []);
    } else {
      PageAdded(s.job, blocks, more);
      FinalPageOfStream(t, blocks + more);
      InTurn(blocks, more, StreamBlocks(t));
    }
  }

  /** So every row the reader gets is the conversion of the first block of the stream that
      reaches it, or white where that block starts below it. */
  lemma DeliveredRows(s: Scan)
    requires s.job.Valid() && s.page == []
    ensures var all := StreamBlocks(s);
      && AllUsable(s.job, all) && |FinalPage(s)| == Min(s.job.lines, Deepest(all))
      && forall r :: 0 <= r < |FinalPage(s)| ==>
           FinalPage(s)[r] == RowFrom(s.job, all[FirstReaching(all, r)], r)
  {
    FinalPageOfStream(s, []);
    assert [] + StreamBlocks(s) == StreamBlocks(s);
    PageRows(s.job, StreamBlocks(s));
  }
}
