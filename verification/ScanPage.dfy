/** Reassembling a page.  Blocks may repeat, overlap, skip, or run past the page; the page
    only ever grows at its end, and each row comes from the first block that reaches it. */
module ScanPage {
  import opened Bytes
  import opened ScanRows

  /** A data block as accepted: the index of its first row, the useful pixels of each row,
      and the rows.  The end of a page acts as an empty block just below the last row. */
  datatype Block = Block(first: nat, avail: nat, rows: seq<seq<byte>>) {
    function End(): nat { first + |rows| }
  }

  ghost predicate Usable(job: Job, b: Block) {
    forall i :: 0 <= i < |b.rows| ==> Holds(job, b.rows[i], b.avail)
  }

  function PageEnd(job: Job): Block { Block(job.lines, 0, []) }

  /** Row r as block b gives it: white if the block starts below it. */
  function RowFrom(job: Job, b: Block, r: nat): (row: seq<byte>)
    requires job.Valid() && Usable(job, b) && r < b.End()
    ensures |row| == job.BytesPerLine()
  {
    if r < b.first then job.White() else ConvertRow(job, b.rows[r - b.first], b.avail, r)
  }

  function Reach(job: Job, have: nat, b: Block): nat { Max(have, Min(job.lines, b.End())) }

  /** The page after one more block. */
  function Extend(job: Job, page: seq<seq<byte>>, b: Block): (longer: seq<seq<byte>>)
    requires job.Valid() && Usable(job, b)
    ensures page <= longer && |longer| == Reach(job, |page|, b)
    decreases job.lines - |page|
  {
    if |page| >= Min(job.lines, b.End()) then page
    else Extend(job, page + [RowFrom(job, b, |page|)], b)
  }

  /** The rows it gains are the block's. */
  lemma {:induction false} ExtendedRows(job: Job, page: seq<seq<byte>>, b: Block)
    requires job.Valid() && Usable(job, b)
    ensures var longer := Extend(job, page, b);
      forall r :: |page| <= r < |longer| ==> longer[r] == RowFrom(job, b, r)
    decreases job.lines - |page|
  {
    if |page| < Min(job.lines, b.End()) {
      ExtendedRows(job, page + [RowFrom(job, b, |page|)], b);
    }
  }

  ghost predicate AllUsable(job: Job, blocks: seq<Block>) {
    forall i :: 0 <= i < |blocks| ==> Usable(job, blocks[i])
  }

  /** The page after a run of blocks. */
  function PageOf(job: Job, blocks: seq<Block>): seq<seq<byte>>
    requires job.Valid() && AllUsable(job, blocks)
  {
    if blocks == [] then []
    else
      var last := |blocks| - 1;
      Extend(job, PageOf(job, blocks[..last]), blocks[last])
  }

  /** How far down any of the blocks reaches. */
  function Deepest(blocks: seq<Block>): nat {
    if blocks == [] then 0
    else Max(Deepest(blocks[..|blocks| - 1]), blocks[|blocks| - 1].End())
  }

  /** The first block, in order of arrival, that reaches below row r. */
  function FirstReaching(blocks: seq<Block>, r: nat): (j: nat)
    requires r < Deepest(blocks)
    ensures j < |blocks| && r < blocks[j].End()
    ensures forall i :: 0 <= i < j ==> blocks[i].End() <= r
  {
    var last := |blocks| - 1;
    if r < Deepest(blocks[..last]) then FirstReaching(blocks[..last], r)
    else
      ReachingNone(blocks[..last], r);
      last
  }

  lemma {:induction false} ReachingNone(blocks: seq<Block>, r: nat)
    requires Deepest(blocks) <= r
    ensures forall i :: 0 <= i < |blocks| ==> blocks[i].End() <= r
  {
    if blocks != [] {
      ReachingNone(blocks[..|blocks| - 1], r);
    }
  }

  /** Every row of the page comes from the first block that reached it, whatever else was
      sent before or after, and the page is as long as the deepest block made it. */
  lemma {:induction false} PageRows(job: Job, blocks: seq<Block>)
    requires job.Valid() && AllUsable(job, blocks)
    ensures |PageOf(job, blocks)| == Min(job.lines, Deepest(blocks))
    ensures forall r :: 0 <= r < |PageOf(job, blocks)| ==>
      PageOf(job, blocks)[r] == RowFrom(job, blocks[FirstReaching(blocks, r)], r)
  {
    if blocks != [] {
      var last := |blocks| - 1;
      var before := PageOf(job, blocks[..last]);
      PageRows(job, blocks[..last]);
      ExtendedRows(job, before, blocks[last]);
      forall r | 0 <= r < |PageOf(job, blocks)|
        ensures PageOf(job, blocks)[r] == RowFrom(job, blocks[FirstReaching(blocks, r)], r)
      {
        if r < |before| {
          assert PageOf(job, blocks)[r] == before[r];
        }
      }
    }
  }

  lemma {:induction false} PageFits(job: Job, blocks: seq<Block>)
    requires job.Valid() && AllUsable(job, blocks)
    ensures |PageOf(job, blocks)| <= job.lines
  {
    if blocks != [] {
      PageFits(job, blocks[..|blocks| - 1]);
    }
  }

  /** A page closed at its end has all its rows. */
  lemma ClosedPageComplete(job: Job, blocks: seq<Block>)
    requires job.Valid() && AllUsable(job, blocks)
    ensures |PageOf(job, blocks + [PageEnd(job)])| == job.lines
  {
    assert AllUsable(job, blocks + [PageEnd(job)]);
    PageRows(job, blocks + [PageEnd(job)]);
    assert (blocks + [PageEnd(job)])[..|blocks|] == blocks;
  }

  /** Taking the rows of a block one at a time builds the same page. */
  lemma ExtendByRow(job: Job, page: seq<seq<byte>>, b: Block, i: nat, now: seq<seq<byte>>,
                    next: seq<seq<byte>>, row: seq<byte>)
    requires job.Valid() && Usable(job, b) && i < |b.rows|
    requires row == ConvertRow(job, b.rows[i], b.avail, b.first + i)
    requires now == Extend(job, page, FirstRows(b, i)) && next == Extend(job, page, FirstRows(b, i + 1))
    ensures Min(job.lines, b.first + i) <= |now| && now <= next
    ensures next == if |now| <= b.first + i < job.lines then now + [row] else now
  {
    ExtendedRows(job, page, FirstRows(b, i));
    ExtendedRows(job, page, FirstRows(b, i + 1));
    OneRowFurther(job, b, i, now, next, |page|);
  }

  lemma OneRowFurther(job: Job, b: Block, i: nat, now: seq<seq<byte>>, next: seq<seq<byte>>, have: nat)
    requires job.Valid() && Usable(job, b) && i < |b.rows|
    requires |now| == Reach(job, have, FirstRows(b, i)) && |next| == Reach(job, have, FirstRows(b, i + 1))
    requires have <= |now| <= |next| && now[..have] == next[..have]
    requires forall r :: have <= r < |now| ==> now[r] == RowFrom(job, FirstRows(b, i), r)
    requires forall r :: have <= r < |next| ==> next[r] == RowFrom(job, FirstRows(b, i + 1), r)
    ensures next == if |now| <= b.first + i < job.lines
                    then now + [ConvertRow(job, b.rows[i], b.avail, b.first + i)] else now
  {
  }

  /** The first i rows of a block. */
  function FirstRows(b: Block, i: nat): Block
    requires i <= |b.rows|
  {
    b.(rows := b.rows[..i])
  }
}
