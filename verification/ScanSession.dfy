/** One open scanner: the job state machine between the SANE calls and the device. */
module ScanSession {
  import opened Arithmetic
  import opened Bytes
  import opened ScanRows
  import opened ScanPage
  import opened RowQueue
  import opened Wire
  import opened ScanSpec
  import opened ScanStart
  import opened LockLog

  class Handle {
    const pipe: Pipe
    const queue: Queue
    var job: Job
    var scanning: bool
    var locked: bool
    var cancelled: bool
    var eof: bool
    var nonBlocking: bool
    var hasAdf: bool
    var feeding: bool
    var nextRow: nat
    /** The blocks that made this page, the bytes of it already handed over, and whether
        nothing has gone wrong since it was begun. */
    ghost var blocks: seq<Block>
    ghost var delivered: seq<byte>
    ghost var clean: bool
    /** Where in the device's stream the page was begun, and where its last block ended. */
    ghost var pageAt: nat
    ghost var readTo: nat

    ghost predicate Paged()
      reads `job, `blocks
    {
      job.Valid() && AllUsable(job, blocks)
    }

    /** The blocks of the page have been read, in order, from what the device has sent since
        the page was begun. */
    ghost predicate Sourced()
      reads `job, `blocks, `pageAt, `readTo, pipe
    {
      readTo <= pipe.at && AllFromDevice(job, blocks, pipe.stream, pageAt, readTo)
    }

    ghost function Page(): seq<seq<byte>>
      reads `job, `blocks
      requires Paged()
    {
      PageOf(job, blocks)
    }

    /** The device has called for the end of the page. */
    ghost predicate MayClose()
      reads `job, `blocks, `pageAt, pipe
    {
      AllFromDevice(job, blocks + [PageEnd(job)], pipe.stream, pageAt, pipe.at)
    }

    /** The unlock is owed exactly while the log has an unpaid attempt, and unless a transfer
        failed the output is what the log says. */
    ghost predicate Disciplined()
      reads `locked, pipe
    {
      && PhaseOf(pipe.log).Kept() && (locked <==> PhaseOf(pipe.log).Owing())
      && pipe.Faithful() && pipe.Placed()
    }

    /** While nothing has gone wrong, what has been handed over and what is queued are the
        page. */
    ghost predicate Conserving()
      reads `job, `blocks, `nextRow, `delivered, `clean, `eof, queue, queue.buf
    {
      && queue.Valid() && Paged()
      && nextRow == |Page()|
      && (clean ==> delivered + queue.Contents() == Flatten(Page()))
      && (clean && eof ==> nextRow == job.lines)
    }

    ghost predicate Valid()
      reads this, pipe, queue, queue.buf
    {
      Conserving() && Disciplined() && Sourced()
    }

    /** Between calls. */
    ghost predicate AtRest()
      reads this, pipe, queue, queue.buf
    {
      && Valid()
      && locked == scanning && (feeding ==> scanning)
      && (clean ==> scanning || eof)
    }

    ghost function Abs(): Scan
      reads this, pipe, queue, queue.buf
      requires queue.Valid() && Paged()
    {
      Scan(pipe.input, job, Page(), queue.Contents(), eof, scanning, locked, feeding)
    }

    /** A handle on a device that is not yet in use: what the endpoint still holds is
        flushed, then the device is asked whether it has a feeder. */
    constructor Open(pipe: Pipe, job: Job)
      requires job.Valid() && pipe.log == NewLog && pipe.output == [] && pipe.Placed()
      modifies pipe
      ensures this.pipe == pipe && this.job == job
      ensures fresh(queue) && fresh(queue.buf)
      ensures AtRest() && !scanning && !cancelled && queue.Contents() == []
    {
      this.pipe := pipe;
      this.job := job;
      queue := new Queue();
      scanning, locked, cancelled, eof := false, false, false, false;
      nonBlocking, hasAdf, feeding := false, false, false;
      nextRow := 0;
      blocks, delivered, clean, pageAt, readTo := [], [], false, 0, 0;
      new;
      FlushInput();
      ProbeAdf();
    }

    // ------------------------------------------------------------ image path

    /** Queue white rows down to `upto`, or to the end of the page. */
    method EmitWhiteRows(upto: nat, ghost page: seq<seq<byte>>, ghost b: Block)
        returns (ghost longer: seq<seq<byte>>)
      requires queue.Valid() && job.Valid() && nextRow == |page|
      requires b.rows == [] && Min(upto, job.lines) == Min(b.first, job.lines)
      modifies `nextRow, queue, queue.buf
      ensures queue.Valid() && (queue.buf == old(queue.buf) || fresh(queue.buf)) && queue.pos <= old(queue.pos)
      ensures longer == Extend(job, page, b) && nextRow == |longer|
      ensures queue.Contents() == old(queue.Contents()) + Flatten(longer[|page|..])
    {
      longer := page;
      ghost var queued := queue.Contents();
      assert longer[|page|..] == [];
      while nextRow < upto && nextRow < job.lines
        invariant queue.Valid() && (queue.buf == old(queue.buf) || fresh(queue.buf)) && queue.pos <= old(queue.pos)
        invariant page <= longer && nextRow == |longer|
        invariant Extend(job, longer, b) == Extend(job, page, b)
        invariant queue.Contents() == queued + Flatten(longer[|page|..])
        decreases job.lines - nextRow
      {
        longer := EmitWhiteRow(longer, page, queued);
        assert RowFrom(job, b, |longer| - 1) == job.White();
      }
    }

    /** One white row: `queued` is what the queue held when the page was `start`. */
    method EmitWhiteRow(ghost page: seq<seq<byte>>, ghost start: seq<seq<byte>>, ghost queued: seq<byte>)
        returns (ghost longer: seq<seq<byte>>)
      requires queue.Valid() && job.Valid() && start <= page && nextRow == |page|
      requires queue.Contents() == queued + Flatten(page[|start|..])
      modifies `nextRow, queue, queue.buf
      ensures queue.Valid() && (queue.buf == old(queue.buf) || fresh(queue.buf)) && queue.pos <= old(queue.pos)
      ensures longer == page + [job.White()] && nextRow == |longer|
      ensures queue.Contents() == queued + Flatten(longer[|start|..])
    {
      longer := page + [job.White()];
      OneRowMore(queue.Contents(), page, job.White());
      FlattenGrownTwice(queued, start, page, longer);
      queue.AppendWhite(job.BytesPerLine(), job.WhiteByte());
      nextRow := nextRow + 1;
    }

    /** White to the end of the page. */
    method ClosePage()
      requires Conserving() && Disciplined()
      modifies `nextRow, `blocks, queue, queue.buf
      ensures Conserving() && Disciplined()
      ensures (queue.buf == old(queue.buf) || fresh(queue.buf)) && queue.pos <= old(queue.pos)
      ensures blocks == old(blocks) + [PageEnd(job)] && nextRow == job.lines
      ensures Abs() == Queued(old(Abs()), PageEnd(job))
    {
      PageFits(job, blocks);
      ghost var queued := queue.Contents();
      ghost var longer := EmitWhiteRows(job.lines, Page(), PageEnd(job));
      GrowPage(PageEnd(job), queued, longer);
    }

    /** Take the rows of a block that are next on the page: a repeat is dropped, and so is
        anything past the end or past a wrapped index. */
    method TakeRows(head: BlockHead, raw: seq<byte>, ghost page: seq<seq<byte>>, ghost b: Block)
        returns (ghost longer: seq<seq<byte>>)
      requires queue.Valid() && job.Valid() && Usable(job, b) && Matches(b, head, raw)
      requires nextRow == |Extend(job, page, FirstRows(b, 0))|
      modifies `nextRow, queue, queue.buf
      ensures queue.Valid() && (queue.buf == old(queue.buf) || fresh(queue.buf)) && queue.pos <= old(queue.pos)
      ensures longer == Extend(job, page, b) && nextRow == |longer|
      ensures Extend(job, page, FirstRows(b, 0)) <= longer
      ensures queue.Contents() == old(queue.Contents()) + Flatten(longer[old(nextRow)..])
    {
      var avail := head.Avail(|raw|);
      longer := Extend(job, page, FirstRows(b, 0));
      ghost var start, queued := longer, queue.Contents();
      assert longer[|start|..] == [];
      var i := 0;
      while i < head.rows
        invariant 0 <= i <= head.rows
        invariant queue.Valid() && (queue.buf == old(queue.buf) || fresh(queue.buf)) && queue.pos <= old(queue.pos)
        invariant longer == Extend(job, page, FirstRows(b, i)) && nextRow == |longer|
        invariant start <= longer && queue.Contents() == queued + Flatten(longer[|start|..])
      {
        var src := BodyRow(raw, head.rows, i);
        longer := TakeNextRow(i, src, head.first, avail, page, b, longer, start, queued);
        i := i + 1;
      }
      assert FirstRows(b, head.rows) == b;
    }

    /** One turn of TakeRows: `queued` is what the queue held when the page was `start`. */
    method TakeNextRow(i: nat, src: seq<byte>, first: word, avail: nat, ghost page: seq<seq<byte>>,
                       ghost b: Block, ghost now: seq<seq<byte>>, ghost start: seq<seq<byte>>,
                       ghost queued: seq<byte>)
        returns (ghost next: seq<seq<byte>>)
      requires queue.Valid() && job.Valid() && Usable(job, b) && i < |b.rows| < 0x1_0000_0000
      requires b.first == first && b.avail == avail && b.rows[i] == src
      requires now == Extend(job, page, FirstRows(b, i)) && nextRow == |now|
      requires start <= now && queue.Contents() == queued + Flatten(now[|start|..])
      modifies `nextRow, queue, queue.buf
      ensures queue.Valid() && (queue.buf == old(queue.buf) || fresh(queue.buf)) && queue.pos <= old(queue.pos)
      ensures next == Extend(job, page, FirstRows(b, i + 1)) && nextRow == |next|
      ensures start <= next && queue.Contents() == queued + Flatten(next[|start|..])
    {
      next := Extend(job, page, FirstRows(b, i + 1));
      ghost var converted := ConvertRow(job, src, avail, first + i);
      ExtendByRow(job, page, b, i, now, next, converted);
      FlattenGrownTwice(queued, start, now, next);
      TakeRow(first, i, src, avail, now, next, converted);
    }

    /** Row i of a block that starts at row `first`. */
    method TakeRow(first: word, i: nat, src: seq<byte>, avail: nat,
                   ghost now: seq<seq<byte>>, ghost next: seq<seq<byte>>, ghost converted: seq<byte>)
      requires queue.Valid() && job.Valid() && Holds(job, src, avail)
      requires nextRow == |now| && i < 0x1_0000_0000 && Min(job.lines, first + i) <= |now|
      requires converted == ConvertRow(job, src, avail, first + i)
      requires next == if |now| <= first + i < job.lines then now + [converted] else now
      modifies `nextRow, queue, queue.buf
      ensures queue.Valid() && (queue.buf == old(queue.buf) || fresh(queue.buf)) && queue.pos <= old(queue.pos)
      ensures nextRow == |next|
      ensures queue.Contents() == old(queue.Contents()) + Flatten(next[|now|..])
    {
      ghost var queued := queue.Contents();
      OneRowMore(queued, now, converted);
      var row := (first + i) % 0x1_0000_0000;
      if row < first || row < nextRow || row >= job.lines {
        assert next == now;
        return;
      }
      assert row == first + i == |now|;
      queue.AppendRow(job, src, avail, row);
      nextRow := row + 1;
    }

    /** A block whose header and body have been accepted. */
    method TakeBlock(head: BlockHead, raw: seq<byte>, ghost b: Block)
      requires Conserving() && Disciplined() && Matches(b, head, raw) && Usable(job, b)
      modifies `nextRow, `blocks, queue, queue.buf
      ensures Conserving() && Disciplined()
      ensures (queue.buf == old(queue.buf) || fresh(queue.buf)) && queue.pos <= old(queue.pos)
      ensures blocks == old(blocks) + [b]
      ensures Abs() == Queued(old(Abs()), b)
    {
      ghost var queued := queue.Contents();
      ghost var longer := QueueBlock(head, raw, Page(), b);
      GrowPage(b, queued, longer);
    }

    /** Note that the blocks, `more`, have been read by now. */
    ghost method Note(more: seq<Block>)
      requires Conserving() && Disciplined() && blocks == more
      requires AllFromDevice(job, more, pipe.stream, pageAt, pipe.at)
      modifies `readTo
      ensures Valid() && readTo == pipe.at
    {
      readTo := pipe.at;
    }

    /** White down to the block's first row, then its rows. */
    method QueueBlock(head: BlockHead, raw: seq<byte>, ghost page: seq<seq<byte>>, ghost b: Block)
        returns (ghost longer: seq<seq<byte>>)
      requires queue.Valid() && job.Valid() && Usable(job, b) && Matches(b, head, raw)
      requires nextRow == |page|
      modifies `nextRow, queue, queue.buf
      ensures queue.Valid() && (queue.buf == old(queue.buf) || fresh(queue.buf)) && queue.pos <= old(queue.pos)
      ensures longer == Extend(job, page, b) && nextRow == |longer|
      ensures queue.Contents() == old(queue.Contents()) + Flatten(longer[|page|..])
    {
      ghost var gap := EmitWhiteRows(Min(head.first, job.lines), page, FirstRows(b, 0));
      longer := TakeRows(head, raw, page, b);
      FlattenGrownTwice(old(queue.Contents()), page, gap, longer);
    }

    /** Account for a block whose rows have been queued behind `queued`. */
    ghost method GrowPage(b: Block, queued: seq<byte>, longer: seq<seq<byte>>)
      requires queue.Valid() && Paged() && Disciplined() && Usable(job, b)
      requires longer == Extend(job, Page(), b) && nextRow == |longer|
      requires queue.Contents() == queued + Flatten(longer[|Page()|..])
      requires clean ==> delivered + queued == Flatten(Page())
      requires clean && eof ==> |Page()| == job.lines
      modifies `blocks
      ensures Conserving() && Disciplined() && blocks == old(blocks) + [b] && Page() == longer
    {
      PageGrew(job, blocks, b);
      if clean {
        PageFits(job, blocks);
        Conserved(delivered, queued, Page(), longer);
      }
      blocks := blocks + [b];
    }

    /** The rows the page has gained are in the queue, behind what was there. */
    ghost predicate QueuedToo(page: seq<seq<byte>>, queued: seq<byte>)
      reads `job, `blocks, queue, queue.buf
      requires Paged() && queue.Valid()
    {
      page <= Page() && queue.Contents() == queued + Flatten(Page()[|page|..])
    }

    /** A block of so many bytes has been read since the stream stood at `from`, and is queued
        whole behind what was there; or nothing has changed. */
    ghost predicate Accounted(st: Status, was: seq<Block>, page: seq<seq<byte>>, queued: seq<byte>,
                              size: nat, from: nat)
      reads this, pipe, queue, queue.buf
      requires Valid() && from <= pipe.at
    {
      if st == Good then OneRead(job, was, blocks, size, pipe.Taken(from)) && QueuedToo(page, queued)
      else blocks == was && queue.Contents() == queued
    }

    /** Part of a data frame. */
    method ReadPart(n: nat) returns (st: Status, data: seq<byte>)
      requires Valid()
      modifies pipe`input, pipe`at, pipe`fault
      ensures Valid() && pipe.Moved() && Sub(data, pipe.Taken(old(pipe.at)))
      ensures (st == Good && |data| == n) || st == IoError
      ensures !pipe.fault ==> Got(st, data, pipe.input) == ReadSpec(old(pipe.input), n)
      ensures Abs() == old(Abs()).(input := pipe.input)
    {
      st, data := pipe.UsbRead(n);
    }

    method HandleDataBlock(plen: nat) returns (st: Status)
      requires Valid()
      modifies `nextRow, `blocks, `readTo, pipe`input, pipe`at, pipe`fault, queue, queue.buf
      ensures Valid() && (queue.buf == old(queue.buf) || fresh(queue.buf)) && queue.pos <= old(queue.pos)
      ensures pipe.Moved() && st != Eof
      // Even where a transfer failed: a block that is read is made of bytes the device sent
      // meanwhile and is queued whole, and nothing else is.
      ensures st != Good ==> blocks == old(blocks) && queue.Contents() == old(queue.Contents())
      ensures st == Good ==> OneRead(job, old(blocks), blocks, plen, pipe.Taken(old(pipe.at)))
      ensures st == Good ==> QueuedToo(old(Page()), old(queue.Contents()))
      ensures !pipe.fault ==> Pumped(st, Abs(), false, 0) == DataSpec(old(Abs()), plen)
    {
      if plen < DATA_HEADER_LEN {
        DropPayload(plen);
        st := IoError;
      } else {
        st := HandleHead(plen, DataSpec(Abs(), plen), blocks, Page(), queue.Contents());
      }
    }

    /** The sub-header of a data frame and what comes behind it; `goal` is what the frame comes
        to where transfers succeed. */
    method HandleHead(plen: nat, ghost goal: Pumped, ghost was: seq<Block>, ghost page: seq<seq<byte>>,
                      ghost queued: seq<byte>)
        returns (st: Status)
      requires Valid() && plen >= DATA_HEADER_LEN && goal == DataSpec(Abs(), plen)
      requires was == blocks && page == Page() && queued == queue.Contents()
      modifies `nextRow, `blocks, `readTo, pipe`input, pipe`at, pipe`fault, queue, queue.buf
      ensures Valid() && (queue.buf == old(queue.buf) || fresh(queue.buf)) && queue.pos <= old(queue.pos)
      ensures pipe.Moved() && st != Eof
      ensures Accounted(st, was, page, queued, plen, old(pipe.at))
      ensures Meets(goal, st)
    {
      ghost var from := pipe.at;
      var buf;
      st, buf := ReadHead(plen, goal);
      if st == Good {
        st := HandleBody(GetBlockHead(buf), plen - DATA_HEADER_LEN, buf, from, goal, was, page, queued);
      }
    }

    /** A data frame that has been dealt with has come to `goal`. */
    ghost predicate Meets(goal: Pumped, st: Status)
      reads this, pipe, queue, queue.buf
      requires queue.Valid() && Paged()
    {
      !pipe.fault ==> goal == Pumped(st, Abs(), false, 0)
    }

    /** What is behind its sub-header will come to it. */
    ghost predicate Ahead(goal: Pumped, head: BlockHead, body: nat)
      reads this, pipe, queue, queue.buf
      requires queue.Valid() && Paged()
    {
      !pipe.fault ==> goal == BodySpec(Abs(), head, body)
    }

    method ReadHead(plen: nat, ghost goal: Pumped) returns (st: Status, buf: seq<byte>)
      requires Valid() && plen >= DATA_HEADER_LEN && goal == DataSpec(Abs(), plen)
      modifies pipe`input, pipe`at, pipe`fault
      ensures Valid() && pipe.Moved() && Sub(buf, pipe.Taken(old(pipe.at)))
      ensures (st == Good && |buf| == DATA_HEADER_LEN) || st == IoError
      ensures if st == Good then Ahead(goal, GetBlockHead(buf), plen - DATA_HEADER_LEN) else Meets(goal, st)
    {
      ghost var before := Abs();
      st, buf := ReadPart(DATA_HEADER_LEN);
      if st == Good && !pipe.fault {
        HeadRead(before, plen, buf, pipe.input);
      }
    }

    /** The rest of a data frame whose sub-header, `sub`, has been read since the stream stood
        at `from`. */
    method HandleBody(head: BlockHead, body: nat, ghost sub: seq<byte>, ghost from: nat, ghost goal: Pumped,
                      ghost was: seq<Block>, ghost page: seq<seq<byte>>, ghost queued: seq<byte>)
        returns (st: Status)
      requires Valid() && |sub| == DATA_HEADER_LEN && head == GetBlockHead(sub)
      requires was == blocks && page == Page() && queued == queue.Contents()
      requires Ahead(goal, head, body)
      requires readTo <= from <= pipe.at && Sub(sub, pipe.Taken(from))
      modifies `nextRow, `blocks, `readTo, pipe`input, pipe`at, pipe`fault, queue, queue.buf
      ensures Valid() && (queue.buf == old(queue.buf) || fresh(queue.buf)) && queue.pos <= old(queue.pos)
      ensures pipe.Moved() && st != Eof
      ensures Accounted(st, was, page, queued, DATA_HEADER_LEN + body, from)
      ensures Meets(goal, st)
    {
      if head.kind == DATA_JPEG {
        DropPayload(body);
        st := Unsupported;
      } else if head.Malformed(body) || head.planes != job.Planes() {
        DropPayload(body);
        st := IoError;
      } else {
        ghost var mid := pipe.at;
        var raw;
        st, raw := ReadPart(body);
        if st == Good {
          AcceptBlock(head, raw, sub, from, mid);
        }
      }
    }

    /** A block read piece by piece, its sub-header since the stream stood at `from`, its body
        since it stood at `mid`. */
    method AcceptBlock(head: BlockHead, raw: seq<byte>, ghost sub: seq<byte>, ghost from: nat, ghost mid: nat)
      requires Valid() && |sub| == DATA_HEADER_LEN && head == GetBlockHead(sub)
      requires head.kind != DATA_JPEG && !head.Malformed(|raw|) && head.planes == job.Planes()
      requires readTo <= from <= mid <= pipe.at
      requires Sub(sub, pipe.stream[from..mid]) && Sub(raw, pipe.Taken(mid))
      modifies `nextRow, `blocks, `readTo, queue, queue.buf
      ensures Valid() && (queue.buf == old(queue.buf) || fresh(queue.buf)) && queue.pos <= old(queue.pos)
      ensures OneRead(job, old(blocks), blocks, DATA_HEADER_LEN + |raw|, pipe.Taken(from))
      ensures Usable(job, BlockOf(head, raw)) && Abs() == Queued(old(Abs()), BlockOf(head, raw))
    {
      ghost var b := BlockOf(head, raw);
      BlockUsable(job, b, head, raw);
      BlockRead(job, b, sub, raw, pipe.stream, readTo, from, mid, pipe.at);
      ghost var more := blocks + [b];
      NextFromDevice(job, blocks, b, pipe.stream, pageAt, readTo, pipe.at);
      TakeBlock(head, raw, b);
      Note(more);
    }

    // --------------------------------------------------------------- locking

    /** Pay back the lock, if one is owed.  Errors are ignored, but the attempt is made. */
    method UnlockDevice()
      requires Disciplined()
      modifies `locked, `feeding, pipe
      ensures Disciplined() && !locked && !feeding
      ensures pipe.StillFramed()
      ensures pipe.log == Parted(old(pipe.log), !old(locked))
      ensures !pipe.fault ==> pipe.input == if old(locked) then FrameDrained(old(pipe.input)) else old(pipe.input)
    {
      feeding := false;
      if !locked {
        return;
      }
      locked := false;
      var st := pipe.SendFrame(CMD_UNLOCK, []);
      if st != Good {
        return;
      }
      var _, _, _ := pipe.SkipFrame();
    }

    /** A command that needs the lock, sent under it. */
    method Ask(cmd: word, payload: Payload, want: nat) returns (st: Status, answer: Answer)
      requires Disciplined() && locked && cmd != CMD_LOCK && cmd != CMD_UNLOCK
      modifies pipe
      ensures Disciplined() && pipe.StillFramed()
      ensures pipe.log == Then(old(pipe.log), Sent(cmd, payload))
      ensures !pipe.fault ==> Got(st, answer, pipe.input) == CommandSpec(old(pipe.input), cmd, want, 0)
      ensures st == Good && want > 0 ==> |answer.reply| == want
    {
      st, answer := pipe.Command(cmd, payload, want);
    }

    /** One lock request, the `k`-th after the first of its attempt.  The unlock is owed from
        here on, whatever comes of it. */
    method RequestLock(ghost k: nat) returns (st: Status, answer: Answer)
      requires Disciplined() && k < LOCK_TRIES
      requires PhaseOf(pipe.log) == if k == 0 then Free else Trying(k)
      modifies `locked, pipe
      ensures Disciplined() && locked && pipe.StillFramed() && PhaseOf(pipe.log) == Trying(k + 1)
      ensures pipe.log == AskOnce(old(pipe.log), k)
      ensures !pipe.fault ==> Got(st, answer, pipe.input) == CommandSpec(old(pipe.input), CMD_LOCK, 0, 0)
    {
      if k == 0 {
        pipe.BeginAttempt();
      }
      locked := true;
      st, answer := pipe.Command(CMD_LOCK, [], 0);
    }

    /** Between two requests of an attempt that began when the log was `start`: k have been
        made, and `goal` is what the attempt will come to. */
    ghost predicate Asking(start: Log, k: nat, goal: Got<()>)
      reads this, pipe
    {
      && k <= LOCK_TRIES && pipe.Faithful() && pipe.Placed() && !feeding && (locked <==> k > 0)
      && PhaseOf(pipe.log) == (if k == 0 then Free else Trying(k)) && pipe.log == Asked(start, k)
      && (!pipe.fault ==> goal == LockSpec(pipe.input, LOCK_TRIES - k))
    }

    /** An attempt that is over after k requests. */
    ghost predicate AskedEnough(start: Log, k: nat, goal: Got<()>, st: Status)
      reads this, pipe
    {
      && 1 <= k <= LOCK_TRIES && Disciplined() && !feeding && (locked <==> st == Good)
      && pipe.log == Parted(Asked(start, k), locked)
      && (!pipe.fault ==> goal == Got(st, (), pipe.input))
    }

    /** Lock the device, waiting a while for it to stop being busy.  `k` requests are made. */
    method LockDevice() returns (st: Status, ghost k: nat)
      requires Disciplined() && !locked && !feeding
      modifies `locked, `feeding, pipe
      ensures pipe.StillFramed()
      ensures AskedEnough(old(pipe.log), k, LockSpec(old(pipe.input), LOCK_TRIES), st)
    {
      if Framed(pipe.input) {
        LockStaysFramed(pipe.input, LOCK_TRIES);
      }
      st, k := AskForLock(pipe.log, LockSpec(pipe.input, LOCK_TRIES));
    }

    method AskForLock(ghost start: Log, ghost goal: Got<()>) returns (st: Status, ghost k: nat)
      requires Asking(start, 0, goal)
      modifies `locked, `feeding, pipe
      ensures pipe.Moved()
      ensures AskedEnough(start, k, goal, st)
    {
      var tries, done := 0, false;
      st := DeviceBusy;
      while tries < LOCK_TRIES && !done
        invariant 0 <= tries <= LOCK_TRIES && pipe.Moved()
        invariant if done then AskedEnough(start, tries, goal, st) else Asking(start, tries, goal)
      {
        done, st := TryLock(start, tries, goal);
        tries := tries + 1;
      }
      if !done {
        st := GiveUp(start, goal);
      }
      return st, tries;
    }

    /** The device was busy every time. */
    method GiveUp(ghost start: Log, ghost goal: Got<()>) returns (st: Status)
      requires Asking(start, LOCK_TRIES, goal)
      modifies `locked, `feeding, pipe
      ensures pipe.Moved()
      ensures AskedEnough(start, LOCK_TRIES, goal, st)
    {
      NoTriesLeft(pipe.input);
      UnlockDevice();
      st := DeviceBusy;
    }

    /** One turn of the loop over the lock requests, of which `k` have been made. */
    method TryLock(ghost start: Log, ghost k: nat, ghost goal: Got<()>) returns (done: bool, st: Status)
      requires Asking(start, k, goal) && k < LOCK_TRIES
      modifies `locked, `feeding, pipe
      ensures pipe.Moved()
      ensures if done then AskedEnough(start, k + 1, goal, st) else Asking(start, k + 1, goal)
    {
      var answer;
      ghost var before := pipe.input;
      st, answer := RequestLock(k);
      if !pipe.fault {
        LockOnce(before, LOCK_TRIES - k, Got(st, answer, pipe.input));
      }
      done := st == Good || answer.ack.status != 2;
      if st != Good && done {
        UnlockDevice();
      }
    }

    /** Is there a feeder, and is there paper in it? */
    method CheckAdf() returns (st: Status, present: bool, loaded: bool)
      requires Disciplined() && locked
      modifies pipe
      ensures Disciplined() && pipe.StillFramed()
      ensures pipe.log == Then(old(pipe.log), Say(CMD_ADF_STATUS))
      ensures loaded ==> present
      ensures !pipe.fault ==> Feeder(st, present, loaded, pipe.input) == AdfSpec(old(pipe.input))
    {
      present, loaded := false, false;
      st := pipe.SendFrame(CMD_ADF_STATUS, []);
      if st != Good {
        return;
      }
      var f, drained;
      st, f, drained := pipe.SkipFrame();
      if st != Good {
        return;
      }
      if f.cmd != CMD_ADF_STATUS {
        return IoError, present, loaded;
      }
      present := f.status == 0;
      loaded := present && f.arg0 == 1;
    }

    /** Empty the endpoint of what an earlier session left in it. */
    method FlushInput()
      requires pipe.Placed()
      modifies pipe`input, pipe`at, pipe`fault
      ensures pipe.Moved() && pipe.fault == old(pipe.fault)
      ensures pipe.prompt ==> pipe.input == [] || pipe.at >= old(pipe.at) + 4096
    {
      var i := 0;
      while i < 4096
        invariant pipe.Moved() && pipe.fault == old(pipe.fault)
        invariant pipe.prompt ==> pipe.at >= old(pipe.at) + i
      {
        var rc, got := pipe.BulkIn(4096, Flushing);
        if rc != Success || |got| == 0 {
          break;
        }
        i := i + 1;
      }
    }

    /** One lock request, one question, one unlock: whether the device has a feeder. */
    method ProbeAdf()
      requires Disciplined() && !locked && !feeding
      modifies `locked, `feeding, `hasAdf, pipe
      ensures Disciplined() && !locked && !feeding && pipe.StillFramed()
      ensures pipe.log == Script(old(pipe.log), 1, [], false)
        || pipe.log == Script(old(pipe.log), 1, [Say(CMD_ADF_STATUS)], false)
      ensures !pipe.fault ==> Got(Good, hasAdf, pipe.input) == ProbeSpec(old(pipe.input))
    {
      hasAdf := false;
      ghost var start := pipe.log;
      var st, answer := RequestLock(0);
      assert pipe.log == Asked(start, 1) by {
        assert Asked(start, 0) == start;
      }
      SaidOne(pipe.log, Say(CMD_ADF_STATUS));
      if st == Good {
        var present, loaded;
        st, present, loaded := CheckAdf();
        if st == Good {
          hasAdf := present;
        }
      }
      UnlockDevice();
    }

    /** Configure the job and start it: the four commands, or the first of them up to the one
        that failed. */
    method SetupJob() returns (st: Status, ghost reply: Settings, ghost said: seq<Event>)
      requires Disciplined() && locked
      modifies pipe
      ensures Disciplined() && pipe.StillFramed() && pipe.log == Said(old(pipe.log), said)
      ensures said <= Setup(reply, job) && (st == Good ==> said == Setup(reply, job))
      ensures !pipe.fault ==> Got(st, reply, pipe.input) == SetupSpec(old(pipe.input))
    {
      ghost var start, more := pipe.log, [];
      reply := NoSettings();
      var answer;
      st, answer := Ask(CMD_SET_DEFAULTS, [], 0);
      if st == Good {
        st, reply, more := ChangeSettings();
      }
      SaidFirst(start, Say(CMD_SET_DEFAULTS), more);
      said := [Say(CMD_SET_DEFAULTS)] + more;
      StepsFirst(Say(CMD_SET_DEFAULTS), more, Change(reply, job));
    }

    /** Read the settings, patch them, and write them back. */
    method ChangeSettings() returns (st: Status, ghost reply: Settings, ghost said: seq<Event>)
      requires Disciplined() && locked
      modifies pipe
      ensures Disciplined() && pipe.StillFramed() && pipe.log == Said(old(pipe.log), said)
      ensures said <= Change(reply, job) && (st == Good ==> said == Change(reply, job))
      ensures !pipe.fault ==> Got(st, reply, pipe.input) == ChangeSpec(old(pipe.input))
    {
      ghost var start, more := pipe.log, [];
      reply := NoSettings();
      var answer;
      st, answer := Ask(CMD_GET_SETTINGS, [], SETTINGS_LEN);
      if st == Good {
        reply := answer.reply;
        st, more := WriteSettings(Patched(answer.reply, job.settings));
      }
      SaidFirst(start, Say(CMD_GET_SETTINGS), more);
      said := [Say(CMD_GET_SETTINGS)] + more;
      StepsFirst(Say(CMD_GET_SETTINGS), more, Write(Patched(reply, job.settings)));
    }

    method WriteSettings(settings: Settings) returns (st: Status, ghost said: seq<Event>)
      requires Disciplined() && locked
      modifies pipe
      ensures Disciplined() && pipe.StillFramed() && pipe.log == Said(old(pipe.log), said)
      ensures said <= Write(settings) && (st == Good ==> said == Write(settings))
      ensures !pipe.fault ==> Got(st, (), pipe.input) == WriteSpec(old(pipe.input))
    {
      var answer;
      SaidOne(pipe.log, Sent(CMD_SET_SETTINGS, settings));
      SaidMore(pipe.log, [Sent(CMD_SET_SETTINGS, settings)], [Say(CMD_START)]);
      SaidOne(Then(pipe.log, Sent(CMD_SET_SETTINGS, settings)), Say(CMD_START));
      st, answer := Ask(CMD_SET_SETTINGS, settings, 0);
      said := [Sent(CMD_SET_SETTINGS, settings)];
      if st == Good {
        st, answer := Ask(CMD_START, [], 0);
        said := said + [Say(CMD_START)];
      }
    }

    /** A feeder job goes on only if paper is loaded. */
    method CheckPaper() returns (st: Status)
      requires Disciplined() && locked
      modifies pipe
      ensures Disciplined() && pipe.StillFramed()
      ensures pipe.log == Said(old(pipe.log), Question(job))
      ensures !pipe.fault ==> Got(st, (), pipe.input) == PaperSpec(old(pipe.input), job)
    {
      st := Good;
      if job.feeder {
        var present, loaded;
        st, present, loaded := CheckAdf();
        if st == Good && !loaded {
          st := if present then NoDocs else Unsupported;
        }
      }
    }

    /** Under the lock: make sure a feeder job has paper, then configure and start the job.
        The lock is given back if any of it fails. */
    method ConfigureJob() returns (st: Status, ghost reply: Settings, ghost said: seq<Event>)
      requires Disciplined() && locked && !feeding
      modifies `locked, `feeding, pipe
      ensures Disciplined() && pipe.StillFramed() && !feeding && (locked <==> st == Good)
      ensures pipe.log == Parted(Said(old(pipe.log), said), locked)
      ensures said <= Steps(reply, job) && (st == Good ==> said == Steps(reply, job))
      ensures !pipe.fault ==> Got(st, reply, pipe.input) == ConfigureSpec(old(pipe.input), job)
    {
      ghost var start, more := pipe.log, [];
      reply := NoSettings();
      st := CheckPaper();
      if st == Good {
        st, reply, more := SetupJob();
      }
      SaidMore(start, Question(job), more);
      said := Question(job) + more;
      assert said <= Steps(reply, job) by {
        MoreSteps(Question(job), more, Setup(reply, job));
      }
      if st != Good {
        UnlockDevice();
      }
    }

    /** Lock the device and start the job.  Whatever the device does, what it is told is an
        attempt at the lock, a first part of the job's steps, and an unlock if the job has
        not started. */
    method PrepareJob() returns (st: Status, ghost reply: Settings, ghost k: nat, ghost said: seq<Event>)
      requires Disciplined() && !locked && !feeding
      modifies `scanning, `locked, `feeding, pipe
      ensures Disciplined() && pipe.StillFramed() && !feeding && scanning == locked == (st == Good)
      ensures 1 <= k <= LOCK_TRIES && said <= Steps(reply, job) && (st == Good ==> said == Steps(reply, job))
      ensures pipe.log == Script(old(pipe.log), k, said, locked)
      ensures !pipe.fault ==> Got(st, reply, pipe.input) == PrepareSpec(old(pipe.input), job)
    {
      reply, said := NoSettings(), [];
      st, k := LockDevice();
      if st == Good {
        st, reply, said := ConfigureJob();
      }
      scanning := locked;
    }

    // ---------------------------------------------------------------- frames

    /** Take the next frame and act on it.  A probe may find nothing there. */
    method PumpFrame(probe: bool, report: bool)
        returns (st: Status, idle: bool, aborted: bool, abortStatus: word)
      requires Valid() && locked && scanning
      modifies `nextRow, `blocks, `readTo, `eof, `scanning, `locked, `feeding, pipe, queue, queue.buf
      ensures Valid() && locked == scanning && (queue.buf == old(queue.buf) || fresh(queue.buf)) && queue.pos <= old(queue.pos)
      ensures pipe.log == Parted(old(pipe.log), locked)
      ensures Unread()
      ensures st == Good && !idle ==> |pipe.input| < |old(pipe.input)|
      ensures idle ==> probe && st == Good && Abs() == old(Abs()) && !aborted
      ensures idle && pipe.prompt ==> pipe.input == []
      ensures !pipe.fault && !idle ==>
        Pumped(st, Abs(), aborted, abortStatus) == PumpSpec(old(Abs()), report)
      ensures pipe.StillFramed() && st != Eof
      ensures (feeding ==> scanning) && (st == Good && !aborted ==> scanning || eof)
      ensures !aborted ==> abortStatus == 0
      ensures aborted ==> report && !scanning && st == Good
    {
      aborted, abortStatus := false, 0;
      KeepPumpFramed(Abs(), report);
      var f;
      st, f, idle := pipe.RecvFrame(probe);
      if st != Good || idle {
        return;
      }
      if EndsPage(job, f) {
        EndSeen(job, blocks, f, pipe.stream, pageAt, readTo, old(pipe.at), pipe.at);
      }
      st, aborted, abortStatus := HandleFrame(f, report);
    }

    /** Blocks may have been added to the page; the job, what the caller set and what has
        been delivered are as they were. */
    twostate predicate Unread()
      reads this
    {
      && job == old(job) && old(blocks) <= blocks
      && delivered == old(delivered) && clean == old(clean) && pageAt == old(pageAt)
      && cancelled == old(cancelled) && nonBlocking == old(nonBlocking)
    }

    /** Act on a frame whose header has just been read. */
    method HandleFrame(f: Frame, report: bool) returns (st: Status, aborted: bool, abortStatus: word)
      requires Valid() && locked && scanning && (EndsPage(job, f) ==> MayClose())
      modifies `nextRow, `blocks, `readTo, `eof, `scanning, `locked, `feeding, pipe, queue, queue.buf
      ensures Valid() && locked == scanning && (queue.buf == old(queue.buf) || fresh(queue.buf)) && queue.pos <= old(queue.pos)
      ensures pipe.log == Parted(old(pipe.log), locked)
      ensures Unread()
      ensures !pipe.fault ==>
        Pumped(st, Abs(), aborted, abortStatus) == FrameSpec(old(Abs()), f, report)
      ensures pipe.Moved() && st != Eof
      ensures (feeding ==> scanning) && (st == Good && !aborted ==> scanning || eof)
      ensures !aborted ==> abortStatus == 0
      ensures aborted ==> report && !scanning && st == Good
    {
      if f.cmd == EVT_DATA {
        aborted, abortStatus := false, 0;
        st := HandleDataBlock(f.plen);
      } else {
        st, aborted, abortStatus := HandleEvent(f, report);
      }
    }

    /** A frame without rows. */
    method HandleEvent(f: Frame, report: bool) returns (st: Status, aborted: bool, abortStatus: word)
      requires Valid() && locked && scanning && f.cmd != EVT_DATA && (EndsPage(job, f) ==> MayClose())
      modifies `nextRow, `blocks, `readTo, `eof, `scanning, `locked, `feeding, pipe, queue, queue.buf
      ensures Valid() && locked == scanning && (queue.buf == old(queue.buf) || fresh(queue.buf)) && queue.pos <= old(queue.pos)
      ensures pipe.log == Parted(old(pipe.log), locked)
      ensures old(blocks) <= blocks
      ensures !pipe.fault ==>
        Pumped(st, Abs(), aborted, abortStatus) == FrameSpec(old(Abs()), f, report)
      ensures pipe.Moved() && st != Eof
      ensures (feeding ==> scanning) && (st == Good && !aborted ==> scanning || eof)
      ensures !aborted ==> abortStatus == 0
      ensures aborted ==> report && !scanning && st == Good
    {
      st, aborted, abortStatus := Good, false, 0;
      if f.cmd == EVT_ABORTED {
        st, aborted, abortStatus := HandleAborted(f, report);
      } else if f.cmd == EVT_JOB_END || f.cmd == EVT_PAGE_END {
        HandleEnd(f);
      } else {
        st := pipe.DrainPayload(f.plen);
      }
    }

    /** The end of the job, or of a page of it. */
    method HandleEnd(f: Frame)
      requires Valid() && locked && scanning && (EndsPage(job, f) ==> MayClose())
      requires f.cmd == EVT_JOB_END || f.cmd == EVT_PAGE_END
      modifies `nextRow, `blocks, `readTo, `eof, `scanning, `locked, `feeding, pipe, queue, queue.buf
      ensures Valid() && locked == scanning && (queue.buf == old(queue.buf) || fresh(queue.buf)) && queue.pos <= old(queue.pos)
      ensures pipe.log == Parted(old(pipe.log), locked)
      ensures old(blocks) <= blocks && pipe.Moved()
      ensures (feeding ==> scanning) && (scanning || eof)
      ensures !pipe.fault ==>
        Abs() == if f.cmd == EVT_JOB_END then JobEnded(Drained(old(Abs()), f.plen))
                 else PageEnded(Drained(old(Abs()), f.plen))
    {
      if f.cmd == EVT_JOB_END {
        HandleJobEnd(f);
      } else {
        HandlePageEnd(f);
      }
    }

    /** The payload of a frame that has none to speak of. */
    method DropPayload(plen: nat)
      requires Valid()
      modifies pipe`input, pipe`at, pipe`fault
      ensures Valid() && pipe.Moved()
      ensures !pipe.fault ==> Abs() == Drained(old(Abs()), plen)
    {
      var _ := pipe.DrainPayload(plen);
    }

    /** The payload of a frame that may end the page. */
    method DropEnd(f: Frame)
      requires Valid() && (EndsPage(job, f) ==> MayClose())
      modifies pipe`input, pipe`at, pipe`fault
      ensures Valid() && pipe.Moved() && (EndsPage(job, f) ==> MayClose())
      ensures !pipe.fault ==> Abs() == Drained(old(Abs()), f.plen)
    {
      DropPayload(f.plen);
      if EndsPage(job, f) {
        AllFromWider(job, blocks + [PageEnd(job)], pipe.stream, pageAt, old(pipe.at), pageAt, pipe.at);
      }
    }

    method HandleAborted(f: Frame, report: bool)
        returns (st: Status, aborted: bool, abortStatus: word)
      requires Valid() && locked
      modifies `scanning, `locked, `feeding, pipe
      ensures Valid() && !locked && !scanning && !feeding && aborted == report
      ensures pipe.Moved()
      ensures pipe.log == Parted(old(pipe.log), locked)
      ensures !pipe.fault ==>
        Pumped(st, Abs(), aborted, abortStatus)
        == AbortedSpec(Drained(old(Abs()), f.plen), f.status, report)
      ensures !aborted ==> abortStatus == 0
      ensures (st == Good <==> report) && st != Eof
    {
      DropPayload(f.plen);
      EndJob();
      if report {
        return Good, true, f.status;
      }
      return if f.status != 0 then MapStatus(f.status) else IoError, false, 0;
    }

    /** The page is over: whatever of it has not come stays white. */
    method EndPage()
      requires Valid() && MayClose()
      modifies `nextRow, `blocks, `readTo, `eof, queue, queue.buf
      ensures Valid() && (queue.buf == old(queue.buf) || fresh(queue.buf)) && queue.pos <= old(queue.pos)
      ensures eof && blocks == old(blocks) + [PageEnd(job)]
      ensures Abs() == Queued(old(Abs()), PageEnd(job)).(eof := true)
    {
      ghost var more := blocks + [PageEnd(job)];
      ClosePage();
      eof := true;
      Note(more);
    }

    method HandleJobEnd(f: Frame)
      requires Valid() && locked && f.cmd == EVT_JOB_END && (EndsPage(job, f) ==> MayClose())
      modifies `nextRow, `blocks, `readTo, `eof, `scanning, `locked, `feeding, pipe, queue, queue.buf
      ensures Valid() && (queue.buf == old(queue.buf) || fresh(queue.buf)) && queue.pos <= old(queue.pos)
      ensures !locked && !scanning && !feeding && eof && blocks == old(blocks) + [PageEnd(job)]
      ensures pipe.Moved()
      ensures pipe.log == Parted(old(pipe.log), locked)
      ensures !pipe.fault ==> Abs() == JobEnded(Drained(old(Abs()), f.plen))
    {
      DropEnd(f);
      EndPage();
      EndJob();
    }

    /** The job is over, and the lock is given back. */
    method EndJob()
      requires Valid() && locked
      modifies `scanning, `locked, `feeding, pipe
      ensures Valid() && !locked && !scanning && !feeding
      ensures pipe.Moved()
      ensures pipe.log == Parted(old(pipe.log), locked)
      ensures !pipe.fault ==> Abs() == Unlocked(old(Abs()).(scanning := false))
    {
      scanning := false;
      UnlockDevice();
    }

    /** Only a fed page ends the page here; the flatbed goes on to the end of the job. */
    method HandlePageEnd(f: Frame)
      requires Valid() && f.cmd == EVT_PAGE_END && (EndsPage(job, f) ==> MayClose())
      modifies `nextRow, `blocks, `readTo, `eof, `feeding, pipe`input, pipe`at, pipe`fault, queue, queue.buf
      ensures Valid() && (queue.buf == old(queue.buf) || fresh(queue.buf)) && queue.pos <= old(queue.pos)
      ensures blocks == old(blocks) || blocks == old(blocks) + [PageEnd(job)]
      ensures pipe.Moved()
      ensures !pipe.fault ==> Abs() == PageEnded(Drained(old(Abs()), f.plen))
      ensures feeding ==> old(feeding) || eof
    {
      DropEnd(f);
      if job.feeder {
        EndPage();
        feeding := true;
      }
    }

    // ------------------------------------------------------------------ jobs

    /** Close the session after a frame that could not be handled. */
    method Abandon()
      requires Valid()
      modifies `scanning, `locked, `feeding, `clean, pipe
      ensures AtRest() && !scanning && pipe.StillFramed()
      ensures !clean && pipe.log == Parted(old(pipe.log), !old(locked))
      ensures !pipe.fault ==> Abs() == Unlocked(old(Abs()).(scanning := false))
    {
      clean := false;
      scanning := false;
      UnlockDevice();
    }

    /** One frame; the session is closed if it could not be handled. */
    method PumpOrAbandon(probe: bool, report: bool)
        returns (st: Status, idle: bool, aborted: bool, abortStatus: word)
      requires Valid() && locked && scanning
      modifies `job, `scanning, `locked, `eof, `feeding, `nextRow, `blocks, `delivered, `clean, `pageAt, `readTo,
        pipe, queue, queue.buf
      ensures Valid() && locked == scanning && (queue.buf == old(queue.buf) || fresh(queue.buf)) && queue.pos <= old(queue.pos)
      ensures pipe.StillFramed() && pipe.log == Parted(old(pipe.log), locked)
      ensures job == old(job) && delivered == old(delivered) && pageAt == old(pageAt)
      ensures cancelled == old(cancelled) && nonBlocking == old(nonBlocking)
      ensures st == Good && !idle ==> |pipe.input| < |old(pipe.input)|
      ensures idle ==> probe && st == Good && Abs() == old(Abs()) && !aborted
      ensures idle && pipe.prompt ==> pipe.input == []
      ensures feeding ==> scanning
      ensures st == Good ==> clean == old(clean) && (!aborted ==> scanning || eof)
      ensures st != Good ==> !clean && !scanning && st != Eof
      ensures !aborted ==> abortStatus == 0
      ensures aborted ==> report && !scanning && st == Good
      ensures !pipe.fault && !idle ==>
        Pumped(st, Abs(), aborted, abortStatus) == GivenUp(PumpSpec(old(Abs()), report))
    {
      st, idle, aborted, abortStatus := PumpFrame(probe, report);
      if st != Good {
        Abandon();
      }
    }

    /** Take frames until rows are queued, so that a refused job is noticed here. */
    method AwaitFirstRows() returns (st: Status, aborted: bool, abortStatus: word)
      requires Valid() && locked && scanning && clean && delivered == [] && queue.pos == 0
      modifies `job, `scanning, `locked, `eof, `feeding, `nextRow, `blocks, `delivered, `clean, `pageAt, `readTo,
        pipe, queue, queue.buf
      ensures AtRest() && (queue.buf == old(queue.buf) || fresh(queue.buf)) && queue.pos == 0
      ensures pipe.StillFramed() && pipe.log == Parted(old(pipe.log), locked)
      ensures job == old(job) && delivered == [] && cancelled == old(cancelled) && pageAt == old(pageAt)
      ensures clean <==> st == Good && !aborted
      ensures aborted ==> !scanning
      ensures st == Good && !aborted ==> queue.len != 0
      ensures !pipe.fault ==> Pumped(st, Abs(), aborted, abortStatus) == AwaitSpec(old(Abs()))
    {
      st, aborted, abortStatus := AwaitRows(AwaitSpec(Abs()));
      if aborted {
        clean := false;
      } else if st == Good && eof {
        RowsAtEof();
      }
    }

    method AwaitRows(ghost goal: Pumped) returns (st: Status, aborted: bool, abortStatus: word)
      requires Awaiting(Good, false, 0) && OnCourse(goal, Good, false, 0)
      requires scanning && delivered == [] && queue.pos == 0
      modifies `job, `scanning, `locked, `eof, `feeding, `nextRow, `blocks, `delivered, `clean, `pageAt, `readTo,
        pipe, queue, queue.buf
      ensures Awaiting(st, aborted, abortStatus)
      ensures st == Good && !aborted ==> queue.len != 0 || eof
      ensures (queue.buf == old(queue.buf) || fresh(queue.buf)) && queue.pos == 0
      ensures pipe.StillFramed() && pipe.log == Parted(old(pipe.log), locked)
      ensures job == old(job) && delivered == [] && cancelled == old(cancelled) && pageAt == old(pageAt)
      ensures !pipe.fault ==> goal == Pumped(st, Abs(), aborted, abortStatus)
    {
      st, aborted, abortStatus := Good, false, 0;
      while st == Good && scanning && queue.len == 0 && !aborted && !eof
        invariant Awaiting(st, aborted, abortStatus) && OnCourse(goal, st, aborted, abortStatus)
        invariant (queue.buf == old(queue.buf) || fresh(queue.buf)) && queue.pos == 0
        invariant pipe.StillFramed() && pipe.log == Parted(old(pipe.log), locked)
        invariant job == old(job) && delivered == [] && cancelled == old(cancelled) && pageAt == old(pageAt)
        decreases |pipe.input|, st == Good
      {
        st, aborted, abortStatus := AwaitFrame(goal);
      }
    }

    /** A page that is over and of which nothing has been handed over is still in the queue. */
    lemma RowsAtEof()
      requires Valid() && clean && eof && delivered == []
      ensures queue.len > queue.pos
    {
      PageBytes(job, blocks);
      assert [] + queue.Contents() == queue.Contents();
      ProductPositive(job.lines, job.BytesPerLine());
    }

    /** Between two frames of AwaitRows, or behind the last. */
    ghost predicate Awaiting(st: Status, aborted: bool, abortStatus: word)
      reads this, pipe, queue, queue.buf
    {
      && Valid() && locked == scanning && (feeding ==> scanning)
      && (clean <==> st == Good)
      && (aborted ==> !scanning && st == Good)
      && (!aborted ==> abortStatus == 0 && (st == Good ==> scanning || eof))
      && (st != Good ==> !scanning)
    }

    /** `goal` is what the frames still to come will come to, or what they have. */
    ghost predicate OnCourse(goal: Pumped, st: Status, aborted: bool, abortStatus: word)
      reads this, pipe, queue, queue.buf
      requires queue.Valid() && Paged()
    {
      !pipe.fault ==>
        goal == if st == Good && !aborted then AwaitSpec(Abs()) else Pumped(st, Abs(), aborted, abortStatus)
    }

    /** One frame of AwaitRows. */
    method AwaitFrame(ghost goal: Pumped) returns (st: Status, aborted: bool, abortStatus: word)
      requires Awaiting(Good, false, 0) && OnCourse(goal, Good, false, 0)
      requires scanning && queue.len == 0 && queue.pos == 0 && !eof
      modifies `job, `scanning, `locked, `eof, `feeding, `nextRow, `blocks, `delivered, `clean, `pageAt, `readTo,
        pipe, queue, queue.buf
      ensures Awaiting(st, aborted, abortStatus) && OnCourse(goal, st, aborted, abortStatus)
      ensures (queue.buf == old(queue.buf) || fresh(queue.buf)) && queue.pos == 0
      ensures pipe.StillFramed() && pipe.log == Parted(old(pipe.log), locked)
      ensures job == old(job) && delivered == old(delivered) && cancelled == old(cancelled) && pageAt == old(pageAt)
      ensures st == Good ==> |pipe.input| < |old(pipe.input)|
    {
      if !pipe.fault {
        AwaitOnce(Abs(), PumpSpec(Abs(), true));
      }
      var idle;
      st, idle, aborted, abortStatus := PumpOrAbandon(false, true);
    }

    /** Nothing of an earlier page is left in the queue when a page is begun. */
    method BeginPage(newJob: Job)
      requires queue.Valid() && newJob.Valid() && pipe.Placed()
      modifies `job, `nextRow, `eof, `blocks, `delivered, `clean, `pageAt, `readTo, queue`len, queue`pos
      ensures Sourced() && pageAt == pipe.at
      ensures Conserving() && job == newJob && blocks == [] && delivered == [] && clean && !eof
      ensures queue.Contents() == [] && nextRow == 0 && queue.pos == 0
    {
      job := newJob;
      nextRow := 0;
      queue.Clear();
      eof := false;
      blocks, delivered, clean, pageAt, readTo := [], [], true, pipe.at, pipe.at;
    }

    /** One attempt at a job, up to its first rows.  Whatever
        the device does, all it is told is one attempt at the lock, a first part of the job's
        steps (all of them, if the job was started), and an unlock unless it is still
        locked. */
    method RunJob(newJob: Job)
        returns (st: Status, aborted: bool, abortStatus: word,
                 ghost reply: Settings, ghost k: nat, ghost said: seq<Event>)
      requires AtRest() && !scanning && newJob.Valid()
      modifies `job, `scanning, `locked, `eof, `feeding, `nextRow, `blocks, `delivered, `clean, `pageAt, `readTo,
        pipe, queue, queue.buf
      ensures AtRest() && (queue.buf == old(queue.buf) || fresh(queue.buf))
      ensures pipe.StillFramed()
      ensures job == newJob && delivered == [] && cancelled == old(cancelled)
      // The page holds nothing of an earlier attempt, whatever fails.
      ensures pageAt == old(pipe.at)
      ensures clean <==> st == Good && !aborted
      ensures aborted ==> !scanning
      ensures pipe.log == Script(old(pipe.log), k, said, locked)
      ensures 1 <= k <= LOCK_TRIES && said <= Steps(reply, newJob)
      ensures st == Good ==> said == Steps(reply, newJob)
      ensures !pipe.fault ==>
        Pumped(st, Abs(), aborted, abortStatus) == AttemptWith(PrepareSpec, old(pipe.input), newJob)
      ensures !pipe.fault ==> reply == PrepareSpec(old(pipe.input), newJob).value
    {
      aborted, abortStatus := false, 0;
      st, reply, k, said := BeginJob(newJob);
      if st == Good {
        st, aborted, abortStatus := AwaitFirstRows();
      }
    }

    /** Prepare a job whose first page is empty. */
    method BeginJob(newJob: Job)
        returns (st: Status, ghost reply: Settings, ghost k: nat, ghost said: seq<Event>)
      requires queue.Valid() && Disciplined() && !locked && !feeding && newJob.Valid()
      modifies `job, `scanning, `locked, `eof, `feeding, `nextRow, `blocks, `delivered, `clean, `pageAt, `readTo,
        pipe, queue`len, queue`pos
      ensures Valid() && pipe.StillFramed() && pageAt == old(pipe.at)
      ensures scanning == locked == clean == (st == Good) && !feeding && !eof
      ensures job == newJob && blocks == [] && delivered == [] && cancelled == old(cancelled)
      ensures queue.Contents() == [] && queue.pos == 0
      ensures 1 <= k <= LOCK_TRIES && said <= Steps(reply, job) && (st == Good ==> said == Steps(reply, job))
      ensures pipe.log == Script(old(pipe.log), k, said, locked)
      ensures !pipe.fault ==> Got(st, reply, pipe.input) == PrepareSpec(old(pipe.input), job)
    {
      BeginPage(newJob);
      st, reply, k, said := PrepareJob();
      clean := st == Good;
    }

    /** Begin the next page of a fed job.  No lock is asked for: nothing is sent but the
        unlock, if the job ends here.  The queue is in fact never found empty. */
    method ResumeJob() returns (st: Status)
      requires AtRest() && feeding
      modifies `job, `scanning, `locked, `eof, `feeding, `nextRow, `blocks, `delivered, `clean, `pageAt, `readTo,
        pipe, queue, queue.buf
      ensures AtRest() && (queue.buf == old(queue.buf) || fresh(queue.buf))
      ensures pipe.StillFramed() && pipe.log == Parted(old(pipe.log), locked)
      ensures job == old(job) && delivered == [] && cancelled == old(cancelled) && pageAt == old(pipe.at)
      ensures clean <==> st == Good
      ensures st == Good ==> queue.Contents() != []
      ensures !pipe.fault ==> Started(st, Abs()) == ResumeSpec(old(Abs()))
    {
      TurnPage();
      var aborted, abortStatus;
      st, aborted, abortStatus := AwaitFirstRows();
      if st == Good && aborted {
        st := if abortStatus != 0 then MapStatus(abortStatus) else NoDocs;
      } else if st == Good && queue.len == 0 {
        st := NoDocs;
      }
    }

    /** Go on to the next page of the job that is running. */
    method TurnPage()
      requires AtRest() && scanning
      modifies `job, `nextRow, `eof, `blocks, `delivered, `clean, `feeding, `pageAt, `readTo, queue`len, queue`pos
      ensures Valid() && pageAt == pipe.at && job == old(job) && clean && delivered == [] && queue.pos == 0
      ensures Abs() == Turned(old(Abs()))
    {
      BeginPage(job);
      feeding := false;
    }

    /** Stop whatever is running and give the device back. */
    method EndScan()
      requires AtRest()
      modifies `scanning, `locked, `feeding, `clean, pipe
      ensures AtRest() && !scanning && !locked && !feeding && !clean
      ensures pipe.StillFramed()
      ensures pipe.log == if old(scanning) then Then(Then(old(pipe.log), Say(CMD_ABORT)), Say(CMD_UNLOCK)) else old(pipe.log)
      ensures !pipe.fault ==> Abs() == EndSpec(old(Abs()))
    {
      if scanning {
        var _ := pipe.SendFrame(CMD_ABORT, []);
        SwallowFrames();
      }
      Abandon();
    }

    /** Take whatever is still in flight, up to the end of the job. */
    method SwallowFrames()
      requires pipe.Placed()
      modifies pipe`input, pipe`at, pipe`fault
      ensures pipe.StillFramed()
      ensures !pipe.fault ==> pipe.input == Flushed(old(pipe.input), ABORT_FRAMES)
    {
      ghost var goal, left := Flushed(pipe.input, ABORT_FRAMES), ABORT_FRAMES;
      var frames, done := 0, false;
      while frames < ABORT_FRAMES && !done
        invariant frames <= ABORT_FRAMES && left == (if done then 0 else ABORT_FRAMES - frames)
        invariant pipe.StillFramed() && ToSwallow(left, goal)
      {
        done := SwallowFrame(left, goal);
        frames := frames + 1;
        left := if done then 0 else left - 1;
      }
    }

    /** `goal` is what taking `left` more frames comes to. */
    ghost predicate ToSwallow(left: nat, goal: seq<byte>)
      reads pipe
    {
      !pipe.fault ==> goal == Flushed(pipe.input, left)
    }

    method SwallowFrame(ghost left: nat, ghost goal: seq<byte>) returns (done: bool)
      requires pipe.Placed() && left > 0 && ToSwallow(left, goal)
      modifies pipe`input, pipe`at, pipe`fault
      ensures pipe.StillFramed() && ToSwallow(if done then 0 else left - 1, goal)
    {
      var st, f, drained := pipe.SkipFrame();
      done := st != Good || drained != Good || f.cmd == EVT_JOB_END || f.cmd == EVT_ABORTED;
    }

    // ------------------------------------------------------------- SANE calls

    method SaneStart(newJob: Job) returns (st: Status)
      requires AtRest() && newJob.Valid()
      modifies `job, `scanning, `locked, `eof, `feeding, `nextRow, `blocks, `delivered, `clean, `pageAt, `readTo, `cancelled,
        pipe, queue, queue.buf
      ensures AtRest() && (queue.buf == old(queue.buf) || fresh(queue.buf))
      ensures pipe.StillFramed()
      ensures st == Good ==> clean && delivered == [] && old(pipe.at) <= pageAt
      ensures !cancelled
      ensures st == Good ==> job == if old(feeding && !cancelled) then old(job) else newJob
      ensures old(scanning && !feeding && !cancelled) ==> st == DeviceBusy
      // A device that is busy is asked four times to take the job, and no more.
      ensures Attempts(pipe.log) <= Attempts(old(pipe.log)) + 4
      // What a start comes to is settled by what the device sends.
      ensures !pipe.fault ==> Started(st, Abs()) == StartSpec(old(Abs()), old(cancelled), newJob)
    {
      EndCancelled();
      if feeding {
        st := ResumeJob();
        return;
      }
      if scanning {
        return DeviceBusy;
      }
      cancelled := false;
      st := RunJobs(newJob);
    }

    /** Finish a scan that has been cancelled and not been read since. */
    method EndCancelled()
      requires AtRest()
      modifies `scanning, `locked, `feeding, `clean, pipe
      ensures AtRest() && pipe.StillFramed() && Attempts(pipe.log) == Attempts(old(pipe.log))
      ensures if cancelled then !scanning && !feeding else Abs() == old(Abs()) && pipe.log == old(pipe.log)
      ensures !pipe.fault ==> Abs() == if cancelled then EndSpec(old(Abs())) else old(Abs())
    {
      if cancelled {
        EndScan();
      }
    }

    /** So many attempts have been refused by a busy device; `goal` is what the rest will come
        to. */
    ghost predicate Retrying(newJob: Job, refused: nat, goal: Started)
      reads this, pipe, queue, queue.buf
      requires newJob.Valid()
    {
      && refused <= JOB_TRIES && AtRest() && !scanning
      && (!pipe.fault && refused == JOB_TRIES ==> goal == Started(DeviceBusy, Abs()))
      && (!pipe.fault && refused < JOB_TRIES ==>
            goal == JobWith(PrepareSpec, pipe.input, newJob, JOB_TRIES - refused))
    }

    /** The attempts have come to `goal`. */
    ghost predicate Settled(newJob: Job, goal: Started, st: Status)
      reads this, pipe, queue, queue.buf
    {
      && AtRest() && job == newJob && (st == Good ==> clean && delivered == [])
      && (!pipe.fault ==> goal == Started(st, Abs()))
    }

    /** A job the device refuses because it is busy is tried again. */
    method RunJobs(newJob: Job) returns (st: Status)
      requires AtRest() && !scanning && newJob.Valid()
      modifies `job, `scanning, `locked, `eof, `feeding, `nextRow, `blocks, `delivered, `clean, `pageAt, `readTo,
        pipe, queue, queue.buf
      ensures pipe.StillFramed() && (queue.buf == old(queue.buf) || fresh(queue.buf))
      ensures cancelled == old(cancelled) && old(pipe.at) <= pageAt
      ensures Attempts(pipe.log) <= Attempts(old(pipe.log)) + 4
      ensures Settled(newJob, JobWith(PrepareSpec, old(pipe.input), newJob, JOB_TRIES), st)
    {
      st := RetryJobs(newJob, JobWith(PrepareSpec, pipe.input, newJob, JOB_TRIES));
    }

    method RetryJobs(newJob: Job, ghost goal: Started) returns (st: Status)
      requires newJob.Valid() && Retrying(newJob, 0, goal)
      modifies `job, `scanning, `locked, `eof, `feeding, `nextRow, `blocks, `delivered, `clean, `pageAt, `readTo,
        pipe, queue, queue.buf
      ensures pipe.StillFramed() && (queue.buf == old(queue.buf) || fresh(queue.buf))
      ensures cancelled == old(cancelled) && old(pipe.at) <= pageAt && Settled(newJob, goal, st)
      ensures Attempts(pipe.log) <= Attempts(old(pipe.log)) + 4
    {
      var attempt, done := 0, false;
      st := DeviceBusy;
      while attempt < JOB_TRIES && !done
        invariant 0 <= attempt <= JOB_TRIES && (done ==> attempt > 0) && (!done ==> st == DeviceBusy)
        invariant if done then Settled(newJob, goal, st) else Retrying(newJob, attempt, goal)
        invariant pipe.StillFramed() && (queue.buf == old(queue.buf) || fresh(queue.buf))
        invariant cancelled == old(cancelled) && (attempt > 0 ==> job == newJob && old(pipe.at) <= pageAt)
        invariant Attempts(pipe.log) == Attempts(old(pipe.log)) + attempt
      {
        done, st := TryJob(newJob, attempt, goal);
        attempt := attempt + 1;
      }
    }

    /** One more attempt. */
    method TryJob(newJob: Job, ghost refused: nat, ghost goal: Started) returns (done: bool, st: Status)
      requires newJob.Valid() && refused < JOB_TRIES && Retrying(newJob, refused, goal)
      modifies `job, `scanning, `locked, `eof, `feeding, `nextRow, `blocks, `delivered, `clean, `pageAt, `readTo,
        pipe, queue, queue.buf
      ensures pipe.StillFramed() && (queue.buf == old(queue.buf) || fresh(queue.buf))
      ensures cancelled == old(cancelled) && job == newJob && pageAt == old(pipe.at)
      ensures if done then Settled(newJob, goal, st) else Retrying(newJob, refused + 1, goal)
      ensures !done ==> st == DeviceBusy
      ensures Attempts(pipe.log) == Attempts(old(pipe.log)) + 1
    {
      var aborted, abortStatus;
      ghost var before, reply, k, said := pipe.input, NoSettings(), 0, [];
      st, aborted, abortStatus, reply, k, said := RunJob(newJob);
      ScriptAttempts(old(pipe.log), k, said, locked, reply, newJob);
      if !pipe.fault {
        JobOnce(PrepareSpec, before, newJob, JOB_TRIES - refused, Pumped(st, Abs(), aborted, abortStatus));
      }
      done := st != Good || !aborted || (abortStatus != 0 && abortStatus != 2);
      if st == Good && aborted && done {
        RefusalIsNotGood(abortStatus);
        st := MapStatus(abortStatus);
      } else if !done {
        st := DeviceBusy;
      }
    }

    method SaneRead(max: int) returns (st: Status, data: seq<byte>)
      requires AtRest()
      modifies `job, `scanning, `locked, `eof, `feeding, `nextRow, `blocks, `delivered, `clean, `pageAt, `readTo,
        pipe, queue, queue.buf
      ensures AtRest() && (queue.buf == old(queue.buf) || fresh(queue.buf))
      ensures pipe.StillFramed() && job == old(job) && cancelled == old(cancelled) && pageAt == old(pageAt)
      ensures |data| <= Max(max, 0) && (st != Good ==> data == [])
      ensures st == Good && data == [] ==> nonBlocking
      // In order: what is handed over comes next on the page, and the page is whole at its
      // end.  A read without an error does not spoil that, whatever became of the transfers.
      ensures st == Good || st == Eof ==> clean == old(clean)
      ensures clean ==> delivered == old(delivered) + data
      ensures clean && st == Eof ==>
        delivered == Flatten(Page()) && |Page()| == job.lines
      ensures if max <= 0 then st == Inval else st == Good || st == Eof || !clean
      // As much as is asked for, or as there is; nothing only at the end, or where a glance
      // has found nothing.
      ensures data != [] ==> |data| == max || queue.Contents() == []
      ensures st == Good && data == [] && pipe.prompt ==> pipe.input == []
      ensures max <= 0 ==> Abs() == old(Abs()) && pipe.log == old(pipe.log)
      // A cancelled scan is torn down here: the device is told to stop and given back.
      ensures old(cancelled) && max > 0 ==> st == Cancelled && Dropped(old(scanning), old(pipe.log))
      ensures !pipe.fault && old(cancelled) && max > 0 ==>
        Abs() == EndSpec(old(Abs())).(pending := [], eof := true)
      // However the bytes arrive, this call takes one step along the scan's outcome.
      ensures !pipe.fault && !old(cancelled) && max > 0 ==>
        ReadStep(old(Abs()), data, st, Abs())
    {
      data := [];
      if max <= 0 {
        st := Inval;
      } else if cancelled {
        DropPage();
        st := Cancelled;
      } else {
        st, data := ReadPage(max);
      }
    }

    /** What is queued, once there is something to hand over. */
    method ReadPage(max: nat) returns (st: Status, data: seq<byte>)
      requires AtRest() && !cancelled && max > 0
      modifies `job, `scanning, `locked, `eof, `feeding, `nextRow, `blocks, `delivered, `clean, `pageAt, `readTo,
        pipe, queue, queue.buf
      ensures AtRest() && (queue.buf == old(queue.buf) || fresh(queue.buf))
      ensures pipe.StillFramed() && job == old(job) && !cancelled && pageAt == old(pageAt)
      ensures |data| <= max && (st != Good ==> data == []) && (st == Good && data == [] ==> nonBlocking)
      ensures data != [] ==> |data| == max || queue.Contents() == []
      ensures st == Good && data == [] && pipe.prompt ==> pipe.input == []
      ensures st == Good || st == Eof ==> clean == old(clean)
      ensures st == Good || st == Eof || !clean
      ensures clean ==> delivered == old(delivered) + data
      ensures clean && st == Eof ==> delivered == Flatten(Page()) && |Page()| == job.lines
      ensures !pipe.fault ==> ReadStep(old(Abs()), data, st, Abs())
    {
      data := [];
      var idle;
      st, idle := FillQueue();
      if st == Good && !idle {
        st, data := TakeQueued(max);
      }
    }

    /** Nothing runs, nothing is owed and nothing is queued; a scan that was running has been
        told to stop, and the device has been given back. */
    ghost predicate Dropped(ran: bool, log: Log)
      reads this, pipe, queue, queue.buf
      requires queue.Valid()
    {
      && !scanning && !locked && !feeding && eof && queue.Contents() == []
      && pipe.log == if ran then Then(Then(log, Say(CMD_ABORT)), Say(CMD_UNLOCK)) else log
    }

    /** Stop the scan, and forget what is queued. */
    method DropPage()
      requires AtRest()
      modifies `scanning, `locked, `feeding, `clean, `eof, pipe, queue`len, queue`pos
      ensures AtRest() && pipe.StillFramed() && !clean
      ensures Dropped(old(scanning), old(pipe.log))
      ensures !pipe.fault ==> Abs() == EndSpec(old(Abs())).(pending := [], eof := true)
    {
      EndScan();
      queue.Clear();
      eof := true;
    }

    /** Pump frames until there is something to hand over, the page is over, or the device
        has nothing to say. */
    method FillQueue() returns (st: Status, idle: bool)
      requires AtRest() && !cancelled
      modifies `job, `scanning, `locked, `eof, `feeding, `nextRow, `blocks, `delivered, `clean, `pageAt, `readTo,
        pipe, queue, queue.buf
      ensures AtRest() && (queue.buf == old(queue.buf) || fresh(queue.buf))
      ensures pipe.StillFramed() && job == old(job) && delivered == old(delivered) && pageAt == old(pageAt)
      ensures cancelled == old(cancelled) && nonBlocking == old(nonBlocking)
      ensures idle ==> st == Good && nonBlocking && (pipe.prompt ==> pipe.input == [])
      ensures st == Good ==> clean == old(clean) && (idle || eof || queue.Contents() != [])
      ensures st != Good ==> !clean && st != Eof
      ensures !pipe.fault ==>
        Outcome(old(Abs())) == if st == Good then Outcome(Abs()) else Yield([], st)
    {
      st, idle := Good, false;
      while queue.pos == queue.len && !eof && st == Good && !idle
        invariant AtRest() && (queue.buf == old(queue.buf) || fresh(queue.buf))
        invariant pipe.StillFramed() && job == old(job) && delivered == old(delivered) && pageAt == old(pageAt)
        invariant cancelled == old(cancelled) && nonBlocking == old(nonBlocking)
        invariant idle ==> st == Good && nonBlocking && (pipe.prompt ==> pipe.input == [])
        invariant st == Good ==> clean == old(clean)
        invariant st != Good ==> !clean && st != Eof
        invariant !pipe.fault ==>
          Outcome(old(Abs())) == if st == Good then Outcome(Abs()) else Yield([], st)
        decreases |pipe.input|, !eof, st == Good && !idle
      {
        if !scanning {
          eof := true;
        } else {
          st, idle := PumpForReader();
        }
      }
    }

    /** One frame, or a glance that finds nothing; an error closes the session. */
    method PumpForReader() returns (st: Status, idle: bool)
      requires AtRest() && scanning && !eof && queue.Contents() == []
      modifies `job, `scanning, `locked, `eof, `feeding, `nextRow, `blocks, `delivered, `clean, `pageAt, `readTo,
        pipe, queue, queue.buf
      ensures AtRest() && (queue.buf == old(queue.buf) || fresh(queue.buf))
      ensures pipe.StillFramed() && job == old(job) && delivered == old(delivered) && pageAt == old(pageAt)
      ensures cancelled == old(cancelled) && nonBlocking == old(nonBlocking)
      ensures idle ==> st == Good && nonBlocking && (pipe.prompt ==> pipe.input == [])
      ensures st == Good && !idle ==> |pipe.input| < |old(pipe.input)|
      ensures st == Good ==> clean == old(clean)
      ensures st != Good ==> !clean && st != Eof
      ensures !pipe.fault ==>
        Outcome(old(Abs())) == if st == Good then Outcome(Abs()) else Yield([], st)
    {
      OutcomePumped(Abs());
      var aborted, abortStatus;
      st, idle, aborted, abortStatus := PumpOrAbandon(nonBlocking, false);
    }

    /** Hand over what is queued, or report the end of the page. */
    method TakeQueued(max: nat) returns (st: Status, data: seq<byte>)
      requires AtRest() && max > 0 && (eof || queue.Contents() != [])
      modifies `delivered, queue`pos
      ensures AtRest() && |data| <= max
      ensures st == if data == [] then Eof else Good
      ensures data != [] ==> |data| == max || queue.Contents() == []
      ensures clean ==> delivered == old(delivered) + data
      ensures clean && st == Eof ==> delivered == Flatten(Page()) && |Page()| == job.lines
      ensures ReadStep(old(Abs()), data, st, Abs())
    {
      ghost var before := Abs();
      data := TakeBytes(max);
      OutcomeTaken(before, Abs(), data);
      st := if data == [] then Eof else Good;
    }

    method TakeBytes(max: nat) returns (data: seq<byte>)
      requires AtRest()
      modifies `delivered, queue`pos
      ensures AtRest() && |data| == Min(max, |old(queue.Contents())|)
      ensures delivered == old(delivered) + data
      ensures old(queue.Contents()) == data + queue.Contents()
    {
      data := queue.Take(max);
      assert delivered + (data + queue.Contents()) == delivered + data + queue.Contents();
      delivered := delivered + data;
    }

    method SaneCancel()
      requires AtRest()
      modifies `cancelled
      ensures AtRest() && cancelled
    {
      cancelled := true;
    }

    method SaneSetIoMode(on: bool)
      requires AtRest()
      modifies `nonBlocking
      ensures AtRest() && nonBlocking == on && Abs() == old(Abs())
    {
      nonBlocking := on;
    }

    /** Nothing is owed once the handle is closed. */
    method SaneClose()
      requires AtRest()
      modifies `scanning, `locked, `feeding, `clean, pipe
      ensures PhaseOf(pipe.log) == Free && pipe.Faithful() && pipe.StillFramed()
      ensures pipe.log == if old(scanning) then Then(Then(old(pipe.log), Say(CMD_ABORT)), Say(CMD_UNLOCK)) else old(pipe.log)
      ensures !pipe.fault ==> pipe.input == EndSpec(old(Abs())).input
    {
      EndScan();
    }

    // ------------------------------------------------------------ whole runs

    /** Start, cancel, read.  Whatever the start came to and whatever fails, the read reports
        the cancel; by then the device has been given back and nothing is left to hand over. */
    method CancelAndRead(newJob: Job, max: nat) returns (st: Status, data: seq<byte>)
      requires AtRest() && newJob.Valid() && max > 0
      modifies `job, `scanning, `locked, `eof, `feeding, `nextRow, `blocks, `delivered, `clean, `pageAt, `readTo,
        `cancelled, pipe, queue, queue.buf
      ensures AtRest() && st == Cancelled && data == []
      ensures !scanning && !locked && !feeding && eof && queue.Contents() == []
      ensures PhaseOf(pipe.log) == Free && Attempts(pipe.log) == Unlocks(pipe.log)
    {
      var _ := SaneStart(newJob);
      SaneCancel();
      st, data := SaneRead(max);
      AttemptsArePaid(pipe.log);
    }

    /** Read with any sequence of lengths and modes, up to the first status that is not Good.
        Unless a transfer failed, the bytes and the status are the outcome; and even if some
        did, a page that was clean stays so until an error is reported. */
    method ReadAll(asks: seq<(nat, bool)>) returns (st: Status, data: seq<byte>)
      requires AtRest() && !cancelled
      requires forall k :: 0 <= k < |asks| ==> asks[k].0 > 0
      modifies `job, `scanning, `locked, `eof, `feeding, `nextRow, `blocks, `delivered, `clean, `pageAt, `readTo, `nonBlocking,
        pipe, queue, queue.buf
      ensures AtRest() && (queue.buf == old(queue.buf) || fresh(queue.buf)) && job == old(job)
      ensures pipe.Moved() && pageAt == old(pageAt)
      ensures !pipe.fault ==> data <= Outcome(old(Abs())).bytes
      ensures !pipe.fault && st != Good ==> Outcome(old(Abs())) == Yield(data, st)
      ensures st == Good || st == Eof ==> clean == old(clean)
      ensures clean ==> delivered == old(delivered) + data
      ensures clean && st == Eof ==> delivered == Flatten(Page()) && |Page()| == job.lines
    {
      ghost var goal, already := Outcome(Abs()), delivered;
      st, data := Good, [];
      var k := 0;
      while k < |asks| && st == Good
        invariant 0 <= k <= |asks| && AtRest() && !cancelled && job == old(job)
        invariant pipe.Moved() && pageAt == old(pageAt)
        invariant queue.buf == old(queue.buf) || fresh(queue.buf)
        invariant st == Good || st == Eof ==> clean == old(clean)
        invariant Reading(goal, already, data, st)
      {
        st, data := ReadTurn(asks[k], data, goal, already);
        k := k + 1;
      }
    }

    /** What the reads so far have brought, `already` bytes of the page having been handed over
        before them; they will come, or have come, to `goal`. */
    ghost predicate Reading(goal: Yield, already: seq<byte>, data: seq<byte>, st: Status)
      reads this, pipe, queue, queue.buf
      requires queue.Valid() && Paged()
    {
      && (clean ==> delivered == already + data)
      && (clean && st == Eof ==> delivered == Flatten(Page()) && |Page()| == job.lines)
      && (!pipe.fault ==>
            goal == if st == Good then Yield(data + Outcome(Abs()).bytes, Outcome(Abs()).st) else Yield(data, st))
    }

    /** One more read. */
    method ReadTurn(ask: (nat, bool), data: seq<byte>, ghost goal: Yield, ghost already: seq<byte>)
        returns (st: Status, more: seq<byte>)
      requires AtRest() && !cancelled && ask.0 > 0 && Reading(goal, already, data, Good)
      modifies `job, `scanning, `locked, `eof, `feeding, `nextRow, `blocks, `delivered, `clean, `pageAt, `readTo, `nonBlocking,
        pipe, queue, queue.buf
      ensures AtRest() && !cancelled && (queue.buf == old(queue.buf) || fresh(queue.buf)) && job == old(job)
      ensures pipe.Moved() && pageAt == old(pageAt)
      ensures st == Good || st == Eof ==> clean == old(clean)
      ensures Reading(goal, already, more, st)
    {
      SaneSetIoMode(ask.1);
      st, more := SaneRead(ask.0);
      InTurn(data, more, Outcome(Abs()).bytes);
      InTurn(already, data, more);
      more := data + more;
    }

    /** A page from start to end: start a job, or go on with the one that is fed, and read
        with any lengths and modes.  Whatever the device sends and whichever transfers fail on
        the way, a page that ends without an error being reported is whole: exactly
        lines times bytes per line, row after row, each row the conversion of the first block
        of pixels, in order of arrival, that reached it, or white; and all its blocks have been
        read from what the device sent meanwhile. */
    method ScanPage(newJob: Job, asks: seq<(nat, bool)>)
        returns (begun: bool, st: Status, data: seq<byte>)
      requires AtRest() && newJob.Valid()
      requires forall k :: 0 <= k < |asks| ==> asks[k].0 > 0
      modifies `job, `scanning, `locked, `eof, `feeding, `nextRow, `blocks, `delivered, `clean, `pageAt, `readTo, `cancelled, `nonBlocking,
        pipe, queue, queue.buf
      ensures AtRest() && pipe.Moved() && (!begun ==> st != Good && data == [])
      ensures begun ==> AllFromDevice(job, blocks, pipe.stream, old(pipe.at), pipe.at)
      ensures begun && (st == Good || st == Eof) ==> data <= Flatten(Page())
      ensures begun && st == Eof ==>
        && data == Flatten(Page()) && |data| == job.lines * job.BytesPerLine()
        && |Page()| == job.lines == Min(job.lines, Deepest(blocks))
      ensures begun && st == Eof ==>
        forall r :: 0 <= r < job.lines ==>
          Page()[r] == RowFrom(job, blocks[FirstReaching(blocks, r)], r)
    {
      data := [];
      st := SaneStart(newJob);
      begun := st == Good;
      if begun {
        st, data := ReadAll(asks);
        AllFromWider(job, blocks, pipe.stream, pageAt, readTo, old(pipe.at), pipe.at);
        PageRows(job, blocks);
        PageBytes(job, blocks);
        assert [] + data == data;
        if clean {
          assert data <= data + queue.Contents();
        }
      }
    }
  }

  /** What a frontend may do with an open handle. */
  datatype Request = Start(newJob: Job) | Read(max: int) | Cancel | SetIoMode(nonBlocking: bool)

  /** Any session at all: open a device, make any calls in any order, close it.  Whatever
      the device answers and whatever fails, the lock discipline holds at every point of
      the log, at the end every lock attempt has had its unlock, and unless a transfer failed
      the bytes sent are exactly the log's. */
  method Session(pipe: Pipe, job: Job, requests: seq<Request>)
    requires job.Valid() && pipe.log == NewLog && pipe.output == [] && pipe.Placed()
    requires forall k :: 0 <= k < |requests| && requests[k].Start? ==> requests[k].newJob.Valid()
    modifies pipe
    ensures Attempts(pipe.log) == Unlocks(pipe.log)
    ensures forall p :: Within(p, pipe.log) ==> PhaseOf(p) != Broken
    ensures !pipe.fault ==> pipe.output == LogBytes(pipe.log)
  {
    var h := new Handle.Open(pipe, job);
    var k := 0;
    while k < |requests|
      invariant 0 <= k <= |requests| && h.AtRest() && h.pipe == pipe
      invariant fresh(h) && fresh(h.queue) && fresh(h.queue.buf)
    {
      match requests[k] {
        case Start(newJob) => var _ := h.SaneStart(newJob);
        case Read(max) => var _, _ := h.SaneRead(max);
        case Cancel => h.SaneCancel();
        case SetIoMode(on) => h.SaneSetIoMode(on);
      }
      k := k + 1;
    }
    h.SaneClose();
    AttemptsArePaid(pipe.log);
    forall p | Within(p, pipe.log) ensures PhaseOf(p) != Broken {
      PrefixKept(pipe.log, p);
    }
  }

  /** A frame that ends the page, read behind its blocks. */
  lemma EndSeen(job: Job, blocks: seq<Block>, f: Frame, stream: seq<byte>, lo: nat, mid: nat, from: nat, to: nat)
    requires AllFromDevice(job, blocks, stream, lo, mid) && mid <= from <= to <= |stream|
    requires EndsPage(job, f) && CameFrom(f, stream[from..to])
    ensures AllFromDevice(job, blocks + [PageEnd(job)], stream, lo, to)
  {
    assert Ended(job, stream[from..to]);
    FromWider(job, PageEnd(job), stream, from, to, mid, to);
    NextFromDevice(job, blocks, PageEnd(job), stream, lo, mid, to);
  }

  /** A block whose sub-header and body have been read one behind the other. */
  lemma BlockRead(job: Job, b: Block, sub: seq<byte>, raw: seq<byte>, stream: seq<byte>,
                  lo: nat, from: nat, mid: nat, to: nat)
    requires |sub| == DATA_HEADER_LEN && lo <= from <= mid <= to <= |stream|
    requires Sub(sub, stream[from..mid]) && Sub(raw, stream[mid..to])
    requires GetBlockHead(sub).kind != DATA_JPEG && GetBlockHead(sub).planes == job.Planes()
    requires Matches(b, GetBlockHead(sub), raw)
    ensures ReadFrom(job, b, DATA_HEADER_LEN + |raw|, stream[from..to])
    ensures FromDevice(job, b, stream[lo..to])
  {
    SubNext(sub, raw, stream, from, mid, to);
    assert (sub + raw)[..DATA_HEADER_LEN] == sub && (sub + raw)[DATA_HEADER_LEN..] == raw;
    assert Carries(job, b, sub + raw);
    assert ReadFrom(job, b, DATA_HEADER_LEN + |raw|, stream[from..to]);
    FromWider(job, b, stream, from, to, lo, to);
  }

  lemma PageBytes(job: Job, blocks: seq<Block>)
    requires job.Valid() && AllUsable(job, blocks)
    ensures |Flatten(PageOf(job, blocks))| == |PageOf(job, blocks)| * job.BytesPerLine()
  {
    PageRows(job, blocks);
    FlattenSize(PageOf(job, blocks), job.BytesPerLine());
  }

  lemma KeepPumpFramed(s: Scan, report: bool)
    requires s.job.Valid()
    ensures Framed(s.input) ==> Framed(PumpSpec(s, report).s.input)
  {
    if Framed(s.input) {
      PumpStaysFramed(s, report);
    }
  }

  lemma Conserved(delivered: seq<byte>, queued: seq<byte>, page: seq<seq<byte>>, longer: seq<seq<byte>>)
    requires delivered + queued == Flatten(page) && page <= longer
    ensures delivered + (queued + Flatten(longer[|page|..])) == Flatten(longer)
  {
    FlattenGrown(page, longer);
    var more := Flatten(longer[|page|..]);
    assert delivered + (queued + more) == delivered + queued + more;
  }

  /** Bytes queued for the rows from a to b and then from b to c. */
  lemma FlattenGrownTwice(q: seq<byte>, a: seq<seq<byte>>, b: seq<seq<byte>>, c: seq<seq<byte>>)
    requires a <= b <= c
    ensures q + Flatten(b[|a|..]) + Flatten(c[|b|..]) == q + Flatten(c[|a|..])
  {
    FlattenGrown(b[|a|..], c[|a|..]);
    assert c[|a|..][|b[|a|..]|..] == c[|b|..];
    var first, second := Flatten(b[|a|..]), Flatten(c[|b|..]);
    assert q + first + second == q + (first + second);
  }

  lemma OneRowMore(q: seq<byte>, now: seq<seq<byte>>, row: seq<byte>)
    ensures q + Flatten((now + [row])[|now|..]) == q + row
    ensures q + Flatten(now[|now|..]) == q
  {
  }

  lemma PageGrew(job: Job, blocks: seq<Block>, b: Block)
    requires job.Valid() && AllUsable(job, blocks) && Usable(job, b)
    ensures AllUsable(job, blocks + [b])
    ensures PageOf(job, blocks + [b]) == Extend(job, PageOf(job, blocks), b)
  {
  }
}
