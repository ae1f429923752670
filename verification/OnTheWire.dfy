/** What passes over the wire, byte for byte, with every number written out: how the device's
    frames are taken apart, and what the host says to start a job. */
module OnTheWire {
  import opened Arithmetic
  import opened Bytes
  import opened ScanRows
  import opened ScanPage
  import opened Wire
  import opened ScanSpec
  import opened ScanStart
  import opened LockLog

  // ------------------------------------------------------------- data blocks

  /** Rows of the same length one behind the other, and fewer bytes behind them than there are
      rows: what a body of pixels looks like. */
  ghost predicate BodyOf(body: seq<byte>, lines: seq<seq<byte>>, stride: nat) {
    && (forall i :: 0 <= i < |lines| ==> |lines[i]| == stride)
    && exists slack: seq<byte> :: |slack| < |lines| && body == Flatten(lines) + slack
  }

  lemma {:induction false} LineInside(lines: seq<seq<byte>>, stride: nat, i: nat)
    requires forall k :: 0 <= k < |lines| ==> |lines[k]| == stride
    requires i < |lines|
    ensures |Flatten(lines)| == |lines| * stride
    ensures 0 <= i * stride <= (i + 1) * stride <= |Flatten(lines)|
    ensures Flatten(lines)[i * stride..(i + 1) * stride] == lines[i]
    decreases i
  {
    FlattenSize(lines, stride);
    var first, others := lines[0], Flatten(lines[1..]);
    assert Flatten(lines) == first + others;
    if i == 0 {
      Distribute(0, 1, stride);
      FlattenSize(lines[1..], stride);
    } else {
      LineInside(lines[1..], stride, i - 1);
      Distribute(i - 1, 1, stride);
      Distribute(i, 1, stride);
      FlattenSize(lines[1..], stride);
      Distribute(|lines| - 1, 1, stride);
      assert (first + others)[i * stride..(i + 1) * stride] == others[(i - 1) * stride..i * stride];
    }
  }

  /** The rows of such a body are its lines. */
  lemma LinesOfBody(body: seq<byte>, lines: seq<seq<byte>>, stride: nat)
    requires BodyOf(body, lines, stride) && lines != []
    ensures |body| / |lines| == stride
    ensures forall i :: 0 <= i < |lines| ==> BodyRow(body, |lines|, i) == lines[i]
  {
    var slack: seq<byte> :| |slack| < |lines| && body == Flatten(lines) + slack;
    FlattenSize(lines, stride);
    DivModUnique(|body|, stride, |slack|, |lines|);
    forall i | 0 <= i < |lines| ensures BodyRow(body, |lines|, i) == lines[i] {
      LineInside(lines, stride, i);
      RowInBody(|body|, |lines|, i);
    }
  }

  /** A sub-header of six words, and what the rest of the frame holds. */
  ghost predicate BlockAhead(s: Scan, head: seq<word>, body: seq<byte>, rest: seq<byte>) {
    |head| == 6 && s.input == WordBytes(head) + (body + rest)
  }

  lemma HeadAhead(s: Scan, head: seq<word>, body: seq<byte>, rest: seq<byte>)
    requires s.job.Valid() && BlockAhead(s, head, body, rest)
    ensures DataSpec(s, 24 + |body|)
      == BodySpec(s.(input := body + rest), BlockHead(head[0], head[1], head[2], head[3], head[4]), |body|)
  {
    var sub := WordBytes(head);
    WordsRoundTrip(head, []);
    assert sub + [] == sub && head + Words([]) == head;
    ReadSplits(s.input, sub, body + rest);
    HeadRead(s, 24 + |body|, sub, body + rest);
  }

  /** A block of pixels: its kind, the index of its first row, the number of its rows, its
      planes, the pixels of a row, and a word nobody looks at; then the rows.  It is taken if
      the planes are the job's, and its rows are the rows that were sent, from that index on,
      as wide as the sub-header says or as they are. */
  lemma BlockTaken(s: Scan, head: seq<word>, lines: seq<seq<byte>>, stride: nat, body: seq<byte>,
                   rest: seq<byte>)
    requires s.job.Valid() && BlockAhead(s, head, body, rest)
    requires head[0] != 0x0f && head[2] == |lines| > 0 && BodyOf(body, lines, stride)
    requires head[3] == (if s.job.format.Rgb? then 3 else 1) <= stride
    ensures var b := Block(head[1], Min(head[4], stride / head[3]), lines);
      && Usable(s.job, b)
      && var page := Extend(s.job, s.page, b);
         DataSpec(s, 24 + |body|)
         == Pumped(Good, s.(input := rest, page := page, pending := s.pending + Flatten(page[|s.page|..])),
                   false, 0)
  {
    HeadAhead(s, head, body, rest);
    LinesOfBody(body, lines, stride);
    var h := BlockHead(head[0], head[1], head[2], head[3], head[4]);
    ReadSplits(body + rest, body, rest);
    BlockUsable(s.job, BlockOf(h, body), h, body);
    assert BlockOf(h, body).rows == lines;
  }

  /** Any other block adds nothing to the page: JPEG, no rows, the wrong planes, or rows too
      short for their planes. */
  lemma BlockRefused(s: Scan, head: seq<word>, body: seq<byte>, rest: seq<byte>)
    requires s.job.Valid() && BlockAhead(s, head, body, rest)
    requires head[0] == 0x0f || head[2] == 0 || head[3] != (if s.job.format.Rgb? then 3 else 1)
      || |body| / head[2] < head[3]
    ensures DataSpec(s, 24 + |body|)
      == Pumped(if head[0] == 0x0f then Unsupported else IoError, s.(input := rest), false, 0)
  {
    HeadAhead(s, head, body, rest);
    ReadSplits(body + rest, body, rest);
  }

  // ------------------------------------------------------------------ events

  /** A frame of eight words and its payload at the front of the stream. */
  ghost predicate FrameAhead(s: Scan, words: seq<word>, payload: seq<byte>, rest: seq<byte>) {
    && |words| == 8 && words[0] == 0x41535001 && words[5] == |payload| <= 0x400_0000
    && s.input == WordBytes(words) + (payload + rest)
  }

  /** The page filled up with white rows. */
  ghost function Padded(job: Job, page: seq<seq<byte>>): seq<seq<byte>>
    requires |page| <= job.lines
  {
    page + seq(job.lines - |page|, _ => job.White())
  }

  lemma PaddedIsClosed(job: Job, page: seq<seq<byte>>)
    requires job.Valid() && |page| <= job.lines
    ensures Extend(job, page, PageEnd(job)) == Padded(job, page)
  {
    ExtendedRows(job, page, PageEnd(job));
  }

  /** A page that is over: white to its end, and all of that queued. */
  ghost function Closed(s: Scan): Scan
    requires |s.page| <= s.job.lines
  {
    s.(page := Padded(s.job, s.page),
       pending := s.pending + Flatten(Padded(s.job, s.page)[|s.page|..]), eof := true)
  }

  /** The device is given back, and the answer to that is stepped over. */
  ghost function GivenBack(s: Scan): Scan {
    s.(scanning := false, locked := false, feeding := false,
       input := if s.locked then FrameDrained(s.input) else s.input)
  }

  lemma FrameRead(s: Scan, words: seq<word>, payload: seq<byte>, rest: seq<byte>, report: bool)
    requires s.job.Valid() && FrameAhead(s, words, payload, rest)
    ensures PumpSpec(s, report)
      == FrameSpec(s.(input := payload + rest), Frame(words[1], words[2], words[4], words[5]), report)
    ensures Drained(s.(input := payload + rest), words[5]) == s.(input := rest)
    ensures DrainSpec(payload + rest, words[5]) == Got(Good, (), rest)
  {
    HeaderRead(words, payload + rest);
    ReadSplits(payload + rest, payload, rest);
  }

  /** What each kind of frame does to a scan: 5 brings rows, 4 is a refusal, 12 the end of the
      job, 14 the end of a page that is fed, and any other is passed over. */
  lemma FrameMeans(s: Scan, words: seq<word>, payload: seq<byte>, rest: seq<byte>, report: bool)
    requires Sound(s) && FrameAhead(s, words, payload, rest)
    ensures var p, t := PumpSpec(s, report), s.(input := rest);
      match words[1]
      case 5 => p == DataSpec(s.(input := payload + rest), |payload|)
      case 4 =>
        p == if report then Pumped(Good, GivenBack(t), true, words[4])
             else Pumped(if words[4] == 0 then IoError else MapStatus(words[4]), GivenBack(t), false, 0)
      case 12 => p == Pumped(Good, GivenBack(Closed(t)), false, 0)
      case 14 => p == Pumped(Good, if s.job.feeder then Closed(t).(feeding := true) else t, false, 0)
      case _ => p == Pumped(Good, t, false, 0)
  {
    FrameRead(s, words, payload, rest, report);
    PaddedIsClosed(s.job, s.page);
  }

  /** A page is over with frame 12, and with 14 if it is fed. */
  lemma PageOver(job: Job, f: Frame)
    ensures EndsPage(job, f) <==> f.cmd == 12 || (f.cmd == 14 && job.feeder)
  {
  }

  /** A frame too short for a sub-header adds nothing either. */
  lemma RuntRefused(s: Scan, payload: seq<byte>, rest: seq<byte>)
    requires s.job.Valid() && |payload| < 24 && s.input == payload + rest
    ensures DataSpec(s, |payload|) == Pumped(IoError, s.(input := rest), false, 0)
  {
    ReadSplits(s.input, payload, rest);
  }

  // ------------------------------------------------------- what the host says

  /** A frame of the host. */
  ghost function HostFrame(cmd: word, payload: Payload): seq<byte> {
    WordBytes([0x41535001, cmd, 0, 0, 0, |payload|, 0, 0]) + payload
  }

  lemma SaidOnWire(log: Log, cmd: word, payload: Payload)
    ensures LogBytes(Then(log, Sent(cmd, payload))) == LogBytes(log) + HostFrame(cmd, payload)
  {
  }

  /** The settings block with the job's words in it, and every other word as it was. */
  ghost predicate PatchedBlock(block: seq<byte>, reply: Settings, settings: map<int, word>) {
    && |block| == 100
    && forall k :: 0 <= k < 25 ==>
         GetBe32(block[4 * k..]) == if k in settings then settings[k] else GetBe32(reply[4 * k..])
  }

  /** The bytes that start a job under the lock: the feeder is asked for its paper if the job
      needs one (15), the defaults are set (8), the settings are asked for (6) and sent back (7)
      with the job's own words in them, and the job is started (2). */
  lemma StartOnTheWire(log: Log, reply: Settings, job: Job) returns (block: Payload)
    ensures PatchedBlock(block, reply, job.settings)
    ensures LogBytes(Said(log, Steps(reply, job)))
      == LogBytes(log) + (if job.feeder then HostFrame(15, []) else [])
         + HostFrame(8, []) + HostFrame(6, []) + HostFrame(7, block) + HostFrame(2, [])
  {
    block := Patched(reply, job.settings);
    BlockPatched(reply, job.settings);
    QuestionOnWire(log, job);
    FourOnWire(Said(log, Question(job)), block);
    SaidMore(log, Question(job), Setup(reply, job));
    SetupIs(reply, job);
  }

  lemma BlockPatched(reply: Settings, settings: map<int, word>)
    ensures PatchedBlock(Patched(reply, settings), reply, settings)
  {
    forall k | 0 <= k < 25
      ensures GetBe32(Patched(reply, settings)[4 * k..])
        == if k in settings then settings[k] else GetBe32(reply[4 * k..])
    {
      PatchedWord(reply, settings, k);
    }
  }

  lemma SetupIs(reply: Settings, job: Job)
    ensures Setup(reply, job) == [Say(8), Say(6), Sent(7, Patched(reply, job.settings)), Say(2)]
  {
  }

  lemma QuestionOnWire(log: Log, job: Job)
    ensures LogBytes(Said(log, Question(job))) == LogBytes(log) + if job.feeder then HostFrame(15, []) else []
  {
    if job.feeder {
      SaidOne(log, Say(15));
      SaidOnWire(log, 15, []);
    } else {
      assert LogBytes(log) + [] == LogBytes(log);
    }
  }

  lemma FourOnWire(log: Log, block: Payload)
    ensures LogBytes(Said(log, [Say(8), Say(6), Sent(7, block), Say(2)]))
      == LogBytes(log) + HostFrame(8, []) + HostFrame(6, []) + HostFrame(7, block) + HostFrame(2, [])
  {
    var l1 := Then(log, Say(8));
    var l2 := Then(l1, Say(6));
    var l3 := Then(l2, Sent(7, block));
    SaidFirst(log, Say(8), [Say(6), Sent(7, block), Say(2)]);
    SaidFirst(l1, Say(6), [Sent(7, block), Say(2)]);
    SaidFirst(l2, Sent(7, block), [Say(2)]);
    SaidOne(l3, Say(2));
    assert [Say(8)] + [Say(6), Sent(7, block), Say(2)] == [Say(8), Say(6), Sent(7, block), Say(2)];
    assert [Say(6)] + [Sent(7, block), Say(2)] == [Say(6), Sent(7, block), Say(2)];
    assert [Sent(7, block)] + [Say(2)] == [Sent(7, block), Say(2)];
    SaidOnWire(log, 8, []);
    SaidOnWire(l1, 6, []);
    SaidOnWire(l2, 7, block);
    SaidOnWire(l3, 2, []);
  }

  /** The answer about the feeder: there is one if its status is zero, and it has paper if the
      argument is one as well. */
  lemma FeederMeans(words: seq<word>, payload: seq<byte>, rest: seq<byte>)
    requires |words| == 8 && words[0] == 0x41535001 && words[5] == |payload| <= 0x400_0000
    ensures AdfSpec(WordBytes(words) + (payload + rest))
      == Feeder(if words[1] == 15 then Good else IoError, words[1] == 15 && words[4] == 0,
                words[1] == 15 && words[4] == 0 && words[2] == 1, rest)
  {
    HeaderRead(words, payload + rest);
    ReadSplits(payload + rest, payload, rest);
  }

  /** The same frame so many times, and what comes after. */
  ghost function Repeated(frame: seq<byte>, times: nat, after: seq<byte>): seq<byte> {
    if times == 0 then after else frame + Repeated(frame, times - 1, after)
  }

  lemma {:induction false} OneMore(frame: seq<byte>, times: nat)
    ensures Repeated(frame, times + 1, []) == Repeated(frame, times, []) + frame
  {
    if times == 0 {
      assert frame + [] == [] + frame;
    } else {
      OneMore(frame, times - 1);
      assert frame + (Repeated(frame, times - 1, []) + frame) == frame + Repeated(frame, times - 1, []) + frame;
    }
  }

  /** The lock is asked for by frames without a payload (0). */
  lemma {:induction false} AskedOnTheWire(log: Log, k: nat)
    ensures LogBytes(Asked(log, k)) == LogBytes(log) + Repeated(HostFrame(0, []), k, [])
  {
    if k == 0 {
      assert LogBytes(log) + [] == LogBytes(log);
    } else {
      AskedOnTheWire(log, k - 1);
      OneMore(HostFrame(0, []), k - 1);
      assert LogBytes(Asked(log, k)) == LogBytes(Asked(log, k - 1)) + HostFrame(0, []);
    }
  }

  /** A scan that is running is stopped (3) and given back (1). */
  lemma StopOnTheWire(log: Log)
    ensures LogBytes(Then(log, Say(CMD_UNLOCK))) == LogBytes(log) + HostFrame(1, [])
    ensures LogBytes(Then(Then(log, Say(CMD_ABORT)), Say(CMD_UNLOCK)))
      == LogBytes(log) + HostFrame(3, []) + HostFrame(1, [])
  {
    SaidOnWire(log, 1, []);
    SaidOnWire(log, 3, []);
    SaidOnWire(Then(log, Say(3)), 1, []);
  }
}
