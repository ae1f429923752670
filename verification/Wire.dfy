/** The framed protocol over the bulk pipe.

    The device is the bytes it will still send, plus an adversary that splits them into
    transfers, stays silent, or fails.  Each operation has a specification that looks at
    the bytes alone, and meets it whatever the splitting, as long as no transfer is at
    fault.  What counts as a fault is settled by the transfers and by nothing else. */
module Wire {
  import opened Bytes

  datatype Status =
    Good | Unsupported | Cancelled | DeviceBusy | Inval | Eof | Jammed | NoDocs | CoverOpen | IoError

  const MAGIC := 0x41535001
  const HEADER_LEN := 32
  const MAX_PAYLOAD := 64 * 1024 * 1024
  const SETTINGS_LEN := 100
  const COMMAND_MAX_SKIP := 4

  const CMD_LOCK := 0x00
  const CMD_UNLOCK := 0x01
  const CMD_START := 0x02
  const CMD_ABORT := 0x03
  const CMD_GET_SETTINGS := 0x06
  const CMD_SET_SETTINGS := 0x07
  const CMD_SET_DEFAULTS := 0x08
  const CMD_ADF_STATUS := 0x0f
  const EVT_ABORTED := 0x04
  const EVT_DATA := 0x05
  const EVT_JOB_END := 0x0c
  const EVT_PAGE_END := 0x0e

  function MapStatus(status: word): Status {
    match status
    case 0 => Good
    case 2 => DeviceBusy
    case 5 => NoDocs
    case 6 => Jammed
    case 7 => Jammed
    case 8 => CoverOpen
    case _ => IoError
  }

  datatype Frame = Frame(cmd: word, arg0: word, status: word, plen: word)

  function Header(b: seq<byte>): Frame
    requires |b| == HEADER_LEN
  {
    var w := Words(b);
    Frame(w[1], w[2], w[4], w[5])
  }

  // ------------------------------------------------- what the bytes call for

  /** A status, what was obtained, and the bytes still to come. */
  datatype Got<T> = Got(st: Status, value: T, rest: seq<byte>)

  /** Read len bytes, one after another; if they run out nothing is obtained. */
  function ReadSpec(input: seq<byte>, len: nat): (r: Got<seq<byte>>)
    ensures r.st == if |input| < len then IoError else Good
    ensures r.st != Good ==> r.value == [] && r.rest == []
    ensures r.st == Good ==> |r.value| == len && |r.rest| == |input| - len
    decreases |input|
  {
    if len == 0 then Got(Good, [], input)
    else if input == [] then Got(IoError, [], [])
    else WithFirst([input[0]], ReadSpec(input[1..], len - 1))
  }

  /** All of them if they are there, and nothing is left if they are not. */
  lemma {:induction false} ReadIs(input: seq<byte>, len: nat)
    ensures ReadSpec(input, len)
      == if |input| < len then Got(IoError, [], []) else Got(Good, input[..len], input[len..])
    decreases |input|
  {
    if len > 0 && input != [] {
      ReadIs(input[1..], len - 1);
      assert |input| >= len ==> [input[0]] + input[1..][..len - 1] == input[..len];
    }
  }

  /** What is read is the first part of the input, and the only one of its length. */
  lemma ReadSplits(input: seq<byte>, value: seq<byte>, rest: seq<byte>)
    requires input == value + rest
    ensures ReadSpec(input, |value|) == Got(Good, value, rest)
  {
    ReadIs(input, |value|);
  }

  /** What has been read already is put before what is read now. */
  lemma {:induction false} ReadBehind(got: seq<byte>, input: seq<byte>, len: nat)
    requires |got| <= len
    ensures ReadSpec(got + input, len) == WithFirst(got, ReadSpec(input, len - |got|))
  {
    if got == [] {
      assert got + input == input;
      NoneFirst(ReadSpec(input, len));
    } else {
      assert (got + input)[1..] == got[1..] + input;
      ReadBehind(got[1..], input, len - 1);
      OneFirst(got, ReadSpec(input, len - |got|));
    }
  }

  /** What is obtained if `got` comes first. */
  function WithFirst(got: seq<byte>, r: Got<seq<byte>>): Got<seq<byte>> {
    if r.st == Good then Got(Good, got + r.value, r.rest) else r
  }

  lemma NoneFirst(r: Got<seq<byte>>)
    ensures WithFirst([], r) == r
  {
    assert [] + r.value == r.value;
  }

  lemma OneFirst(got: seq<byte>, r: Got<seq<byte>>)
    requires got != []
    ensures WithFirst(got, r) == WithFirst([got[0]], WithFirst(got[1..], r))
  {
    var all, inTurn := got + r.value, [got[0]] + (got[1..] + r.value);
    assert all == inTurn;
    assert WithFirst(got[1..], r) == if r.st == Good then Got(Good, got[1..] + r.value, r.rest) else r;
  }

  predicate GoodHeader(b: seq<byte>)
    requires |b| == HEADER_LEN
  {
    Words(b)[0] == MAGIC && Header(b).plen <= MAX_PAYLOAD
  }

  const NoFrame := Frame(0, 0, 0, 0)

  /** f's header has been read from that piece of what the device sent. */
  ghost predicate CameFrom(f: Frame, piece: seq<byte>) {
    exists b: seq<byte> :: Sub(b, piece) && |b| == HEADER_LEN && GoodHeader(b) && f == Header(b)
  }

  lemma CameFromWider(f: Frame, stream: seq<byte>, from: nat, to: nat, from': nat, to': nat)
    requires from' <= from <= to <= to' <= |stream| && CameFrom(f, stream[from..to])
    ensures CameFrom(f, stream[from'..to'])
  {
    var b: seq<byte> :| Sub(b, stream[from..to]) && |b| == HEADER_LEN && GoodHeader(b) && f == Header(b);
    SubWider(b, stream, from, to, from', to');
  }

  function RecvSpec(input: seq<byte>): Got<Frame> {
    var head := ReadSpec(input, HEADER_LEN);
    if head.st != Good then Got(IoError, NoFrame, head.rest)
    else if !GoodHeader(head.value) then Got(IoError, NoFrame, head.rest)
    else Got(Good, Header(head.value), head.rest)
  }

  function DrainSpec(input: seq<byte>, plen: nat): Got<()> {
    var r := ReadSpec(input, plen);
    Got(r.st, (), r.rest)
  }

  /** What is left once a frame has been received and drained, or could not be. */
  function FrameDrained(input: seq<byte>): (rest: seq<byte>)
    ensures |rest| <= |input|
  {
    var f := RecvSpec(input);
    if f.st == Good then DrainSpec(f.rest, f.value.plen).rest else f.rest
  }

  /** The reply to a command: its payload and the acknowledging frame, which stays all zero
      until the command has been answered. */
  datatype Answer = Answer(answered: bool, reply: seq<byte>, ack: Frame)

  const NoAnswer := Answer(false, [], NoFrame)

  /** Finish a command whose acknowledgement f has been found. */
  function AnswerSpec(f: Frame, input: seq<byte>, want: nat): Got<Answer> {
    var body := ReadSpec(input, f.plen);
    if f.plen != 0 && want != 0 && f.plen != want then Got(IoError, NoAnswer, body.rest)
    else if f.plen == 0 && want != 0 then Got(IoError, NoAnswer, input)
    else if body.st != Good then Got(body.st, NoAnswer, body.rest)
    else Got(MapStatus(f.status), Answer(true, if want != 0 then body.value else [], f), body.rest)
  }

  /** The next frame, drained unless it answers cmd. */
  function ReplySpec(input: seq<byte>, cmd: word): Got<Frame> {
    var f := RecvSpec(input);
    if f.st != Good || f.value.cmd == cmd then f
    else
      var d := DrainSpec(f.rest, f.value.plen);
      Got(d.st, f.value, d.rest)
  }

  /** Look for the acknowledgement of cmd, having stepped over `skipped` frames. */
  function CommandSpec(input: seq<byte>, cmd: word, want: nat, skipped: nat): Got<Answer>
    requires skipped < COMMAND_MAX_SKIP
    decreases COMMAND_MAX_SKIP - skipped, input
  {
    var f := ReplySpec(input, cmd);
    if f.st != Good then Got(f.st, NoAnswer, f.rest)
    else if f.value.cmd == cmd then AnswerSpec(f.value, f.rest, want)
    else if skipped + 1 >= COMMAND_MAX_SKIP then Got(IoError, NoAnswer, f.rest)
    else CommandSpec(f.rest, cmd, want, skipped + 1)
  }

  // -------------------------------------------------------- frame boundaries

  predicate WholeFrame(input: seq<byte>) {
    && |input| >= HEADER_LEN && GoodHeader(input[..HEADER_LEN])
    && |input| >= HEADER_LEN + Header(input[..HEADER_LEN]).plen
  }

  function FirstFrame(input: seq<byte>): Frame
    requires WholeFrame(input)
  {
    Header(input[..HEADER_LEN])
  }

  /** What follows the first frame: exactly 32 + plen bytes on. */
  function AfterFrame(input: seq<byte>): (rest: seq<byte>)
    requires WholeFrame(input)
    ensures |rest| == |input| - HEADER_LEN - FirstFrame(input).plen
  {
    input[HEADER_LEN + FirstFrame(input).plen..]
  }

  /** The bytes are whole frames, one after another. */
  ghost predicate Framed(input: seq<byte>)
    decreases |input|
  {
    input == [] || (WholeFrame(input) && Framed(AfterFrame(input)))
  }

  /** The bytes left after k whole frames, or after all of them if there are fewer. */
  ghost function Skip(input: seq<byte>, k: nat): seq<byte>
    requires Framed(input)
    decreases k
  {
    if k == 0 || input == [] then input else Skip(AfterFrame(input), k - 1)
  }

  lemma {:induction false} SkipFramed(input: seq<byte>, k: nat)
    requires Framed(input)
    ensures Framed(Skip(input, k))
    decreases k
  {
    if k > 0 && input != [] {
      SkipFramed(AfterFrame(input), k - 1);
    }
  }

  /** Receiving a frame and draining it moves to the next boundary. */
  lemma RecvDrainSkips(input: seq<byte>)
    requires Framed(input)
    ensures RecvSpec(input).st == Good <==> input != []
    ensures input == [] ==> RecvSpec(input).rest == []
    ensures input != [] ==>
      && RecvSpec(input) == Got(Good, FirstFrame(input), input[HEADER_LEN..])
      && DrainSpec(RecvSpec(input).rest, FirstFrame(input).plen) == Got(Good, (), Skip(input, 1))
  {
    ReadIs(input, HEADER_LEN);
    if input != [] {
      ReadIs(input[HEADER_LEN..], FirstFrame(input).plen);
    }
  }

  lemma DrainedStaysFramed(input: seq<byte>)
    requires Framed(input)
    ensures FrameDrained(input) == Skip(input, 1) && Framed(FrameDrained(input))
  {
    RecvDrainSkips(input);
    SkipFramed(input, 1);
  }

  /** Frames a command reads before it stops. */
  ghost function CommandFrames(input: seq<byte>, cmd: word, skipped: nat): nat
    requires Framed(input) && skipped < COMMAND_MAX_SKIP
    decreases COMMAND_MAX_SKIP - skipped
  {
    if input == [] then 0
    else if FirstFrame(input).cmd == cmd || skipped + 1 >= COMMAND_MAX_SKIP then 1
    else 1 + CommandFrames(AfterFrame(input), cmd, skipped + 1)
  }

  /** A command consumes whole frames on every branch, a reply of the wrong length and an
      answer that never comes included, except that an unexpected empty reply is one
      frame too: at most four in all. */
  lemma {:induction false} CommandStaysFramed(input: seq<byte>, cmd: word, want: nat, skipped: nat)
    requires Framed(input) && skipped < 4
    ensures CommandSpec(input, cmd, want, skipped).rest
            == Skip(input, CommandFrames(input, cmd, skipped))
    ensures CommandFrames(input, cmd, skipped) <= 4 - skipped
    decreases 4 - skipped
  {
    RecvDrainSkips(input);
    if input != [] && FirstFrame(input).cmd != cmd && skipped < 3 {
      CommandStaysFramed(AfterFrame(input), cmd, want, skipped + 1);
    }
  }

  /** A command leaves a framed stream framed. */
  lemma KeepFramed(input: seq<byte>, cmd: word, want: nat)
    ensures Framed(input) ==> Framed(CommandSpec(input, cmd, want, 0).rest)
  {
    if Framed(input) {
      CommandStaysFramed(input, cmd, want, 0);
      SkipFramed(input, CommandFrames(input, cmd, 0));
    }
  }

  /** One of the first n frames acknowledges cmd. */
  ghost predicate AnsweredWithin(input: seq<byte>, cmd: word, n: nat)
    requires Framed(input)
    decreases n
  {
    && n > 0 && input != []
    && (FirstFrame(input).cmd == cmd || AnsweredWithin(AfterFrame(input), cmd, n - 1))
  }

  /** The first frame that acknowledges cmd. */
  ghost function FirstAnswer(input: seq<byte>, cmd: word, n: nat): Frame
    requires Framed(input) && AnsweredWithin(input, cmd, n)
    decreases n
  {
    if FirstFrame(input).cmd == cmd then FirstFrame(input) else FirstAnswer(AfterFrame(input), cmd, n - 1)
  }

  /** Stale acknowledgements are stepped over, and no further than this: the command is
      answered if and only if an answer is among the first four frames and the first such
      answer brings as many bytes as are wanted. */
  lemma {:induction false} CommandAnswered(input: seq<byte>, cmd: word, want: nat, skipped: nat)
    requires Framed(input) && skipped < 4
    ensures var got, n := CommandSpec(input, cmd, want, skipped), 4 - skipped;
      && (got.value.answered <==>
            AnsweredWithin(input, cmd, n) && (want == 0 || FirstAnswer(input, cmd, n).plen == want))
      && (got.value.answered ==>
            got.value.ack == FirstAnswer(input, cmd, n) && got.st == MapStatus(got.value.ack.status))
      && (!got.value.answered ==> got.st == IoError)
    decreases 4 - skipped
  {
    RecvDrainSkips(input);
    if input != [] && FirstFrame(input).cmd != cmd && skipped < 3 {
      CommandAnswered(AfterFrame(input), cmd, want, skipped + 1);
    }
  }

  // ------------------------------------------------------------ what is said

  type Payload = s: seq<byte> | |s| <= SETTINGS_LEN witness []

  /** A host frame: magic, command, three zero words, the length, two more, the payload. */
  function FrameBytes(cmd: word, payload: Payload): (b: seq<byte>)
    ensures |b| == HEADER_LEN + |payload|
  {
    WordBytes([MAGIC, cmd, 0, 0, 0, |payload|, 0, 0]) + payload
  }

  /** What the host does with the line: it begins an attempt at the lock, or sends a command. */
  datatype Event = Attempt | Sent(cmd: word, payload: Payload)

  function Say(cmd: word): Event { Sent(cmd, []) }

  /** Everything done with the line, the latest last. */
  datatype Log = NewLog | Then(before: Log, last: Event)

  /** The bytes of everything sent. */
  function LogBytes(log: Log): seq<byte> {
    match log
    case NewLog => []
    case Then(before, e) => LogBytes(before) + if e.Sent? then FrameBytes(e.cmd, e.payload) else []
  }

  // ---------------------------------------------------------------- the pipe

  /** `input` is what follows the first `at` bytes of a stream. */
  ghost predicate Rest(stream: seq<byte>, at: nat, input: seq<byte>)
    decreases at
  {
    if at == 0 then input == stream else stream != [] && Rest(stream[1..], at - 1, input)
  }

  lemma {:induction false} RestIsTail(stream: seq<byte>, at: nat, input: seq<byte>)
    ensures Rest(stream, at, input) <==> at <= |stream| && input == stream[at..]
    decreases at
  {
    if at > 0 && stream != [] {
      RestIsTail(stream[1..], at - 1, input);
    }
  }

  datatype Rc = Success | Timeout | Failed

  /** How an inbound transfer is waited for: not at all, while stale bytes are flushed; for a
      glance; or for as long as it takes, when so many tries have failed just before. */
  datatype Wait = Flushing | Probing | Waiting(failed: nat)

  /** An inbound transfer that no code can make good: a glance that fails, a third failed try in
      a row, bytes lost in a failed or expired one, or nothing brought where there was
      something. */
  predicate InFault(wait: Wait, want: nat, rc: Rc, got: nat, left: nat) {
    match wait
    case Flushing => false
    case Probing => rc == Failed
    case Waiting(failed) =>
      if rc == Failed then got > 0 || failed >= 2
      else (rc == Timeout && got > 0) || (got == 0 && want > 0 && left > 0)
  }

  /** The same for an outbound one. */
  predicate OutFault(failed: nat, want: nat, rc: Rc, done: nat) {
    if rc == Failed then done > 0 || failed >= 2 else rc == Timeout || (done == 0 && want > 0)
  }

  class Pipe {
    /** A glance or a flush does not fail, and where there is something to read it finds some
        of it. */
    const prompt: bool
    var input: seq<byte>
    var output: seq<byte>
    /** Everything the device will ever send, and how much of it has been taken. */
    ghost const stream: seq<byte>
    ghost var at: nat
    ghost var fault: bool
    /** Every attempt begun and every command put on the wire, or tried, in order. */
    ghost var log: Log

    constructor (bytes: seq<byte>, prompt: bool)
      ensures Placed() && input == bytes && output == [] && !fault && log == NewLog
      ensures this.prompt == prompt
    {
      this.prompt := prompt;
      input, output, fault, log := bytes, [], false, NewLog;
      stream, at := bytes, 0;
    }

    /** What is still to come is the rest of what the device sends. */
    ghost predicate Placed()
      reads this
    {
      at <= |stream| && |input| == |stream| - at && Rest(stream, at, input)
    }

    /** The stream only ever moves on, and a fault is not forgotten. */
    twostate predicate Moved()
      reads this
    {
      Placed() && old(at) <= at && (old(fault) ==> fault)
    }

    /** The bytes taken since the stream stood at `from`. */
    ghost function Taken(from: nat): seq<byte>
      reads this
      requires Placed() && from <= at
    {
      stream[from..at]
    }

    /** Unless a transfer failed, the output is what the log says. */
    ghost predicate Faithful()
      reads this
    {
      !fault ==> output == LogBytes(log)
    }

    /** Take note that the host is about to ask for the lock. */
    ghost method BeginAttempt()
      modifies `log
      ensures log == Then(old(log), Attempt) && (old(Faithful()) ==> Faithful())
    {
      log := Then(log, Attempt);
      assert LogBytes(old(log)) + [] == LogBytes(old(log));
    }

    /** The device's stream, if it was whole frames and nothing failed, still is. */
    twostate predicate StillFramed()
      reads this
    {
      Moved() && (!fault && Framed(old(input)) ==> Framed(input))
    }

    /** One inbound transfer: some prefix of what is coming, or nothing. */
    method BulkIn(want: nat, wait: Wait) returns (rc: Rc, got: seq<byte>)
      requires Placed()
      modifies `input, `at, `fault
      ensures Moved() && |got| <= want && old(input) == got + input && got == Taken(old(at))
      ensures fault <==> old(fault) || InFault(wait, want, rc, |got|, |input|)
      ensures prompt && !wait.Waiting? && want > 0 ==> rc == Success && (got == [] ==> input == [])
    {
      var least := if prompt && !wait.Waiting? && want > 0 && input != [] then 1 else 0;
      var n :| least <= n <= want && n <= |input|;
      rc := *;
      if prompt && !wait.Waiting? {
        rc := Success;
      }
      got := input[..n];
      RestIsTail(stream, at, input);
      input := input[n..];
      at := at + n;
      RestIsTail(stream, at, input);
      fault := fault || InFault(wait, want, rc, |got|, |input|);
    }

    /** One inbound transfer, tried up to three times.  A failed try is repeated into the
        same place, so what it brought is lost. */
    method BulkInRetried(want: nat) returns (rc: Rc, got: seq<byte>)
      requires Placed()
      modifies `input, `at, `fault
      ensures Moved() && |got| <= want && old(at) + |got| <= at && got == Taken(at - |got|)
      ensures !fault ==> rc != Failed && old(input) == got + input
      ensures !fault ==> (rc == Timeout ==> got == []) && (got == [] && want > 0 ==> input == [])
    {
      rc, got := Failed, [];
      var tries := 0;
      while tries < 3
        invariant tries <= 3 && rc == Failed && got == [] && Moved()
        invariant !fault ==> old(input) == input && tries < 3
      {
        rc, got := BulkIn(want, Waiting(tries));
        if rc != Failed {
          return;
        }
        got := [];
        tries := tries + 1;
      }
    }

    /** Read exactly len bytes, in as many transfers as it takes.  A fault may lose bytes, but
        what is read is what the device sent meanwhile, in order. */
    method UsbRead(len: nat) returns (st: Status, data: seq<byte>)
      requires Placed()
      modifies `input, `at, `fault
      ensures st == Good || st == IoError
      ensures Moved() && Sub(data, Taken(old(at)))
      ensures !fault ==> Got(st, data, input) == ReadSpec(old(input), len)
      ensures st == Good ==> |data| == len && old(at) + len <= at
    {
      data := [];
      while |data| < len
        invariant |data| <= len && Moved() && old(at) + |data| <= at
        invariant Sub(data, Taken(old(at)))
        invariant !fault ==> old(input) == data + input
      {
        var ok, got := ReadMore(len - |data|, data, old(at));
        if !ok {
          return IoError, [];
        }
        data := data + got;
      }
      if !fault {
        ReadSplits(old(input), data, input);
      }
      st := Good;
    }

    /** One turn of UsbRead's loop: `data` has been read since the stream stood at `from`. */
    method ReadMore(want: nat, ghost data: seq<byte>, ghost from: nat) returns (ok: bool, got: seq<byte>)
      requires Placed() && from <= at && Sub(data, Taken(from)) && want > 0
      modifies `input, `at, `fault
      ensures Moved() && |got| <= want && old(at) + |got| <= at
      ensures Sub(data + got, Taken(from))
      ensures ok ==> got != []
      ensures !fault ==> old(input) == got + input && (!ok ==> got == [] && input == [])
    {
      var rc;
      rc, got := BulkInRetried(want);
      Behind(data, got, stream, from, old(at), at);
      ok := rc == Success && |got| != 0;
    }

    /** What is read next comes behind what has been read. */
    lemma Behind(data: seq<byte>, got: seq<byte>, stream: seq<byte>, from: nat, mid: nat, to: nat)
      requires from <= mid && mid + |got| <= to <= |stream|
      requires Sub(data, stream[from..mid]) && got == stream[to - |got|..to]
      ensures Sub(data + got, stream[from..to])
    {
      SubAll(got);
      SubWider(got, stream, to - |got|, to, mid, to);
      SubNext(data, got, stream, from, mid, to);
    }

    /** One outbound transfer, when so many tries have failed just before. */
    method BulkOut(bytes: seq<byte>, failed: nat) returns (rc: Rc, n: nat)
      modifies `output, `fault
      ensures n <= |bytes| && output == old(output) + bytes[..n]
      ensures fault <==> old(fault) || OutFault(failed, |bytes|, rc, n)
    {
      n :| n <= |bytes|;
      rc := *;
      output := output + bytes[..n];
      fault := fault || OutFault(failed, |bytes|, rc, n);
    }

    /** Write all the bytes.  A failed try that got part of them out sends them again. */
    method UsbWrite(bytes: seq<byte>) returns (st: Status)
      modifies `output, `fault
      ensures st == Good || st == IoError
      ensures old(fault) ==> fault
      ensures !fault ==> st == Good && output == old(output) + bytes
    {
      var done := 0;
      while done < |bytes|
        invariant 0 <= done <= |bytes| && (old(fault) ==> fault)
        invariant !fault ==> output == old(output) + bytes[..done]
      {
        var rc, n := Failed, 0;
        var tries := 0;
        while tries < 3
          invariant 0 <= tries <= 3 && rc == Failed && (old(fault) ==> fault)
          invariant !fault ==> output == old(output) + bytes[..done] && tries < 3
        {
          rc, n := BulkOut(bytes[done..], tries);
          if rc != Failed {
            break;
          }
          tries := tries + 1;
        }
        if rc != Success || n == 0 {
          return IoError;
        }
        done := done + n;
      }
      assert bytes[..done] == bytes;
      st := Good;
    }

    /** Put a command on the wire. */
    method SendFrame(cmd: word, payload: Payload) returns (st: Status)
      modifies `output, `fault, `log
      ensures log == Then(old(log), Sent(cmd, payload)) && (old(Faithful()) ==> Faithful())
      ensures st == Good || st == IoError
      ensures old(fault) ==> fault
      ensures !fault ==> st == Good
    {
      log := Then(log, Sent(cmd, payload));
      st := UsbWrite(FrameBytes(cmd, payload));
    }

    /** Read one frame header.  A probe may come away empty, but once a byte of the header has
        come all of it is waited for. */
    method RecvFrame(probe: bool) returns (st: Status, f: Frame, idle: bool)
      requires Placed()
      modifies `input, `at, `fault
      ensures Moved() && (st == Good || st == IoError)
      ensures idle ==> probe && st == Good && input == old(input) && at == old(at) && fault == old(fault)
      ensures idle && prompt ==> input == []
      ensures !fault && !idle ==> Got(st, f, input) == RecvSpec(old(input))
      ensures st == Good && !idle ==> |input| < |old(input)| && CameFrom(f, Taken(old(at)))
    {
      f, idle := NoFrame, false;
      var buf: seq<byte> := [];
      if probe {
        var rc;
        rc, buf := BulkIn(HEADER_LEN, Probing);
        if rc == Failed {
          return IoError, f, idle;
        }
        if |buf| == 0 {
          return Good, f, true;
        }
      }
      assert !fault ==> buf + input == old(input);
      st, buf := CompleteHeader(buf, at - |buf|);
      if st != Good {
        return;
      }
      if Words(buf)[0] != MAGIC {
        return IoError, f, idle;
      }
      var frame := Header(buf);
      if frame.plen > MAX_PAYLOAD {
        return IoError, f, idle;
      }
      return Good, frame, idle;
    }

    /** The rest of a header of which `got` has come since the stream stood at `from`. */
    method CompleteHeader(got: seq<byte>, ghost from: nat) returns (st: Status, head: seq<byte>)
      requires Placed() && |got| <= HEADER_LEN && from + |got| == at && got == Taken(from)
      modifies `input, `at, `fault
      ensures Moved() && (st == Good || st == IoError)
      ensures !fault ==>
        Got(st, if st == Good then head else [], input) == ReadSpec(got + old(input), HEADER_LEN)
      ensures st == Good ==> |head| == HEADER_LEN && from + HEADER_LEN <= at && Sub(head, Taken(from))
    {
      st, head := Good, got;
      SubAll(got);
      ReadBehind(got, input, HEADER_LEN);
      assert got + [] == got;
      if |got| < HEADER_LEN {
        var more;
        st, more := UsbRead(HEADER_LEN - |got|);
        SubNext(got, more, stream, from, old(at), at);
        head := got + more;
      }
    }

    /** Discard a payload, 512 bytes at a time. */
    method DrainPayload(plen: nat) returns (st: Status)
      requires Placed()
      modifies `input, `at, `fault
      ensures Moved() && (st == Good || st == IoError)
      ensures !fault ==> Got(st, (), input) == DrainSpec(old(input), plen)
    {
      var left := plen;
      ReadIs(input, plen);
      while left > 0
        invariant 0 <= left <= plen && Moved()
        invariant !fault ==> |old(input)| >= plen - left && input == old(input)[plen - left..]
      {
        var chunk := if left > 512 then 512 else left;
        var data;
        ReadIs(input, chunk);
        st, data := UsbRead(chunk);
        if st != Good {
          return;
        }
        left := left - chunk;
      }
      st := Good;
    }

    /** Receive one frame and drain it.  `st` is the status of the header, `drained` that
        of the payload. */
    method SkipFrame() returns (st: Status, f: Frame, drained: Status)
      requires Placed()
      modifies `input, `at, `fault
      ensures StillFramed()
      ensures !fault ==> input == FrameDrained(old(input))
      ensures !fault ==> st == RecvSpec(old(input)).st && f == RecvSpec(old(input)).value
      ensures st == Good ==> |input| < |old(input)|
      ensures !fault && st == Good ==> drained == DrainSpec(RecvSpec(old(input)).rest, f.plen).st
    {
      if Framed(input) {
        DrainedStaysFramed(input);
      }
      var idle;
      st, f, idle := RecvFrame(false);
      drained := st;
      if st == Good {
        drained := DrainPayload(f.plen);
      }
    }

    /** Send a command and find its answer, which is to bring `want` bytes, or may bring any
        number of them if none are wanted. */
    method Command(cmd: word, payload: Payload, want: nat) returns (st: Status, answer: Answer)
      requires Placed()
      modifies `input, `at, `output, `fault, `log
      ensures log == Then(old(log), Sent(cmd, payload)) && (old(Faithful()) ==> Faithful())
      ensures StillFramed()
      ensures !fault ==> Got(st, answer, input) == CommandSpec(old(input), cmd, want, 0)
      ensures st == Good && want > 0 ==> |answer.reply| == want
    {
      KeepFramed(input, cmd, want);
      answer := NoAnswer;
      st := SendFrame(cmd, payload);
      if st != Good {
        return;
      }
      st, answer := AwaitAnswer(cmd, want, 0);
    }

    /** Step over stale frames until one answers the command. */
    method AwaitAnswer(cmd: word, want: nat, first: nat) returns (st: Status, answer: Answer)
      requires Placed() && first < COMMAND_MAX_SKIP
      modifies `input, `at, `fault
      ensures Moved()
      ensures !fault ==> Got(st, answer, input) == CommandSpec(old(input), cmd, want, first)
      ensures st == Good && want > 0 ==> |answer.reply| == want
    {
      st, answer := AwaitGoal(cmd, want, first, CommandSpec(input, cmd, want, first));
    }

    /** So many frames have been stepped over, and the command will come to `goal`. */
    ghost predicate Due(cmd: word, want: nat, skipped: nat, goal: Got<Answer>)
      reads this
      requires skipped < COMMAND_MAX_SKIP
    {
      Placed() && (!fault ==> CommandSpec(input, cmd, want, skipped) == goal)
    }

    method AwaitGoal(cmd: word, want: nat, first: nat, ghost goal: Got<Answer>) returns (st: Status, answer: Answer)
      requires first < COMMAND_MAX_SKIP && Due(cmd, want, first, goal)
      modifies `input, `at, `fault
      ensures Moved() && (!fault ==> Got(st, answer, input) == goal)
      ensures st == Good && want > 0 ==> |answer.reply| == want
    {
      st, answer := IoError, NoAnswer;
      var skipped := first;
      var done := false;
      while !done
        invariant skipped < COMMAND_MAX_SKIP && Moved()
        invariant !done ==> Due(cmd, want, skipped, goal)
        invariant done && !fault ==> Got(st, answer, input) == goal
        invariant done && st == Good && want > 0 ==> |answer.reply| == want
        decreases COMMAND_MAX_SKIP - skipped, !done
      {
        done, st, answer := TryReply(cmd, want, skipped, goal);
        if !done {
          skipped := skipped + 1;
        }
      }
    }

    /** One turn of the loop over the frames. */
    method TryReply(cmd: word, want: nat, skipped: nat, ghost goal: Got<Answer>)
        returns (done: bool, st: Status, answer: Answer)
      requires skipped < COMMAND_MAX_SKIP && Due(cmd, want, skipped, goal)
      modifies `input, `at, `fault
      ensures Moved() && (!done ==> skipped + 1 < COMMAND_MAX_SKIP && Due(cmd, want, skipped + 1, goal))
      ensures done && !fault ==> Got(st, answer, input) == goal
      ensures done && st == Good && want > 0 ==> |answer.reply| == want
    {
      answer := NoAnswer;
      var f;
      st, f := NextReply(cmd);
      if st != Good {
        return true, st, answer;
      }
      if f.cmd == cmd {
        st, answer := ReadAnswer(f, want);
        return true, st, answer;
      }
      if skipped + 1 >= COMMAND_MAX_SKIP {
        return true, IoError, answer;
      }
      return false, st, answer;
    }

    /** The next frame; one that does not answer cmd is drained. */
    method NextReply(cmd: word) returns (st: Status, f: Frame)
      requires Placed()
      modifies `input, `at, `fault
      ensures Moved()
      ensures !fault ==> Got(st, f, input) == ReplySpec(old(input), cmd)
    {
      var idle;
      st, f, idle := RecvFrame(false);
      if st == Good && f.cmd != cmd {
        st := DrainPayload(f.plen);
      }
    }

    /** The payload of an acknowledgement and the status it carries. */
    method ReadAnswer(f: Frame, want: nat) returns (st: Status, answer: Answer)
      requires Placed()
      modifies `input, `at, `fault
      ensures Moved()
      ensures !fault ==> Got(st, answer, input) == AnswerSpec(f, old(input), want)
      ensures st == Good && want > 0 ==> |answer.reply| == want
    {
      answer := NoAnswer;
      var reply: seq<byte> := [];
      if f.plen != 0 {
        if want != 0 && f.plen != want {
          var _ := DrainPayload(f.plen);
          return IoError, answer;
        }
        if want != 0 {
          st, reply := UsbRead(want);
        } else {
          st := DrainPayload(f.plen);
        }
        if st != Good {
          return;
        }
      } else if want != 0 {
        return IoError, answer;
      }
      return MapStatus(f.status), Answer(true, reply, f);
    }
  }

  /** A frame's header as the device lays it out: the magic, the command, an argument, a word
      nobody looks at, a status, and the length of what follows. */
  lemma HeaderRead(words: seq<word>, rest: seq<byte>)
    requires |words| == 8
    ensures RecvSpec(WordBytes(words) + rest)
      == if words[0] == 0x41535001 && words[5] <= 0x400_0000
         then Got(Good, Frame(words[1], words[2], words[4], words[5]), rest)
         else Got(IoError, NoFrame, rest)
  {
    var head := WordBytes(words);
    WordsRoundTrip(words, []);
    assert head + [] == head && words + Words([]) == words;
    ReadSplits(head + rest, head, rest);
  }

  /** What each status of the device is reported as. */
  lemma StatusMeans(status: word)
    ensures MapStatus(status).Good? <==> status == 0
    ensures MapStatus(status).DeviceBusy? <==> status == 2
    ensures MapStatus(status).NoDocs? <==> status == 5
    ensures MapStatus(status).Jammed? <==> status == 6 || status == 7
    ensures MapStatus(status).CoverOpen? <==> status == 8
    ensures MapStatus(status).IoError? <==> status == 1 || status == 3 || status == 4 || status > 8
  {
  }

  /** What the host sends is itself a well-formed frame, with nothing after it: eight words,
      of which three say something, and the payload. */
  lemma SentFrameWhole(cmd: word, payload: Payload)
    ensures var b := FrameBytes(cmd, payload);
      && WholeFrame(b) && AfterFrame(b) == []
      && FirstFrame(b) == Frame(cmd, 0, 0, |payload|)
      && Words(b[..32]) == [0x41535001, cmd, 0, 0, 0, |payload|, 0, 0]
      && b[32..] == payload
  {
    var words: seq<word> := [MAGIC, cmd, 0, 0, 0, |payload|, 0, 0];
    WordsRoundTrip(words, []);
    assert WordBytes(words) + [] == FrameBytes(cmd, payload)[..HEADER_LEN];
    assert words + Words([]) == words;
  }
}
