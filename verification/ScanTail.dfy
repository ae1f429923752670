/** Whatever is read of the device's stream, what is left is the rest of it: nothing is put
    back, and no step looks behind where the last one stopped. */
module ScanTail {
  import opened Bytes
  import opened ScanRows
  import opened Wire
  import opened ScanSpec

  lemma ReadTail(input: seq<byte>, len: nat)
    ensures Tail(ReadSpec(input, len).rest, input)
  {
  }

  lemma RecvTail(input: seq<byte>)
    ensures Tail(RecvSpec(input).rest, input)
  {
    ReadTail(input, HEADER_LEN);
  }

  /** A read behind what has been read before. */
  lemma ReadOn(input: seq<byte>, all: seq<byte>, len: nat)
    requires Tail(input, all)
    ensures Tail(ReadSpec(input, len).rest, all)
  {
    ReadTail(input, len);
    TailOfTail(ReadSpec(input, len).rest, input, all);
  }

  lemma DrainedTail(input: seq<byte>)
    ensures Tail(FrameDrained(input), input)
  {
    RecvTail(input);
    var f := RecvSpec(input);
    ReadOn(f.rest, input, f.value.plen);
  }

  lemma DrainOn(input: seq<byte>, all: seq<byte>)
    requires Tail(input, all)
    ensures Tail(FrameDrained(input), all)
  {
    DrainedTail(input);
    TailOfTail(FrameDrained(input), input, all);
  }

  lemma ReplyTail(input: seq<byte>, cmd: word)
    ensures Tail(ReplySpec(input, cmd).rest, input)
  {
    RecvTail(input);
    var f := RecvSpec(input);
    ReadOn(f.rest, input, f.value.plen);
  }

  lemma AnswerTail(f: Frame, input: seq<byte>, want: nat)
    ensures Tail(AnswerSpec(f, input, want).rest, input)
  {
    ReadTail(input, f.plen);
  }

  lemma {:induction false} CommandTail(input: seq<byte>, cmd: word, want: nat, skipped: nat)
    requires skipped < COMMAND_MAX_SKIP
    ensures Tail(CommandSpec(input, cmd, want, skipped).rest, input)
    decreases COMMAND_MAX_SKIP - skipped
  {
    var f := ReplySpec(input, cmd);
    ReplyTail(input, cmd);
    if f.st == Good && f.value.cmd == cmd {
      AnswerTail(f.value, f.rest, want);
      TailOfTail(AnswerSpec(f.value, f.rest, want).rest, f.rest, input);
    } else if f.st == Good && skipped + 1 < COMMAND_MAX_SKIP {
      CommandTail(f.rest, cmd, want, skipped + 1);
      TailOfTail(CommandSpec(f.rest, cmd, want, skipped + 1).rest, f.rest, input);
    }
  }

  lemma CommandOn(input: seq<byte>, all: seq<byte>, cmd: word, want: nat)
    requires Tail(input, all)
    ensures Tail(CommandSpec(input, cmd, want, 0).rest, all)
  {
    CommandTail(input, cmd, want, 0);
    TailOfTail(CommandSpec(input, cmd, want, 0).rest, input, all);
  }

  lemma UnlockedTail(s: Scan, all: seq<byte>)
    requires Tail(s.input, all)
    ensures Tail(Unlocked(s).input, all)
  {
    DrainOn(s.input, all);
  }

  lemma BodyInput(s: Scan, head: BlockHead, body: nat)
    requires s.job.Valid()
    ensures BodySpec(s, head, body).s.input == ReadSpec(s.input, body).rest
  {
  }

  /** A data frame leaves what is behind its sub-header, or behind its body as well. */
  lemma DataInput(s: Scan, plen: nat) returns (rest: seq<byte>, more: nat)
    requires s.job.Valid()
    ensures exists len: nat :: rest == ReadSpec(s.input, len).rest
    ensures DataSpec(s, plen).s.input == rest || DataSpec(s, plen).s.input == ReadSpec(rest, more).rest
  {
    var len := Min(plen, DATA_HEADER_LEN);
    var h := ReadSpec(s.input, len);
    rest, more := h.rest, plen - len;
    if plen >= DATA_HEADER_LEN && h.st == Good {
      HeadRead(s, plen, h.value, h.rest);
      BodyInput(s.(input := h.rest), GetBlockHead(h.value), more);
    }
  }

  lemma DataTail(s: Scan, plen: nat, all: seq<byte>)
    requires s.job.Valid() && Tail(s.input, all)
    ensures Tail(DataSpec(s, plen).s.input, all)
  {
    var rest, more := DataInput(s, plen);
    var len: nat :| rest == ReadSpec(s.input, len).rest;
    ReadOn(s.input, all, len);
    ReadOn(rest, all, more);
  }

  /** Any other frame is drained, and the unlock's answer behind it if there is one. */
  lemma EventInput(s: Scan, f: Frame, report: bool)
    requires s.job.Valid() && f.cmd != EVT_DATA
    ensures var rest := ReadSpec(s.input, f.plen).rest;
      FrameSpec(s, f, report).s.input == rest || FrameSpec(s, f, report).s.input == FrameDrained(rest)
  {
  }

  lemma FrameTail(s: Scan, f: Frame, report: bool, all: seq<byte>)
    requires s.job.Valid() && Tail(s.input, all)
    ensures Tail(FrameSpec(s, f, report).s.input, all)
  {
    if f.cmd == EVT_DATA {
      DataTail(s, f.plen, all);
    } else {
      ReadOn(s.input, all, f.plen);
      DrainOn(ReadSpec(s.input, f.plen).rest, all);
      EventInput(s, f, report);
    }
  }

  lemma PumpTail(s: Scan, report: bool)
    requires s.job.Valid()
    ensures Tail(PumpSpec(s, report).s.input, s.input)
  {
    RecvTail(s.input);
    var f := RecvSpec(s.input);
    if f.st == Good {
      FrameTail(s.(input := f.rest), f.value, report, s.input);
    }
  }
}
