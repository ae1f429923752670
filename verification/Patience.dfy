/** How long the host is patient: with a device that is busy, with one that takes a job and then
    refuses it, and with one that does not stop sending. */
module Patience {
  import opened Arithmetic
  import opened Bytes
  import opened ScanRows
  import opened Wire
  import opened ScanSpec
  import opened ScanStart
  import LockLog
  import opened OnTheWire

  // ----------------------------------------------------------------- the lock

  /** A frame that answers a lock request with a status. */
  ghost function LockAnswer(status: word): seq<byte> {
    WordBytes([0x41535001, 0, 0, 0, status, 0, 0, 0])
  }

  lemma LockAnswered(status: word, rest: seq<byte>)
    ensures CommandSpec(LockAnswer(status) + rest, CMD_LOCK, 0, 0)
      == Got(MapStatus(status), Answer(true, [], Frame(0, 0, status, 0)), rest)
  {
    HeaderRead([0x41535001, 0, 0, 0, status, 0, 0, 0], rest);
    ReadIs(rest, 0);
    assert rest[0..] == rest;
  }

  /** A way of asking that this frame puts off. */
  ghost predicate PutsOff(ask: seq<byte> -> Got<Answer>, frame: seq<byte>) {
    forall rest :: var r := ask(frame + rest); r.st != Good && r.value.ack.status == 2 && r.rest == rest
  }

  lemma BusyPutsOff()
    ensures PutsOff(Requested, LockAnswer(2))
  {
    forall rest
      ensures Requested(LockAnswer(2) + rest) == Got(DeviceBusy, Answer(true, [], Frame(0, 0, 2, 0)), rest)
    {
      LockAnswered(2, rest);
    }
  }

  lemma {:induction false} PatienceRunsOut(ask: seq<byte> -> Got<Answer>, part: seq<byte> -> seq<byte>,
                                           frame: seq<byte>, busy: nat, after: seq<byte>, tries: nat)
    requires PutsOff(ask, frame) && ask(after).st == Good
    ensures LockWith(ask, part, Repeated(frame, busy, after), tries)
      == if busy < tries then Got(Good, (), ask(after).rest)
         else Got(DeviceBusy, (), part(Repeated(frame, busy - tries, after)))
    decreases tries
  {
    if tries > 0 && busy > 0 {
      assert Repeated(frame, busy, after) == frame + Repeated(frame, busy - 1, after);
      PatienceRunsOut(ask, part, frame, busy - 1, after, tries - 1);
    }
  }

  /** A device that is busy a while and then gives the lock away is locked if it was busy at
      most four times; at the fifth the host gives up, and asks no more. */
  lemma LockPatience(busy: nat, rest: seq<byte>, tries: nat)
    requires tries == LockLog.LOCK_TRIES
    ensures var after := LockAnswer(0) + rest;
      LockSpec(Repeated(LockAnswer(2), busy, after), tries)
      == if busy < 5 then Got(Good, (), rest)
         else Got(DeviceBusy, (), FrameDrained(Repeated(LockAnswer(2), busy - 5, after)))
  {
    BusyPutsOff();
    LockAnswered(0, rest);
    PatienceRunsOut(Requested, Parting, LockAnswer(2), busy, LockAnswer(0) + rest, tries);
  }

  // ---------------------------------------------------------------- refusals

  /** A frame of the device: its kind, its status and its payload, and what comes after. */
  ghost function Says(cmd: word, status: word, payload: seq<byte>, rest: seq<byte>): seq<byte>
    requires |payload| <= 0x400_0000
  {
    WordBytes([0x41535001, cmd, 0, 0, status, |payload|, 0, 0]) + (payload + rest)
  }

  lemma SaysRead(cmd: word, status: word, payload: seq<byte>, rest: seq<byte>)
    requires |payload| <= 0x400_0000
    ensures RecvSpec(Says(cmd, status, payload, rest))
      == Got(Good, Frame(cmd, 0, status, |payload|), payload + rest)
    ensures ReadSpec(payload + rest, |payload|) == Got(Good, payload, rest)
    ensures FrameDrained(Says(cmd, status, payload, rest)) == rest
  {
    HeaderRead([0x41535001, cmd, 0, 0, status, |payload|, 0, 0], payload + rest);
    ReadSplits(payload + rest, payload, rest);
  }

  lemma SaysAnswer(cmd: word, payload: seq<byte>, rest: seq<byte>, want: nat)
    requires |payload| <= 0x400_0000 && (want == 0 || want == |payload|)
    ensures CommandSpec(Says(cmd, 0, payload, rest), cmd, want, 0)
      == Got(Good, Answer(true, if want == 0 then [] else payload, Frame(cmd, 0, 0, |payload|)), rest)
  {
    SaysRead(cmd, 0, payload, rest);
  }

  /** The answers that let a job without a feeder start: to the lock request (0), the defaults
      (8), the question for the settings (6), the settings (7) and the start (2). */
  ghost function Willing(reply: Settings, rest: seq<byte>): seq<byte> {
    Says(0, 0, [], Says(8, 0, [], Says(6, 0, reply, Says(7, 0, [], Says(2, 0, [], rest)))))
  }

  lemma WillingLocked(reply: Settings, rest: seq<byte>, after: seq<byte>, tries: nat)
    requires tries > 0
    ensures LockSpec(Says(0, 0, [], after), tries) == Got(Good, (), after)
  {
    SaysAnswer(0, [], after, 0);
    LockOnce(Says(0, 0, [], after), tries, CommandSpec(Says(0, 0, [], after), 0, 0, 0));
  }

  lemma WillingSetUp(reply: Settings, rest: seq<byte>)
    ensures SetupSpec(Says(8, 0, [], Says(6, 0, reply, Says(7, 0, [], Says(2, 0, [], rest)))))
      == Got(Good, reply, rest)
  {
    var d := Says(2, 0, [], rest);
    var c := Says(7, 0, [], d);
    var b := Says(6, 0, reply, c);
    SaysAnswer(8, [], b, 0);
    SaysAnswer(6, reply, c, 100);
    SaysAnswer(7, [], d, 0);
    SaysAnswer(2, [], rest, 0);
    assert WriteSpec(c) == Got(Good, (), rest);
    assert ChangeSpec(b) == Got(Good, reply, rest);
  }

  lemma WillingPrepared(reply: Settings, rest: seq<byte>, job: Job)
    requires !job.feeder
    ensures PrepareSpec(Willing(reply, rest), job) == Got(Good, reply, rest)
  {
    var a := Says(8, 0, [], Says(6, 0, reply, Says(7, 0, [], Says(2, 0, [], rest))));
    WillingLocked(reply, rest, a, LockLog.LOCK_TRIES);
    WillingSetUp(reply, rest);
    assert PaperSpec(a, job) == Got(Good, (), a);
  }

  /** A frame by its kind, its status and its payload. */
  datatype Line = Line(cmd: word, status: word, payload: Payload)

  ghost function Spoken(lines: seq<Line>, rest: seq<byte>): seq<byte> {
    if lines == [] then rest else Says(lines[0].cmd, lines[0].status, lines[0].payload, Spoken(lines[1..], rest))
  }

  /** The device lets the job start, refuses it with that status (4), and answers the unlock. */
  ghost function Refused(reply: Settings, status: word, rest: seq<byte>): seq<byte> {
    Spoken([Line(0, 0, []), Line(8, 0, []), Line(6, 0, reply), Line(7, 0, []), Line(2, 0, []),
            Line(4, status, []), Line(1, 0, [])], rest)
  }

  lemma SpokenFirst(line: Line, lines: seq<Line>, rest: seq<byte>)
    ensures Spoken([line] + lines, rest) == Says(line.cmd, line.status, line.payload, Spoken(lines, rest))
  {
    assert ([line] + lines)[1..] == lines;
  }

  lemma RefusedIs(reply: Settings, status: word, rest: seq<byte>)
    ensures Refused(reply, status, rest) == Willing(reply, Says(4, status, [], Says(1, 0, [], rest)))
  {
    var g := [Line(1, 0, [])];
    var f := [Line(4, status, [])] + g;
    var e := [Line(2, 0, [])] + f;
    var d := [Line(7, 0, [])] + e;
    var c := [Line(6, 0, reply)] + d;
    var b := [Line(8, 0, [])] + c;
    assert [Line(0, 0, [])] + b
      == [Line(0, 0, []), Line(8, 0, []), Line(6, 0, reply), Line(7, 0, []), Line(2, 0, []), Line(4, status, []),
          Line(1, 0, [])];
    SpokenFirst(Line(0, 0, []), b, rest);
    SpokenFirst(Line(8, 0, []), c, rest);
    SpokenFirst(Line(6, 0, reply), d, rest);
    SpokenFirst(Line(7, 0, []), e, rest);
    SpokenFirst(Line(2, 0, []), f, rest);
    SpokenFirst(Line(4, status, []), g, rest);
    SpokenFirst(Line(1, 0, []), [], rest);
  }

  lemma RefusalPumped(status: word, rest: seq<byte>, job: Job)
    requires job.Valid()
    ensures var s := Begun(Says(4, status, [], Says(1, 0, [], rest)), job);
      PumpSpec(s, true) == Pumped(Good, Begun(rest, job).(scanning := false, locked := false), true, status)
  {
    var after := Says(1, 0, [], rest);
    var s := Begun(Says(4, status, [], after), job);
    FrameMeans(s, [0x41535001, 4, 0, 0, status, 0, 0, 0], [], after, true);
    SaysRead(1, 0, [], rest);
  }

  lemma RefusalAwaited(status: word, rest: seq<byte>, job: Job)
    requires job.Valid()
    ensures AwaitSpec(Begun(Says(4, status, [], Says(1, 0, [], rest)), job))
      == Pumped(Good, Begun(rest, job).(scanning := false, locked := false), true, status)
  {
    var s := Begun(Says(4, status, [], Says(1, 0, [], rest)), job);
    RefusalPumped(status, rest, job);
    AwaitOnce(s, PumpSpec(s, true));
  }

  /** One attempt that is refused: of no use if the status is neither 0 nor 2, and otherwise the
      next one is made where this one ended. */
  lemma AttemptRefused(reply: Settings, status: word, rest: seq<byte>, job: Job, tries: nat)
    requires job.Valid() && !job.feeder && tries > 0
    ensures var parted := Begun(rest, job).(scanning := false, locked := false);
      JobWith(PrepareSpec, Refused(reply, status, rest), job, tries)
      == if status != 0 && status != 2 then Started(MapStatus(status), parted)
         else if tries == 1 then Started(DeviceBusy, parted)
         else JobWith(PrepareSpec, rest, job, tries - 1)
  {
    var after := Says(4, status, [], Says(1, 0, [], rest));
    RefusedIs(reply, status, rest);
    WillingPrepared(reply, after, job);
    RefusalAwaited(status, rest, job);
    var p := AttemptWith(PrepareSpec, Refused(reply, status, rest), job);
    assert p == AwaitSpec(Begun(after, job));
    JobOnce(PrepareSpec, Refused(reply, status, rest), job, tries, p);
  }

  /** The same thing so many times, and what comes after. */
  ghost function Many(again: seq<byte> -> seq<byte>, times: nat, after: seq<byte>): seq<byte> {
    if times == 0 then after else again(Many(again, times - 1, after))
  }

  /** Whatever comes after it, this takes one of the tries, and the last of them away. */
  ghost predicate CostsOne(outcome: (seq<byte>, nat) -> Started, again: seq<byte> -> seq<byte>,
                           away: seq<byte> -> Started) {
    forall rest, tries: nat | tries > 0 ::
      outcome(again(rest), tries) == if tries == 1 then away(rest) else outcome(rest, tries - 1)
  }

  lemma {:induction false} TriesRunOut(outcome: (seq<byte>, nat) -> Started, again: seq<byte> -> seq<byte>,
                                       away: seq<byte> -> Started, times: nat, after: seq<byte>, tries: nat)
    requires CostsOne(outcome, again, away) && tries > 0
    ensures outcome(Many(again, times, after), tries)
      == if times < tries then outcome(after, tries - times) else away(Many(again, times - tries, after))
  {
    if times > 0 {
      var rest := Many(again, times - 1, after);
      assert outcome(again(rest), tries) == if tries == 1 then away(rest) else outcome(rest, tries - 1);
      if tries > 1 {
        TriesRunOut(outcome, again, away, times - 1, after, tries - 1);
      }
    }
  }

  /** A start of this job, with so many tries. */
  ghost function StartOf(job: Job): (seq<byte>, nat) -> Started
    requires job.Valid()
  {
    (input: seq<byte>, tries: nat) =>
      if tries == 0 then Away(job)(input) else JobWith(PrepareSpec, input, job, tries)
  }

  ghost function Refusing(reply: Settings, status: word): seq<byte> -> seq<byte> {
    (rest: seq<byte>) => Refused(reply, status, rest)
  }

  /** The device is busy, and has been given back. */
  ghost function Away(job: Job): seq<byte> -> Started {
    (rest: seq<byte>) => Started(DeviceBusy, Begun(rest, job).(scanning := false, locked := false))
  }

  lemma StartRefused(reply: Settings, status: word, job: Job, rest: seq<byte>, tries: nat)
    requires job.Valid() && !job.feeder && (status == 0 || status == 2) && tries > 0
    ensures StartOf(job)(Refusing(reply, status)(rest), tries)
      == if tries == 1 then Away(job)(rest) else StartOf(job)(rest, tries - 1)
  {
    AttemptRefused(reply, status, rest, job, tries);
  }

  /** A device that lets the job start and then is not ready after all, with status 0 or 2,
      costs a start one of its tries. */
  lemma RefusalCostsOne(reply: Settings, status: word, job: Job)
    requires job.Valid() && !job.feeder && (status == 0 || status == 2)
    ensures CostsOne(StartOf(job), Refusing(reply, status), Away(job))
  {
    var outcome, again, away := StartOf(job), Refusing(reply, status), Away(job);
    forall rest, tries: nat | tries > 0
      ensures outcome(again(rest), tries) == if tries == 1 then away(rest) else outcome(rest, tries - 1)
    {
      StartRefused(reply, status, job, rest, tries);
    }
  }

  /** Whatever costs one of a start's tries each time it comes: if it comes at most three times
      the start goes on to what is behind it, and the fourth time it is over, with no more asked. */
  lemma FourTries(outcome: (seq<byte>, nat) -> Started, again: seq<byte> -> seq<byte>, away: seq<byte> -> Started,
                  times: nat, after: seq<byte>, tries: nat)
    requires CostsOne(outcome, again, away) && tries == JOB_TRIES
    ensures outcome(Many(again, times, after), tries)
      == if times < 4 then outcome(after, 4 - times) else away(Many(again, times - 4, after))
  {
    TriesRunOut(outcome, again, away, times, after, tries);
  }

  // ---------------------------------------------------------------- the end

  /** How many frames are swallowed: up to the end of the job (12) or a refusal (4), or all that
      come, or as many as that. */
  ghost function ToSwallow(input: seq<byte>, most: nat): (k: nat)
    requires Framed(input)
    ensures k <= most
    decreases most, input
  {
    if most == 0 || input == [] then 0
    else if FirstFrame(input).cmd == 12 || FirstFrame(input).cmd == 4 then 1
    else 1 + ToSwallow(AfterFrame(input), most - 1)
  }

  /** A way of letting frames go by: one after the other, up to the last one or as many as that. */
  ghost predicate LetsGo(flush: (seq<byte>, nat) -> seq<byte>) {
    && (forall input :: flush(input, 0) == input) && (forall most :: flush([], most) == [])
    && forall input, most: nat | most > 0 && Framed(input) && input != [] ::
         flush(input, most) == if FirstFrame(input).cmd == 12 || FirstFrame(input).cmd == 4 then AfterFrame(input)
                               else flush(AfterFrame(input), most - 1)
  }

  lemma {:induction false} LetGo(flush: (seq<byte>, nat) -> seq<byte>, input: seq<byte>, most: nat)
    requires LetsGo(flush) && Framed(input)
    ensures flush(input, most) == Skip(input, ToSwallow(input, most))
    decreases most
  {
    if most > 0 && input != [] {
      LetGo(flush, AfterFrame(input), most - 1);
    }
  }

  ghost function Flushing(): (seq<byte>, nat) -> seq<byte> { (input: seq<byte>, most: nat) => Flushed(input, most) }

  lemma FlushingOnce(input: seq<byte>, most: nat)
    requires Framed(input) && input != [] && most > 0
    ensures Flushing()(input, most)
      == if FirstFrame(input).cmd == 12 || FirstFrame(input).cmd == 4 then AfterFrame(input)
         else Flushing()(AfterFrame(input), most - 1)
  {
    RecvDrainSkips(input);
  }

  lemma FlushingEnds(input: seq<byte>, most: nat)
    ensures Flushing()(input, 0) == input && Flushing()([], most) == []
  {
  }

  lemma FlushingLetsGo(flush: (seq<byte>, nat) -> seq<byte>)
    requires flush == Flushing()
    ensures LetsGo(flush)
  {
    forall input ensures flush(input, 0) == input {
      FlushingEnds(input, 0);
    }
    forall most: nat ensures flush([], most) == [] {
      FlushingEnds([], most);
    }
    forall input, most: nat | most > 0 && Framed(input) && input != []
      ensures flush(input, most)
        == if FirstFrame(input).cmd == 12 || FirstFrame(input).cmd == 4 then AfterFrame(input)
           else flush(AfterFrame(input), most - 1)
    {
      FlushingOnce(input, most);
    }
  }

  /** A running scan is ended: the frames still on their way are swallowed up to the end of the
      job, but no more than 4096 of them, and then the answer to the unlock. */
  lemma EndSwallows(s: Scan, most: nat)
    requires most == ABORT_FRAMES && s.scanning && s.locked && Framed(s.input)
    ensures EndSpec(s)
      == s.(input := FrameDrained(Skip(s.input, ToSwallow(s.input, 4096))),
            scanning := false, locked := false, feeding := false)
  {
    FlushingLetsGo(Flushing());
    LetGo(Flushing(), s.input, most);
  }
}
