/** How a scan begins, as a function of what the device sends: locking, asking the feeder,
    configuring and starting the job, and waiting for its first rows, with every retry. */
module ScanStart {
  import opened Arithmetic
  import opened Bytes
  import opened ScanRows
  import opened ScanPage
  import opened Wire
  import opened ScanSpec
  import opened ScanStream
  import opened ScanTail
  import opened LockLog

  const JOB_TRIES := 4
  const ABORT_FRAMES := 4096

  type Settings = s: seq<byte> | |s| == SETTINGS_LEN witness seq(100, _ => 0)

  function NoSettings(): Settings { seq(SETTINGS_LEN, _ => 0) }

  /** The settings block sent back: the words the host sets, and every other word as the
      device returned it. */
  function Patched(reply: Settings, settings: map<int, word>): Settings {
    seq(SETTINGS_LEN, i requires 0 <= i < SETTINGS_LEN =>
      if i / 4 in settings then Be32(settings[i / 4])[i % 4] else reply[i])
  }

  lemma PatchedWord(reply: Settings, settings: map<int, word>, k: nat)
    requires k < SETTINGS_LEN / 4
    ensures GetBe32(Patched(reply, settings)[4 * k..])
            == if k in settings then settings[k] else GetBe32(reply[4 * k..])
  {
  }

  // ------------------------------------------------------------ conversation

  /** Up to `tries` lock requests while the device says it is busy.  Unless one succeeds the
      lock is given back, and the answer to that is stepped over. */
  function LockSpec(input: seq<byte>, tries: nat): Got<()> { LockWith(Requested, Parting, input, tries) }

  function Requested(input: seq<byte>): Got<Answer> { CommandSpec(input, CMD_LOCK, 0, 0) }

  function Parting(input: seq<byte>): seq<byte> { FrameDrained(input) }

  /** The same, whatever a request and a parting come to. */
  function LockWith(ask: seq<byte> -> Got<Answer>, part: seq<byte> -> seq<byte>, input: seq<byte>,
                    tries: nat): Got<()>
    decreases tries, input
  {
    if tries == 0 then Got(DeviceBusy, (), part(input))
    else
      var r := ask(input);
      if r.st == Good then Got(Good, (), r.rest)
      else if r.value.ack.status != 2 then Got(r.st, (), part(r.rest))
      else LockWith(ask, part, r.rest, tries - 1)
  }

  lemma LockOnce(input: seq<byte>, tries: nat, r: Got<Answer>)
    requires tries > 0 && r == CommandSpec(input, CMD_LOCK, 0, 0)
    ensures LockSpec(input, tries)
      == if r.st == Good then Got(Good, (), r.rest)
         else if r.value.ack.status != 2 then Got(r.st, (), FrameDrained(r.rest))
         else LockSpec(r.rest, tries - 1)
  {
  }

  lemma NoTriesLeft(input: seq<byte>)
    ensures LockSpec(input, 0) == Got(DeviceBusy, (), FrameDrained(input))
  {
  }

  /** A way of asking, and of parting, that moves from frame to frame. */
  ghost predicate KeepsFrames(ask: seq<byte> -> Got<Answer>, part: seq<byte> -> seq<byte>) {
    forall input :: Framed(input) ==> Framed(ask(input).rest) && Framed(part(input))
  }

  lemma {:induction false} LockWithFramed(ask: seq<byte> -> Got<Answer>, part: seq<byte> -> seq<byte>,
                                          input: seq<byte>, tries: nat)
    requires KeepsFrames(ask, part) && Framed(input)
    ensures Framed(LockWith(ask, part, input, tries).rest)
    decreases tries
  {
    if tries > 0 {
      LockWithFramed(ask, part, ask(input).rest, tries - 1);
    }
  }

  lemma LockStaysFramed(input: seq<byte>, tries: nat)
    requires Framed(input)
    ensures Framed(LockSpec(input, tries).rest)
  {
    forall input | Framed(input) ensures Framed(Requested(input).rest) && Framed(Parting(input)) {
      KeepFramed(input, CMD_LOCK, 0);
      DrainedStaysFramed(input);
    }
    LockWithFramed(Requested, Parting, input, tries);
  }

  datatype Feeder = Feeder(st: Status, present: bool, loaded: bool, rest: seq<byte>)

  /** The feeder's frame is taken as it comes: nothing is stepped over here. */
  function AdfSpec(input: seq<byte>): Feeder {
    var f := RecvSpec(input);
    if f.st != Good then Feeder(f.st, false, false, FrameDrained(input))
    else if f.value.cmd != CMD_ADF_STATUS then Feeder(IoError, false, false, FrameDrained(input))
    else
      Feeder(Good, f.value.status == 0, f.value.status == 0 && f.value.arg0 == 1, FrameDrained(input))
  }

  /** Whether the device has a feeder, as far as can be told: it has to grant the lock at once
      and to answer the question. */
  function ProbeSpec(input: seq<byte>): Got<bool> {
    var r := CommandSpec(input, CMD_LOCK, 0, 0);
    if r.st != Good then Got(Good, false, FrameDrained(r.rest))
    else
      var adf := AdfSpec(r.rest);
      Got(Good, adf.st == Good && adf.present, FrameDrained(adf.rest))
  }

  /** A feeder job goes on only if paper is loaded. */
  function PaperSpec(input: seq<byte>, job: Job): Got<()> {
    if !job.feeder then Got(Good, (), input)
    else
      var adf := AdfSpec(input);
      var st := if adf.st != Good || adf.loaded then adf.st else if adf.present then NoDocs else Unsupported;
      Got(st, (), adf.rest)
  }

  lemma {:induction false} AnswerLength(input: seq<byte>, cmd: word, want: nat, skipped: nat)
    requires skipped < COMMAND_MAX_SKIP
    ensures var r := CommandSpec(input, cmd, want, skipped);
      r.st == Good && want > 0 ==> |r.value.reply| == want
    decreases COMMAND_MAX_SKIP - skipped
  {
    var f := ReplySpec(input, cmd);
    if f.st == Good && f.value.cmd != cmd && skipped + 1 < COMMAND_MAX_SKIP {
      AnswerLength(f.rest, cmd, want, skipped + 1);
    }
  }

  /** Defaults, then the settings block read and written back, then the start.  The value is
      the block as the device returned it. */
  function SetupSpec(input: seq<byte>): Got<Settings> {
    var a := CommandSpec(input, CMD_SET_DEFAULTS, 0, 0);
    if a.st != Good then Got(a.st, NoSettings(), a.rest) else ChangeSpec(a.rest)
  }

  function ChangeSpec(input: seq<byte>): Got<Settings> {
    var b := CommandSpec(input, CMD_GET_SETTINGS, SETTINGS_LEN, 0);
    if b.st != Good then Got(b.st, NoSettings(), b.rest)
    else
      AnswerLength(input, CMD_GET_SETTINGS, SETTINGS_LEN, 0);
      WithSettings(WriteSpec(b.rest), b.value.reply)
  }

  function WithSettings(c: Got<()>, reply: Settings): Got<Settings> { Got(c.st, reply, c.rest) }

  function WriteSpec(input: seq<byte>): Got<()> {
    var c := CommandSpec(input, CMD_SET_SETTINGS, 0, 0);
    if c.st != Good then Got(c.st, (), c.rest)
    else
      var d := CommandSpec(c.rest, CMD_START, 0, 0);
      Got(d.st, (), d.rest)
  }

  /** What is done under the lock; the lock is given back unless all of it succeeds. */
  function ConfigureSpec(input: seq<byte>, job: Job): Got<Settings> {
    var paper := PaperSpec(input, job);
    if paper.st != Good then Got(paper.st, NoSettings(), FrameDrained(paper.rest))
    else
      var s := SetupSpec(paper.rest);
      Got(s.st, s.value, if s.st == Good then s.rest else FrameDrained(s.rest))
  }

  /** Everything up to the start. */
  function PrepareSpec(input: seq<byte>, job: Job): Got<Settings> {
    var locked := LockSpec(input, LOCK_TRIES);
    if locked.st != Good then Got(locked.st, NoSettings(), locked.rest) else ConfigureSpec(locked.rest, job)
  }

  // ---------------------------------------------------------- what is said

  /** One more lock request, the k-th after the first of its attempt. */
  function AskOnce(log: Log, k: nat): Log {
    Then(if k == 0 then Then(log, Attempt) else log, Say(CMD_LOCK))
  }

  function Asked(log: Log, k: nat): Log {
    if k == 0 then log else AskOnce(Asked(log, k - 1), k - 1)
  }

  function Setup(reply: Settings, job: Job): seq<Event> { [Say(CMD_SET_DEFAULTS)] + Change(reply, job) }

  function Change(reply: Settings, job: Job): seq<Event> {
    [Say(CMD_GET_SETTINGS)] + Write(Patched(reply, job.settings))
  }

  function Write(settings: Settings): seq<Event> { [Sent(CMD_SET_SETTINGS, settings), Say(CMD_START)] }

  function Question(job: Job): seq<Event> { if job.feeder then [Say(CMD_ADF_STATUS)] else [] }

  /** The steps of a job between the lock and the first rows: the feeder is asked if the job
      needs one, the settings go back as the device returned them but for the job's own, and
      the start comes last. */
  function Steps(reply: Settings, job: Job): seq<Event> { Question(job) + Setup(reply, job) }

  function Said(log: Log, said: seq<Event>): Log {
    if said == [] then log else Then(Said(log, said[..|said| - 1]), said[|said| - 1])
  }

  /** The device is unlocked last, unless it is still locked. */
  function Parted(log: Log, locked: bool): Log { if locked then log else Then(log, Say(CMD_UNLOCK)) }

  /** One attempt: k lock requests, what was said under the lock, and the unlock unless the
      device is still locked. */
  function Script(log: Log, k: nat, said: seq<Event>, locked: bool): Log {
    Parted(Said(Asked(log, k), said), locked)
  }

  lemma SaidOne(log: Log, e: Event)
    ensures Said(log, [e]) == Then(log, e)
  {
    assert Said(log, [e][..0]) == log;
  }

  lemma {:induction false} SaidMore(log: Log, a: seq<Event>, b: seq<Event>)
    ensures Said(Said(log, a), b) == Said(log, a + b)
  {
    if b == [] {
      assert a + b == a;
    } else {
      assert (a + b)[..|a + b| - 1] == a + b[..|b| - 1];
      SaidMore(log, a, b[..|b| - 1]);
    }
  }

  lemma SaidFirst(log: Log, e: Event, more: seq<Event>)
    ensures Said(Then(log, e), more) == Said(log, [e] + more)
  {
    SaidOne(log, e);
    SaidMore(log, [e], more);
  }

  lemma {:induction false} AskedAttempts(log: Log, k: nat)
    ensures Attempts(Asked(log, k)) == Attempts(log) + if k > 0 then 1 else 0
  {
    if k > 0 {
      AskedAttempts(log, k - 1);
    }
  }

  lemma {:induction false} SaidAttempts(log: Log, said: seq<Event>)
    requires forall i :: 0 <= i < |said| ==> said[i].Sent?
    ensures Attempts(Said(log, said)) == Attempts(log)
  {
    if said != [] {
      SaidAttempts(log, said[..|said| - 1]);
    }
  }

  /** However often the lock is asked for, and however far the job gets, it is one attempt. */
  lemma ScriptAttempts(log: Log, k: nat, said: seq<Event>, locked: bool, reply: Settings, job: Job)
    requires k > 0 && said <= Steps(reply, job)
    ensures Attempts(Script(log, k, said, locked)) == Attempts(log) + 1
  {
    AskedAttempts(log, k);
    assert forall i :: 0 <= i < |said| ==> said[i] == Steps(reply, job)[i];
    SaidAttempts(Asked(log, k), said);
  }

  lemma StepsFirst(e: Event, more: seq<Event>, all: seq<Event>)
    requires more <= all
    ensures [e] + more <= [e] + all
  {
  }

  lemma MoreSteps(first: seq<Event>, more: seq<Event>, all: seq<Event>)
    requires more <= all
    ensures first + more <= first + all
  {
  }

  // ----------------------------------------------------------- the first rows

  /** A frame that could not be handled ends the session. */
  function GivenUp(p: Pumped): (q: Pumped)
    ensures q.s.job == p.s.job
  {
    if p.st != Good then p.(s := Unlocked(p.s.(scanning := false))) else p
  }

  /** Frames are taken until rows are queued, the page or the job is over, or the device has
      refused the job. */
  function AwaitSpec(s: Scan): (p: Pumped)
    requires s.job.Valid()
    ensures p.s.job == s.job
    decreases |s.input|
  {
    if !s.scanning || s.pending != [] || s.eof then Pumped(Good, s, false, 0)
    else
      PumpShrinks(s, true);
      var p := PumpSpec(s, true);
      if p.st != Good || p.aborted then GivenUp(p) else AwaitSpec(p.s)
  }

  lemma AwaitOnce(s: Scan, p: Pumped)
    requires s.job.Valid() && s.scanning && s.pending == [] && !s.eof && p == PumpSpec(s, true)
    ensures p.s.job == s.job
    ensures AwaitSpec(s)
      == if p.st != Good || p.aborted then GivenUp(p) else AwaitSpec(p.s)
  {
    PumpShrinks(s, true);
  }

  /** A scan whose job has just been started. */
  function Begun(input: seq<byte>, job: Job): Scan {
    Scan(input, job, [], [], false, true, true, false)
  }

  /** One attempt, its job prepared as `prepare` says. */
  function AttemptWith(prepare: (seq<byte>, Job) -> Got<Settings>, input: seq<byte>, job: Job): (p: Pumped)
    requires job.Valid()
    ensures p.s.job == job
  {
    var r := prepare(input, job);
    if r.st != Good then Pumped(r.st, Begun(r.rest, job).(scanning := false, locked := false), false, 0)
    else AwaitSpec(Begun(r.rest, job))
  }

  datatype Started = Started(st: Status, s: Scan)

  /** A refused job is tried again if the device is only busy. */
  predicate WorthRetrying(p: Pumped) {
    p.st == Good && p.aborted && (p.abortStatus == 0 || p.abortStatus == 2)
  }

  /** Up to `tries` attempts; only what the device sends matters to them. */
  function JobWith(prepare: (seq<byte>, Job) -> Got<Settings>, input: seq<byte>, job: Job, tries: nat): (r: Started)
    requires job.Valid() && tries > 0
    ensures r.s.job == job
    decreases tries, input
  {
    var p := AttemptWith(prepare, input, job);
    if !WorthRetrying(p) then
      Started(if p.st == Good && p.aborted then MapStatus(p.abortStatus) else p.st, p.s)
    else if tries == 1 then Started(DeviceBusy, p.s)
    else JobWith(prepare, p.s.input, job, tries - 1)
  }

  lemma JobOnce(prepare: (seq<byte>, Job) -> Got<Settings>, input: seq<byte>, job: Job, tries: nat, p: Pumped)
    requires job.Valid() && tries > 0 && p == AttemptWith(prepare, input, job)
    ensures JobWith(prepare, input, job, tries)
      == if !WorthRetrying(p) then
           Started(if p.st == Good && p.aborted then MapStatus(p.abortStatus) else p.st, p.s)
         else if tries == 1 then Started(DeviceBusy, p.s)
         else JobWith(prepare, p.s.input, job, tries - 1)
  {
  }

  /** The same job at the start of its next page. */
  function Turned(s: Scan): Scan { s.(page := [], pending := [], eof := false, feeding := false) }

  function ResumeSpec(s: Scan): (r: Started)
    requires s.job.Valid()
    ensures r.s.job == s.job
  {
    var p := AwaitSpec(Turned(s));
    if p.st != Good then Started(p.st, p.s)
    else if p.aborted then Started(if p.abortStatus != 0 then MapStatus(p.abortStatus) else NoDocs, p.s)
    else if p.s.pending == [] then Started(NoDocs, p.s)
    else Started(Good, p.s)
  }

  /** What an abort leaves of the stream: frames go by until the job's end, or too many. */
  function Flushed(input: seq<byte>, frames: nat): (rest: seq<byte>)
    ensures |rest| <= |input|
    decreases frames, input
  {
    if frames == 0 then input
    else
      var f := RecvSpec(input);
      if f.st != Good then f.rest
      else
        var d := DrainSpec(f.rest, f.value.plen);
        if d.st != Good || f.value.cmd == EVT_JOB_END || f.value.cmd == EVT_ABORTED then d.rest
        else Flushed(d.rest, frames - 1)
  }

  function EndSpec(s: Scan): (t: Scan)
    ensures t.job == s.job && !t.scanning && !t.locked && !t.feeding
  {
    Unlocked((if s.scanning then s.(input := Flushed(s.input, ABORT_FRAMES)) else s).(scanning := false))
  }

  /** sane_start. */
  function StartSpec(s: Scan, cancelled: bool, job: Job): (r: Started)
    requires s.job.Valid() && job.Valid()
    ensures r.s.job.Valid()
  {
    var now := if cancelled then EndSpec(s) else s;
    if now.feeding then ResumeSpec(now)
    else if now.scanning then Started(DeviceBusy, now)
    else JobWith(PrepareSpec, now.input, job, JOB_TRIES)
  }

  // ------------------------------------------------------ from start to end

  /** A scan at the start of its page: all its rows are still queued. */
  ghost predicate Fresh(s: Scan) {
    Sound(s) && s.pending == Flatten(s.page) && (s.eof ==> |s.page| == s.job.lines)
  }

  lemma {:induction false} AwaitFresh(s: Scan)
    requires Fresh(s) && (s.scanning || s.eof)
    ensures var p := AwaitSpec(s);
      p.st == Good && !p.aborted ==> Fresh(p.s) && (p.s.scanning || p.s.eof)
    decreases |s.input|
  {
    if s.scanning && s.pending == [] && !s.eof {
      PumpShrinks(s, true);
      PumpGrows(s, true);
      var p := PumpSpec(s, true);
      FlattenGrown(s.page, p.s.page);
      if p.st == Good && !p.aborted {
        AwaitFresh(p.s);
      }
    }
  }

  /** The frames taken while waiting are not lost on the reader. */
  lemma {:induction false} AwaitLosesNothing(s: Scan)
    requires s.job.Valid()
    ensures var p := AwaitSpec(s);
      p.st == Good && !p.aborted ==> Outcome(p.s) == Outcome(s) && FinalPage(p.s) == FinalPage(s)
    decreases |s.input|
  {
    if s.scanning && s.pending == [] && !s.eof {
      var p := PumpSpec(s, true);
      PumpShrinks(s, true);
      if p.st == Good && !p.aborted {
        OutcomePumped(s);
        SameFrame(s);
        AwaitLosesNothing(p.s);
      }
    }
  }

  lemma SameFrame(s: Scan)
    requires s.job.Valid() && s.scanning && s.pending == [] && !s.eof
    requires PumpSpec(s, true).st == Good && !PumpSpec(s, true).aborted
    ensures PumpSpec(s, true) == PumpSpec(s, false)
    ensures FinalPage(s) == FinalPage(PumpSpec(s, false).s)
  {
    assert s.(pending := []) == s;
  }

  /** Where the job that is started begins its page: what the stream holds behind the start
      command of the last attempt, all that came before having gone into the attempts that
      were refused. */
  function BeganAt(prepare: (seq<byte>, Job) -> Got<Settings>, input: seq<byte>, job: Job, tries: nat): seq<byte>
    requires job.Valid() && tries > 0
    decreases tries
  {
    var p := AttemptWith(prepare, input, job);
    if !WorthRetrying(p) || tries == 1 then prepare(input, job).rest
    else BeganAt(prepare, p.s.input, job, tries - 1)
  }

  /** A job that starts is at the start of its page, and what the reads will get of it is what
      the stream holds behind the start command of its last attempt. */
  lemma {:induction false} JobFresh(prepare: (seq<byte>, Job) -> Got<Settings>, input: seq<byte>, job: Job,
                                    tries: nat) returns (begun: Scan)
    requires job.Valid() && tries > 0
    ensures begun == Begun(BeganAt(prepare, input, job, tries), job)
    ensures var r := JobWith(prepare, input, job, tries);
      r.st == Good ==>
        && Fresh(r.s) && (r.s.scanning || r.s.eof)
        && Outcome(r.s) == Outcome(begun) && FinalPage(r.s) == FinalPage(begun)
    decreases tries
  {
    var p := AttemptWith(prepare, input, job);
    var r := prepare(input, job);
    begun := Begun(r.rest, job);
    if r.st == Good {
      AwaitFresh(begun);
      AwaitLosesNothing(begun);
    }
    if !WorthRetrying(p) {
      if p.st == Good && p.aborted {
        RefusalIsNotGood(p.abortStatus);
      }
    } else if tries > 1 {
      begun := JobFresh(prepare, p.s.input, job, tries - 1);
    }
  }

  lemma RefusalIsNotGood(status: word)
    requires status != 0
    ensures MapStatus(status) != Good
  {
  }

  // ---------------------------------------------- where the page begins

  lemma {:induction false} LockTail(input: seq<byte>, tries: nat)
    ensures Tail(LockSpec(input, tries).rest, input)
    decreases tries
  {
    if tries == 0 {
      DrainedTail(input);
    } else {
      var r := CommandSpec(input, CMD_LOCK, 0, 0);
      CommandTail(input, CMD_LOCK, 0, 0);
      DrainOn(r.rest, input);
      LockTail(r.rest, tries - 1);
      LockOnce(input, tries, r);
      TailOfTail(LockSpec(r.rest, tries - 1).rest, r.rest, input);
    }
  }

  lemma PaperTail(input: seq<byte>, job: Job)
    ensures Tail(PaperSpec(input, job).rest, input)
  {
    DrainedTail(input);
  }

  lemma SetupTail(input: seq<byte>, all: seq<byte>)
    requires Tail(input, all)
    ensures Tail(SetupSpec(input).rest, all)
  {
    CommandOn(input, all, CMD_SET_DEFAULTS, 0);
    ChangeTail(CommandSpec(input, CMD_SET_DEFAULTS, 0, 0).rest, all);
  }

  lemma ChangeTail(input: seq<byte>, all: seq<byte>)
    requires Tail(input, all)
    ensures Tail(ChangeSpec(input).rest, all)
  {
    CommandOn(input, all, CMD_GET_SETTINGS, SETTINGS_LEN);
    WriteTail(CommandSpec(input, CMD_GET_SETTINGS, SETTINGS_LEN, 0).rest, all);
  }

  lemma WriteTail(input: seq<byte>, all: seq<byte>)
    requires Tail(input, all)
    ensures Tail(WriteSpec(input).rest, all)
  {
    CommandOn(input, all, CMD_SET_SETTINGS, 0);
    CommandOn(CommandSpec(input, CMD_SET_SETTINGS, 0, 0).rest, all, CMD_START, 0);
  }

  lemma ConfigureInput(input: seq<byte>, job: Job, paper: Got<()>, setup: Got<Settings>)
    requires paper == PaperSpec(input, job) && setup == SetupSpec(paper.rest)
    ensures ConfigureSpec(input, job).rest
      == if paper.st != Good then FrameDrained(paper.rest)
         else if setup.st != Good then FrameDrained(setup.rest) else setup.rest
  {
  }

  lemma ConfigureTail(input: seq<byte>, job: Job, all: seq<byte>)
    requires Tail(input, all)
    ensures Tail(ConfigureSpec(input, job).rest, all)
  {
    var paper := PaperSpec(input, job);
    var setup := SetupSpec(paper.rest);
    PaperTail(input, job);
    TailOfTail(paper.rest, input, all);
    DrainOn(paper.rest, all);
    SetupTail(paper.rest, all);
    DrainOn(setup.rest, all);
    ConfigureInput(input, job, paper, setup);
  }

  lemma PrepareTail(input: seq<byte>, job: Job)
    ensures Tail(PrepareSpec(input, job).rest, input)
  {
    LockTail(input, LOCK_TRIES);
    ConfigureTail(LockSpec(input, LOCK_TRIES).rest, job, input);
  }

  lemma {:induction false} AwaitTail(s: Scan)
    requires s.job.Valid()
    ensures Tail(AwaitSpec(s).s.input, s.input)
    decreases |s.input|
  {
    if s.scanning && s.pending == [] && !s.eof {
      var p := PumpSpec(s, true);
      PumpTail(s, true);
      PumpShrinks(s, true);
      AwaitOnce(s, p);
      if p.st != Good || p.aborted {
        UnlockedTail(p.s.(scanning := false), s.input);
      } else {
        AwaitTail(p.s);
        TailOfTail(AwaitSpec(p.s).s.input, p.s.input, s.input);
      }
    }
  }

  lemma AttemptTail(input: seq<byte>, job: Job)
    requires job.Valid()
    ensures Tail(AttemptWith(PrepareSpec, input, job).s.input, input)
  {
    var r := PrepareSpec(input, job);
    PrepareTail(input, job);
    AwaitTail(Begun(r.rest, job));
    TailOfTail(AwaitSpec(Begun(r.rest, job)).s.input, r.rest, input);
  }

  /** The page begins at a later point of the stream than any attempt before it. */
  lemma {:induction false} BeganTail(input: seq<byte>, job: Job, tries: nat)
    requires job.Valid() && tries > 0
    ensures Tail(BeganAt(PrepareSpec, input, job, tries), input)
    decreases tries
  {
    var p := AttemptWith(PrepareSpec, input, job);
    if !WorthRetrying(p) || tries == 1 {
      PrepareTail(input, job);
    } else {
      AttemptTail(input, job);
      BeganTail(p.s.input, job, tries - 1);
      TailOfTail(BeganAt(PrepareSpec, p.s.input, job, tries - 1), p.s.input, input);
    }
  }

  lemma FlushedNext(input: seq<byte>, frames: nat) returns (rest: seq<byte>)
    requires frames > 0
    ensures Tail(rest, input)
    ensures Flushed(input, frames) == rest || Flushed(input, frames) == Flushed(rest, frames - 1)
  {
    var f := RecvSpec(input);
    RecvTail(input);
    ReadOn(f.rest, input, f.value.plen);
    rest := if f.st != Good then f.rest else DrainSpec(f.rest, f.value.plen).rest;
  }

  lemma {:induction false} FlushedTail(input: seq<byte>, frames: nat)
    ensures Tail(Flushed(input, frames), input)
    decreases frames
  {
    if frames > 0 {
      var rest := FlushedNext(input, frames);
      FlushedTail(rest, frames - 1);
      TailOfTail(Flushed(rest, frames - 1), rest, input);
    }
  }

  lemma EndTail(s: Scan)
    ensures Tail(EndSpec(s).input, s.input)
  {
    FlushedTail(s.input, ABORT_FRAMES);
    var t := if s.scanning then s.(input := Flushed(s.input, ABORT_FRAMES)) else s;
    UnlockedTail(t.(scanning := false), s.input);
  }

  /** Where a start begins its page: at once if it goes on with a fed job, or else behind the
      start command of the last attempt, once a cancelled scan has been ended. */
  function StartsAt(s: Scan, cancelled: bool, job: Job): Scan
    requires job.Valid()
  {
    var now := if cancelled then EndSpec(s) else s;
    if now.feeding then Turned(now) else Begun(BeganAt(PrepareSpec, now.input, job, JOB_TRIES), job)
  }

  lemma StartsLater(s: Scan, cancelled: bool, job: Job)
    requires job.Valid()
    ensures Tail(StartsAt(s, cancelled, job).input, s.input)
  {
    var now := if cancelled then EndSpec(s) else s;
    EndTail(s);
    BeganTail(now.input, job, JOB_TRIES);
    TailOfTail(StartsAt(s, cancelled, job).input, now.input, s.input);
  }

  /** A start that succeeds, whatever was running or refused before it, begins a page of its
      own: read to its end without an error it delivers exactly lines times bytes per line,
      and they are the page of the blocks that the device's stream brings from one point on,
      those taken while the start was waiting among them.  That point is behind the start
      command of the last attempt, so nothing of a refused attempt or of an earlier scan is
      in the page. */
  lemma StartThenReadWholePage(s: Scan, cancelled: bool, job: Job)
    requires s.job.Valid() && job.Valid() && StartSpec(s, cancelled, job).st == Good
    requires s.feeding ==> s.scanning
    ensures Tail(StartsAt(s, cancelled, job).input, s.input)
    ensures StartsAt(s, cancelled, job).job.Valid()
    ensures var t, all := StartSpec(s, cancelled, job).s, StreamBlocks(StartsAt(s, cancelled, job));
      && t.job == (if s.feeding && !cancelled then s.job else job)
      && AllUsable(t.job, all) && FinalPage(t) == PageOf(t.job, all)
      && t.pending <= Flatten(FinalPage(t))
      && (Outcome(t).st == Eof ==>
            Outcome(t).bytes == Flatten(PageOf(t.job, all))
            && |Outcome(t).bytes| == t.job.lines * t.job.BytesPerLine())
  {
    var now := if cancelled then EndSpec(s) else s;
    var t, begun := StartSpec(s, cancelled, job).s, StartsAt(s, cancelled, job);
    StartsLater(s, cancelled, job);
    if now.feeding {
      AwaitFresh(begun);
      AwaitLosesNothing(begun);
      var p := AwaitSpec(begun);
      if p.st == Good && p.aborted && p.abortStatus != 0 {
        RefusalIsNotGood(p.abortStatus);
      }
    } else {
      var fresh' := JobFresh(PrepareSpec, now.input, job, JOB_TRIES);
    }
    ReadWholePage(begun, t);
  }

  lemma ReadWholePage(begun: Scan, t: Scan)
    requires begun.job.Valid() && begun.page == [] && t.job == begun.job
    requires Fresh(t) && (t.scanning || t.eof) && FinalPage(t) == FinalPage(begun)
    ensures var all := StreamBlocks(begun);
      && AllUsable(t.job, all) && FinalPage(t) == PageOf(t.job, all)
      && t.pending <= Flatten(FinalPage(t))
      && (Outcome(t).st == Eof ==>
            Outcome(t).bytes == Flatten(PageOf(t.job, all))
            && |Outcome(t).bytes| == t.job.lines * t.job.BytesPerLine())
  {
    FinalPageOfStream(begun, []);
    assert [] + StreamBlocks(begun) == StreamBlocks(begun);
    assert [] + t.pending == t.pending;
    ReadToEndIsWholePage(t, []);
    WholePageSize(t, []);
    assert [] + Outcome(t).bytes == Outcome(t).bytes;
    FlattenGrown(t.page, FinalPage(t));
  }

  lemma {:induction false} AwaitStops(s: Scan)
    requires s.job.Valid()
    ensures var p := AwaitSpec(s);
      && p.st in {Good, IoError, Unsupported}
      && (p.st == Good && !p.aborted ==> !p.s.scanning || p.s.pending != [] || p.s.eof)
    decreases |s.input|
  {
    if s.scanning && s.pending == [] && !s.eof {
      var p := PumpSpec(s, true);
      PumpShrinks(s, true);
      PumpStatus(s);
      if p.st == Good && !p.aborted {
        AwaitStops(p.s);
      }
    }
  }

  lemma PumpStatus(s: Scan)
    requires s.job.Valid()
    ensures PumpSpec(s, true).st in {Good, IoError, Unsupported}
  {
  }

  /** The end of the paper is never reported as such: a resumed job wants for it exactly if the
      device refused the page outright.  The step that looks for an empty queue is never
      taken, because a page that is over has been padded and is queued. */
  lemma ResumeNeverRunsOut(s: Scan)
    requires s.job.Valid() && s.scanning
    ensures var p, r := AwaitSpec(Turned(s)), ResumeSpec(s);
      && (r.st == NoDocs <==> p.st == Good && p.aborted && (p.abortStatus == 0 || p.abortStatus == 5))
      && (p.st == Good && !p.aborted ==> r == Started(Good, p.s) && p.s.pending != [])
  {
    var p := AwaitSpec(Turned(s));
    AwaitStops(Turned(s));
    AwaitFresh(Turned(s));
    if p.st == Good && !p.aborted && p.s.eof {
      FlattenSize(p.s.page, s.job.BytesPerLine());
      ProductPositive(s.job.lines, s.job.BytesPerLine());
    }
  }
}
