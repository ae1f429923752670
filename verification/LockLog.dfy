/** The lock discipline as a property of the host's log: an attempt at the lock asks for it at
    most five times and is paid for by one unlock, and nothing is asked of a scanner except
    under the lock. */
module LockLog {
  import opened Wire

  const LOCK_TRIES := 5

  /** Begun: an attempt has been announced.  Trying: that many requests have been made, and
      nothing else.  Held: something has been asked under the lock. */
  datatype Phase = Free | Begun | Trying(requests: nat) | Held | Broken {
    /** An unlock is owed. */
    predicate Owing() { Trying? || Held? }

    /** The log may be left like this. */
    predicate Kept() { Free? || Owing() }
  }

  function NextPhase(p: Phase, e: Event): Phase {
    match p
    case Free => if e.Attempt? then Begun else Broken
    case Begun => if e.Sent? && e.cmd == CMD_LOCK then Trying(1) else Broken
    case Trying(k) =>
      if e.Attempt? then Broken
      else if e.cmd == CMD_LOCK then (if k < LOCK_TRIES then Trying(k + 1) else Broken)
      else if e.cmd == CMD_UNLOCK then Free
      else Held
    case Held =>
      if e.Attempt? || e.cmd == CMD_LOCK then Broken else if e.cmd == CMD_UNLOCK then Free else Held
    case Broken => Broken
  }

  function PhaseOf(log: Log): Phase {
    match log
    case NewLog => Free
    case Then(before, e) => NextPhase(PhaseOf(before), e)
  }

  /** `p` is the log as it stood at some point. */
  ghost predicate Within(p: Log, log: Log) { p == log || (log.Then? && Within(p, log.before)) }

  lemma {:induction false} PrefixKept(log: Log, p: Log)
    requires PhaseOf(log) != Broken && Within(p, log)
    ensures PhaseOf(p) != Broken
  {
    if p != log {
      PrefixKept(log.before, p);
    }
  }

  function Attempts(log: Log): nat {
    match log
    case NewLog => 0
    case Then(before, e) => Attempts(before) + if e.Attempt? then 1 else 0
  }

  function Unlocks(log: Log): nat {
    match log
    case NewLog => 0
    case Then(before, e) => Unlocks(before) + if IsUnlock(e) then 1 else 0
  }

  predicate IsUnlock(e: Event) { e.Sent? && e.cmd == CMD_UNLOCK }

  predicate IsRequest(e: Event) { e.Sent? && e.cmd == CMD_LOCK }

  /** At every point of a kept log the attempts and the unlocks are level, or one attempt is
      still owed its unlock. */
  lemma {:induction false} AttemptsArePaid(log: Log)
    requires PhaseOf(log) != Broken
    ensures Attempts(log) == Unlocks(log) + if PhaseOf(log).Free? then 0 else 1
  {
    if log.Then? {
      AttemptsArePaid(log.before);
    }
  }

  /** From one attempt up to another there are as many unlocks as attempts: so between two
      attempts with none between them there is exactly one. */
  lemma OneUnlockEach(log: Log, a: Log, b: Log)
    requires PhaseOf(log) != Broken && Within(Then(a, Attempt), log) && Within(Then(b, Attempt), log)
    ensures Unlocks(b) - Unlocks(a) == Attempts(b) - Attempts(a)
  {
    PrefixKept(log, Then(a, Attempt));
    PrefixKept(log, Then(b, Attempt));
    AttemptsArePaid(a);
    AttemptsArePaid(b);
  }

  /** Nothing unlocked the device from `q` on to `p`. */
  ghost predicate LockedSince(q: Log, p: Log) {
    p == q || (p.Then? && !IsUnlock(p.last) && LockedSince(q, p.before))
  }

  /** Whatever is sent other than a lock request, START among it, is sent under a lock:
      there is a request before it and no unlock in between. */
  lemma SentUnderLock(log: Log, p: Log, e: Event) returns (q: Log)
    requires PhaseOf(log) != Broken && Within(Then(p, e), log) && e.Sent? && !IsRequest(e)
    ensures q.Then? && IsRequest(q.last) && LockedSince(q, p)
  {
    PrefixKept(log, Then(p, e));
    q := Owner(p);
  }

  lemma {:induction false} Owner(p: Log) returns (q: Log)
    requires PhaseOf(p).Owing()
    ensures q.Then? && IsRequest(q.last) && LockedSince(q, p)
  {
    if IsRequest(p.last) {
      q := p;
    } else {
      q := Owner(p.before);
    }
  }
}
