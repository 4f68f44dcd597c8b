/**
  Poll loops: what they record, when they stop, and what they make of the value they stop at.

  A poll reads one characteristic again and again, waiting for a timer after each value it cannot use.
 */
module Polling {
  import opened Bytes
  import opened Codec
  import opened Device
  import opened Messages
  import opened Outcomes

  const MAX_POLLS := 256

  /** Extra values that a command's output poll takes for an answer. */
  datatype Accept = UnassignedMark | StatusLayout

  /** When a poll stops: at an acknowledgement, at an output, or at anything but a pending verdict. */
  datatype Rule = OnHead(code: Byte) | OnOutput(code: Byte, accept: Accept) | OnVerdict

  predicate IsUnassigned(p: seq<Byte>) { p == [0x19, 0x00] }

  predicate IsPasswordWrong(p: seq<Byte>) { p == [0x01] }

  predicate IsTrackerStatus(p: seq<Byte>) { TrackerStatusOf(p).Ok? }

  predicate Accepts(a: Accept, p: seq<Byte>) {
    if a == UnassignedMark then IsUnassigned(p) else IsTrackerStatus(p)
  }

  predicate Stops(rule: Rule, p: seq<Byte>) {
    match rule
    case OnHead(code) => HeadIs(p, code)
    case OnOutput(code, a) => HeadIs(p, code) || IsPasswordWrong(p) || Accepts(a, p)
    case OnVerdict => !HeadIs(p, 0x01)
  }

  /** How a poll ended: with an answer, a failed read, a wait that gave up, or no polls left. */
  datatype Ending =
    | Answered(payload: seq<Byte>)
    | Broke(error: Error)
    | GaveUp(payload: seq<Byte>, arm: Arm)
    | Exhausted

  /** One whole poll: the values passed over, then the ending. */
  datatype Poll = Poll(misses: seq<seq<Byte>>, end: Ending) {

    /** The accesses and waits it makes. */
    function Trace(ch: Characteristic): Log {
      Misses(ch, misses) + Tail(ch)
    }

    function Tail(ch: Characteristic): Log {
      match end
      case Answered(p) => [Read(ch, Data(p))]
      case Broke(e) => [Read(ch, Failed(e))]
      case GaveUp(p, arm) => [Read(ch, Data(p)), Wait(arm)]
      case Exhausted => []
    }

    function ReadCount(): nat {
      |misses| + if end.Exhausted? then 0 else 1
    }

    /**
      Every value passed over is one the rule does not stop at, and the answer is one it does; only the poll
      for a verdict has a deadline.
     */
    ghost predicate Obeys(rule: Rule) {
      && (forall m <- misses :: !Stops(rule, m))
      && (end.Answered? ==> Stops(rule, end.payload))
      && (end.GaveUp? ==>
            !Stops(rule, end.payload) && !end.arm.TimerFired? && (end.arm.DeadlinePassed? ==> rule.OnVerdict?))
    }

    /** At most 256 polls, and giving up for want of polls only after all of them. */
    ghost predicate WithinBudget() {
      if end.Exhausted? then |misses| == 256 else |misses| < 256
    }
  }

  function Misses(ch: Characteristic, misses: seq<seq<Byte>>): (log: Log)
    ensures |log| == 2 * |misses|
  {
    if misses == [] then []
    else Misses(ch, misses[..|misses| - 1]) + [Read(ch, Data(misses[|misses| - 1])), Wait(TimerFired)]
  }

  lemma OneMoreMiss(ch: Characteristic, misses: seq<seq<Byte>>, p: seq<Byte>)
    ensures Misses(ch, misses + [p]) == Misses(ch, misses) + [Read(ch, Data(p)), Wait(TimerFired)]
  {
    assert (misses + [p])[..|misses|] == misses;
  }

  lemma {:induction false} MissesAlternate(ch: Characteristic, misses: seq<seq<Byte>>)
    ensures forall i :: 0 <= i < |misses| ==>
              && Misses(ch, misses)[2 * i] == Read(ch, Data(misses[i]))
              && Misses(ch, misses)[2 * i + 1] == Wait(TimerFired)
  {
    if misses != [] {
      MissesAlternate(ch, misses[..|misses| - 1]);
    }
  }

  /** A poll touches no other characteristic and writes nothing. */
  lemma {:induction false} MissesOnlyRead(ch: Characteristic, misses: seq<seq<Byte>>)
    ensures forall e <- Misses(ch, misses) :: e == Wait(TimerFired) || (IsRead(e, ch) && e.result.Data?)
    ensures forall e <- Misses(ch, misses) :: IsRead(e, ch) ==> e.result.payload in misses
  {
    if misses != [] {
      MissesOnlyRead(ch, misses[..|misses| - 1]);
    }
  }

  /**
    First match: the answer of a poll is a read the rule stops at, and the rule stops at no read before
    it in the whole trace.
   */
  lemma AnswerIsFirstMatch(poll: Poll, ch: Characteristic, rule: Rule)
    requires poll.Obeys(rule) && poll.end.Answered?
    ensures var t := poll.Trace(ch);
            && t[|t| - 1] == Read(ch, Data(poll.end.payload)) && Stops(rule, poll.end.payload)
            && forall i :: 0 <= i < |t| - 1 && t[i].Read? ==> t[i].result.Data? && !Stops(rule, t[i].result.payload)
  {
    MissesOnlyRead(ch, poll.misses);
    var t := poll.Trace(ch);
    forall i | 0 <= i < |t| - 1 && t[i].Read?
      ensures t[i].result.Data? && !Stops(rule, t[i].result.payload)
    {
      assert t[i] in Misses(ch, poll.misses);
    }
  }

  /** A value that the rule stops at, wherever it stands in the trace, is the answer. */
  lemma SeenIsAnswered(poll: Poll, ch: Characteristic, rule: Rule, j: nat)
    requires poll.Obeys(rule) && j < |poll.Trace(ch)|
    requires var e := poll.Trace(ch)[j]; e.Read? && e.result.Data? && Stops(rule, e.result.payload)
    ensures poll.end == Answered(poll.Trace(ch)[j].result.payload)
  {
    MissesOnlyRead(ch, poll.misses);
    assert j >= 2 * |poll.misses| && poll.Trace(ch)[j] == poll.Tail(ch)[j - 2 * |poll.misses|];
  }

  /** How a poll ended is its last access. */
  lemma PollLast(poll: Poll, ch: Characteristic)
    requires poll.WithinBudget()
    ensures var t := poll.Trace(ch);
            && t != []
            && match poll.end
               case Answered(p) => t[|t| - 1] == Read(ch, Data(p))
               case Broke(e) => t[|t| - 1] == Read(ch, Failed(e))
               case GaveUp(_, arm) => t[|t| - 1] == Wait(arm)
               case Exhausted => t[|t| - 1] == Wait(TimerFired)
  {
    var t, tail := poll.Trace(ch), poll.Tail(ch);
    if poll.end.Exhausted? {
      MissesAlternate(ch, poll.misses);
      assert t[|t| - 1] == Misses(ch, poll.misses)[2 * (|poll.misses| - 1) + 1];
    } else {
      assert t[|t| - 1] == tail[|tail| - 1];
    }
  }

  /** A poll that found no answer read no value the rule stops at. */
  lemma NoAnswerMeansNoMatch(poll: Poll, ch: Characteristic, rule: Rule)
    requires poll.Obeys(rule) && !poll.end.Answered?
    ensures forall e <- poll.Trace(ch) :: e.Read? && e.result.Data? ==> !Stops(rule, e.result.payload)
  {
    MissesOnlyRead(ch, poll.misses);
  }

  /** The whole trace stays on one characteristic and only reads it. */
  lemma TraceOnlyReads(poll: Poll, ch: Characteristic)
    ensures forall e <- poll.Trace(ch) :: IsRead(e, ch) || e.Wait?
  {
    MissesOnlyRead(ch, poll.misses);
  }

  // ---- what a poll returns -----------------------------------------------------------------

  function StatusOf(end: Ending): Result<CommandStatus> {
    match end
    case Answered(p) => CommandStatusOf(p)
    case Broke(e) => Err(WrapContext(e))
    case GaveUp(_, _) => Err(ProtocolError)
    case Exhausted => Err(ProtocolError)
  }

  function OutputOf(code: Byte, end: Ending): Result<seq<Byte>> {
    match end
    case Answered(p) => if !HeadIs(p, code) && IsPasswordWrong(p) then Err(AuthorizationFailed) else Ok(p)
    case Broke(e) => Err(WrapContext(e))
    case GaveUp(_, _) => Err(ProtocolError)
    case Exhausted => Err(ProtocolError)
  }

  /** The verdict on a password; `context` is the error of the caller's context after a failed read. */
  function VerdictOf(end: Ending, context: Option<Error>): Result<bool> {
    match end
    case Answered(p) => if HeadIs(p, 0x02) then Ok(true) else Err(ProtocolError)
    case Broke(e) => Err(WrapContext(if context.Some? then context.value else e))
    case GaveUp(_, DeadlinePassed) => Err(AuthorizationFailed)
    case GaveUp(_, ContextDone(e)) => Err(WrapContext(e))
    case GaveUp(_, TimerFired) => Err(ProtocolError)
    case Exhausted => Err(ProtocolError)
  }

  /**
    A status comes back exactly when the first value headed by the command code carries 0x02 or 0x01,
    and then it names that command, is OK only for 0x02, and keeps two to four bytes of the value.
   */
  lemma PolledStatus(poll: Poll, code: Byte)
    requires poll.Obeys(OnHead(code))
    ensures StatusOf(poll.end).Ok? <==>
            poll.end.Answered? && code != 0 && |poll.end.payload| >= 2 && IsFlag(poll.end.payload[1])
    ensures StatusOf(poll.end).Ok? ==>
              var status, p := StatusOf(poll.end).value, poll.end.payload;
              && status.code == code && (status.ok <==> p[1] == 0x02)
              && status.raw <= p && 2 <= |status.raw| <= 4 && 0 !in status.raw
  {
    if poll.end.Answered? {
      AcknowledgementMeaning(poll.end.payload);
    }
  }

  /**
    The answer to a status request is undecodable exactly when it is headed by the request's own code:
    the poll stops at such a value, but its first byte is then no lock flag.
   */
  lemma TrackerStatusDecodes(poll: Poll)
    requires poll.Obeys(OnOutput(0x10, StatusLayout)) && OutputOf(0x10, poll.end).Ok?
    ensures TrackerStatusOf(OutputOf(0x10, poll.end).value).Err? <==> HeadIs(poll.end.payload, 0x10)
  {}

  // ---- what a log tells of an authorization -------------------------------------------------

  /** The first command-result read that is not headed by 0x01 is headed by 0x02. */
  ghost predicate Granted(log: Log) {
    exists k :: 0 <= k < |log| && GrantedAt(log, k)
  }

  predicate GrantedAt(log: Log, k: nat)
    requires k < |log|
  {
    && IsGrant(log[k])
    && forall i :: 0 <= i < k && IsRead(log[i], CommandResult) ==> IsPending(log[i].result)
  }

  predicate IsGrant(e: Event) {
    IsRead(e, CommandResult) && e.result.Data? && HeadIs(e.result.payload, 0x02)
  }

  predicate IsPending(r: ReadResult) { r.Data? && HeadIs(r.payload, 0x01) }

  /** The error told by the last access of an authorization that was not granted; no other access ends one. */
  function VerdictError(peer: Peer, log: Log): Option<Error> {
    if log == [] then None
    else
      match log[|log| - 1]
      case Write(Password, _, Some(e)) => Some(WrapContext(e))
      case Read(CommandResult, Failed(e)) =>
        Some(WrapContext(if peer.contextError(log).Some? then peer.contextError(log).value else e))
      case Read(CommandResult, Data(p)) => if HeadIs(p, 0x01) || HeadIs(p, 0x02) then None else Some(ProtocolError)
      case Wait(DeadlinePassed) => Some(AuthorizationFailed)
      case Wait(ContextDone(e)) => Some(WrapContext(e))
      case _ => None
  }

  /** Authorization succeeds exactly when some read starts with 0x02 and all reads before it with 0x01. */
  lemma AuthorizedOnlyByVerdict(before: Log, poll: Poll, context: Option<Error>)
    requires poll.Obeys(OnVerdict)
    requires forall e <- before :: !IsRead(e, CommandResult)
    ensures VerdictOf(poll.end, context).Ok? <==> Granted(before + poll.Trace(CommandResult))
  {
    var t, n := before + poll.Trace(CommandResult), |before| + 2 * |poll.misses|;
    PendingBeforeAnswer(before, poll);
    if VerdictOf(poll.end, context).Ok? {
      assert GrantedAt(t, n);
    } else {
      forall k | 0 <= k < |t|
        ensures !GrantedAt(t, k)
      {
        if k < n {
          assert IsRead(t[k], CommandResult) ==> IsPending(t[k].result);
        } else {
          assert t[k] == poll.Tail(CommandResult)[k - n];
        }
      }
    }
  }

  lemma PendingBeforeAnswer(before: Log, poll: Poll)
    requires poll.Obeys(OnVerdict)
    requires forall e <- before :: !IsRead(e, CommandResult)
    ensures var t := before + poll.Trace(CommandResult);
            forall i :: 0 <= i < |before| + 2 * |poll.misses| && IsRead(t[i], CommandResult) ==> IsPending(t[i].result)
  {
    var t, pending := before + poll.Trace(CommandResult), Misses(CommandResult, poll.misses);
    MissesOnlyRead(CommandResult, poll.misses);
    forall i | |before| <= i < |before| + 2 * |poll.misses| && IsRead(t[i], CommandResult)
      ensures IsPending(t[i].result)
    {
      assert t[i] == pending[i - |before|] && pending[i - |before|] in pending;
    }
  }

  /** And when it does not succeed, the last access tells why. */
  lemma RefusalIsTold(before: Log, poll: Poll, context: Option<Error>, peer: Peer)
    requires poll.Obeys(OnVerdict) && !poll.end.Exhausted?
    requires poll.end.Broke? ==> context == peer.contextError(before + poll.Trace(CommandResult))
    requires VerdictOf(poll.end, context).Err?
    ensures VerdictError(peer, before + poll.Trace(CommandResult)) == Some(VerdictOf(poll.end, context).error)
  {
    var t, tail := before + poll.Trace(CommandResult), poll.Tail(CommandResult);
    assert t[|t| - 1] == tail[|tail| - 1];
  }

  // ---- what a log tells of an output --------------------------------------------------------

  /** What is taken for the output of a command, besides a value headed by its code. */
  predicate IsExtra(accept: Accept, p: seq<Byte>) {
    match accept
    case UnassignedMark => p == [0x19, 0x00]
    case StatusLayout => |p| >= 4 && p[0] in {0x01, 0x02} && p[1] in {0x01, 0x02}
  }

  /** The value that a log ends with, if it ends with a successful read of a command's output. */
  function LastOutput(log: Log): Option<seq<Byte>> {
    if log == [] then None
    else
      match log[|log| - 1]
      case Read(CommandResult, Data(p)) => Some(p)
      case _ => None
  }

  /** The error told by the last access of a poll for an output that was not read. */
  function OutputError(log: Log, code: Byte): Option<Error> {
    if log == [] then None
    else
      match log[|log| - 1]
      case Read(CommandResult, Failed(e)) => Some(WrapContext(e))
      case Read(CommandResult, Data(p)) =>
        if p == [0x01] && code != 0x01 then Some(AuthorizationFailed) else None
      case Wait(ContextDone(_)) => Some(ProtocolError)
      case Wait(TimerFired) => Some(ProtocolError)
      case _ => None
  }

  /**
    An output is returned exactly when the last value read is headed by the command or is one of the extra
    ones; it is then that value, and otherwise the last access tells the error.
   */
  lemma OutputIsTold(before: Log, poll: Poll, code: Byte, accept: Accept)
    requires poll.Obeys(OnOutput(code, accept)) && poll.WithinBudget()
    ensures var t := before + poll.Trace(CommandResult);
            var r := OutputOf(code, poll.end);
            && (r.Ok? <==>
                  LastOutput(t).Some? && (HeadIs(LastOutput(t).value, code) || IsExtra(accept, LastOutput(t).value)))
            && (r.Ok? ==> Some(r.value) == LastOutput(t))
            && (r.Err? ==> OutputError(t, code) == Some(r.error))
  {
    var t, s := before + poll.Trace(CommandResult), poll.Trace(CommandResult);
    PollLast(poll, CommandResult);
    assert t[|t| - 1] == s[|s| - 1];
  }
}
