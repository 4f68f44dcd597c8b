/**
  Command exchanges: one write to the command characteristic, the poll for its acknowledgement, and for
  some commands the poll for an output.
 */
module Exchange {
  import opened Bytes
  import opened Codec
  import opened Device
  import opened Messages
  import opened Outcomes
  import opened Polling

  /** How far an exchange got. */
  datatype Exchange =
    | Refused
    | NotWritten(bytes: seq<Byte>, error: Error)
    | Acknowledged(bytes: seq<Byte>, status: Poll)
    | Fetched(bytes: seq<Byte>, status: Poll, output: Poll)
  {
    function Trace(): Log {
      match this
      case Refused => []
      case NotWritten(bytes, e) => [Write(Command, bytes, Some(e))]
      case Acknowledged(bytes, status) => [Write(Command, bytes, None)] + status.Trace(Command)
      case Fetched(bytes, status, output) =>
        [Write(Command, bytes, None)] + status.Trace(Command) + output.Trace(CommandResult)
    }

    /** The exchange of one command: refused only when too long, polled by the rules for its code. */
    ghost predicate Carries(code: Byte, payload: seq<Byte>) {
      match this
      case Refused => |payload| > MAX_COMMAND_PAYLOAD
      case NotWritten(bytes, _) => |payload| <= MAX_COMMAND_PAYLOAD && bytes == [code] + payload
      case Acknowledged(bytes, status) =>
        && |payload| <= MAX_COMMAND_PAYLOAD && bytes == [code] + payload
        && status.Obeys(OnHead(code)) && status.WithinBudget()
      case Fetched(bytes, status, output) =>
        && |payload| <= MAX_COMMAND_PAYLOAD && bytes == [code] + payload
        && status.Obeys(OnHead(code)) && status.WithinBudget()
        && Executed(StatusOf(status.end)).Ok?
    }

    /** In addition, an output is polled for by its rule, and exactly after an executed command. */
    ghost predicate Fetches(code: Byte, accept: Accept) {
      && (Fetched? ==> output.Obeys(OnOutput(code, accept)) && output.WithinBudget())
      && (Acknowledged? ==> Executed(StatusOf(status.end)).Err?)
    }

    /** What a plain command returns. */
    function Status(): Result<CommandStatus> {
      match this
      case Refused => Err(InvalidInput)
      case NotWritten(_, e) => Err(WrapContext(e))
      case Acknowledged(_, status) => Executed(StatusOf(status.end))
      case Fetched(_, status, _) => Executed(StatusOf(status.end))
    }

    /** What a command with an output returns. */
    function Output(code: Byte): Result<seq<Byte>> {
      match this
      case Refused => Err(InvalidInput)
      case NotWritten(_, e) => Err(WrapContext(e))
      case Acknowledged(_, status) =>
        (match Executed(StatusOf(status.end))
         case Err(e) => Err(e)
         case Ok(_) => Err(ProtocolError))
      case Fetched(_, _, output) => OutputOf(code, output.end)
    }
  }

  /** An acknowledged command still fails when the device rejected it. */
  function Executed(r: Result<CommandStatus>): Result<CommandStatus> {
    if r.Ok? && !r.value.ok then Err(CommandRejected) else r
  }

  /** Fetching the output of an acknowledged command adds the poll for it. */
  lemma FetchAfterAck(x: Exchange, output: Poll)
    requires x.Acknowledged?
    ensures Fetched(x.bytes, x.status, output).Trace() == x.Trace() + output.Trace(CommandResult)
  {}

  // ---- what an exchange does to the command characteristic ---------------------------------

  /** The accesses to the command characteristic in a log, in order. */
  function OnCommand(log: Log): (c: Log)
    ensures |c| <= |log|
  {
    if log == [] then []
    else OnCommand(log[..|log| - 1]) + if Touches(log[|log| - 1], Command) then [log[|log| - 1]] else []
  }

  lemma {:induction false} OnCommandConcat(a: Log, b: Log)
    ensures OnCommand(a + b) == OnCommand(a) + OnCommand(b)
  {
    if b == [] {
      assert a + b == a;
    } else {
      OnCommandConcat(a, b[..|b| - 1]);
      assert (a + b)[..|a + b| - 1] == a + b[..|b| - 1];
    }
  }

  lemma {:induction false} OffCommand(log: Log)
    requires forall e <- log :: !Touches(e, Command)
    ensures OnCommand(log) == []
  {
    if log != [] {
      OffCommand(log[..|log| - 1]);
    }
  }

  /** One operation's accesses to the command characteristic: nothing, or one write and at most 256 reads. */
  ghost predicate IsBlock(c: Log) {
    c != [] ==>
      && IsWrite(c[0], Command)
      && |c| <= 1 + 256
      && forall i :: 1 <= i < |c| ==> IsRead(c[i], Command)
  }

  lemma {:induction false} MissesOnCommand(misses: seq<seq<Byte>>)
    ensures |OnCommand(Misses(Command, misses))| == |misses|
    ensures forall e <- OnCommand(Misses(Command, misses)) :: IsRead(e, Command)
  {
    if misses != [] {
      var front, last := misses[..|misses| - 1], misses[|misses| - 1];
      MissesOnCommand(front);
      OneMoreMiss(Command, front, last);
      assert front + [last] == misses;
      OnCommandConcat(Misses(Command, front), [Read(Command, Data(last)), Wait(TimerFired)]);
      ShortLogs(Read(Command, Data(last)), Wait(TimerFired));
    }
  }

  lemma ShortLogs(a: Event, b: Event)
    ensures OnCommand([a]) == if Touches(a, Command) then [a] else []
    ensures OnCommand([a, b]) == OnCommand([a]) + OnCommand([b])
  {
    assert [a, b][..1] == [a];
    OnCommandConcat([a], [b]);
    assert [a] + [b] == [a, b];
    assert [a][..0] == [] && [b][..0] == [];
  }

  lemma PollOnCommand(poll: Poll)
    requires poll.WithinBudget()
    ensures |OnCommand(poll.Trace(Command))| == poll.ReadCount() <= 256
    ensures forall e <- OnCommand(poll.Trace(Command)) :: IsRead(e, Command)
  {
    MissesOnCommand(poll.misses);
    OnCommandConcat(Misses(Command, poll.misses), poll.Tail(Command));
    TailOnCommand(poll);
  }

  lemma TailOnCommand(poll: Poll)
    ensures |OnCommand(poll.Tail(Command))| == if poll.end.Exhausted? then 0 else 1
    ensures forall e <- OnCommand(poll.Tail(Command)) :: IsRead(e, Command)
  {
    match poll.end
    case Answered(p) => ShortLogs(Read(Command, Data(p)), Close);
    case Broke(e) => ShortLogs(Read(Command, Failed(e)), Close);
    case GaveUp(p, arm) =>
      ShortLogs(Read(Command, Data(p)), Wait(arm));
      ShortLogs(Wait(arm), Close);
    case Exhausted =>
  }

  /** Every exchange is one block on the command characteristic. */
  lemma ExchangeIsOneBlock(x: Exchange, code: Byte, payload: seq<Byte>)
    requires x.Carries(code, payload)
    ensures IsBlock(OnCommand(x.Trace()))
  {
    match x
    case Refused =>
    case NotWritten(bytes, e) => ShortLogs(Write(Command, bytes, Some(e)), Close);
    case Acknowledged(bytes, status) => StatusBlock(bytes, status);
    case Fetched(bytes, status, output) =>
      StatusBlock(bytes, status);
      TraceOnlyReads(output, CommandResult);
      OffCommand(output.Trace(CommandResult));
      OnCommandConcat([Write(Command, bytes, None)] + status.Trace(Command), output.Trace(CommandResult));
  }

  lemma StatusBlock(bytes: seq<Byte>, status: Poll)
    requires status.WithinBudget()
    ensures IsBlock(OnCommand([Write(Command, bytes, None)] + status.Trace(Command)))
  {
    var w := Write(Command, bytes, None);
    ShortLogs(w, Close);
    PollOnCommand(status);
    OnCommandConcat([w], status.Trace(Command));
  }

  /** What an exchange may contain at all. */
  predicate PartOfExchange(e: Event, bytes: seq<Byte>) {
    || e.Wait?
    || IsRead(e, Command)
    || IsRead(e, CommandResult)
    || (IsWrite(e, Command) && e.payload == bytes)
  }

  lemma ExchangeEvents(x: Exchange, code: Byte, payload: seq<Byte>)
    requires x.Carries(code, payload)
    ensures forall e <- x.Trace() :: PartOfExchange(e, [code] + payload)
  {
    if x.Acknowledged? || x.Fetched? {
      TraceOnlyReads(x.status, Command);
    }
    if x.Fetched? {
      TraceOnlyReads(x.output, CommandResult);
    }
  }

  // ---- what a log tells of a command --------------------------------------------------------

  /** The command was written at w, and the first value headed by its code that was read back after it says OK. */
  ghost predicate ExecutedAt(log: Log, w: nat, code: Byte, payload: seq<Byte>)
    requires w < |log|
  {
    && log[w] == Write(Command, [code] + payload, None)
    && exists k :: w < k < |log| && AcknowledgedAt(log, w, k, code)
  }

  ghost predicate AcknowledgedAt(log: Log, w: nat, k: nat, code: Byte)
    requires w < k < |log|
  {
    && code != 0 && IsRead(log[k], Command) && log[k].result.Data?
    && |log[k].result.payload| >= 2 && log[k].result.payload[..2] == [code, 0x02]
    && forall i :: w < i < k && IsRead(log[i], Command) ==> log[i].result.Data? && !HeadIs(log[i].result.payload, code)
  }

  ghost predicate IsExecuted(log: Log, code: Byte, payload: seq<Byte>) {
    exists w :: 0 <= w < |log| && ExecutedAt(log, w, code, payload)
  }

  /** The command was at least tried. */
  ghost predicate IsTried(log: Log, code: Byte, payload: seq<Byte>) {
    exists e <- log :: IsWrite(e, Command) && e.payload == [code] + payload
  }

  /** The error told by the last access of a command that was not executed; no other access ends one. */
  function CommandError(log: Log, code: Byte, payload: seq<Byte>): Option<Error> {
    if log == [] then None
    else
      match log[|log| - 1]
      case Write(Command, bytes, Some(e)) => if bytes == [code] + payload then Some(WrapContext(e)) else None
      case Read(Command, Failed(e)) => Some(WrapContext(e))
      case Read(Command, Data(p)) =>
        if !HeadIs(p, code) then None
        else if code == 0x00 || |p| < 2 || p[1] !in {0x01, 0x02} then Some(ProtocolError)
        else if p[1] == 0x01 then Some(CommandRejected)
        else None
      case Wait(ContextDone(_)) => Some(ProtocolError)
      case Wait(TimerFired) => if |OnCommand(log)| == 1 + 256 then Some(ProtocolError) else None
      case _ => None
  }

  lemma ExecutedExtends(log: Log, more: Log, code: Byte, payload: seq<Byte>)
    requires IsExecuted(log, code, payload)
    ensures IsExecuted(log + more, code, payload)
  {
    var w :| 0 <= w < |log| && ExecutedAt(log, w, code, payload);
    var k :| w < k < |log| && AcknowledgedAt(log, w, k, code);
    assert AcknowledgedAt(log + more, w, k, code);
    assert ExecutedAt(log + more, w, code, payload);
  }

  /**
    A command reported as executed was written, and the first value headed by its code that was read
    back after the write carries 0x02.
   */
  lemma ExecutedMeansAcknowledged(x: Exchange, code: Byte, payload: seq<Byte>)
    requires x.Acknowledged? && x.Carries(code, payload) && x.Status().Ok?
    ensures var t := x.Trace();
            && |t| >= 2 && t[0] == Write(Command, [code] + payload, None)
            && IsRead(t[|t| - 1], Command) && t[|t| - 1].result.Data?
            && |t[|t| - 1].result.payload| >= 2 && t[|t| - 1].result.payload[..2] == [code, 0x02]
            && forall i :: 0 < i < |t| - 1 && t[i].Read? ==> t[i].result.Data? && !HeadIs(t[i].result.payload, code)
    ensures x.Status().value.code == code != 0 && x.Status().value.ok
  {
    var t, s := x.Trace(), x.status.Trace(Command);
    PolledStatus(x.status, code);
    AnswerIsFirstMatch(x.status, Command, OnHead(code));
    assert forall i :: 0 < i < |t| ==> t[i] == s[i - 1];
  }

  /** It shows in the log, whatever comes before and after. */
  lemma ExchangeShows(before: Log, x: Exchange, after: Log, code: Byte, payload: seq<Byte>)
    requires x.Acknowledged? && x.Carries(code, payload) && x.Status().Ok?
    ensures IsExecuted(before + x.Trace() + after, code, payload)
  {
    ExecutedMeansAcknowledged(x, code, payload);
    var log, t := before + x.Trace() + after, x.Trace();
    assert forall i :: 0 <= i < |t| ==> log[|before| + i] == t[i];
    assert AcknowledgedAt(log, |before|, |before| + |t| - 1, code);
    assert ExecutedAt(log, |before|, code, payload);
  }

  /** A touch of the command characteristic is in the part of the log that can have one. */
  lemma TouchedLater(before: Log, t: Log, w: nat)
    requires (forall e <- before :: !Touches(e, Command)) && w < |before + t| && Touches((before + t)[w], Command)
    ensures |before| <= w && (before + t)[w] == t[w - |before|]
  {}

  /** And the other way round: a command whose acknowledgement can be seen is reported as executed. */
  lemma AcknowledgedMeansExecuted(before: Log, x: Exchange, code: Byte, payload: seq<Byte>)
    requires x.Carries(code, payload) && !x.Refused? && !x.Fetched?
    requires forall e <- before :: !Touches(e, Command)
    requires IsExecuted(before + x.Trace(), code, payload)
    ensures x.Status().Ok?
  {
    var log := before + x.Trace();
    var w :| 0 <= w < |log| && ExecutedAt(log, w, code, payload);
    var k :| w < k < |log| && AcknowledgedAt(log, w, k, code);
    TouchedLater(before, x.Trace(), w);
    TouchedLater(before, x.Trace(), k);
    assert x.status.Trace(Command)[k - |before| - 1] == log[k];
    var p := log[k].result.payload;
    SeenIsAnswered(x.status, Command, OnHead(code), k - |before| - 1);
    assert p[0] == p[..2][0] == code && p[1] == p[..2][1] == 0x02;
    AcknowledgementMeaning(p);
  }

  /** A command that was not executed: the last access tells why. */
  lemma FailureIsTold(before: Log, x: Exchange, code: Byte, payload: seq<Byte>)
    requires x.Carries(code, payload) && !x.Refused? && !x.Fetched?
    requires forall e <- before :: !Touches(e, Command)
    requires x.Status().Err?
    ensures CommandError(before + x.Trace(), code, payload) == Some(x.Status().error)
  {
    var log, t := before + x.Trace(), x.Trace();
    assert log[|log| - 1] == t[|t| - 1];
    if x.Acknowledged? {
      if x.status.end.Exhausted? {
        OffCommand(before);
        WholeBlock(before, x.bytes, x.status);
      }
      PollLast(x.status, Command);
      if x.status.end.Answered? {
        AcknowledgementMeaning(x.status.end.payload);
      }
    }
  }

  lemma WholeBlock(before: Log, bytes: seq<Byte>, status: Poll)
    requires status.WithinBudget() && OnCommand(before) == []
    ensures |OnCommand(before + ([Write(Command, bytes, None)] + status.Trace(Command)))| == 1 + status.ReadCount()
  {
    var w := Write(Command, bytes, None);
    ShortLogs(w, Close);
    PollOnCommand(status);
    OnCommandConcat([w], status.Trace(Command));
    OnCommandConcat(before, [w] + status.Trace(Command));
  }

  /**
    What a log tells of a command: that it was tried, that it was executed exactly if its acknowledgement can
    be seen, and otherwise by its last access the error.
   */
  ghost predicate TellsCommand(log: Log, code: Byte, payload: seq<Byte>, r: Result<CommandStatus>) {
    && IsTried(log, code, payload)
    && (r.Ok? <==> IsExecuted(log, code, payload))
    && (r.Ok? ==> r.value.code == code && r.value.ok)
    && (r.Err? ==> CommandError(log, code, payload) == Some(r.error))
  }

  /** What a command returns can be told from the log, if no other command is in it. */
  lemma StatusIsTold(before: Log, x: Exchange, code: Byte, payload: seq<Byte>)
    requires x.Carries(code, payload) && !x.Refused? && !x.Fetched?
    requires forall e <- before :: !Touches(e, Command)
    ensures TellsCommand(before + x.Trace(), code, payload, x.Status())
  {
    var log := before + x.Trace();
    assert log[|before|] in log && IsWrite(log[|before|], Command);
    if x.Status().Ok? {
      ExecutedMeansAcknowledged(x, code, payload);
      ExchangeShows(before, x, [], code, payload);
      assert log + [] == log;
    } else {
      FailureIsTold(before, x, code, payload);
    }
    if IsExecuted(log, code, payload) {
      AcknowledgedMeansExecuted(before, x, code, payload);
    }
  }

  lemma CommandTells(x: Exchange, code: Byte, payload: seq<Byte>)
    requires x.Carries(code, payload) && !x.Refused? && !x.Fetched?
    ensures TellsCommand(x.Trace(), code, payload, x.Status())
  {
    StatusIsTold([], x, code, payload);
    assert [] + x.Trace() == x.Trace();
  }

  /** What a log tells of a command with an output: which value it takes, and otherwise its error. */
  ghost predicate TellsOutput(log: Log, code: Byte, payload: seq<Byte>, accept: Accept, r: Result<seq<Byte>>) {
    && (r.Ok? <==>
          && IsExecuted(log, code, payload) && LastOutput(log).Some?
          && (HeadIs(LastOutput(log).value, code) || IsExtra(accept, LastOutput(log).value)))
    && (r.Ok? ==> LastOutput(log) == Some(r.value))
    && (r.Err? ==> FetchError(log, code, payload) == Some(r.error))
  }

  /** The error of a command whose output was not read: its own, or that of the poll for the output. */
  ghost function FetchError(log: Log, code: Byte, payload: seq<Byte>): Option<Error> {
    if IsExecuted(log, code, payload) then OutputError(log, code) else CommandError(log, code, payload)
  }

  /** The error of a typed read: an output headed by its command, but not of its layout, is a protocol error. */
  ghost function ReadingError(log: Log, code: Byte, payload: seq<Byte>): Option<Error> {
    if IsExecuted(log, code, payload) && LastOutput(log).Some? && HeadIs(LastOutput(log).value, code) then
      Some(ProtocolError)
    else FetchError(log, code, payload)
  }

  lemma FetchIsTold(x: Exchange, code: Byte, payload: seq<Byte>, accept: Accept)
    requires x.Carries(code, payload) && x.Fetches(code, accept) && !x.Refused?
    ensures TellsOutput(x.Trace(), code, payload, accept, x.Output(code))
  {
    var log := x.Trace();
    if x.Fetched? {
      var first := Acknowledged(x.bytes, x.status);
      FetchAfterAck(first, x.output);
      CommandTells(first, code, payload);
      ExecutedExtends(first.Trace(), x.output.Trace(CommandResult), code, payload);
      OutputIsTold(first.Trace(), x.output, code, accept);
    } else {
      CommandTells(x, code, payload);
      if x.Acknowledged? {
        PollLast(x.status, Command);
        assert log[|log| - 1] == x.status.Trace(Command)[|x.status.Trace(Command)| - 1];
      }
    }
  }
}
