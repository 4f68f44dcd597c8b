/** The two ways of asking for history: one v4 request and answer, or a v3 command and its read-out. */
module HistoryReads {
  import opened Bytes
  import opened Codec
  import opened Device
  import opened Exchange
  import opened HistoryV3
  import opened Messages
  import opened Outcomes
  import opened Polling
  import opened Settings

  datatype HistoryRequest = HistoryRequest(startEvent: UInt32, all: bool)

  /** The request code (one event or everything from it on), then the event number. */
  function RequestBytes(req: HistoryRequest): (s: seq<Byte>)
    ensures |s| == 5 && s[0] == (if req.all then 0x02 else 0x01) && LongWordOf(s[1..]) == req.startEvent
  {
    [if req.all then 0x02 else 0x01] + LongWord(req.startEvent)
  }

  /** A v4 request: whether it could be written, and what was read after it. */
  datatype AccessV4 = NotAsked(bytes: seq<Byte>, error: Error) | Asked(bytes: seq<Byte>, answer: ReadResult) {
    function Trace(): Log {
      match this
      case NotAsked(bytes, e) => [Write(HistoryData, bytes, Some(e))]
      case Asked(bytes, answer) => [Write(HistoryData, bytes, None), Read(HistoryData, answer)]
    }

    function Outcome(): Result<seq<HistoryEntry>> {
      match this
      case NotAsked(_, e) => Err(WrapContext(e))
      case Asked(_, Failed(e)) => Err(WrapContext(e))
      case Asked(_, Data(p)) =>
        match HistoryOfV4(p)
        case Err(e) => Err(e)
        case Ok(history) => Ok(history.entries)
    }
  }

  /** A v3 history command, and the read-out that follows an executed one. */
  datatype AccessV3 = AccessV3(command: Exchange, readOut: Option<ReadOut>) {
    function Trace(): Log {
      command.Trace() + if readOut.Some? then readOut.value.Accesses() else []
    }

    ghost predicate Proper() {
      && command.Carries(HISTORY_READ, []) && !command.Fetched?
      && (readOut.Some? <==> command.Status().Ok?)
      && (readOut.Some? ==> readOut.value.Possible())
    }

    function Outcome(): Result<seq<HistoryEntry>> {
      if readOut.Some? then readOut.value.Outcome()
      else if command.Status().Err? then Err(command.Status().error)
      else Err(ProtocolError)
    }
  }

  /** One history operation: v4, v3, or v4 and then v3. */
  datatype HistoryRead = HistoryRead(v4: Option<AccessV4>, v3: Option<AccessV3>) {
    function Trace(): Log {
      (if v4.Some? then v4.value.Trace() else []) + (if v3.Some? then v3.value.Trace() else [])
    }

    /** A pinned session uses its own protocol; an unpinned one falls back to v3 exactly when v4 failed. */
    ghost predicate Follows(v: Version, req: HistoryRequest) {
      && (v4.Some? <==> v != V3)
      && (v4.Some? ==> v4.value.bytes == RequestBytes(req))
      && (v3.Some? <==> v == V3 || (v == Auto && v4.value.Outcome().Err?))
      && (v3.Some? ==> v3.value.Proper())
    }

    function Outcome(): Result<seq<HistoryEntry>> {
      if v3.Some? then v3.value.Outcome()
      else if v4.Some? then v4.value.Outcome()
      else Err(ProtocolError)
    }
  }

  lemma ReadOutEvents(out: ReadOut)
    ensures forall e <- out.Accesses() :: IsRead(e, CommandResult)
  {}

  lemma AccessV3IsOneBlock(a: AccessV3)
    requires a.Proper()
    ensures IsBlock(OnCommand(a.Trace()))
  {
    ExchangeIsOneBlock(a.command, HISTORY_READ, []);
    var rest := if a.readOut.Some? then a.readOut.value.Accesses() else [];
    if a.readOut.Some? {
      ReadOutEvents(a.readOut.value);
    }
    OffCommand(rest);
    OnCommandConcat(a.command.Trace(), rest);
  }

  lemma AccessV4IsOffCommand(a: AccessV4)
    ensures OnCommand(a.Trace()) == []
  {
    OffCommand(a.Trace());
  }

  /** A history operation is one block on the command characteristic, whichever way it goes. */
  lemma HistoryIsOneBlock(h: HistoryRead, v: Version, req: HistoryRequest)
    requires h.Follows(v, req)
    ensures IsBlock(OnCommand(h.Trace()))
  {
    var first := if h.v4.Some? then h.v4.value.Trace() else [];
    var second := if h.v3.Some? then h.v3.value.Trace() else [];
    if h.v4.Some? {
      AccessV4IsOffCommand(h.v4.value);
    }
    if h.v3.Some? {
      AccessV3IsOneBlock(h.v3.value);
    }
    OnCommandConcat(first, second);
  }

  // ---- what a log tells of a history --------------------------------------------------------

  /** From position m on, the log reads one after the other of these packets, and no more of them than there are. */
  ghost predicate ReadsOn(log: Log, m: nat, sent: seq<seq<Byte>>)
    requires m <= |log|
  {
    && |log| - m <= |sent|
    && forall i :: m <= i < |log| ==> log[i] == Read(CommandResult, Data(sent[i - m]))
  }

  /** The device executed the v3 history command, acknowledged right before m, and what was read then is this. */
  ghost predicate SendsAt(log: Log, m: nat, sent: seq<seq<Byte>>) {
    && 0 < m <= |log| && IsRead(log[m - 1], Command)
    && IsExecuted(log[..m], 0x01, [])
    && ReadsOn(log, m, sent)
  }

  /** An honest device sent these intervals. */
  ghost predicate Sends(log: Log, vs: Intervals)
    requires Reportable(vs) && |vs| < 0x1_0000
  {
    exists m: nat :: SendsAt(log, m, Announcing(vs, |vs|))
  }

  /** The error told by the last access of a v4 history read. */
  function RequestError(log: Log): Option<Error> {
    if log == [] then None
    else
      match log[|log| - 1]
      case Write(HistoryData, _, Some(e)) => Some(WrapContext(e))
      case Read(HistoryData, Failed(e)) => Some(WrapContext(e))
      case Read(HistoryData, Data(p)) => if |p| == 17 || |p| == 20 then None else Some(ProtocolError)
      case _ => None
  }

  /** The error told by the last access of a v3 history read: of the command, or of a packet that ends nothing. */
  ghost function StreamError(log: Log): Option<Error> {
    if !IsExecuted(log, 0x01, []) then CommandError(log, 0x01, [])
    else if log == [] then None
    else
      match log[|log| - 1]
      case Read(CommandResult, Failed(e)) => Some(WrapContext(e))
      case Read(CommandResult, Data(p)) => if |p| == 21 && AllZero(p) then None else Some(ProtocolError)
      case _ => None
  }

  /** The v3 history command was executed, and a zero packet ended what was read then. */
  ghost predicate IsStreamed(log: Log) {
    log != [] && IsExecuted(log, 0x01, []) && log[|log| - 1] == Read(CommandResult, Data(Zeros(21)))
  }

  /** A v3 read succeeds exactly if its command was executed and a zero packet ended it, and otherwise tells why. */
  ghost predicate TellsStream(log: Log, r: Result<seq<HistoryEntry>>) {
    && (r.Ok? <==> IsStreamed(log))
    && (r.Err? ==> StreamError(log) == Some(r.error))
  }

  /** What a caller should see of the one record in a v4 packet; the zero record is the end of a stream. */
  function EntriesOfRecord(e: RecordV4, raw: seq<Byte>): seq<HistoryEntry> {
    if e.eventNumber == 0 && e.side == 0 && e.moment == 0 && e.duration == 0 then [] else [EntryOfRecord(e, raw)]
  }

  /** A read-out starts right behind the acknowledgement of its command. */
  lemma CommandEndsAt(front: Log, rest: Log, m: nat, sent: seq<seq<Byte>>)
    requires front != [] && IsRead(front[|front| - 1], Command)
    requires forall e <- rest :: IsRead(e, CommandResult)
    requires SendsAt(front + rest, m, sent)
    ensures m == |front|
  {
    var log, k := front + rest, |front| - 1;
    assert log[k] == front[k];
    assert forall i :: |front| <= i < |log| ==> log[i] in rest;
  }

  /** What was sent behind an executed command is what the read-out read. */
  lemma ReadOutOfSent(front: Log, out: ReadOut, m: nat, sent: seq<seq<Byte>>)
    requires front != [] && IsRead(front[|front| - 1], Command) && out.Possible()
    requires SendsAt(front + out.Accesses(), m, sent)
    ensures ReadsFrom(out, sent)
  {
    var log, accesses := front + out.Accesses(), out.Accesses();
    ReadOutEvents(out);
    CommandEndsAt(front, accesses, m, sent);
    assert forall i :: 0 <= i < |accesses| ==> accesses[i] == log[m + i];
    LastPacket(out);
  }

  /** A read-out that an honest device is asked for, after a command that was executed, returns its intervals. */
  lemma SentComesBack(before: Log, a: AccessV3, vs: Intervals)
    requires a.Proper() && forall e <- before :: !Touches(e, Command)
    requires Reportable(vs) && |vs| < 0x1_0000 && Sends(before + a.Trace(), vs)
    ensures a.Outcome() == if |vs| <= 28658 then Ok(EntriesFor(vs)) else Err(ProtocolError)
  {
    var sent := Announcing(vs, |vs|);
    var m: nat :| SendsAt(before + a.Trace(), m, sent);
    SentIsExecuted(before, a, m, sent);
    ExecutedEnds(before, a.command);
    OneAfterTheOther(before, a.command.Trace(), a.readOut.value.Accesses());
    ReadOutOfSent(before + a.command.Trace(), a.readOut.value, m, sent);
    TransmissionRoundTrip(vs, a.readOut.value);
  }

  lemma SentIsExecuted(before: Log, a: AccessV3, m: nat, sent: seq<seq<Byte>>)
    requires a.Proper() && forall e <- before :: !Touches(e, Command)
    requires SendsAt(before + a.Trace(), m, sent)
    ensures a.command.Status().Ok?
  {
    var log := before + a.Trace();
    ExecutedExtends(log[..m], log[m..], 0x01, []);
    assert log[..m] + log[m..] == log;
    if a.command.Status().Err? {
      assert a.Trace() == a.command.Trace();
      AcknowledgedMeansExecuted(before, a.command, 0x01, []);
    }
  }

  /** A v3 read that fails tells why, and one that does not ends with a zero packet. */
  lemma StreamIsTold(before: Log, a: AccessV3)
    requires a.Proper() && forall e <- before :: !Touches(e, Command)
    ensures TellsStream(before + a.Trace(), a.Outcome())
  {
    if a.readOut.Some? {
      ReadOutIsTold(before, a);
    } else {
      StatusIsTold(before, a.command, 0x01, []);
      assert a.Trace() == a.command.Trace();
      CommandLast(before, a.command);
    }
  }

  /** The last access of a command that was not executed is none of a read-out. */
  lemma CommandLast(before: Log, x: Exchange)
    requires x.Carries(0x01, []) && !x.Refused? && !x.Fetched?
    ensures before + x.Trace() != []
    ensures var log := before + x.Trace(); !IsRead(log[|log| - 1], CommandResult)
  {
    var log, t := before + x.Trace(), x.Trace();
    assert log[|log| - 1] == t[|t| - 1];
    if x.Acknowledged? {
      TraceOnlyReads(x.status, Command);
    }
  }

  lemma ReadOutIsTold(before: Log, a: AccessV3)
    requires a.Proper() && a.readOut.Some?
    ensures TellsStream(before + a.Trace(), a.Outcome())
  {
    ExecutedEnds(before, a.command);
    OneAfterTheOther(before, a.command.Trace(), a.readOut.value.Accesses());
    EndIsTold(before + a.command.Trace(), a.readOut.value);
  }

  lemma ExecutedEnds(before: Log, x: Exchange)
    requires x.Acknowledged? && x.Carries(0x01, []) && x.Status().Ok?
    ensures var front := before + x.Trace();
            front != [] && IsRead(front[|front| - 1], Command) && IsExecuted(front, 0x01, [])
  {
    var front := before + x.Trace();
    ExecutedMeansAcknowledged(x, 0x01, []);
    ExchangeShows(before, x, [], 0x01, []);
    assert front + [] == front;
    assert front[|front| - 1] == x.Trace()[|x.Trace()| - 1];
  }

  lemma EndIsTold(front: Log, out: ReadOut)
    requires out.Possible() && IsExecuted(front, 0x01, [])
    ensures TellsStream(front + out.Accesses(), out.Outcome())
  {
    var log := front + out.Accesses();
    ExecutedExtends(front, out.Accesses(), 0x01, []);
    LastPacket(out);
    assert log[|log| - 1] == out.Accesses()[|out.Accesses()| - 1];
  }

  lemma LastPacket(out: ReadOut)
    requires out.Possible()
    ensures out.Accesses() != []
    ensures var last := out.Accesses()[|out.Accesses()| - 1];
            && IsRead(last, CommandResult)
            && (out.end.Finished? <==> last == Read(CommandResult, Data(Zeros(21))))
            && (out.end.Broken? ==> last.result == Failed(out.end.error))
            && (out.end.Malformed? ==> last.result == Data(out.end.payload))
            && (out.end.OverBudget? ==> last.result.Data? && |last.result.payload| == 21 && !AllZero(last.result.payload))
  {
    var accesses := out.Accesses();
    if out.end.OverBudget? {
      assert accesses[|accesses| - 1] == Read(CommandResult, Data(out.packets[|out.packets| - 1]));
      assert out.packets[|out.packets| - 1] in out.packets;
    } else {
      assert accesses[|accesses| - 1] == LastAccess(out.end)[0];
    }
  }

  // ---- what a log tells of a v4 history -----------------------------------------------------

  /** The v4 history characteristic gave a value of the right size. */
  ghost predicate IsGiven(log: Log) {
    exists e <- log :: IsRead(e, HistoryData) && e.result.Data? && |e.result.payload| in {17, 20}
  }

  /** The record in what the v4 history characteristic gave is what the caller gets. */
  ghost predicate TellsGiven(log: Log, r: Result<seq<HistoryEntry>>) {
    && (forall e: RecordV4 :: e.Fits() && Read(HistoryData, Data(StreamPacketV4(e))) in log ==>
          r == Ok(EntriesOfRecord(e, StreamPacketV4(e))))
    && (forall e: RecordV4 :: e.Fits() && e.previous == 0 && Read(HistoryData, Data(RecordBytes(e))) in log ==>
          r == Ok(EntriesOfRecord(e, RecordBytes(e))))
  }

  /** What an honest device sent over v3 is what the caller gets, if it fits the budget. */
  ghost predicate TellsSent(log: Log, r: Result<seq<HistoryEntry>>) {
    forall vs: Intervals :: Reportable(vs) && |vs| < 0x1_0000 && Sends(log, vs) ==>
      r == if |vs| <= 28658 then Ok(EntriesFor(vs)) else Err(ProtocolError)
  }

  /** What a log tells of a v4 history read: it asks, and succeeds exactly if it is given 17 or 20 bytes. */
  ghost predicate TellsRequest(log: Log, req: HistoryRequest, r: Result<seq<HistoryEntry>>) {
    && log != [] && IsWrite(log[0], HistoryData) && log[0].payload == RequestBytes(req)
    && (r.Ok? <==> IsGiven(log))
    && (r.Err? ==> RequestError(log) == Some(r.error))
    && TellsGiven(log, r)
  }

  lemma GivenComesBack(a: AccessV4)
    ensures TellsGiven(a.Trace(), a.Outcome())
  {
    var log := a.Trace();
    forall e: RecordV4 | e.Fits() && Read(HistoryData, Data(StreamPacketV4(e))) in log
      ensures a.Outcome() == Ok(EntriesOfRecord(e, StreamPacketV4(e)))
    {
      StreamPacketRoundTrip(e);
    }
    forall e: RecordV4 | e.Fits() && e.previous == 0 && Read(HistoryData, Data(RecordBytes(e))) in log
      ensures a.Outcome() == Ok(EntriesOfRecord(e, RecordBytes(e)))
    {
      SingleRecordRoundTrip(e);
    }
  }

  lemma RequestIsTold(a: AccessV4, req: HistoryRequest)
    requires a.bytes == RequestBytes(req)
    ensures TellsRequest(a.Trace(), req, a.Outcome())
  {
    GivenComesBack(a);
    if a.Asked? && a.answer.Data? {
      PacketSizes(a.answer.payload);
      assert a.Trace()[1] in a.Trace();
    }
  }

  // ---- what a log tells of either -----------------------------------------------------------

  /**
    What a log tells of a history read on some version: which way it went, what it returns for what an honest
    device gave or sent, exactly when it succeeds, and otherwise the error.
   */
  ghost predicate TellsHistory(log: Log, v: Version, req: HistoryRequest, r: Result<seq<HistoryEntry>>) {
    && (v != V3 ==> log != [] && IsWrite(log[0], HistoryData) && log[0].payload == RequestBytes(req))
    && (v == Auto ==> ((exists e <- log :: Touches(e, Command)) <==> !IsGiven(log)))
    && TellsGiven(log, r) && TellsSent(log, r)
    && (r.Ok? <==> (v != V3 && IsGiven(log)) || (v != V4 && IsStreamed(log)))
    && (r.Err? ==> Some(r.error) == if v == V4 then RequestError(log) else StreamError(log))
  }

  lemma NothingSent(log: Log, r: Result<seq<HistoryEntry>>)
    requires forall e <- log :: !Touches(e, Command)
    ensures !IsExecuted(log, 0x01, []) && TellsSent(log, r) && !IsStreamed(log)
  {
    assert forall i :: 0 <= i < |log| ==> log[i] in log;
  }

  lemma SentToAll(before: Log, a: AccessV3)
    requires a.Proper() && forall e <- before :: !Touches(e, Command)
    ensures TellsSent(before + a.Trace(), a.Outcome())
  {
    forall vs: Intervals | Reportable(vs) && |vs| < 0x1_0000 && Sends(before + a.Trace(), vs)
      ensures a.Outcome() == if |vs| <= 28658 then Ok(EntriesFor(vs)) else Err(ProtocolError)
    {
      SentComesBack(before, a, vs);
    }
  }

  /** A v3 read touches the command characteristic and never that of v4 history. */
  lemma StreamTouches(a: AccessV3)
    requires a.Proper()
    ensures forall e <- a.Trace() :: !Touches(e, HistoryData)
    ensures a.Trace() != [] && Touches(a.Trace()[0], Command)
  {
    ExchangeEvents(a.command, 0x01, []);
    if a.readOut.Some? {
      ReadOutEvents(a.readOut.value);
    }
  }

  /** A read that fell back to v3: what was given before did not do, and what follows tells the rest. */
  lemma FallbackIsTold(first: AccessV4, second: AccessV3, req: HistoryRequest)
    requires first.bytes == RequestBytes(req) && first.Outcome().Err? && second.Proper()
    ensures TellsHistory(first.Trace() + second.Trace(), Auto, req, second.Outcome())
  {
    var log := first.Trace() + second.Trace();
    RequestIsTold(first, req);
    StreamTouches(second);
    SentToAll(first.Trace(), second);
    StreamIsTold(first.Trace(), second);
    assert log[|first.Trace()|] in log && Touches(log[|first.Trace()|], Command);
    assert forall e <- log :: IsRead(e, HistoryData) ==> e in first.Trace();
    assert !IsGiven(log);
    NothingGiven(log, second.Outcome());
  }

  lemma NothingGiven(log: Log, r: Result<seq<HistoryEntry>>)
    requires !IsGiven(log)
    ensures TellsGiven(log, r)
  {
  }

  lemma RequestAlone(a: AccessV4, v: Version, req: HistoryRequest)
    requires a.bytes == RequestBytes(req) && v != V3 && (v == Auto ==> a.Outcome().Ok?)
    ensures TellsHistory(a.Trace(), v, req, a.Outcome())
  {
    RequestIsTold(a, req);
    NothingSent(a.Trace(), a.Outcome());
  }

  lemma StreamTells(a: AccessV3)
    requires a.Proper()
    ensures TellsStream(a.Trace(), a.Outcome()) && TellsSent(a.Trace(), a.Outcome())
  {
    StreamIsTold([], a);
    SentToAll([], a);
    assert [] + a.Trace() == a.Trace();
  }

  lemma StreamAlone(a: AccessV3, req: HistoryRequest)
    requires a.Proper()
    ensures TellsHistory(a.Trace(), V3, req, a.Outcome())
  {
    StreamTouches(a);
    StreamTells(a);
    NothingGiven(a.Trace(), a.Outcome());
  }

  /** Whatever a history read did, its log tells what it returned. */
  lemma HistoryIsTold(h: HistoryRead, v: Version, req: HistoryRequest)
    requires h.Follows(v, req)
    ensures TellsHistory(h.Trace(), v, req, h.Outcome())
  {
    if h.v4.Some? && h.v3.Some? {
      FallbackIsTold(h.v4.value, h.v3.value, req);
    } else if h.v4.Some? {
      assert h.Trace() == h.v4.value.Trace();
      RequestAlone(h.v4.value, v, req);
    } else {
      assert h.Trace() == h.v3.value.Trace();
      StreamAlone(h.v3.value, req);
    }
  }
}
