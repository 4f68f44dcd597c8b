/** A session over one connection, as in session.go: one operation after another. */
module Session {
  import opened Bytes
  import opened Codec
  import opened Device
  import opened Exchange
  import opened HistoryReads
  import opened HistoryV3
  import opened Messages
  import opened Outcomes
  import opened Polling
  import opened Settings

  const AUTHORIZATION_WINDOW := 750
  const AUTHORIZATION_INTERVAL := 50
  const COMMAND_INTERVAL := 50

  const DEFAULT_PASSWORD: seq<Byte> := [0x30, 0x30, 0x30, 0x30, 0x30, 0x30]

  function PasswordOrDefault(password: seq<Byte>): (r: Result<seq<Byte>>)
    ensures r.Ok? <==> |password| == 0 || |password| == 6
    ensures r.Ok? ==> |r.value| == 6 && (password != [] ==> r.value == password)
    ensures password == [] ==> r == Ok([0x30, 0x30, 0x30, 0x30, 0x30, 0x30])
    ensures r.Err? ==> r.error == InvalidInput
  {
    if password == [] then Ok(DEFAULT_PASSWORD)
    else if |password| != 6 then Err(InvalidInput)
    else Ok(password)
  }

  /** How far an authorization got. */
  datatype Authorization =
    | BadPassword
    | NotSent(password: seq<Byte>, error: Error)
    | Judged(password: seq<Byte>, verdict: Poll, context: Option<Error>)
  {
    function Trace(): Log {
      match this
      case BadPassword => []
      case NotSent(pw, e) => [Write(Password, pw, Some(e))]
      case Judged(pw, verdict, _) => [Write(Password, pw, None)] + verdict.Trace(CommandResult)
    }

    ghost predicate Proper(password: seq<Byte>) {
      match this
      case BadPassword => PasswordOrDefault(password).Err?
      case NotSent(pw, _) => PasswordOrDefault(password) == Ok(pw)
      case Judged(pw, verdict, _) => PasswordOrDefault(password) == Ok(pw) && verdict.Obeys(OnVerdict)
    }

    function Outcome(): Result<bool> {
      match this
      case BadPassword => Err(InvalidInput)
      case NotSent(_, e) => Err(WrapContext(e))
      case Judged(_, verdict, context) => VerdictOf(verdict.end, context)
    }
  }

  /**
    What a log tells of an authorization that did these accesses after those before: nothing was done for a
    malformed password; otherwise the password was written first, it is granted exactly if the log shows the
    grant, and else the last access tells why not.
   */
  ghost predicate TellsAuthorization(peer: Peer, before: Log, done: Log, password: seq<Byte>, r: Result<bool>) {
    match PasswordOrDefault(password)
    case Err(_) => done == [] && r == Err(InvalidInput)
    case Ok(pw) =>
      && done != [] && IsWrite(done[0], Password) && done[0].payload == pw
      && (r.Ok? <==> Granted(done))
      && (r.Err? ==> VerdictError(peer, before + done) == Some(r.error))
  }

  lemma VerdictTells(peer: Peer, before: Log, pw: seq<Byte>, verdict: Poll, context: Option<Error>)
    requires verdict.Obeys(OnVerdict) && !verdict.end.Exhausted?
    requires verdict.end.Broke? ==>
               context == peer.contextError(before + Judged(pw, verdict, context).Trace())
    ensures var a := Judged(pw, verdict, context);
            && a.Trace() != [] && IsWrite(a.Trace()[0], Password) && a.Trace()[0].payload == pw
            && (a.Outcome().Ok? <==> Granted(a.Trace()))
            && (a.Outcome().Err? ==> VerdictError(peer, before + a.Trace()) == Some(a.Outcome().error))
  {
    var w := Write(Password, pw, None);
    AuthorizedOnlyByVerdict([w], verdict, context);
    OneAfterTheOther(before, [w], verdict.Trace(CommandResult));
    if VerdictOf(verdict.end, context).Err? {
      RefusalIsTold(before + [w], verdict, context, peer);
    }
  }

  /** One round of a poll: a value that is passed over, or the end. */
  datatype Round<T> =
    | Pending(payload: seq<Byte>)
    | Settled(r: Result<T>, end: Ending, context: Option<Error>)

  datatype TrackerStatus = TrackerStatus(
    lock: bool, pause: bool, autoPauseMinutes: nat, facet: Option<Byte>)

  /** The facet byte that a read of the facets characteristic gives, if it gives one. */
  function FacetOf(r: ReadResult): Option<Byte> {
    if r.Data? && |r.payload| == 1 then Some(r.payload[0]) else None
  }

  function SystemStateOf(p: seq<Byte>): Result<(UInt16, UInt16)> {
    if |p| != 4 then Err(ProtocolError) else Ok((WordOf(p[0..2]), WordOf(p[2..4])))
  }

  /** The error of a single read that gave nothing usable. */
  function FailureOf(access: ReadResult): (e: Error)
    ensures access.Data? ==> e == ProtocolError
    ensures access.Failed? ==> e == if access.error == DeadlineExceeded then Timeout else access.error
  {
    if access.Failed? then WrapContext(access.error) else ProtocolError
  }

  predicate IsState(e: Event) {
    IsRead(e, SystemState) && e.result.Data? && |e.result.payload| == 4
  }

  /** The error of device information that was not read: a hard failure, or nothing there at all. */
  function InfoFailure(trace: Log): Error {
    if trace == [] || Skippable(trace[|trace| - 1]) then ProtocolError
    else if trace[|trace| - 1].Read? then FailureOf(trace[|trace| - 1].result)
    else ProtocolError
  }

  /** A 16-bit two's complement number, and back. */
  function Signed(n: UInt16): (z: int)
    ensures -0x8000 <= z < 0x8000 && TwosComplement(z) == n
  {
    if n < 0x8000 then n else n - 0x1_0000
  }

  function TwosComplement(z: int): UInt16 { z % 0x1_0000 }

  /** How a device lays out a sample. */
  function SampleBytes(x: int, y: int, z: int): seq<Byte> {
    Word(TwosComplement(x)) + Word(TwosComplement(y)) + Word(TwosComplement(z))
  }

  function SampleOf(p: seq<Byte>): (r: Result<(int, int, int)>)
    ensures r.Ok? <==> |p| == 6
    ensures r.Ok? ==> SampleBytes(r.value.0, r.value.1, r.value.2) == p
    ensures r.Err? ==> r.error == ProtocolError
  {
    if |p| != 6 then Err(ProtocolError)
    else Ok((Signed(WordOf(p[0..2])), Signed(WordOf(p[2..4])), Signed(WordOf(p[4..6]))))
  }

  datatype DeviceInfo = DeviceInfo(values: map<Characteristic, seq<Byte>>, version: Version)

  /** The characteristics of device information; a v3 session leaves out the first. */
  const INFO_CHARACTERISTICS: seq<Characteristic> :=
    [DeviceName, ManufacturerName, ModelNumber, HardwareRevision, FirmwareRevision, SystemId]

  predicate IsInfo(ch: Characteristic) {
    match ch
    case DeviceName => true
    case ManufacturerName => true
    case ModelNumber => true
    case HardwareRevision => true
    case FirmwareRevision => true
    case SystemId => true
    case _ => false
  }

  function InfoCharacteristics(v: Version): (chs: seq<Characteristic>)
    ensures forall i, j :: 0 <= i < j < |chs| ==> chs[i] != chs[j]
    ensures forall ch <- chs :: IsInfo(ch)
    ensures chs == (if v == V3 then [] else [DeviceName]) +
                   [ManufacturerName, ModelNumber, HardwareRevision, FirmwareRevision, SystemId]
  {
    if v == V3 then INFO_CHARACTERISTICS[1..] else INFO_CHARACTERISTICS
  }

  function FirmwareOf(values: map<Characteristic, seq<Byte>>): seq<Byte> {
    if FirmwareRevision in values then values[FirmwareRevision] else []
  }

  /** The values are those that were read, each of its characteristic. */
  ghost predicate Collected(trace: Log, values: map<Characteristic, seq<Byte>>) {
    && (forall e <- trace :: e.Read? && e.result.Data? ==> e.ch in values && values[e.ch] == e.result.payload)
    && (forall ch <- values :: Read(ch, Data(values[ch])) in trace)
  }

  lemma OneMoreCollected(trace: Log, values: map<Characteristic, seq<Byte>>, ch: Characteristic, access: ReadResult)
    requires Collected(trace, values) && forall i :: 0 <= i < |trace| ==> !IsRead(trace[i], ch)
    ensures Collected(trace + [Read(ch, access)], if access.Data? then values[ch := access.payload] else values)
  {
    var longer := trace + [Read(ch, access)];
    assert longer[|trace|] == Read(ch, access);
    assert forall c <- values :: Read(c, Data(values[c])) in longer;
  }

  /** A read that device information can do with: a value, or a characteristic that is not there. */
  predicate Skippable(e: Event) {
    e.Read? && (e.result.Data? || e.result.error == ProtocolError)
  }

  /** The operations of a serial run. */
  datatype Operation =
    | Authorizing(password: seq<Byte>)
    | Applying(setting: Setting)
    | SettingLed(percent: Byte, seconds: Byte)
    | ReadingInfo
    | ReadingBattery
    | ReadingSystemState
    | ReadingAccelerometer
    | ReadingStatus
    | ReadingTask(facet: Byte)
    | ReadingTap
    | ReadingHistory(request: HistoryRequest)

  // ---- pinning -----------------------------------------------------------------------------

  /** What a session pinned to a version may not do. */
  predicate Allowed(v: Version, e: Event) {
    && (v == V3 ==> !Touches(e, SystemState) && !Touches(e, HistoryData))
    && (v == V4 ==> !Touches(e, Events) && !(IsWrite(e, Command) && e.payload == [HISTORY_READ]))
  }

  predicate Respects(v: Version, log: Log) {
    forall e <- log :: Allowed(v, e)
  }

  /** A version is decided at most once. */
  predicate Pins(before: Version, after: Version) {
    before != Auto ==> after == before
  }

  lemma ExchangesRespect(x: Exchange, code: Byte, payload: seq<Byte>, v: Version)
    requires x.Carries(code, payload) && (v == V4 ==> code != HISTORY_READ)
    ensures Respects(v, x.Trace())
  {
    ExchangeEvents(x, code, payload);
    assert ([code] + payload)[0] == code;
    var trace := x.Trace();
    forall e | e in trace
      ensures Allowed(v, e)
    {
      PartIsAllowed(e, [code] + payload, v);
    }
  }

  lemma PartIsAllowed(e: Event, bytes: seq<Byte>, v: Version)
    requires PartOfExchange(e, bytes) && bytes != [] && (v == V4 ==> bytes[0] != HISTORY_READ)
    ensures Allowed(v, e)
  {}

  lemma StatusIsTried(x: Exchange, read: Log)
    requires x.Carries(STATUS, [])
    ensures IsTried(x.Trace() + read, STATUS, [])
  {
    ExchangeIsTried(x, STATUS, []);
    assert (x.Trace() + read)[0] == x.Trace()[0] && (x.Trace() + read)[0] in x.Trace() + read;
  }

  lemma StatusRespects(x: Exchange, read: Log, v: Version)
    requires x.Carries(STATUS, []) && forall e <- read :: IsRead(e, Facets)
    ensures Respects(v, x.Trace() + read) && IsTried(x.Trace() + read, STATUS, [])
  {
    ExchangesRespect(x, STATUS, [], v);
    RespectsBoth(v, x.Trace(), read);
    StatusIsTried(x, read);
  }

  lemma InfoRespects(trace: Log, characteristics: seq<Characteristic>, v: Version)
    requires |trace| <= |characteristics| && forall ch <- characteristics :: IsInfo(ch)
    requires forall i :: 0 <= i < |trace| ==> IsRead(trace[i], characteristics[i])
    ensures Respects(v, trace)
  {
    assert forall i :: 0 <= i < |trace| ==> IsInfo(trace[i].ch);
  }

  lemma RespectsBoth(v: Version, a: Log, b: Log)
    requires Respects(v, a) && Respects(v, b)
    ensures Respects(v, a + b)
  {}

  lemma AccessV3Respects(a: AccessV3, v: Version)
    requires a.Proper() && v != V4
    ensures Respects(v, a.Trace())
  {
    ExchangesRespect(a.command, HISTORY_READ, [], v);
    if a.readOut.Some? {
      ReadOutEvents(a.readOut.value);
      RespectsBoth(v, a.command.Trace(), a.readOut.value.Accesses());
    }
  }

  lemma AccessV4Respects(a: AccessV4, v: Version)
    requires v != V3
    ensures Respects(v, a.Trace())
  {}

  lemma HistoryRespects(h: HistoryRead, v: Version, req: HistoryRequest)
    requires h.Follows(v, req)
    ensures Respects(v, h.Trace())
  {
    if h.v4.Some? {
      AccessV4Respects(h.v4.value, v);
    }
    if h.v3.Some? {
      AccessV3Respects(h.v3.value, v);
    }
  }

  lemma AuthorizationsRespect(a: Authorization, v: Version)
    ensures Respects(v, a.Trace())
  {
    if a.Judged? {
      TraceOnlyReads(a.verdict, CommandResult);
    }
  }

  /** Some intervals, one after the other. */
  function Waits(n: nat, interval: nat): nat {
    if n == 0 then 0 else Waits(n - 1, interval) + interval
  }

  lemma {:induction false} WaitsAddUp(n: nat, interval: nat)
    ensures Waits(n, interval) == n * interval
  {
    if n > 0 {
      WaitsAddUp(n - 1, interval);
    }
  }

  class Session {
    const conn: Connection
    /** Which protocol a firmware revision stands for. */
    const infer: seq<Byte> -> Version
    var protocol: Version
    var closed: bool

    constructor (conn: Connection, infer: seq<Byte> -> Version, protocol: Version)
      ensures this.conn == conn && this.infer == infer && this.protocol == protocol && !closed
    {
      this.conn, this.infer, this.protocol, this.closed := conn, infer, protocol, false;
    }

    // ---- poll loops ------------------------------------------------------------------------

    method ReadCommandStatusFor(code: Byte) returns (r: Result<CommandStatus>, ghost poll: Poll)
      requires conn.Valid()
      modifies conn
      ensures conn.Valid()
      ensures conn.log == old(conn.log) + poll.Trace(Command)
      ensures poll.Obeys(OnHead(code)) && poll.WithinBudget()
      ensures r == StatusOf(poll.end)
      ensures conn.now >= old(conn.now) + Waits(|poll.misses|, 50)
    {
      ghost var misses: seq<seq<Byte>> := [];
      for polls := 0 to MAX_POLLS
        invariant |misses| == polls
        invariant conn.Valid() && conn.now >= old(conn.now) + Waits(polls, 50)
        invariant conn.log == old(conn.log) + Misses(Command, misses)
        invariant forall m <- misses :: !HeadIs(m, code)
      {
        var round := StatusRound(code);
        if round.Settled? {
          poll := Poll(misses, round.end);
          OneAfterTheOther(old(conn.log), Misses(Command, misses), poll.Tail(Command));
          return round.r, poll;
        }
        OneMoreMiss(Command, misses, round.payload);
        misses := misses + [round.payload];
      }
      return Err(ProtocolError), Poll(misses, Exhausted);
    }

    /** One read of the command characteristic and, while it holds something else, the wait for the next. */
    method StatusRound(code: Byte) returns (round: Round<CommandStatus>)
      requires conn.Valid()
      modifies conn
      ensures conn.Valid()
      ensures round.Pending? ==>
                && conn.log == old(conn.log) + [Read(Command, Data(round.payload)), Wait(TimerFired)]
                && !HeadIs(round.payload, code) && conn.now >= old(conn.now) + 50
      ensures round.Settled? ==>
                && conn.log == old(conn.log) + Poll([], round.end).Tail(Command)
                && Poll([], round.end).Obeys(OnHead(code)) && !round.end.Exhausted?
                && round.r == StatusOf(round.end) && conn.now >= old(conn.now)
    {
      var read := conn.ReadValue(Command);
      if read.Failed? {
        return Settled(Err(WrapContext(read.error)), Broke(read.error), None);
      }
      var payload := read.payload;
      if HeadIs(payload, code) {
        return Settled(CommandStatusOf(payload), Answered(payload), None);
      }
      var arm := conn.Select(COMMAND_INTERVAL, None);
      round := if arm.ContextDone? then Settled(Err(ProtocolError), GaveUp(payload, arm), None) else Pending(payload);
    }

    method ReadCommandOutputFor(code: Byte, accept: Accept) returns (r: Result<seq<Byte>>, ghost poll: Poll)
      requires conn.Valid()
      modifies conn
      ensures conn.Valid()
      ensures conn.log == old(conn.log) + poll.Trace(CommandResult)
      ensures poll.Obeys(OnOutput(code, accept)) && poll.WithinBudget()
      ensures r == OutputOf(code, poll.end)
      ensures conn.now >= old(conn.now) + Waits(|poll.misses|, 50)
    {
      ghost var misses: seq<seq<Byte>> := [];
      for polls := 0 to MAX_POLLS
        invariant |misses| == polls
        invariant conn.Valid() && conn.now >= old(conn.now) + Waits(polls, 50)
        invariant conn.log == old(conn.log) + Misses(CommandResult, misses)
        invariant forall m <- misses :: !Stops(OnOutput(code, accept), m)
      {
        var round := OutputRound(code, accept);
        if round.Settled? {
          poll := Poll(misses, round.end);
          OneAfterTheOther(old(conn.log), Misses(CommandResult, misses), poll.Tail(CommandResult));
          return round.r, poll;
        }
        OneMoreMiss(CommandResult, misses, round.payload);
        misses := misses + [round.payload];
      }
      return Err(ProtocolError), Poll(misses, Exhausted);
    }

    /** One read of the command result and, while it is none, the wait for the next. */
    method OutputRound(code: Byte, accept: Accept) returns (round: Round<seq<Byte>>)
      requires conn.Valid()
      modifies conn
      ensures conn.Valid()
      ensures round.Pending? ==>
                && conn.log == old(conn.log) + [Read(CommandResult, Data(round.payload)), Wait(TimerFired)]
                && !Stops(OnOutput(code, accept), round.payload) && conn.now >= old(conn.now) + 50
      ensures round.Settled? ==>
                && conn.log == old(conn.log) + Poll([], round.end).Tail(CommandResult)
                && Poll([], round.end).Obeys(OnOutput(code, accept)) && !round.end.Exhausted?
                && round.r == OutputOf(code, round.end) && conn.now >= old(conn.now)
    {
      var read := conn.ReadValue(CommandResult);
      if read.Failed? {
        return Settled(Err(WrapContext(read.error)), Broke(read.error), None);
      }
      var payload := read.payload;
      if HeadIs(payload, code) {
        return Settled(Ok(payload), Answered(payload), None);
      }
      if IsPasswordWrong(payload) {
        return Settled(Err(AuthorizationFailed), Answered(payload), None);
      }
      if Accepts(accept, payload) {
        return Settled(Ok(payload), Answered(payload), None);
      }
      var arm := conn.Select(COMMAND_INTERVAL, None);
      round := if arm.ContextDone? then Settled(Err(ProtocolError), GaveUp(payload, arm), None) else Pending(payload);
    }

    /** With a positive interval the timers that fired fit the window, so the reads are bounded by it. */
    method ReadAuthorizationResult(window: nat, interval: nat)
      returns (r: Result<bool>, ghost poll: Poll, ghost context: Option<Error>)
      requires interval > 0
      requires conn.Valid()
      modifies conn
      ensures conn.Valid()
      ensures conn.log == old(conn.log) + poll.Trace(CommandResult)
      ensures poll.Obeys(OnVerdict)
      ensures r == VerdictOf(poll.end, context)
      ensures poll.end.Broke? ==> context == conn.peer.contextError(conn.log)
      ensures Waits(|poll.misses|, interval) <= window && poll.ReadCount() == |poll.misses| + 1
      ensures conn.now >= old(conn.now) + Waits(|poll.misses|, interval)
      ensures conn.log[|conn.log| - 1] == Wait(DeadlinePassed) ==> conn.now >= old(conn.now) + window
    {
      var start := conn.now;
      var deadline := start + window;
      ghost var misses: seq<seq<Byte>> := [];
      while true
        invariant conn.Valid()
        invariant conn.log == old(conn.log) + Misses(CommandResult, misses)
        invariant forall m <- misses :: HeadIs(m, 0x01)
        invariant start + Waits(|misses|, interval) <= conn.now <= deadline
        decreases deadline - conn.now
      {
        var round := VerdictRound(interval, deadline);
        if round.Settled? {
          poll := Poll(misses, round.end);
          OneAfterTheOther(old(conn.log), Misses(CommandResult, misses), poll.Tail(CommandResult));
          return round.r, poll, round.context;
        }
        OneMoreMiss(CommandResult, misses, round.payload);
        misses := misses + [round.payload];
      }
    }

    /** One read of the verdict and, while it is pending, the wait for the next. */
    method VerdictRound(interval: nat, deadline: nat) returns (round: Round<bool>)
      requires conn.Valid()
      modifies conn
      ensures conn.Valid()
      ensures round.Pending? ==>
                && conn.log == old(conn.log) + [Read(CommandResult, Data(round.payload)), Wait(TimerFired)]
                && HeadIs(round.payload, 0x01) && old(conn.now) + interval <= conn.now <= deadline
      ensures round.Settled? ==>
                && conn.log == old(conn.log) + Poll([], round.end).Tail(CommandResult)
                && Poll([], round.end).Obeys(OnVerdict) && !round.end.Exhausted?
                && round.r == VerdictOf(round.end, round.context)
                && (round.end.Broke? ==> round.context == conn.peer.contextError(conn.log))
                && conn.now >= old(conn.now)
                && (conn.log[|conn.log| - 1] == Wait(DeadlinePassed) ==> conn.now >= deadline)
    {
      var read := conn.ReadValue(CommandResult);
      if read.Failed? {
        var ended := conn.peer.contextError(conn.log);
        var error := if ended.Some? then ended.value else read.error;
        return Settled(Err(WrapContext(error)), Broke(read.error), ended);
      }
      var payload := read.payload;
      if payload == [] {
        return Settled(Err(ProtocolError), Answered(payload), None);
      }
      if payload[0] == 0x02 {
        return Settled(Ok(true), Answered(payload), None);
      } else if payload[0] != 0x01 {
        return Settled(Err(ProtocolError), Answered(payload), None);
      }
      var arm := conn.Select(interval, Some(deadline));
      match arm
      case ContextDone(error) => round := Settled(Err(WrapContext(error)), GaveUp(payload, arm), None);
      case DeadlinePassed => round := Settled(Err(AuthorizationFailed), GaveUp(payload, arm), None);
      case TimerFired => round := Pending(payload);
    }

    method Authorize(password: seq<Byte>) returns (r: Result<bool>, ghost a: Authorization)
      requires conn.Valid()
      modifies conn
      ensures conn.Valid()
      ensures conn.log == old(conn.log) + a.Trace()
      ensures a.Proper(password) && r == a.Outcome()
      ensures a.Judged? ==> a.verdict.ReadCount() <= 16
      ensures a.Judged? ==> conn.now >= old(conn.now) + 50 * |a.verdict.misses|
      ensures TellsAuthorization(conn.peer, old(conn.log), a.Trace(), password, r)
      ensures conn.log != old(conn.log) && conn.log[|conn.log| - 1] == Wait(DeadlinePassed) ==>
                conn.now >= old(conn.now) + 750
    {
      var checked := PasswordOrDefault(password);
      if checked.Err? {
        return Err(InvalidInput), BadPassword;
      }
      var error := conn.WriteValue(Password, checked.value);
      if error.Some? {
        return Err(WrapContext(error.value)), NotSent(checked.value, error.value);
      }
      ghost var poll, context;
      r, poll, context := ReadAuthorizationResult(AUTHORIZATION_WINDOW, AUTHORIZATION_INTERVAL);
      WaitsAddUp(|poll.misses|, AUTHORIZATION_INTERVAL);
      a := Judged(checked.value, poll, context);
      assert conn.log == old(conn.log) + a.Trace() by {
        OneAfterTheOther(old(conn.log), [Write(Password, checked.value, None)], poll.Trace(CommandResult));
      }
      VerdictTells(conn.peer, old(conn.log), checked.value, poll, context);
    }

    // ---- commands --------------------------------------------------------------------------

    method SendCommand(code: Byte, payload: seq<Byte>) returns (r: Result<CommandStatus>, ghost x: Exchange)
      requires conn.Valid()
      modifies conn
      ensures conn.Valid()
      ensures conn.log == old(conn.log) + x.Trace()
      ensures x.Carries(code, payload) && !x.Fetched? && r == x.Status()
      ensures |payload| > 19 ==> x == Refused && r == Err(InvalidInput)
      ensures |payload| <= 19 ==> !x.Refused? && TellsCommand(x.Trace(), code, payload, r)
    {
      r, x := SendCommandLocked(code, payload);
      if |payload| <= 19 {
        CommandTells(x, code, payload);
      }
    }

    /** The exchange itself, for which the mutex is held. */
    method SendCommandLocked(code: Byte, payload: seq<Byte>) returns (r: Result<CommandStatus>, ghost x: Exchange)
      requires conn.Valid()
      modifies conn
      ensures conn.Valid()
      ensures conn.log == old(conn.log) + x.Trace()
      ensures x.Carries(code, payload) && !x.Fetched? && r == x.Status()
      ensures x.Refused? <==> |payload| > 19
    {
      var encoded := EncodeCommand(code, payload);
      if encoded.Err? {
        return Err(InvalidInput), Refused;
      }
      var error := conn.WriteValue(Command, encoded.value);
      if error.Some? {
        return Err(WrapContext(error.value)), NotWritten(encoded.value, error.value);
      }
      ghost var poll;
      r, poll := ReadCommandStatusFor(code);
      x := Acknowledged(encoded.value, poll);
      if r.Ok? && !r.value.ok {
        r := Err(CommandRejected);
      }
    }

    method ReadCommandPayload(code: Byte, payload: seq<Byte>, accept: Accept)
      returns (r: Result<seq<Byte>>, ghost x: Exchange)
      requires conn.Valid()
      modifies conn
      ensures conn.Valid()
      ensures conn.log == old(conn.log) + x.Trace()
      ensures x.Carries(code, payload) && x.Fetches(code, accept) && r == x.Output(code)
      ensures |payload| <= 19 ==> TellsOutput(x.Trace(), code, payload, accept, r)
    {
      r, x := ReadCommandPayloadLocked(code, payload, accept);
      if |payload| <= 19 {
        FetchIsTold(x, code, payload, accept);
      }
    }

    method ReadCommandPayloadLocked(code: Byte, payload: seq<Byte>, accept: Accept)
      returns (r: Result<seq<Byte>>, ghost x: Exchange)
      requires conn.Valid()
      modifies conn
      ensures conn.Valid()
      ensures conn.log == old(conn.log) + x.Trace()
      ensures x.Carries(code, payload) && x.Fetches(code, accept) && r == x.Output(code)
      ensures x.Refused? <==> |payload| > 19
    {
      var status;
      ghost var output;
      status, x := SendCommandLocked(code, payload);
      if status.Err? {
        return Err(status.error), x;
      }
      r, output := ReadCommandOutputFor(code, accept);
      FetchAfterAck(x, output);
      OneAfterTheOther(old(conn.log), x.Trace(), output.Trace(CommandResult));
      x := Fetched(x.bytes, x.status, output);
    }

    /** A setter writes nothing when its checks fail, and otherwise exactly its wire bytes. */
    method Apply(s: Setting) returns (r: Result<CommandStatus>, ghost x: Exchange)
      requires conn.Valid()
      modifies conn
      ensures conn.Valid()
      ensures conn.log == old(conn.log) + x.Trace() && !x.Fetched?
      ensures WireBytes(s, protocol).Err? ==> x == Refused && r == Err(InvalidInput)
      ensures WireBytes(s, protocol).Ok? ==>
                && x.Carries(CodeOf(s), PayloadOf(s)) && !x.Refused? && r == x.Status()
                && TellsCommand(x.Trace(), CodeOf(s), PayloadOf(s), r)
    {
      if !PassesChecks(s, protocol) {
        return Err(InvalidInput), Refused;
      }
      r, x := SendCommand(CodeOf(s), PayloadOf(s));
    }

    /** Brightness and blink period are two commands; the second is sent only after the first succeeds. */
    method SetLed(percent: Byte, seconds: Byte)
      returns (r: Result<CommandStatus>, ghost first: Exchange, ghost second: Exchange)
      requires conn.Valid()
      modifies conn
      ensures conn.Valid()
      ensures conn.log == old(conn.log) + first.Trace() + second.Trace()
      ensures !(1 <= percent <= 100 && 5 <= seconds <= 60) ==> first == second == Refused && r == Err(InvalidInput)
      ensures 1 <= percent <= 100 && 5 <= seconds <= 60 ==>
                && first.Carries(0x09, [percent]) && !first.Refused?
                && (!second.Refused? <==> IsExecuted(first.Trace(), 0x09, [percent]))
                && (second.Refused? ==> TellsCommand(first.Trace(), 0x09, [percent], r))
                && (!second.Refused? ==>
                      second.Carries(0x0A, [seconds]) && TellsCommand(second.Trace(), 0x0A, [seconds], r))
    {
      second := Refused;
      if percent < 1 || percent > 100 || seconds < 5 || seconds > 60 {
        return Err(InvalidInput), Refused, Refused;
      }
      r, first := SendCommand(0x09, [percent]);
      if r.Err? {
        return;
      }
      r, second := SendCommand(0x0A, [seconds]);
    }

    method ReadTrackerStatus()
      returns (r: Result<TrackerStatus>, ghost x: Exchange, ghost facet: Option<ReadResult>)
      requires conn.Valid()
      modifies conn
      ensures conn.Valid()
      ensures x.Carries(STATUS, []) && x.Fetches(STATUS, StatusLayout)
      ensures facet.Some? <==> r.Ok?
      ensures conn.log == old(conn.log) + x.Trace() + if facet.Some? then [Read(Facets, facet.value)] else []
      ensures r.Ok? <==> x.Output(STATUS).Ok? && !HeadIs(x.output.end.payload, STATUS)
      ensures r.Ok? ==>
                var fields := TrackerStatusOf(x.Output(STATUS).value);
                && fields.Ok?
                && r.value == TrackerStatus(fields.value.0, fields.value.1, fields.value.2, FacetOf(facet.value))
      ensures x.Output(STATUS).Err? ==> r == Err(x.Output(STATUS).error)
      ensures TellsStatus(x.Trace(), facet, r)
    {
      var payload;
      facet := None;
      payload, x := ReadCommandPayload(STATUS, [], StatusLayout);
      if payload.Err? {
        return Err(payload.error), x, None;
      }
      TrackerStatusDecodes(x.output);
      StatusIsRead(x.Trace(), payload);
      var fields := TrackerStatusOf(payload.value);
      if fields.Err? {
        return Err(ProtocolError), x, None;
      }
      var read := conn.ReadValue(Facets);
      r := Ok(TrackerStatus(fields.value.0, fields.value.1, fields.value.2, FacetOf(read)));
      facet := Some(read);
    }

    method ReadTask(facet: Byte) returns (r: Result<Option<Task>>, ghost x: Exchange)
      requires conn.Valid()
      modifies conn
      ensures conn.Valid()
      ensures conn.log == old(conn.log) + x.Trace()
      ensures x.Carries(READ_TASK, [facet]) && x.Fetches(READ_TASK, UnassignedMark)
      ensures r == TaskResult(x.Output(READ_TASK)) && TellsTask(x.Trace(), facet, r)
    {
      var payload;
      payload, x := ReadCommandPayload(READ_TASK, [facet], UnassignedMark);
      r := TaskResult(payload);
      TaskIsTold(x.Trace(), facet, payload);
    }

    method ReadTap() returns (r: Result<Option<Tap>>, ghost x: Exchange)
      requires conn.Valid()
      modifies conn
      ensures conn.Valid()
      ensures conn.log == old(conn.log) + x.Trace()
      ensures x.Carries(TAP_READ, []) && x.Fetches(TAP_READ, UnassignedMark)
      ensures r == TapResult(x.Output(TAP_READ)) && TellsTap(x.Trace(), r)
    {
      var payload;
      payload, x := ReadCommandPayload(TAP_READ, [], UnassignedMark);
      r := TapResult(payload);
      TapIsTold(x.Trace(), payload);
    }

    // ---- history ---------------------------------------------------------------------------

    method ReadHistoryByV4(req: HistoryRequest) returns (r: Result<seq<HistoryEntry>>, ghost a: AccessV4)
      requires conn.Valid()
      modifies conn
      ensures conn.Valid()
      ensures conn.log == old(conn.log) + a.Trace()
      ensures a.bytes == RequestBytes(req) && r == a.Outcome()
    {
      var bytes := RequestBytes(req);
      var error := conn.WriteValue(HistoryData, bytes);
      if error.Some? {
        return Err(WrapContext(error.value)), NotAsked(bytes, error.value);
      }
      var answer := conn.ReadValue(HistoryData);
      a := Asked(bytes, answer);
      if answer.Failed? {
        return Err(WrapContext(answer.error)), a;
      }
      var history := DecodeHistory(answer.payload);
      if history.Err? {
        return Err(ProtocolError), a;
      }
      r := Ok(history.value.entries);
    }

    method ReadHistoryByV3() returns (r: Result<seq<HistoryEntry>>, ghost a: AccessV3)
      requires conn.Valid()
      modifies conn
      ensures conn.Valid()
      ensures conn.log == old(conn.log) + a.Trace()
      ensures a.Proper() && r == a.Outcome()
    {
      var status;
      ghost var x, out;
      status, x := SendCommand(HISTORY_READ, []);
      if status.Err? {
        return Err(status.error), AccessV3(x, None);
      }
      r, out := ReadOutPackets();
      OneAfterTheOther(old(conn.log), x.Trace(), out.Accesses());
      a := AccessV3(x, Some(out));
    }

    /** One packet of a read-out: some entries, or the reason to stop. */
    method ReadPacket() returns (p: Packet)
      requires conn.Valid()
      modifies conn
      ensures conn.Valid()
      ensures p.Entries? ==>
                && conn.log == old(conn.log) + [Read(CommandResult, Data(p.raw))]
                && |p.raw| == PACKET_V3 && !AllZero(p.raw) && p.entries == PacketEntries(p.raw)
      ensures p.Stop? ==>
                && conn.log == old(conn.log) + LastAccess(p.end) && !p.end.OverBudget?
                && (p.end.Malformed? ==> |p.end.payload| != PACKET_V3)
    {
      var read := conn.ReadValue(CommandResult);
      if read.Failed? {
        return Stop(Broken(read.error));
      }
      var raw := read.payload;
      var decoded := DecodeHistoryV3(raw);
      if decoded.Err? {
        return Stop(Malformed(raw));
      }
      if decoded.value.complete {
        assert raw == Zeros(PACKET_V3);
        return Stop(Finished);
      }
      return Entries(raw, decoded.value.entries);
    }

    /** The result of a read-out that stopped; a count that ends it cuts the list when it is smaller. */
    method Ended(end: StreamEnd, entries: seq<HistoryEntry>, lastNonZero: seq<Byte>, ghost packets: seq<seq<Byte>>)
      returns (r: Result<seq<HistoryEntry>>)
      requires entries == EntriesOf(packets) && lastNonZero == LastOf(packets)
      ensures r == ReadOut(packets, end).Outcome()
    {
      match end
      case Broken(e) => return Err(WrapContext(e));
      case Malformed(_) => return Err(ProtocolError);
      case OverBudget => return Err(ProtocolError);
      case Finished =>
        if |lastNonZero| >= 2 {
          var announced := FromBigEndian(lastNonZero[..2]);
          if announced > 0 && announced < |entries| {
            return Ok(entries[..announced]);
          }
        }
        return Ok(entries);
    }

    method ReadOutPackets() returns (r: Result<seq<HistoryEntry>>, ghost out: ReadOut)
      requires conn.Valid()
      modifies conn
      ensures conn.Valid()
      ensures conn.log == old(conn.log) + out.Accesses()
      ensures out.Possible() && r == out.Outcome()
    {
      var entries: seq<HistoryEntry> := [];
      var lastNonZero: seq<Byte> := [];
      ghost var packets: seq<seq<Byte>> := [];
      for count := 0 to MAX_PACKETS
        invariant |packets| == count
        invariant conn.Valid()
        invariant conn.log == old(conn.log) + Reads(CommandResult, packets)
        invariant CarryBlocks(packets)
        invariant entries == EntriesOf(packets)
        invariant lastNonZero == LastOf(packets)
      {
        var packet := ReadPacket();
        if packet.Stop? {
          OneAfterTheOther(old(conn.log), Reads(CommandResult, packets), LastAccess(packet.end));
          out := ReadOut(packets, packet.end);
          r := Ended(packet.end, entries, lastNonZero, packets);
          return;
        }
        OnePacketMore(old(conn.log), packets, packet.raw);
        lastNonZero := packet.raw;
        entries := entries + packet.entries;
        packets := packets + [packet.raw];
      }
      return Err(ProtocolError), ReadOut(packets, OverBudget);
    }

    method ReadHistory(req: HistoryRequest) returns (r: Result<seq<HistoryEntry>>, ghost h: HistoryRead)
      requires conn.Valid()
      modifies conn
      ensures conn.Valid()
      ensures conn.log == old(conn.log) + h.Trace()
      ensures h.Follows(protocol, req) && r == h.Outcome()
      ensures TellsHistory(h.Trace(), protocol, req, r)
    {
      r, h := HistoryByVersion(req);
      HistoryIsTold(h, protocol, req);
    }

    /** The protocol the session is pinned to, or v4 and, only after it failed, v3. */
    method HistoryByVersion(req: HistoryRequest) returns (r: Result<seq<HistoryEntry>>, ghost h: HistoryRead)
      requires conn.Valid()
      modifies conn
      ensures conn.Valid()
      ensures conn.log == old(conn.log) + h.Trace()
      ensures h.Follows(protocol, req) && r == h.Outcome()
    {
      ghost var a4, a3;
      if protocol == V3 {
        r, a3 := ReadHistoryByV3();
        h := HistoryRead(None, Some(a3));
        assert h.Trace() == a3.Trace();
        return;
      }
      r, a4 := ReadHistoryByV4(req);
      if r.Ok? || protocol == V4 {
        h := HistoryRead(Some(a4), None);
        assert h.Trace() == a4.Trace();
        return;
      }
      r, a3 := ReadHistoryByV3();
      OneAfterTheOther(old(conn.log), a4.Trace(), a3.Trace());
      h := HistoryRead(Some(a4), Some(a3));
    }

    // ---- single reads ----------------------------------------------------------------------

    method ReadBattery() returns (r: Result<Byte>, ghost access: ReadResult)
      requires conn.Valid()
      modifies conn
      ensures conn.Valid()
      ensures conn.log == old(conn.log) + [Read(Battery, access)]
      ensures r.Ok? <==> access.Data? && |access.payload| == 1 && 1 <= access.payload[0] <= 100
      ensures r.Ok? ==> r.value == access.payload[0]
      ensures r.Err? ==> r.error == FailureOf(access)
    {
      var read := conn.ReadValue(Battery);
      access := read;
      if read.Failed? {
        return Err(WrapContext(read.error)), read;
      }
      if |read.payload| != 1 || read.payload[0] == 0 || read.payload[0] > 100 {
        return Err(ProtocolError), read;
      }
      r := Ok(read.payload[0]);
    }

    method ReadSystemState() returns (r: Result<(UInt16, UInt16)>, ghost trace: Log)
      requires conn.Valid()
      modifies conn
      ensures conn.Valid()
      ensures conn.log == old(conn.log) + trace
      ensures protocol == V3 ==> trace == [] && r == Err(UnsupportedOperation)
      ensures protocol != V3 ==>
                && |trace| == 1 && IsRead(trace[0], SystemState)
                && (r.Ok? <==> trace[0].result.Data? && |trace[0].result.payload| == 4)
                && (r.Ok? ==> trace[0].result.payload == Word(r.value.0) + Word(r.value.1))
                && (r.Err? ==> r.error == FailureOf(trace[0].result))
    {
      if protocol == V3 {
        return Err(UnsupportedOperation), [];
      }
      var read := conn.ReadValue(SystemState);
      trace := [Read(SystemState, read)];
      if read.Failed? {
        return Err(WrapContext(read.error)), trace;
      }
      r := SystemStateOf(read.payload);
    }

    /** A well-formed sample on an undecided session decides for v3. */
    method ReadAccelerometer() returns (r: Result<(int, int, int)>, ghost trace: Log)
      requires conn.Valid()
      modifies conn, this`protocol
      ensures conn.Valid()
      ensures conn.log == old(conn.log) + trace
      ensures old(protocol) == V4 ==> trace == [] && r == Err(UnsupportedOperation)
      ensures old(protocol) != V4 ==>
                && |trace| == 1 && IsRead(trace[0], Events)
                && (r.Ok? <==> trace[0].result.Data? && |trace[0].result.payload| == 6)
                && (r.Ok? ==> trace[0].result.payload == SampleBytes(r.value.0, r.value.1, r.value.2))
                && (r.Err? ==> r.error == FailureOf(trace[0].result))
      ensures protocol == if r.Ok? && old(protocol) == Auto then V3 else old(protocol)
    {
      if protocol == V4 {
        return Err(UnsupportedOperation), [];
      }
      var read := conn.ReadValue(Events);
      trace := [Read(Events, read)];
      if read.Failed? {
        return Err(WrapContext(read.error)), trace;
      }
      r := SampleOf(read.payload);
      if r.Ok? && protocol == Auto {
        protocol := V3;
      }
    }

    /** Missing characteristics are skipped; any other failure ends the read. */
    method ReadDeviceInfo() returns (r: Result<DeviceInfo>, ghost trace: Log)
      requires conn.Valid()
      modifies conn, this`protocol
      ensures conn.Valid()
      ensures conn.log == old(conn.log) + trace
      ensures 1 <= |trace| <= |InfoCharacteristics(old(protocol))|
      ensures forall i :: 0 <= i < |trace| ==> IsRead(trace[i], InfoCharacteristics(old(protocol))[i])
      ensures r.Ok? <==>
                && |trace| == |InfoCharacteristics(old(protocol))|
                && (forall e <- trace :: e.Read? && (e.result.Data? || e.result == Failed(ProtocolError)))
                && (exists e <- trace :: e.result.Data?)
      ensures r.Ok? ==>
                && Collected(trace, r.value.values)
                && r.value.version ==
                   infer(if FirmwareRevision in r.value.values then r.value.values[FirmwareRevision] else [])
      ensures r.Err? ==> r.error == InfoFailure(trace)
      ensures protocol == if r.Ok? && old(protocol) == Auto then r.value.version else old(protocol)
    {
      var values, failure;
      values, failure, trace := CollectInfo(InfoCharacteristics(protocol));
      if failure.Some? {
        return Err(failure.value), trace;
      }
      if values == map[] {
        return Err(ProtocolError), trace;
      }
      ghost var ch :| ch in values;
      assert Read(ch, Data(values[ch])).result.Data?;
      var version := infer(FirmwareOf(values));
      if protocol == Auto && version != Auto {
        protocol := version;
      }
      r := Ok(DeviceInfo(values, version));
    }

    /** Read some characteristics one after the other, up to the first failure that is not a missing one. */
    method CollectInfo(characteristics: seq<Characteristic>)
      returns (values: map<Characteristic, seq<Byte>>, failure: Option<Error>, ghost trace: Log)
      requires forall i, j :: 0 <= i < j < |characteristics| ==> characteristics[i] != characteristics[j]
      requires conn.Valid()
      modifies conn
      ensures conn.Valid()
      ensures conn.log == old(conn.log) + trace
      ensures |trace| <= |characteristics| && (characteristics != [] ==> trace != [])
      ensures forall i :: 0 <= i < |trace| ==> IsRead(trace[i], characteristics[i])
      ensures failure.None? ==>
                |trace| == |characteristics| && Collected(trace, values) && forall e <- trace :: Skippable(e)
      ensures failure.Some? ==>
                && trace != [] && trace[|trace| - 1].Read? && !Skippable(trace[|trace| - 1])
                && failure.value == FailureOf(trace[|trace| - 1].result)
    {
      values, failure, trace := map[], None, [];
      for i := 0 to |characteristics|
        invariant conn.Valid()
        invariant conn.log == old(conn.log) + trace && |trace| == i
        invariant forall k :: 0 <= k < i ==> IsRead(trace[k], characteristics[k]) && Skippable(trace[k])
        invariant Collected(trace, values)
      {
        var ch := characteristics[i];
        var read := conn.ReadValue(ch);
        OneAfterTheOther(old(conn.log), trace, [Read(ch, read)]);
        assert forall k :: 0 <= k < i ==> characteristics[k] != ch;
        OneMoreCollected(trace, values, ch, read);
        trace := trace + [Read(ch, read)];
        if read.Data? {
          values := values[ch := read.payload];
        } else if read.error != ProtocolError {
          return values, Some(WrapContext(read.error)), trace;
        }
      }
    }

    /** The check that ends a pairing: the system state where there may be one, else a facet read. */
    method VerifyUsable() returns (error: Option<Error>, ghost trace: Log)
      requires conn.Valid()
      modifies conn
      ensures conn.Valid()
      ensures conn.log == old(conn.log) + trace
      ensures 1 <= |trace| <= 2 && forall e <- trace :: IsRead(e, SystemState) || IsRead(e, Facets)
      ensures protocol == V3 ==>
                |trace| == 1 && IsRead(trace[0], Facets) && (error.None? <==> trace[0].result.Data?)
      ensures protocol == V4 ==>
                |trace| == 1 && IsRead(trace[0], SystemState) && (error.None? <==> IsState(trace[0]))
      ensures protocol == Auto ==>
                && IsRead(trace[0], SystemState)
                && if IsState(trace[0]) then |trace| == 1 && error.None?
                   else |trace| == 2 && IsRead(trace[1], Facets) && (error.None? <==> trace[1].result.Data?)
      ensures error.None? ==> trace[|trace| - 1].result.Data?
      ensures error.Some? ==> error.value == FailureOf(trace[|trace| - 1].result)
    {
      trace := [];
      if protocol != V3 {
        var state;
        state, trace := ReadSystemState();
        if state.Ok? {
          return None, trace;
        }
        if protocol == V4 {
          return Some(state.error), trace;
        }
      }
      var read := conn.ReadValue(Facets);
      OneAfterTheOther(old(conn.log), trace, [Read(Facets, read)]);
      trace := trace + [Read(Facets, read)];
      error := if read.Failed? then Some(WrapContext(read.error)) else None;
    }

    /** The connection is closed the first time only. */
    method CloseSession()
      requires conn.Valid()
      modifies conn, this`closed
      ensures conn.Valid()
      ensures closed
      ensures conn.log == old(conn.log) + if old(closed) then [] else [Close]
    {
      if !closed {
        closed := true;
        conn.Shut();
      }
    }

    // ---- serial runs -----------------------------------------------------------------------

    /** One typed operation, whichever it is: it makes its accesses, within what the version at its start allows. */
    method Perform(op: Operation) returns (ghost trace: Log)
      requires conn.Valid()
      modifies conn, this`protocol
      ensures conn.Valid()
      ensures conn.log == old(conn.log) + trace
      ensures Respects(old(protocol), trace) && Performs(op, old(protocol), trace)
      ensures Pins(old(protocol), protocol)
    {
      match op
      case ReadingInfo => trace := PerformInfo();
      case ReadingBattery => var _, a := ReadBattery(); trace := [Read(Battery, a)];
      case ReadingSystemState => var _, t := ReadSystemState(); trace := t;
      case ReadingAccelerometer => var _, t := ReadAccelerometer(); trace := t;
      case Authorizing(password) => trace := PerformAuthorization(password);
      case Applying(setting) => trace := PerformSetting(setting);
      case SettingLed(percent, seconds) => trace := PerformLed(percent, seconds);
      case ReadingStatus => trace := PerformStatus();
      case ReadingTask(facet) => trace := PerformTask(facet);
      case ReadingTap => trace := PerformTap();
      case ReadingHistory(req) => trace := PerformHistory(req);
    }

    method PerformInfo() returns (ghost trace: Log)
      requires conn.Valid()
      modifies conn, this`protocol
      ensures conn.Valid()
      ensures conn.log == old(conn.log) + trace
      ensures Respects(old(protocol), trace) && Performs(ReadingInfo, old(protocol), trace)
      ensures Pins(old(protocol), protocol)
    {
      ghost var characteristics := InfoCharacteristics(protocol);
      var _, t := ReadDeviceInfo();
      trace := t;
      InfoRespects(t, characteristics, old(protocol));
    }

    method PerformAuthorization(password: seq<Byte>) returns (ghost trace: Log)
      requires conn.Valid()
      modifies conn
      ensures conn.Valid()
      ensures conn.log == old(conn.log) + trace
      ensures Respects(protocol, trace) && Performs(Authorizing(password), protocol, trace)
    {
      var _, a := Authorize(password);
      AuthorizationsRespect(a, protocol);
      trace := a.Trace();
    }

    method PerformSetting(setting: Setting) returns (ghost trace: Log)
      requires conn.Valid()
      modifies conn
      ensures conn.Valid()
      ensures conn.log == old(conn.log) + trace
      ensures Respects(protocol, trace) && Performs(Applying(setting), protocol, trace)
    {
      var _, x := Apply(setting);
      if !x.Refused? {
        ExchangesRespect(x, CodeOf(setting), PayloadOf(setting), protocol);
      }
      trace := x.Trace();
    }

    method PerformTask(facet: Byte) returns (ghost trace: Log)
      requires conn.Valid()
      modifies conn
      ensures conn.Valid()
      ensures conn.log == old(conn.log) + trace
      ensures Respects(protocol, trace) && Performs(ReadingTask(facet), protocol, trace)
    {
      var _, x := ReadTask(facet);
      ExchangesRespect(x, READ_TASK, [facet], protocol);
      ExchangeIsTried(x, READ_TASK, [facet]);
      trace := x.Trace();
    }

    method PerformTap() returns (ghost trace: Log)
      requires conn.Valid()
      modifies conn
      ensures conn.Valid()
      ensures conn.log == old(conn.log) + trace
      ensures Respects(protocol, trace) && Performs(ReadingTap, protocol, trace)
    {
      var _, x := ReadTap();
      ExchangesRespect(x, TAP_READ, [], protocol);
      ExchangeIsTried(x, TAP_READ, []);
      trace := x.Trace();
    }

    method PerformHistory(req: HistoryRequest) returns (ghost trace: Log)
      requires conn.Valid()
      modifies conn
      ensures conn.Valid()
      ensures conn.log == old(conn.log) + trace
      ensures Respects(protocol, trace) && Performs(ReadingHistory(req), protocol, trace)
    {
      var _, h := ReadHistory(req);
      HistoryRespects(h, protocol, req);
      HistoryIsTried(h, protocol, req);
      trace := h.Trace();
    }

    method PerformStatus() returns (ghost trace: Log)
      requires conn.Valid()
      modifies conn
      ensures conn.Valid()
      ensures conn.log == old(conn.log) + trace
      ensures Respects(protocol, trace) && Performs(ReadingStatus, protocol, trace)
    {
      var _, x, facet := ReadTrackerStatus();
      ghost var read := if facet.Some? then [Read(Facets, facet.value)] else [];
      StatusRespects(x, read, protocol);
      OneAfterTheOther(old(conn.log), x.Trace(), read);
      trace := x.Trace() + read;
    }

    method PerformLed(percent: Byte, seconds: Byte) returns (ghost trace: Log)
      requires conn.Valid()
      modifies conn
      ensures conn.Valid()
      ensures conn.log == old(conn.log) + trace
      ensures Respects(protocol, trace) && Performs(SettingLed(percent, seconds), protocol, trace)
    {
      var _, first, second := SetLed(percent, seconds);
      LedRespects(first, second, percent, seconds, protocol);
      OneAfterTheOther(old(conn.log), first.Trace(), second.Trace());
      trace := first.Trace() + second.Trace();
    }

    /**
      A serial run: `versions[i]` is the version and `marks[i]` the length of the log before operation i.
      Each operation makes its accesses; once some version is decided it stays, and everything done from then
      on respects it.
     */
    method Run(ops: seq<Operation>) returns (ghost versions: seq<Version>, ghost marks: seq<nat>)
      requires conn.Valid()
      modifies conn, this`protocol
      ensures conn.Valid()
      ensures |versions| == |marks| == |ops| + 1
      ensures versions[0] == old(protocol) && versions[|ops|] == protocol
      ensures marks[0] == |old(conn.log)| && marks[|ops|] == |conn.log| && old(conn.log) <= conn.log
      ensures PinnedFrom(versions, marks, conn.log)
      ensures AllPerformed(ops, versions, marks, conn.log)
    {
      versions, marks := [protocol], [|conn.log|];
      for i := 0 to |ops|
        invariant |versions| == |marks| == i + 1
        invariant conn.Valid()
        invariant versions[0] == old(protocol) && versions[i] == protocol
        invariant marks[0] == |old(conn.log)| && marks[i] == |conn.log| && old(conn.log) <= conn.log
        invariant PinnedFrom(versions, marks, conn.log)
        invariant AllPerformed(ops[..i], versions, marks, conn.log)
      {
        ghost var before := conn.log;
        var trace := Perform(ops[i]);
        PinnedStep(versions, marks, before, trace, protocol);
        PerformedStep(ops[..i], versions, marks, before, ops[i], trace, protocol);
        versions, marks := versions + [protocol], marks + [|conn.log|];
        assert ops[..i + 1] == ops[..i] + [ops[i]];
      }
      assert ops[..|ops|] == ops;
    }
  }

  /** The accesses by which an operation can be told to have been done. */
  ghost predicate Performs(op: Operation, v: Version, trace: Log) {
    match op
    case Authorizing(password) =>
      PasswordOrDefault(password).Ok? ==>
        && trace != [] && IsWrite(trace[0], Password) && trace[0].payload == PasswordOrDefault(password).value
    case Applying(setting) => WireBytes(setting, v).Ok? ==> IsTried(trace, CodeOf(setting), PayloadOf(setting))
    case SettingLed(percent, seconds) =>
      1 <= percent <= 100 && 5 <= seconds <= 60 ==>
        && IsTried(trace, 0x09, [percent])
        && (IsExecuted(trace, 0x09, [percent]) ==> IsTried(trace, 0x0A, [seconds]))
    case ReadingInfo => trace != [] && IsRead(trace[0], if v == V3 then ManufacturerName else DeviceName)
    case ReadingBattery => |trace| == 1 && IsRead(trace[0], Battery)
    case ReadingSystemState => if v == V3 then trace == [] else |trace| == 1 && IsRead(trace[0], SystemState)
    case ReadingAccelerometer => if v == V4 then trace == [] else |trace| == 1 && IsRead(trace[0], Events)
    case ReadingStatus => IsTried(trace, 0x10, [])
    case ReadingTask(facet) => IsTried(trace, 0x14, [facet])
    case ReadingTap => IsTried(trace, 0x17, [])
    case ReadingHistory(req) =>
      if v == V3 then IsTried(trace, 0x01, [])
      else trace != [] && IsWrite(trace[0], HistoryData) && trace[0].payload == RequestBytes(req)
  }

  ghost predicate PerformedIn(op: Operation, v: Version, first: nat, last: nat, log: Log) {
    first <= last <= |log| && Performs(op, v, log[first..last])
  }

  /** Between its mark and the next, each operation of a run was done on the version of its time. */
  ghost predicate AllPerformed(ops: seq<Operation>, versions: seq<Version>, marks: seq<nat>, log: Log) {
    && |versions| == |marks| == |ops| + 1
    && (forall i :: 0 <= i < |ops| ==> PerformedIn(ops[i], versions[i], marks[i], marks[i + 1], log))
  }

  lemma StaysPerformed(op: Operation, v: Version, first: nat, last: nat, log: Log, trace: Log)
    requires PerformedIn(op, v, first, last, log)
    ensures PerformedIn(op, v, first, last, log + trace)
  {
    assert (log + trace)[first..last] == log[first..last];
  }

  lemma PerformedStep(
    ops: seq<Operation>, versions: seq<Version>, marks: seq<nat>, log: Log, op: Operation, trace: Log, v: Version)
    requires AllPerformed(ops, versions, marks, log) && marks[|ops|] == |log| && Performs(op, versions[|ops|], trace)
    ensures AllPerformed(ops + [op], versions + [v], marks + [|log + trace|], log + trace)
  {
    forall i | 0 <= i < |ops|
      ensures PerformedIn(ops[i], versions[i], marks[i], marks[i + 1], log + trace)
    {
      StaysPerformed(ops[i], versions[i], marks[i], marks[i + 1], log, trace);
    }
    assert (log + trace)[|log|..|log + trace|] == trace;
    assert PerformedIn(op, versions[|ops|], |log|, |log + trace|, log + trace);
  }

  lemma ExchangeIsTried(x: Exchange, code: Byte, payload: seq<Byte>)
    requires x.Carries(code, payload) && |payload| <= 19
    ensures IsTried(x.Trace(), code, payload)
  {
    assert x.Trace()[0] in x.Trace();
  }

  lemma HistoryIsTried(h: HistoryRead, v: Version, req: HistoryRequest)
    requires h.Follows(v, req)
    ensures Performs(ReadingHistory(req), v, h.Trace())
  {
    if v == V3 {
      var x := h.v3.value.command;
      assert h.Trace()[0] == x.Trace()[0] && h.Trace()[0] in h.Trace();
    }
  }

  lemma LedRespects(first: Exchange, second: Exchange, percent: Byte, seconds: Byte, v: Version)
    requires if 1 <= percent <= 100 && 5 <= seconds <= 60 then
               && first.Carries(0x09, [percent]) && !first.Refused?
               && (!second.Refused? <==> IsExecuted(first.Trace(), 0x09, [percent]))
               && (!second.Refused? ==> second.Carries(0x0A, [seconds]))
             else first == second == Refused
    ensures Respects(v, first.Trace() + second.Trace())
    ensures Performs(SettingLed(percent, seconds), v, first.Trace() + second.Trace())
  {
    var trace := first.Trace() + second.Trace();
    if !first.Refused? {
      ExchangesRespect(first, 0x09, [percent], v);
      ExchangeIsTried(first, 0x09, [percent]);
    }
    if !second.Refused? {
      ExchangesRespect(second, 0x0A, [seconds], v);
      ExchangeIsTried(second, 0x0A, [seconds]);
    } else {
      assert trace == first.Trace();
    }
    RespectsBoth(v, first.Trace(), second.Trace());
  }

  /** Every decided version persists, and bounds all accesses after its mark. */
  ghost predicate PinnedFrom(versions: seq<Version>, marks: seq<nat>, log: Log) {
    && |versions| == |marks|
    && (forall i :: 0 <= i < |marks| ==> marks[i] <= |log|)
    && (forall i, j :: 0 <= i <= j < |versions| ==> Pins(versions[i], versions[j]))
    && (forall i :: 0 <= i < |marks| ==> Respects(versions[i], log[marks[i]..]))
  }

  lemma PinnedStep(versions: seq<Version>, marks: seq<nat>, log: Log, trace: Log, version: Version)
    requires versions != [] && PinnedFrom(versions, marks, log)
    requires Pins(versions[|versions| - 1], version)
    requires Respects(versions[|versions| - 1], trace)
    ensures PinnedFrom(versions + [version], marks + [|log + trace|], log + trace)
  {
    forall i | 0 <= i < |marks|
      ensures Respects(versions[i], (log + trace)[marks[i]..])
    {
      assert Pins(versions[i], versions[|versions| - 1]);
      assert (log + trace)[marks[i]..] == log[marks[i]..] + trace;
      RespectsBoth(versions[i], log[marks[i]..], trace);
    }
  }

  // ---- what a log tells of typed reads ------------------------------------------------------

  /** A task is read exactly from an output of eleven bytes or more headed by 0x14, no task from the mark for it. */
  ghost predicate TellsTask(log: Log, facet: Byte, r: Result<Option<Task>>) {
    var p := if LastOutput(log).Some? then LastOutput(log).value else [];
    && (r.Ok? <==>
          && IsExecuted(log, 0x14, [facet]) && LastOutput(log).Some?
          && (p == [0x19, 0x00] || (HeadIs(p, 0x14) && |p| >= 11)))
    && (r.Ok? ==> (r.value.None? <==> p == [0x19, 0x00]))
    && (r.Ok? && r.value.Some? ==> TaskBytes(r.value.value) <= p)
    && (r.Err? ==> ReadingError(log, 0x14, [facet]) == Some(r.error))
  }

  /** Likewise the tap settings, from nine bytes or more headed by 0x17, whatever registers are named in them. */
  ghost predicate TellsTap(log: Log, r: Result<Option<Tap>>) {
    var p := if LastOutput(log).Some? then LastOutput(log).value else [];
    && (r.Ok? <==>
          && IsExecuted(log, 0x17, []) && LastOutput(log).Some?
          && (p == [0x19, 0x00] || (HeadIs(p, 0x17) && |p| >= 9)))
    && (r.Ok? ==> (r.value.None? <==> p == [0x19, 0x00]))
    && (r.Ok? && r.value.Some? ==> TapBytes(r.value.value, p[1], p[3], p[5], p[7]) <= p)
    && (r.Err? ==> ReadingError(log, 0x17, []) == Some(r.error))
  }

  /** A status is read exactly from an output of its layout; the facet is known if one byte could be read for it. */
  ghost predicate TellsStatus(log: Log, facet: Option<ReadResult>, r: Result<TrackerStatus>) {
    && (r.Ok? <==>
          IsExecuted(log, 0x10, []) && LastOutput(log).Some? && IsExtra(StatusLayout, LastOutput(log).value))
    && (r.Ok? ==>
          && r.value.autoPauseMinutes < Span(2)
          && StatusBytes(r.value.lock, r.value.pause, r.value.autoPauseMinutes) <= LastOutput(log).value
          && (r.value.facet.Some? <==> facet.Some? && facet.value.Data? && |facet.value.payload| == 1)
          && (r.value.facet.Some? ==> facet.value.payload == [r.value.facet.value]))
    && (r.Err? ==> ReadingError(log, 0x10, []) == Some(r.error))
  }

  lemma TaskIsTold(log: Log, facet: Byte, output: Result<seq<Byte>>)
    requires TellsOutput(log, 0x14, [facet], UnassignedMark, output)
    ensures TellsTask(log, facet, TaskResult(output))
  {
    if output.Ok? && !IsUnassigned(output.value) && |output.value| >= 11 {
      TaskIsExact(output.value);
    }
  }

  lemma TapIsTold(log: Log, output: Result<seq<Byte>>)
    requires TellsOutput(log, 0x17, [], UnassignedMark, output)
    ensures TellsTap(log, TapResult(output))
  {
    if output.Ok? && !IsUnassigned(output.value) && |output.value| >= 9 {
      TapIsExact(output.value);
    }
  }

  lemma StatusIsRead(log: Log, output: Result<seq<Byte>>)
    requires TellsOutput(log, 0x10, [], StatusLayout, output)
    ensures output.Ok? ==>
              && (TrackerStatusOf(output.value).Ok? <==> IsExtra(StatusLayout, output.value))
              && (TrackerStatusOf(output.value).Ok? ==>
                    var fields := TrackerStatusOf(output.value).value;
                    fields.2 < Span(2) && StatusBytes(fields.0, fields.1, fields.2) <= output.value)
    ensures output.Err? ==> ReadingError(log, 0x10, []) == Some(output.error)
  {
    if output.Ok? && TrackerStatusOf(output.value).Ok? {
      var fields := TrackerStatusOf(output.value).value;
      FieldWidths();
      TrackerStatusIsExact(output.value, fields.0, fields.1, fields.2);
    }
  }

  /** The mark of an unassigned task or tap is no error, and anything else must have the full layout. */
  function TaskResult(output: Result<seq<Byte>>): Result<Option<Task>> {
    match output
    case Err(e) => Err(e)
    case Ok(p) =>
      if IsUnassigned(p) then Ok(None)
      else if TaskOf(p).Err? then Err(ProtocolError)
      else Ok(Some(TaskOf(p).value))
  }

  function TapResult(output: Result<seq<Byte>>): Result<Option<Tap>> {
    match output
    case Err(e) => Err(e)
    case Ok(p) =>
      if IsUnassigned(p) then Ok(None)
      else if TapOf(p).Err? then Err(ProtocolError)
      else Ok(Some(TapOf(p).value))
  }
}
