/** The staged Pair and Unpair workflows of client.go. */
module Workflow {
  import opened Bytes
  import opened Device
  import opened Exchange
  import opened Outcomes
  import opened Polling
  import opened Session
  import opened Settings

  datatype ManualAction = ManualAction(description: string)

  datatype OSAction = OSAction(
    performed: bool, unsupported: bool, manualAction: Option<ManualAction>, error: Option<Error>)

  /** What the transport will do, and the radio through which it reaches the device. */
  datatype Transport = Transport(
    connectError: Option<Error>, radio: Radio, infer: seq<Byte> -> Version, pairOS: OSAction, unpairOS: OSAction)

  datatype StageResult<S> = StageResult(
    stage: S, completed: bool, error: Option<Error>, manualAction: Option<ManualAction>)

  datatype PairStage = ConnectStep | OsPairStep | AuthorizeStep | PasswordStep | VerifyStep | PairComplete {
    function Rank(): nat {
      match this
      case ConnectStep => 0
      case OsPairStep => 1
      case AuthorizeStep => 2
      case PasswordStep => 3
      case VerifyStep => 4
      case PairComplete => 5
    }
  }

  datatype UnpairStage = UnpairConnect | UnpairAuthorize | DeviceReset | OsUnpair | UnpairComplete {
    function Rank(): nat {
      match this
      case UnpairConnect => 0
      case UnpairAuthorize => 1
      case DeviceReset => 2
      case OsUnpair => 3
      case UnpairComplete => 4
    }
  }

  datatype PairRequest = PairRequest(
    device: string, password: seq<Byte>, newPassword: seq<Byte>, allowOS: bool)

  datatype UnpairRequest = UnpairRequest(
    device: string, password: seq<Byte>, factoryReset: bool, allowOS: bool)

  datatype PairResult = PairResult(
    completed: bool, stage: PairStage, stages: seq<StageResult<PairStage>>, manualAction: Option<ManualAction>)

  datatype UnpairResult = UnpairResult(
    completed: bool, resetComplete: bool, osComplete: bool, stage: UnpairStage,
    stages: seq<StageResult<UnpairStage>>, manualAction: Option<ManualAction>)

  function Last(conns: seq<Connection>): Connection
    requires conns != []
  {
    conns[|conns| - 1]
  }

  // ---- what a log shows --------------------------------------------------------------------

  /** A password was written, and later a grant was read, both before position i. */
  ghost predicate GrantedBefore(log: Log, i: nat)
    requires i <= |log|
  {
    exists j, k :: 0 <= j < k < i && IsWrite(log[j], Password) && log[j].error.None? && IsGrant(log[k])
  }

  /** Nothing is written to the command characteristic before a grant that follows a password. */
  ghost predicate CommandsNeedGrants(log: Log) {
    forall i :: 0 <= i < |log| && IsWrite(log[i], Command) ==> GrantedBefore(log, i)
  }

  /** A connection is closed once, at the end. */
  ghost predicate ClosedOnce(log: Log) {
    log != [] && log[|log| - 1] == Close && Close !in log[..|log| - 1]
  }

  /** What an authorization does. */
  predicate IsQuiet(e: Event) { e.Wait? || IsRead(e, CommandResult) || IsWrite(e, Password) }

  /** A successful authorization of a fresh connection. */
  ghost predicate Opening(log: Log) {
    && |log| >= 2
    && IsWrite(log[0], Password) && log[0].error.None?
    && IsGrant(log[|log| - 1]) && Granted(log)
    && forall e <- log :: IsQuiet(e)
  }

  /** The first thing done was to write this password, or the default one for an empty one. */
  predicate SentFirst(log: Log, password: seq<Byte>) {
    log != [] && PasswordOrDefault(password).Ok? && log[0] == Write(Password, PasswordOrDefault(password).value, None)
  }

  /** After the password was sent and granted, the state or the facet of the device could be read. */
  ghost predicate IsVerified(log: Log, password: seq<Byte>) {
    SentFirst(log, password) && exists k :: 0 <= k < |log| && VerifiedAt(log, k)
  }

  ghost predicate VerifiedAt(log: Log, k: nat)
    requires k < |log|
  {
    (IsRead(log[k], SystemState) || IsRead(log[k], Facets)) && log[k].result.Data? && GrantedBefore(log, k)
  }

  lemma OpeningGrants(opening: Log, rest: Log)
    requires Opening(opening)
    ensures forall i :: |opening| <= i <= |opening + rest| ==> GrantedBefore(opening + rest, i)
  {
    var log := opening + rest;
    assert IsWrite(log[0], Password) && IsGrant(log[|opening| - 1]);
  }

  lemma GrantLasts(log: Log, more: Log)
    ensures forall i :: 0 <= i <= |log| && GrantedBefore(log, i) ==>
              forall n :: i <= n <= |log + more| ==> GrantedBefore(log + more, n)
  {
    forall i, n | 0 <= i <= |log| && GrantedBefore(log, i) && i <= n <= |log + more|
      ensures GrantedBefore(log + more, n)
    {
      var j, k :| 0 <= j < k < i && IsWrite(log[j], Password) && log[j].error.None? && IsGrant(log[k]);
      assert IsWrite((log + more)[j], Password) && IsGrant((log + more)[k]);
    }
  }

  lemma VerifiedShows(opening: Log, setting: Log, verifying: Log, password: seq<Byte>)
    requires Opening(opening) && SentFirst(opening, password) && verifying != []
    requires var last := verifying[|verifying| - 1];
             (IsRead(last, SystemState) || IsRead(last, Facets)) && last.result.Data?
    ensures IsVerified(opening + setting + verifying, password)
  {
    OneAfterTheOther(opening, setting, verifying);
    OpeningGrants(opening, setting + verifying);
    var log := opening + setting + verifying;
    assert VerifiedAt(log, |log| - 1);
  }

  lemma AuthorizationOpens(a: Authorization, password: seq<Byte>)
    requires a.Proper(password)
    ensures a.Outcome().Ok? && Granted(a.Trace()) ==> Opening(a.Trace()) && SentFirst(a.Trace(), password)
    ensures forall e <- a.Trace() :: IsQuiet(e)
  {
    if a.Judged? {
      TraceOnlyReads(a.verdict, CommandResult);
      if a.Outcome().Ok? {
        var tail := a.verdict.Tail(CommandResult);
        assert tail == [Read(CommandResult, Data(a.verdict.end.payload))];
        var t := a.Trace();
        assert t[|t| - 1] == tail[0];
      }
    }
  }

  lemma FreshAuthorization(a: Authorization, password: seq<Byte>, peer: Peer)
    requires a.Proper(password) && |password| == 6
    requires TellsAuthorization(peer, [], a.Trace(), password, a.Outcome())
    ensures var log := a.Trace();
            && Close !in log && CommandsNeedGrants(log)
            && (a.Outcome().Ok? ==> Opening(log) && log[0] == Write(Password, password, None))
            && (a.Outcome().Err? ==> VerdictError(peer, log) == Some(a.Outcome().error))
  {
    AuthorizationOpens(a, password);
    NoCommandsNoGrants(a.Trace());
    assert [] + a.Trace() == a.Trace();
  }

  lemma GrantExtends(log: Log, more: Log)
    requires Granted(log)
    ensures Granted(log + more)
  {
    var k :| 0 <= k < |log| && GrantedAt(log, k);
    assert GrantedAt(log + more, k);
  }

  /** After an opening, anything may be written. */
  lemma GrantsCover(opening: Log, rest: Log)
    requires Opening(opening)
    ensures CommandsNeedGrants(opening + rest)
  {
    var log := opening + rest;
    assert forall i :: 0 <= i < |opening| ==> log[i] in opening;
    assert IsWrite(log[0], Password) && IsGrant(log[|opening| - 1]);
  }

  lemma NoCommandsNoGrants(log: Log)
    requires forall e <- log :: !IsWrite(e, Command)
    ensures CommandsNeedGrants(log)
  {}

  // ---- where a log says a pairing stopped ---------------------------------------------------

  /** A wanted new password was written and acknowledged. */
  ghost predicate PasswordIsSet(log: Log, req: PairRequest) {
    req.newPassword != [] ==> IsExecuted(log, 0x30, req.newPassword)
  }

  /** The device answered like one that is in use: with its system state, or without one with a facet. */
  ghost predicate IsUsable(log: Log, v: Version) {
    exists e <- log :: (v != V3 && IsState(e)) || (v != V4 && IsRead(e, Facets) && e.result.Data?)
  }

  /** The error told by the last read of a device that is not usable. */
  function UsableError(log: Log, v: Version): Option<Error> {
    if log == [] then None
    else
      match log[|log| - 1]
      case Read(SystemState, r) => if v == V4 && !IsState(log[|log| - 1]) then Some(FailureOf(r)) else None
      case Read(Facets, Failed(e)) => if v != V4 then Some(WrapContext(e)) else None
      case _ => None
  }

  /**
    Where a pairing over a connection with this log must have stopped, and with which error: at the first of
    grant, new password and usable device that the log does not show.
   */
  ghost predicate PairStops(req: PairRequest, v: Version, peer: Peer, log: Log, stage: PairStage, error: Error) {
    match stage
    case AuthorizeStep => !Granted(log) && VerdictError(peer, log) == Some(error)
    case PasswordStep =>
      && Granted(log) && !PasswordIsSet(log, req)
      && if |req.newPassword| != 6 then error == InvalidInput && forall e <- log :: !Touches(e, Command)
         else IsTried(log, 0x30, req.newPassword) && CommandError(log, 0x30, req.newPassword) == Some(error)
    case VerifyStep =>
      Granted(log) && PasswordIsSet(log, req) && !IsUsable(log, v) && UsableError(log, v) == Some(error)
    case _ => false
  }

  /** A factory reset was written and acknowledged. */
  ghost predicate IsReset(log: Log) {
    IsExecuted(log, 0xFF, [])
  }

  /** Likewise for an unpairing. */
  ghost predicate UnpairStops(req: UnpairRequest, peer: Peer, log: Log, stage: UnpairStage, error: Error) {
    match stage
    case UnpairAuthorize => !Granted(log) && VerdictError(peer, log) == Some(error)
    case DeviceReset =>
      && Granted(log) && req.factoryReset && !IsReset(log)
      && IsTried(log, 0xFF, []) && CommandError(log, 0xFF, []) == Some(error)
    case _ => false
  }

  /** What a check for usability did and what came of it, on any version. */
  ghost predicate Checked(verifying: Log, v: Version, error: Option<Error>) {
    && 1 <= |verifying| <= 2
    && (v == V4 ==> |verifying| == 1 && IsRead(verifying[0], SystemState))
    && (v == V3 ==> |verifying| == 1 && IsRead(verifying[0], Facets))
    && (v == Auto ==>
          && IsRead(verifying[0], SystemState) && (|verifying| == 1 <==> IsState(verifying[0]))
          && (|verifying| == 2 ==> IsRead(verifying[1], Facets)))
    && var last := verifying[|verifying| - 1];
       && last.Read? && (error.None? <==> if last.ch == Facets then last.result.Data? else IsState(last))
       && (error.Some? ==> error.value == FailureOf(last.result))
  }

  lemma UsableIsTold(opening: Log, setting: Log, verifying: Log, v: Version, error: Option<Error>)
    requires (forall e <- opening :: IsQuiet(e)) && forall e <- setting :: !IsRead(e, SystemState) && !IsRead(e, Facets)
    requires Checked(verifying, v, error)
    ensures var log := opening + setting + verifying;
            && (error.None? <==> IsUsable(log, v))
            && (error.Some? ==> UsableError(log, v) == error)
  {
    var log, last := opening + setting + verifying, verifying[|verifying| - 1];
    SettingKeepsUnusable(opening, setting, verifying, v);
    assert log[|log| - 1] == last && last in verifying && verifying[0] in verifying;
  }

  lemma SettingKeepsUnusable(opening: Log, setting: Log, verifying: Log, v: Version)
    requires forall e <- opening + setting :: !IsRead(e, SystemState) && !IsRead(e, Facets)
    ensures IsUsable(opening + setting + verifying, v) <==> IsUsable(verifying, v)
  {
    var log := opening + setting + verifying;
    if IsUsable(verifying, v) {
      var e :| e in verifying && ((v != V3 && IsState(e)) || (v != V4 && IsRead(e, Facets) && e.result.Data?));
      assert e in log;
    }
  }

  /** Strictly increasing stages. */
  ghost predicate InOrder(stages: seq<StageResult<PairStage>>) {
    forall i, j :: 0 <= i < j < |stages| ==> stages[i].stage.Rank() < stages[j].stage.Rank()
  }

  ghost predicate InOrderUnpair(stages: seq<StageResult<UnpairStage>>) {
    forall i, j :: 0 <= i < j < |stages| ==> stages[i].stage.Rank() < stages[j].stage.Rank()
  }

  /** The stage log of a pairing and the error returned with it agree. */
  ghost predicate PairShape(result: PairResult, error: Option<Error>) {
    && (error.None? <==> result.completed)
    && (result.completed <==> result.stage == PairComplete)
    && InOrder(result.stages) && result.stages != []
    && (result.completed ==> forall s <- result.stages :: s.completed || s.stage == OsPairStep)
    && (!result.completed ==>
          var last := result.stages[|result.stages| - 1];
          !last.completed && (last.stage == OsPairStep || last.error == error))
  }

  /** The same for unpairing, where an error and an incomplete result are not the same thing. */
  ghost predicate UnpairShape(req: UnpairRequest, result: UnpairResult, error: Option<Error>) {
    && (error.None? <==> result.stage == UnpairComplete)
    && (error.Some? ==> !result.completed && result.stages != [] && !result.stages[|result.stages| - 1].completed)
    && InOrderUnpair(result.stages)
    && (error.None? ==>
          (result.completed <==>
             && (req.factoryReset ==> result.resetComplete)
             && (req.allowOS ==> result.osComplete || result.manualAction.Some?)))
  }

  function StagesOf<S>(stages: seq<StageResult<S>>): seq<S> {
    seq(|stages|, i requires 0 <= i < |stages| => stages[i].stage)
  }

  function Done<S>(stage: S): StageResult<S> { StageResult(stage, true, None, None) }

  function Undone<S>(stage: S, error: Error): StageResult<S> { StageResult(stage, false, Some(error), None) }

  class Client {
    const transport: Transport
    const version: Version

    constructor (transport: Transport, version: Version)
      ensures this.transport == transport && this.version == version
    {
      this.transport, this.version := transport, version;
    }

    /** Whether a pairing gets as far as a connection. */
    predicate PairConnects(req: PairRequest) {
      req.device != "" && PasswordOrDefault(req.password).Ok? && transport.connectError.None?
    }

    /** The one stage recorded otherwise. */
    function EarlyRecord(req: PairRequest): StageResult<PairStage>
      requires !PairConnects(req)
    {
      if req.device == "" then Undone(ConnectStep, InvalidInput)
      else if PasswordOrDefault(req.password).Err? then Undone(AuthorizeStep, InvalidInput)
      else Undone(ConnectStep, WrapContext(transport.connectError.value))
    }

    /** Whether an unpairing does; it needs one only to authorize or to reset. */
    predicate UnpairConnects(req: UnpairRequest) {
      && req.device != "" && (req.password != [] || req.factoryReset)
      && PasswordOrDefault(req.password).Ok? && transport.connectError.None?
    }

    method Connect(device: string, wanted: Version) returns (session: Session?, error: Option<Error>)
      modifies transport.radio`connections
      ensures session == null <==> error.Some?
      ensures transport.radio.connections ==
              old(transport.radio.connections) + if session == null then [] else [session.conn]
      ensures device == "" ==> error == Some(InvalidInput)
      ensures device != "" && transport.connectError.Some? ==> error == Some(WrapContext(transport.connectError.value))
      ensures device != "" && transport.connectError.None? ==> error.None?
      ensures session != null ==>
                && fresh(session) && fresh(session.conn) && !session.closed
                && session.conn.Valid() && session.conn.log == []
                && session.conn.peer == transport.radio.peer && session.infer == transport.infer
                && session.protocol == if wanted == Auto then version else wanted
    {
      if device == "" {
        return null, Some(InvalidInput);
      }
      var chosen := if wanted == Auto then version else wanted;
      if transport.connectError.Some? {
        return null, Some(WrapContext(transport.connectError.value));
      }
      var conn := new Connection(transport.radio);
      session := new Session(conn, transport.infer, chosen);
      error := None;
    }

    /** What the stage of OS pairing reports, and the error that ends the pairing there. */
    function OsPairRecord(): StageResult<PairStage> {
      var os := transport.pairOS;
      StageResult(OsPairStep, os.error.None? && !os.unsupported, os.error, os.manualAction)
    }

    function HardFailure(os: OSAction): (e: Option<Error>)
      ensures e.None? <==> os.error == None || os.error == Some(UnsupportedOperation)
      ensures e.Some? ==> e == Some(WrapContext(os.error.value))
    {
      if os.error.Some? && os.error.value != UnsupportedOperation then Some(WrapContext(os.error.value)) else None
    }

    // ---- pairing ---------------------------------------------------------------------------

    /** The stages of a pairing that succeeds; that of OS pairing is what the operating system said. */
    function AllStages(req: PairRequest): seq<StageResult<PairStage>> {
      StagesToVerify(req) + [Done(VerifyStep)]
    }

    function StagesToVerify(req: PairRequest): seq<StageResult<PairStage>> {
      FirstStages(req) + [Done(AuthorizeStep)] + if req.newPassword != [] then [Done(PasswordStep)] else []
    }

    function FirstStages(req: PairRequest): seq<StageResult<PairStage>> {
      if req.allowOS then [Done(ConnectStep), OsPairRecord()] else [Done(ConnectStep)]
    }

    /** A pairing that has come through some stages and not failed. */
    ghost predicate Through(req: PairRequest, result: PairResult, done: seq<StageResult<PairStage>>) {
      && !result.completed && result.stage != PairComplete
      && result.stages == done && done <= AllStages(req)
    }

    /** It stopped where it is now: all stages before are as in a success, and this one has the error. */
    ghost predicate StoppedAt(req: PairRequest, result: PairResult, error: Error) {
      var n := |result.stages| - 1;
      && !result.completed && 0 <= n < |AllStages(req)|
      && result.stages == AllStages(req)[..n] + [Undone(AllStages(req)[n].stage, error)]
      && result.stage == AllStages(req)[n].stage
    }

    lemma StageOrder(req: PairRequest)
      ensures InOrder(AllStages(req))
      ensures forall s <- AllStages(req) :: s.completed || s.stage == OsPairStep
      ensures forall s <- AllStages(req) :: s.stage != PairComplete
    {}

    /** Record one more stage. */
    method Record(req: PairRequest, start: PairResult, step: PairStage, ghost done: seq<StageResult<PairStage>>)
      returns (result: PairResult)
      requires Through(req, start, done) && done + [Done(step)] <= AllStages(req)
      ensures Through(req, result, done + [Done(step)]) && result.manualAction == start.manualAction
    {
      StageOrder(req);
      result := start.(stage := step, stages := start.stages + [Done(step)]);
      assert AllStages(req)[|done|] == (done + [Done(step)])[|done|];
    }

    /** Stop at a stage that failed. */
    method Stopped(
      req: PairRequest, start: PairResult, step: PairStage, error: Error, ghost done: seq<StageResult<PairStage>>)
      returns (result: PairResult)
      requires Through(req, start, done) && done + [Done(step)] <= AllStages(req)
      ensures PairShape(result, Some(error)) && StoppedAt(req, result, error) && result.stage == step
      ensures result.manualAction == start.manualAction
    {
      StageOrder(req);
      result := start.(stage := step, stages := start.stages + [Undone(step, error)]);
      var n := |done|;
      assert AllStages(req)[n] == (done + [Done(step)])[n];
      assert AllStages(req)[..n] == done;
      assert forall i :: 0 <= i <= n ==> result.stages[i].stage == AllStages(req)[i].stage;
    }

    /**
      A connection is made exactly when nothing stands against it before.  It is then the only one, it is
      closed once, and its log, in which every answer is the device's, decides what the result says: the
      pairing is complete exactly if the log shows the grant, the new password if one is wanted, and a usable
      device, and otherwise it stopped at the first of them that is missing, with the error the log tells.
     */
    method Pair(req: PairRequest) returns (result: PairResult, error: Option<Error>)
      modifies transport.radio`connections
      ensures PairShape(result, error)
      ensures old(transport.radio.connections) <= transport.radio.connections
      ensures |transport.radio.connections| ==
              |old(transport.radio.connections)| +
              if req.device != "" && (req.password == [] || |req.password| == 6) && transport.connectError.None? then 1
              else 0
      ensures !PairConnects(req) ==>
                && result == PairResult(false, ConnectStep, [EarlyRecord(req)], None)
                && error == EarlyRecord(req).error
      ensures req.device == "" || (req.password != [] && |req.password| != 6) ==> error == Some(InvalidInput)
      ensures PairConnects(req) ==>
                var conn := Last(transport.radio.connections);
                && fresh(conn) && conn.peer == transport.radio.peer && conn.Valid()
                && ClosedOnce(conn.log) && CommandsNeedGrants(conn.log)
                && PairFollows(req, result, error, conn.peer, conn.log[..|conn.log| - 1])
    {
      result := PairResult(false, ConnectStep, [], None);
      if req.device == "" {
        return result.(stages := [Undone(ConnectStep, InvalidInput)]), Some(InvalidInput);
      }
      var password := PasswordOrDefault(req.password);
      if password.Err? {
        return result.(stages := [Undone(AuthorizeStep, InvalidInput)]), Some(InvalidInput);
      }
      var session, failure := Connect(req.device, Auto);
      if session == null {
        return result.(stages := [Undone(ConnectStep, failure.value)]), failure;
      }
      result := result.(stages := [Done(ConnectStep)]);
      result, error := PairAndClose(session, req, password.value, result);
      assert transport.radio.connections == old(transport.radio.connections) + [session.conn];
      assert Last(transport.radio.connections) == session.conn;
    }

    /** A pairing with a session of its own, which is closed at the end, whatever happens. */
    method PairAndClose(session: Session, req: PairRequest, password: seq<Byte>, start: PairResult)
      returns (result: PairResult, error: Option<Error>)
      requires session.conn.log == [] && !session.closed && PasswordOrDefault(req.password) == Ok(password)
      requires session.protocol == version
      requires Through(req, start, [Done(ConnectStep)]) && start.manualAction.None?
      requires session.conn.Valid()
      modifies session.conn, session`closed
      ensures session.conn.Valid()
      ensures PairShape(result, error)
      ensures ClosedOnce(session.conn.log) && CommandsNeedGrants(session.conn.log)
      ensures PairFollows(req, result, error, session.conn.peer, session.conn.log[..|session.conn.log| - 1])
    {
      result, error := PairOver(session, req, password, start);
      ghost var body := session.conn.log;
      session.CloseSession();
      assert session.conn.log[..|body|] == body;
      ClosingKeepsPromises(body);
    }

    /** How a pairing with a connection goes; an operating system that fails ends it before anything is done. */
    ghost predicate PairFollows(
      req: PairRequest, result: PairResult, error: Option<Error>, peer: Peer, log: Log) {
      && result.manualAction == (if req.allowOS then transport.pairOS.manualAction else None)
      && if req.allowOS && HardFailure(transport.pairOS).Some? then
           && log == [] && error == HardFailure(transport.pairOS)
           && result.stage == OsPairStep && result.stages == FirstStages(req)
         else
           DeviceTells(req, version, peer, log, result, error)
    }

    /** What the log of a connection tells of the stages of a pairing from authorization on. */
    ghost predicate DeviceTells(
      req: PairRequest, v: Version, peer: Peer, log: Log, result: PairResult, error: Option<Error>) {
      && PasswordOrDefault(req.password).Ok? && log != []
      && IsWrite(log[0], Password) && log[0].payload == PasswordOrDefault(req.password).value
      && (result.completed <==> Granted(log) && PasswordIsSet(log, req) && IsUsable(log, v))
      && (result.completed ==> result.stages == AllStages(req) && IsVerified(log, req.password))
      && (!result.completed ==>
            error.Some? && StoppedAt(req, result, error.value)
            && PairStops(req, v, peer, log, result.stage, error.value))
    }

    method PairOs(req: PairRequest, start: PairResult) returns (result: PairResult, error: Option<Error>)
      requires Through(req, start, [Done(ConnectStep)])
      ensures result.stages == start.stages + if req.allowOS then [OsPairRecord()] else []
      ensures req.allowOS ==>
                var os := transport.pairOS;
                result.stages[|start.stages|] ==
                StageResult(OsPairStep, os.error.None? && !os.unsupported, os.error, os.manualAction)
      ensures result.manualAction ==
              if req.allowOS && transport.pairOS.manualAction.Some? then transport.pairOS.manualAction
              else start.manualAction
      ensures error == if req.allowOS then HardFailure(transport.pairOS) else None
      ensures error.None? ==> Through(req, result, FirstStages(req))
      ensures error.Some? ==> PairShape(result, error) && !result.completed && result.stage == OsPairStep
    {
      if !req.allowOS {
        return start, None;
      }
      var os := transport.pairOS;
      var step := StageResult(OsPairStep, os.error.None? && !os.unsupported, os.error, os.manualAction);
      result := start.(stage := OsPairStep, stages := start.stages + [step]);
      if os.manualAction.Some? {
        result := result.(manualAction := os.manualAction);
      }
      error := None;
      if os.error.Some? && os.error.value != UnsupportedOperation {
        error := Some(WrapContext(os.error.value));
      }
    }

    /** The stages of a pairing that use the connection. */
    method PairOver(session: Session, req: PairRequest, password: seq<Byte>, start: PairResult)
      returns (result: PairResult, error: Option<Error>)
      requires session.conn.log == [] && PasswordOrDefault(req.password) == Ok(password)
      requires session.protocol == version
      requires Through(req, start, [Done(ConnectStep)]) && start.manualAction.None?
      requires session.conn.Valid()
      modifies session.conn
      ensures session.conn.Valid()
      ensures PairShape(result, error)
      ensures Close !in session.conn.log && CommandsNeedGrants(session.conn.log)
      ensures PairFollows(req, result, error, session.conn.peer, session.conn.log)
    {
      result, error := PairOs(req, start);
      if error.Some? {
        NoCommandsNoGrants(session.conn.log);
        return;
      }
      result, error := PairDevice(session, req, password, result);
    }

    /** The stages of a pairing from authorization on. */
    method PairDevice(session: Session, req: PairRequest, password: seq<Byte>, start: PairResult)
      returns (result: PairResult, error: Option<Error>)
      requires session.conn.log == [] && PasswordOrDefault(req.password) == Ok(password)
      requires Through(req, start, FirstStages(req))
      requires session.conn.Valid()
      modifies session.conn
      ensures session.conn.Valid()
      ensures PairShape(result, error) && result.manualAction == start.manualAction
      ensures Close !in session.conn.log && CommandsNeedGrants(session.conn.log)
      ensures DeviceTells(req, session.protocol, session.conn.peer, session.conn.log, result, error)
    {
      error := AuthorizeFresh(session, password);
      if error.Some? {
        result := Stopped(req, start, AuthorizeStep, error.value, FirstStages(req));
        return;
      }
      result := Record(req, start, AuthorizeStep, FirstStages(req));
      result, error := PairAuthorized(session, req, result);
    }

    /** The stages of a pairing after authorization. */
    method PairAuthorized(session: Session, req: PairRequest, start: PairResult)
      returns (result: PairResult, error: Option<Error>)
      requires Opening(session.conn.log) && SentFirst(session.conn.log, req.password)
      requires Through(req, start, FirstStages(req) + [Done(AuthorizeStep)])
      requires session.conn.Valid()
      modifies session.conn
      ensures session.conn.Valid()
      ensures PairShape(result, error) && result.manualAction == start.manualAction
      ensures Close !in session.conn.log && CommandsNeedGrants(session.conn.log)
      ensures DeviceTells(req, session.protocol, session.conn.peer, session.conn.log, result, error)
    {
      ghost var opening, setting := session.conn.log, [];
      result, error, setting := PairPassword(session, req, start);
      if error.None? {
        result, error := PairVerify(session, req, result, opening, setting);
      }
    }

    /** The stage of a new password, if one is wanted. */
    method PairPassword(session: Session, req: PairRequest, start: PairResult)
      returns (result: PairResult, error: Option<Error>, ghost setting: Log)
      requires Opening(session.conn.log) && Through(req, start, FirstStages(req) + [Done(AuthorizeStep)])
      requires session.conn.Valid()
      modifies session.conn
      ensures session.conn.Valid() && session.conn.log == old(session.conn.log) + setting
      ensures Granted(session.conn.log) && Close !in session.conn.log && CommandsNeedGrants(session.conn.log)
      ensures forall e <- setting :: !IsRead(e, SystemState) && !IsRead(e, Facets)
      ensures result.manualAction == start.manualAction
      ensures error.None? <==> PasswordIsSet(session.conn.log, req)
      ensures error.None? ==> Through(req, result, StagesToVerify(req))
      ensures error.Some? ==>
                && PairShape(result, error) && StoppedAt(req, result, error.value)
                && PairStops(req, session.protocol, session.conn.peer, session.conn.log, result.stage, error.value)
    {
      ghost var done := FirstStages(req) + [Done(AuthorizeStep)];
      if req.newPassword == [] {
        result, error, setting := start, None, [];
        assert session.conn.log + [] == session.conn.log;
        GrantsCover(session.conn.log, []);
        return;
      }
      error, setting := ChangePassword(session, req);
      if error.Some? {
        result := Stopped(req, start, PasswordStep, error.value, done);
      } else {
        result := Record(req, start, PasswordStep, done);
      }
    }

    /** The last stage: is the device usable? */
    method PairVerify(session: Session, req: PairRequest, start: PairResult, ghost opening: Log, ghost setting: Log)
      returns (result: PairResult, error: Option<Error>)
      requires Opening(opening) && SentFirst(opening, req.password)
      requires session.conn.log == opening + setting && Close !in session.conn.log
      requires forall e <- setting :: !IsRead(e, SystemState) && !IsRead(e, Facets)
      requires PasswordIsSet(session.conn.log, req) && Through(req, start, StagesToVerify(req))
      requires session.conn.Valid()
      modifies session.conn
      ensures session.conn.Valid()
      ensures PairShape(result, error) && result.manualAction == start.manualAction
      ensures Close !in session.conn.log && CommandsNeedGrants(session.conn.log)
      ensures DeviceTells(req, session.protocol, session.conn.peer, session.conn.log, result, error)
    {
      error := Verify(session, req, opening, setting);
      if error.Some? {
        result := Stopped(req, start, VerifyStep, error.value, StagesToVerify(req));
        return;
      }
      result := Record(req, start, VerifyStep, StagesToVerify(req));
      StageOrder(req);
      result := result.(stage := PairComplete, completed := true);
    }

    method ChangePassword(session: Session, req: PairRequest) returns (error: Option<Error>, ghost setting: Log)
      requires Opening(session.conn.log) && req.newPassword != []
      requires session.conn.Valid()
      modifies session.conn
      ensures session.conn.Valid()
      ensures session.conn.log == old(session.conn.log) + setting
      ensures Granted(session.conn.log) && Close !in session.conn.log && CommandsNeedGrants(session.conn.log)
      ensures forall e <- setting :: !IsRead(e, SystemState) && !IsRead(e, Facets)
      ensures error.None? <==> PasswordIsSet(session.conn.log, req)
      ensures error.Some? ==>
                PairStops(req, session.protocol, session.conn.peer, session.conn.log, PasswordStep, error.value)
    {
      ghost var opening := session.conn.log;
      var status, x := session.Apply(SetPassword(req.newPassword));
      setting := x.Trace();
      error := if status.Err? then Some(status.error) else None;
      if |req.newPassword| == 6 {
        CommandAfterOpening(opening, x, 0x30, req.newPassword);
      } else {
        assert opening + [] == opening;
        GrantsCover(opening, []);
        QuietExecutesNothing(opening, 0x30, req.newPassword);
      }
    }

    method Verify(session: Session, req: PairRequest, ghost opening: Log, ghost setting: Log)
      returns (error: Option<Error>)
      requires Opening(opening) && SentFirst(opening, req.password)
      requires session.conn.log == opening + setting && Close !in session.conn.log
      requires forall e <- setting :: !IsRead(e, SystemState) && !IsRead(e, Facets)
      requires PasswordIsSet(session.conn.log, req)
      requires session.conn.Valid()
      modifies session.conn
      ensures session.conn.Valid() && opening <= session.conn.log && Granted(session.conn.log)
      ensures Close !in session.conn.log && CommandsNeedGrants(session.conn.log)
      ensures PasswordIsSet(session.conn.log, req)
      ensures error.None? <==> IsUsable(session.conn.log, session.protocol)
      ensures error.None? ==> IsVerified(session.conn.log, req.password)
      ensures error.Some? ==> UsableError(session.conn.log, session.protocol) == error
    {
      ghost var verifying;
      error, verifying := session.VerifyUsable();
      GrantExtends(opening, setting + verifying);
      OneAfterTheOther(opening, setting, verifying);
      VerifyingKeeps(req, opening, setting, verifying);
      UsableIsTold(opening, setting, verifying, session.protocol, error);
      if error.None? {
        VerifiedShows(opening, setting, verifying, req.password);
      }
    }

    /** What the stage of OS unpairing reports, and whether the operating system did its part. */
    function OsUnpairRecord(): StageResult<UnpairStage> {
      var os := transport.unpairOS;
      StageResult(OsUnpair, OsUnpaired(), os.error, os.manualAction)
    }

    predicate OsUnpaired() { transport.unpairOS.error.None? && transport.unpairOS.performed }

    /** What the operating system's part makes of an unpairing whose device part is as said. */
    ghost predicate OsDecides(
      req: UnpairRequest, stages: seq<StageResult<UnpairStage>>, reset: bool, result: UnpairResult,
      error: Option<Error>) {
      && error == (if req.allowOS then HardFailure(transport.unpairOS) else None)
      && result.resetComplete == reset
      && (result.osComplete <==> req.allowOS && OsUnpaired())
      && result.manualAction == (if req.allowOS then transport.unpairOS.manualAction else None)
      && result.stages == stages + (if req.allowOS then [OsUnpairRecord()] else [])
      && result.stage == (if error.Some? then OsUnpair else UnpairComplete)
      && (result.completed <==>
            && error.None?
            && (req.factoryReset ==> reset)
            && (req.allowOS ==> OsUnpaired() || transport.unpairOS.manualAction.Some?))
    }

    /**
      As for pairing.  Without a connection the device is left alone, and the operating system's part is all
      there is; with one, that part comes only after the device's.
     */
    method Unpair(req: UnpairRequest) returns (result: UnpairResult, error: Option<Error>)
      modifies transport.radio`connections
      ensures UnpairShape(req, result, error)
      ensures old(transport.radio.connections) <= transport.radio.connections
      ensures |transport.radio.connections| ==
              |old(transport.radio.connections)| +
              if && req.device != "" && transport.connectError.None?
                 && (if req.password == [] then req.factoryReset else |req.password| == 6) then 1
              else 0
      ensures RefusesUnpair(req) ==>
                error == Some(InvalidInput) && Abandoned(result, UnpairConnect, [EarlyUnpairRecord(req)])
      ensures !RefusesUnpair(req) && !UnpairConnects(req) ==>
                OsDecides(req, if NeedsDevice(req) then [EarlyUnpairRecord(req)] else [], false, result, error)
      ensures UnpairConnects(req) ==>
                var conn := Last(transport.radio.connections);
                && fresh(conn) && conn.peer == transport.radio.peer && conn.Valid()
                && ClosedOnce(conn.log) && CommandsNeedGrants(conn.log)
                && UnpairFollows(req, result, error, conn.peer, conn.log[..|conn.log| - 1])
    {
      result := UnpairResult(false, false, false, UnpairConnect, [], None);
      if req.device == "" {
        return result.(stages := [Undone(UnpairConnect, InvalidInput)]), Some(InvalidInput);
      }
      var needsDevice := req.password != [] || req.factoryReset;
      var password := PasswordOrDefault(req.password);
      if needsDevice && password.Err? {
        return result.(stages := [Undone(UnpairAuthorize, InvalidInput)]), Some(InvalidInput);
      }
      if needsDevice {
        var session, failure := Connect(req.device, Auto);
        if session != null {
          result, error := UnpairOver(session, req, password.value);
          assert transport.radio.connections == old(transport.radio.connections) + [session.conn];
          assert Last(transport.radio.connections) == session.conn;
          return;
        }
        result := result.(stages := [Undone(UnpairConnect, failure.value)]);
      }
      result, error := UnpairFromOs(req, result);
    }

    predicate NeedsDevice(req: UnpairRequest) { req.password != [] || req.factoryReset }

    /** The requests that an unpairing refuses outright. */
    predicate RefusesUnpair(req: UnpairRequest) {
      req.device == "" || (NeedsDevice(req) && PasswordOrDefault(req.password).Err?)
    }

    /** The one stage recorded before a connection that an unpairing needs and does not get. */
    function EarlyUnpairRecord(req: UnpairRequest): StageResult<UnpairStage>
      requires RefusesUnpair(req) || (NeedsDevice(req) && !UnpairConnects(req))
    {
      if req.device == "" then Undone(UnpairConnect, InvalidInput)
      else if PasswordOrDefault(req.password).Err? then Undone(UnpairAuthorize, InvalidInput)
      else Undone(UnpairConnect, WrapContext(transport.connectError.value))
    }

    /**
      How an unpairing with a connection goes: it stops at the first of grant and wanted reset that the log
      does not show, with the error the log tells; when it shows them, the device's part is done and the
      operating system decides.
     */
    ghost predicate UnpairFollows(
      req: UnpairRequest, result: UnpairResult, error: Option<Error>, peer: Peer, log: Log) {
      && PasswordOrDefault(req.password).Ok? && log != []
      && IsWrite(log[0], Password) && log[0].payload == PasswordOrDefault(req.password).value
      && if Granted(log) && (req.factoryReset ==> IsReset(log)) then
           OsDecides(req, DeviceStages(req), req.factoryReset, result, error)
         else
           && error.Some? && UnpairStops(req, peer, log, result.stage, error.value)
           && Abandoned(result, result.stage, StagesBefore(result.stage) + [Undone(result.stage, error.value)])
    }

    /** An unpairing with a session of its own, which is closed at the end. */
    method UnpairOver(session: Session, req: UnpairRequest, password: seq<Byte>)
      returns (result: UnpairResult, error: Option<Error>)
      requires session.conn.log == [] && !session.closed && PasswordOrDefault(req.password) == Ok(password)
      requires session.conn.Valid()
      modifies session.conn, session`closed
      ensures session.conn.Valid()
      ensures UnpairShape(req, result, error)
      ensures ClosedOnce(session.conn.log) && CommandsNeedGrants(session.conn.log)
      ensures UnpairFollows(req, result, error, session.conn.peer, session.conn.log[..|session.conn.log| - 1])
    {
      result, error := UnpairStaged(session, req, password);
      ghost var body := session.conn.log;
      session.CloseSession();
      ClosingKeepsPromises(body);
      assert session.conn.log[..|body|] == body;
    }

    /** The device's part, and then that of the operating system. */
    method UnpairStaged(session: Session, req: UnpairRequest, password: seq<Byte>)
      returns (result: UnpairResult, error: Option<Error>)
      requires session.conn.log == [] && PasswordOrDefault(req.password) == Ok(password)
      requires session.conn.Valid()
      modifies session.conn
      ensures session.conn.Valid()
      ensures UnpairShape(req, result, error)
      ensures Close !in session.conn.log && CommandsNeedGrants(session.conn.log)
      ensures UnpairFollows(req, result, error, session.conn.peer, session.conn.log)
    {
      result, error := UnpairDevice(session, req, password);
      if error.None? {
        result, error := UnpairFromOs(req, result);
      }
    }

    /** The part of unpairing that uses the connection. */
    method UnpairDevice(session: Session, req: UnpairRequest, password: seq<Byte>)
      returns (result: UnpairResult, error: Option<Error>)
      requires session.conn.log == [] && PasswordOrDefault(req.password) == Ok(password)
      requires session.conn.Valid()
      modifies session.conn
      ensures session.conn.Valid()
      ensures Close !in session.conn.log && CommandsNeedGrants(session.conn.log)
      ensures session.conn.log != [] && IsWrite(session.conn.log[0], Password)
      ensures session.conn.log[0].payload == password
      ensures error.None? <==>
              Granted(session.conn.log) && (req.factoryReset ==> IsReset(session.conn.log))
      ensures error.None? ==>
                Unpairing(result) && result.stages == DeviceStages(req) && result.resetComplete == req.factoryReset
      ensures error.Some? ==>
                && UnpairStops(req, session.conn.peer, session.conn.log, result.stage, error.value)
                && Abandoned(result, result.stage, StagesBefore(result.stage) + [Undone(result.stage, error.value)])
    {
      result := UnpairResult(false, false, false, UnpairAuthorize, [Done(UnpairConnect)], None);
      error := AuthorizeFresh(session, password);
      if error.Some? {
        return result.(stages := result.stages + [Undone(UnpairAuthorize, error.value)]), error;
      }
      result := result.(stages := result.stages + [Done(UnpairAuthorize)]);
      if req.factoryReset {
        ghost var opening := session.conn.log;
        error := Reset(session, req);
        assert session.conn.log[0] == opening[0];
        result := AfterReset(result, error);
      }
    }

    /** The record of a reset. */
    method AfterReset(start: UnpairResult, error: Option<Error>) returns (result: UnpairResult)
      requires Abandoned(start, UnpairAuthorize, [Done(UnpairConnect), Done(UnpairAuthorize)])
      ensures error.Some? ==>
                Abandoned(result, DeviceReset, StagesBefore(DeviceReset) + [Undone(DeviceReset, error.value)])
      ensures error.None? ==>
                && Unpairing(result) && result.resetComplete
                && result.stages == [Done(UnpairConnect), Done(UnpairAuthorize), Done(DeviceReset)]
    {
      result := start.(stage := DeviceReset);
      if error.Some? {
        return result.(stages := result.stages + [Undone(DeviceReset, error.value)]);
      }
      result := result.(resetComplete := true, stages := result.stages + [Done(DeviceReset)]);
    }

    /** Authorize over a connection on which nothing has happened yet. */
    method AuthorizeFresh(session: Session, password: seq<Byte>) returns (error: Option<Error>)
      requires session.conn.log == [] && |password| == 6
      requires session.conn.Valid()
      modifies session.conn
      ensures session.conn.Valid()
      ensures session.conn.log != [] && IsWrite(session.conn.log[0], Password)
      ensures session.conn.log[0].payload == password
      ensures error.None? <==> Granted(session.conn.log)
      ensures error.None? ==> Opening(session.conn.log) && session.conn.log[0] == Write(Password, password, None)
      ensures error.Some? ==> VerdictError(session.conn.peer, session.conn.log) == error
      ensures Close !in session.conn.log && CommandsNeedGrants(session.conn.log)
    {
      var verdict, a := session.Authorize(password);
      assert session.conn.log == [] + a.Trace() == a.Trace();
      FreshAuthorization(a, password, session.conn.peer);
      error := if verdict.Err? then Some(verdict.error) else None;
    }

    method Reset(session: Session, req: UnpairRequest) returns (error: Option<Error>)
      requires Opening(session.conn.log) && req.factoryReset
      requires session.conn.Valid()
      modifies session.conn
      ensures session.conn.Valid()
      ensures old(session.conn.log) <= session.conn.log && Granted(session.conn.log)
      ensures Close !in session.conn.log && CommandsNeedGrants(session.conn.log)
      ensures error.None? <==> IsReset(session.conn.log)
      ensures error.Some? ==>
                UnpairStops(req, session.conn.peer, session.conn.log, DeviceReset, error.value)
    {
      ghost var opening := session.conn.log;
      var status, x := session.Apply(FactoryReset);
      error := if status.Err? then Some(status.error) else None;
      CommandAfterOpening(opening, x, 0xFF, []);
    }

    /** The part of unpairing that the operating system does, and the verdict on the whole. */
    method UnpairFromOs(req: UnpairRequest, start: UnpairResult)
      returns (result: UnpairResult, error: Option<Error>)
      requires Unpairing(start)
      ensures UnpairShape(req, result, error)
      ensures OsDecides(req, start.stages, start.resetComplete, result, error)
      ensures req.allowOS ==>
                var os := transport.unpairOS;
                && (result.osComplete <==> os.error.None? && os.performed)
                && result.stages[|start.stages|] ==
                   StageResult(OsUnpair, os.error.None? && os.performed, os.error, os.manualAction)
    {
      result := start;
      if req.allowOS {
        var os := transport.unpairOS;
        var osComplete := os.error.None? && os.performed;
        var step := StageResult(OsUnpair, osComplete, os.error, os.manualAction);
        result := result.(
          stage := OsUnpair, osComplete := osComplete, manualAction := os.manualAction,
          stages := result.stages + [step]);
        if os.error.Some? && os.error.value != UnsupportedOperation {
          return result, Some(WrapContext(os.error.value));
        }
      }
      var reset := req.factoryReset == result.resetComplete || !req.factoryReset;
      var os := result.osComplete || result.manualAction.Some? || !req.allowOS;
      result := result.(completed := reset && os, stage := UnpairComplete);
      error := None;
    }
  }

  /** The stages that a device takes part in, when nothing fails. */
  function DeviceStages(req: UnpairRequest): seq<StageResult<UnpairStage>> {
    if req.factoryReset then [Done(UnpairConnect), Done(UnpairAuthorize), Done(DeviceReset)]
    else [Done(UnpairConnect), Done(UnpairAuthorize)]
  }

  /** Those before the one at which a device makes an unpairing stop. */
  function StagesBefore(stage: UnpairStage): seq<StageResult<UnpairStage>> {
    if stage == DeviceReset then [Done(UnpairConnect), Done(UnpairAuthorize)] else [Done(UnpairConnect)]
  }

  /** An unpairing that ended before the operating system's part. */
  ghost predicate Abandoned(result: UnpairResult, stage: UnpairStage, stages: seq<StageResult<UnpairStage>>) {
    result == UnpairResult(false, false, false, stage, stages, None)
  }

  /** An unpairing under way, with the operating system's part still to come. */
  ghost predicate Unpairing(result: UnpairResult) {
    && !result.completed && !result.osComplete && result.manualAction.None? && result.stage != UnpairComplete
    && InOrderUnpair(result.stages)
    && forall s <- result.stages :: s.stage.Rank() < OsUnpair.Rank()
  }

  /** What is done without touching the command characteristic executes no command. */
  lemma QuietExecutesNothing(log: Log, code: Byte, payload: seq<Byte>)
    requires forall e <- log :: IsQuiet(e)
    ensures !IsExecuted(log, code, payload) && forall e <- log :: !Touches(e, Command)
  {
    assert forall i :: 0 <= i < |log| ==> log[i] in log;
  }

  /** A command after the opening: the whole log tells what it returned. */
  lemma CommandAfterOpening(opening: Log, x: Exchange, code: Byte, payload: seq<Byte>)
    requires Opening(opening) && x.Carries(code, payload) && !x.Refused? && !x.Fetched?
    ensures TellsCommand(opening + x.Trace(), code, payload, x.Status())
    ensures Granted(opening + x.Trace()) && CommandsNeedGrants(opening + x.Trace())
    ensures Close !in opening + x.Trace()
    ensures forall e <- x.Trace() :: !IsRead(e, SystemState) && !IsRead(e, Facets)
  {
    QuietExecutesNothing(opening, code, payload);
    GrantsCover(opening, x.Trace());
    GrantExtends(opening, x.Trace());
    StatusIsTold(opening, x, code, payload);
    ExchangeIsNoCheck(x, code, payload);
  }

  lemma ExchangeIsNoCheck(x: Exchange, code: Byte, payload: seq<Byte>)
    requires x.Carries(code, payload)
    ensures Close !in x.Trace()
    ensures forall e <- x.Trace() :: !IsRead(e, SystemState) && !IsRead(e, Facets)
  {
    ExchangeEvents(x, code, payload);
  }

  lemma VerifyingKeeps(req: PairRequest, opening: Log, setting: Log, verifying: Log)
    requires Opening(opening) && Close !in opening + setting
    requires PasswordIsSet(opening + setting, req)
    requires Close !in verifying
    ensures Close !in opening + setting + verifying
    ensures CommandsNeedGrants(opening + setting + verifying)
    ensures PasswordIsSet(opening + setting + verifying, req)
  {
    OneAfterTheOther(opening, setting, verifying);
    GrantsCover(opening, setting + verifying);
    if req.newPassword != [] {
      ExecutedExtends(opening + setting, verifying, 0x30, req.newPassword);
    }
  }

  /** Closing at the end changes nothing about what came before. */
  lemma ClosingKeepsPromises(body: Log)
    requires CommandsNeedGrants(body)
    ensures CommandsNeedGrants(body + [Close])
  {
    var log := body + [Close];
    GrantLasts(body, [Close]);
    forall i | 0 <= i < |log| && IsWrite(log[i], Command)
      ensures GrantedBefore(log, i)
    {
      assert GrantedBefore(body, i);
    }
  }
}
