/**
  The event stream of a session: one worker for each subscription decodes its notifications and sends them
  to one output channel, while a closer waits for the context and then for the workers.

  The decoder is a parameter: everything here holds for any decoding of notifications.
 */
module FanIn {
  import opened Bytes
  import opened Device
  import opened Outcomes

  datatype Notification = Notification(ch: Characteristic, payload: seq<Byte>)

  type Decoder<!E> = Notification -> Result<E>

  /** A worker waits, has an event to send, has an error to report, or is gone. */
  datatype Worker<E> = Waiting | Sending(event: E) | Reporting(error: Error) | Exited

  /** A subscription's channel and its worker: what arrived, whether it was closed, how much was taken. */
  datatype Lane<E> = Lane(arrived: seq<Notification>, ended: bool, taken: nat, worker: Worker<E>)

  /** The output is the sequence of events sent, each marked with its lane; errors are those not yet received. */
  datatype State<E> = State(
    lanes: seq<Lane<E>>, output: seq<(nat, E)>, errors: seq<Error>,
    outputClosed: bool, errorsClosed: bool, contextDone: bool, sessionDone: bool, misused: bool)

  datatype Step =
    | Arrive(i: nat, n: Notification)
    | EndStream(i: nat)
    | Take(i: nat)
    | Send(i: nat)
    | Report(i: nat)
    | Quit(i: nat)
    | Drained(i: nat)
    | ReceiveError
    | CancelContext
    | CloseSession
    | CloseOutput
    | CloseErrors

  ghost predicate Initial<E>(s: State<E>) {
    && (forall lane <- s.lanes :: lane == Lane([], false, 0, Waiting))
    && s.output == [] && s.errors == []
    && !s.outputClosed && !s.errorsClosed && !s.contextDone && !s.sessionDone && !s.misused
  }

  predicate AllExited<E>(s: State<E>) {
    forall i :: 0 <= i < |s.lanes| ==> s.lanes[i].worker.Exited?
  }

  predicate Enabled<E>(s: State<E>, step: Step) {
    match step
    case Arrive(i, _) => i < |s.lanes| && !s.lanes[i].ended
    case EndStream(i) => i < |s.lanes| && !s.lanes[i].ended
    case Take(i) => i < |s.lanes| && s.lanes[i].worker.Waiting? && s.lanes[i].taken < |s.lanes[i].arrived|
    case Send(i) => i < |s.lanes| && s.lanes[i].worker.Sending?
    case Report(i) => i < |s.lanes| && s.lanes[i].worker.Reporting?
    case Quit(i) =>
      i < |s.lanes| && (s.contextDone || s.sessionDone) && (s.lanes[i].worker.Waiting? || s.lanes[i].worker.Sending?)
    case Drained(i) =>
      i < |s.lanes| && s.lanes[i].worker.Waiting? && s.lanes[i].ended && s.lanes[i].taken == |s.lanes[i].arrived|
    case ReceiveError => s.errors != []
    case CancelContext => true
    case CloseSession => true
    case CloseOutput => s.contextDone && AllExited(s) && !s.outputClosed
    case CloseErrors => s.outputClosed && !s.errorsClosed
  }

  function SetWorker<E>(s: State<E>, i: nat, w: Worker<E>): State<E>
    requires i < |s.lanes|
  {
    s.(lanes := s.lanes[i := s.lanes[i].(worker := w)])
  }

  /** Each step; sending on a closed channel is recorded as misuse. */
  function After<E>(s: State<E>, step: Step, decode: Decoder<E>): State<E>
    requires Enabled(s, step)
  {
    match step
    case Arrive(i, n) => s.(lanes := s.lanes[i := s.lanes[i].(arrived := s.lanes[i].arrived + [n])])
    case EndStream(i) => s.(lanes := s.lanes[i := s.lanes[i].(ended := true)])
    case Take(i) =>
      var lane := s.lanes[i];
      var w := match decode(lane.arrived[lane.taken])
        case Ok(e) => Sending(e)
        case Err(e) => Reporting(e);
      s.(lanes := s.lanes[i := lane.(taken := lane.taken + 1, worker := w)])
    case Send(i) =>
      SetWorker(s, i, Waiting).(output := s.output + [(i, s.lanes[i].worker.event)],
                                misused := s.misused || s.outputClosed)
    // The error channel holds one error; with no room the error is dropped at once.
    case Report(i) =>
      SetWorker(s, i, Waiting).(errors := if s.errors == [] then [s.lanes[i].worker.error] else s.errors,
                                misused := s.misused || s.errorsClosed)
    case Quit(i) => SetWorker(s, i, Exited)
    case Drained(i) => SetWorker(s, i, Exited)
    case ReceiveError => s.(errors := s.errors[1..])
    case CancelContext => s.(contextDone := true)
    case CloseSession => s.(sessionDone := true)
    case CloseOutput => s.(outputClosed := true)
    case CloseErrors => s.(errorsClosed := true)
  }

  ghost predicate IsRun<E>(states: seq<State<E>>, steps: seq<Step>, decode: Decoder<E>) {
    && |states| == |steps| + 1
    && Initial(states[0])
    && Follows(states, steps, decode)
  }

  ghost predicate Follows<E>(states: seq<State<E>>, steps: seq<Step>, decode: Decoder<E>)
    requires |states| == |steps| + 1
  {
    forall i :: 0 <= i < |steps| ==> Enabled(states[i], steps[i]) && states[i + 1] == After(states[i], steps[i], decode)
  }

  // ---- what comes out ----------------------------------------------------------------------

  /** The events of one lane in the output, in order. */
  function From<E>(output: seq<(nat, E)>, i: nat): seq<E> {
    if output == [] then []
    else
      var last := output[|output| - 1];
      From(output[..|output| - 1], i) + if last.0 == i then [last.1] else []
  }

  /** The successful decodings of some notifications, in order. */
  function Decodings<E>(notes: seq<Notification>, decode: Decoder<E>): seq<E> {
    if notes == [] then []
    else
      var last := decode(notes[|notes| - 1]);
      Decodings(notes[..|notes| - 1], decode) + if last.Ok? then [last.value] else []
  }

  /** The output of a lane is what its first k notifications decode to. */
  ghost predicate Delivered<E>(s: State<E>, i: nat, k: nat, decode: Decoder<E>)
    requires i < |s.lanes|
  {
    k <= |s.lanes[i].arrived| && From(s.output, i) == Decodings(s.lanes[i].arrived[..k], decode)
  }

  ghost predicate LaneOk<E>(s: State<E>, i: nat, decode: Decoder<E>)
    requires i < |s.lanes|
  {
    var lane := s.lanes[i];
    && lane.taken <= |lane.arrived|
    && match lane.worker
       case Waiting => Delivered(s, i, lane.taken, decode)
       case Reporting(e) =>
         lane.taken > 0 && decode(lane.arrived[lane.taken - 1]) == Err(e) && Delivered(s, i, lane.taken, decode)
       case Sending(e) =>
         lane.taken > 0 && decode(lane.arrived[lane.taken - 1]) == Ok(e) && Delivered(s, i, lane.taken - 1, decode)
       case Exited =>
         Delivered(s, i, lane.taken, decode) || (lane.taken > 0 && Delivered(s, i, lane.taken - 1, decode))
  }

  ghost predicate Inv<E>(s: State<E>, decode: Decoder<E>) {
    && (forall i :: 0 <= i < |s.lanes| ==> LaneOk(s, i, decode))
    && (s.outputClosed ==> s.contextDone && AllExited(s))
    && (s.errorsClosed ==> s.outputClosed)
    && |s.errors| <= 1
    && !s.misused
  }

  /** A lane that a step leaves alone, or that only more notifications arrive on. */
  lemma LaneKept<E>(s: State<E>, s': State<E>, i: nat, decode: Decoder<E>)
    requires i < |s.lanes| == |s'.lanes| && LaneOk(s, i, decode)
    requires s.lanes[i].arrived <= s'.lanes[i].arrived
    requires s'.lanes[i].taken == s.lanes[i].taken && s'.lanes[i].worker == s.lanes[i].worker
    requires From(s'.output, i) == From(s.output, i)
    ensures LaneOk(s', i, decode)
  {
    var lane, lane' := s.lanes[i], s'.lanes[i];
    assert forall k :: 0 <= k <= |lane.arrived| ==> lane'.arrived[..k] == lane.arrived[..k];
  }

  lemma SendKept<E>(s: State<E>, i: nat, decode: Decoder<E>)
    requires Inv(s, decode) && Enabled(s, Send(i))
    ensures LaneOk(After(s, Send(i), decode), i, decode)
    ensures forall j :: 0 <= j < |s.lanes| && j != i ==> From(After(s, Send(i), decode).output, j) == From(s.output, j)
  {
    var lane, s' := s.lanes[i], After(s, Send(i), decode);
    assert LaneOk(s, i, decode);
    assert s'.output[..|s.output|] == s.output;
    var k := lane.taken - 1;
    assert lane.arrived[..k + 1][..k] == lane.arrived[..k];
  }

  /** Lanes that a step changes at most one of, and no output. */
  lemma OthersKept<E>(s: State<E>, s': State<E>, i: nat, decode: Decoder<E>)
    requires Inv(s, decode) && |s.lanes| == |s'.lanes| && s'.output == s.output
    requires forall j :: 0 <= j < |s.lanes| && j != i ==> s'.lanes[j] == s.lanes[j]
    requires i < |s.lanes| ==> LaneOk(s', i, decode)
    ensures forall j :: 0 <= j < |s'.lanes| ==> LaneOk(s', j, decode)
  {
    forall j | 0 <= j < |s'.lanes|
      ensures LaneOk(s', j, decode)
    {
      if j != i {
        LaneKept(s, s', j, decode);
      }
    }
  }

  lemma TakeKeepsInv<E>(s: State<E>, i: nat, decode: Decoder<E>)
    requires Inv(s, decode) && Enabled(s, Take(i))
    ensures Inv(After(s, Take(i), decode), decode)
  {
    var lane := s.lanes[i];
    assert LaneOk(s, i, decode);
    assert lane.arrived[..lane.taken + 1][..lane.taken] == lane.arrived[..lane.taken];
    OthersKept(s, After(s, Take(i), decode), i, decode);
  }

  lemma SendKeepsInv<E>(s: State<E>, i: nat, decode: Decoder<E>)
    requires Inv(s, decode) && Enabled(s, Send(i))
    ensures Inv(After(s, Send(i), decode), decode)
  {
    var s' := After(s, Send(i), decode);
    SendKept(s, i, decode);
    forall j | 0 <= j < |s'.lanes|
      ensures LaneOk(s', j, decode)
    {
      if j != i {
        LaneKept(s, s', j, decode);
      }
    }
  }

  /** A worker that reports its error goes on waiting; one that leaves has sent all but at most one event. */
  lemma ExitKeepsInv<E>(s: State<E>, step: Step, decode: Decoder<E>)
    requires Inv(s, decode) && Enabled(s, step) && (step.Report? || step.Quit? || step.Drained?)
    ensures Inv(After(s, step, decode), decode)
  {
    var s', i := After(s, step, decode), step.i;
    assert LaneOk(s, i, decode) && From(s'.output, i) == From(s.output, i);
    OthersKept(s, s', i, decode);
  }

  lemma SourceKeepsInv<E>(s: State<E>, step: Step, decode: Decoder<E>)
    requires Inv(s, decode) && Enabled(s, step) && (step.Arrive? || step.EndStream?)
    ensures Inv(After(s, step, decode), decode)
  {
    var s', i := After(s, step, decode), step.i;
    LaneKept(s, s', i, decode);
    OthersKept(s, s', i, decode);
  }

  /** The context, the session, the closer and the receiver of errors touch no lane. */
  lemma OutsideKeepsInv<E>(s: State<E>, step: Step, decode: Decoder<E>)
    requires Inv(s, decode) && Enabled(s, step)
    requires step.ReceiveError? || step.CancelContext? || step.CloseSession? || step.CloseOutput? || step.CloseErrors?
    ensures Inv(After(s, step, decode), decode)
  {
    OthersKept(s, After(s, step, decode), |s.lanes|, decode);
  }

  lemma StepKeepsInv<E>(s: State<E>, step: Step, decode: Decoder<E>)
    requires Inv(s, decode) && Enabled(s, step)
    ensures Inv(After(s, step, decode), decode)
  {
    if step.Take? {
      TakeKeepsInv(s, step.i, decode);
    } else if step.Send? {
      SendKeepsInv(s, step.i, decode);
    } else if step.Report? || step.Quit? || step.Drained? {
      ExitKeepsInv(s, step, decode);
    } else if step.Arrive? || step.EndStream? {
      SourceKeepsInv(s, step, decode);
    } else {
      OutsideKeepsInv(s, step, decode);
    }
  }

  lemma {:induction false} EveryRunKeepsInv<E>(states: seq<State<E>>, steps: seq<Step>, decode: Decoder<E>)
    requires IsRun(states, steps, decode)
    ensures Inv(states[|steps|], decode)
  {
    if steps == [] {
      var s := states[0];
      forall i | 0 <= i < |s.lanes|
        ensures LaneOk(s, i, decode)
      {
        assert s.lanes[i] in s.lanes;
      }
    } else {
      var k := |steps| - 1;
      EveryRunKeepsInv(states[..k + 1], steps[..k], decode);
      StepKeepsInv(states[k], steps[k], decode);
    }
  }

  /**
    In every run the events of a subscription come out in order, as the successful decodings of a prefix of
    its notifications that is short of what was taken by at most the last one.
   */
  lemma OutputInterleavesPrefixes<E>(states: seq<State<E>>, steps: seq<Step>, decode: Decoder<E>, i: nat)
    returns (k: nat)
    requires IsRun(states, steps, decode) && i < |states[|steps|].lanes|
    ensures var lane := states[|steps|].lanes[i];
            && lane.taken - 1 <= k <= lane.taken <= |lane.arrived|
            && From(states[|steps|].output, i) == Decodings(lane.arrived[..k], decode)
            && (lane.worker.Waiting? ==> k == lane.taken)
  {
    var s := states[|steps|];
    EveryRunKeepsInv(states, steps, decode);
    assert LaneOk(s, i, decode);
    var lane := s.lanes[i];
    k := if lane.worker.Sending? || (lane.worker.Exited? && !Delivered(s, i, lane.taken, decode))
         then lane.taken - 1 else lane.taken;
  }

  // ---- nothing is lost while nothing ends ---------------------------------------------------

  /** A worker leaves only when the context or the session has ended, or with everything on its lane sent. */
  ghost predicate LeftForAReason<E>(s: State<E>, i: nat, decode: Decoder<E>)
    requires i < |s.lanes|
  {
    s.lanes[i].worker.Exited? ==>
      || s.contextDone || s.sessionDone
      || (s.lanes[i].ended && s.lanes[i].taken == |s.lanes[i].arrived| && Delivered(s, i, s.lanes[i].taken, decode))
  }

  lemma StepKeepsReason<E>(s: State<E>, step: Step, decode: Decoder<E>, i: nat)
    requires Inv(s, decode) && Enabled(s, step) && i < |s.lanes| && LeftForAReason(s, i, decode)
    ensures i < |After(s, step, decode).lanes| && LeftForAReason(After(s, step, decode), i, decode)
  {
    assert LaneOk(s, i, decode);
    if step.Send? {
      SendKept(s, step.i, decode);
    }
  }

  lemma {:induction false} WorkersLeaveForAReason<E>(
    states: seq<State<E>>, steps: seq<Step>, decode: Decoder<E>, i: nat)
    requires IsRun(states, steps, decode) && i < |states[0].lanes|
    ensures i < |states[|steps|].lanes| && LeftForAReason(states[|steps|], i, decode)
  {
    if steps == [] {
      assert states[0].lanes[i] in states[0].lanes;
    } else {
      var k := |steps| - 1;
      WorkersLeaveForAReason(states[..k + 1], steps[..k], decode, i);
      EveryRunKeepsInv(states[..k + 1], steps[..k], decode);
      StepKeepsReason(states[k], steps[k], decode, i);
    }
  }

  /** Nothing that the worker of a lane could do is left to do. */
  predicate LaneRests<E>(s: State<E>, i: nat) {
    !Enabled(s, Take(i)) && !Enabled(s, Send(i)) && !Enabled(s, Report(i))
  }

  /**
    While neither the context nor the session ends, nothing is lost: in every run, once a worker has nothing
    left to do, all that arrived on its lane and can be decoded has come out, in order.
   */
  lemma NothingIsLostWhileLive<E>(states: seq<State<E>>, steps: seq<Step>, decode: Decoder<E>, i: nat)
    requires IsRun(states, steps, decode) && i < |states[0].lanes|
    requires !states[|steps|].contextDone && !states[|steps|].sessionDone
    requires LaneRests(states[|steps|], i)
    ensures i < |states[|steps|].lanes|
    ensures From(states[|steps|].output, i) == Decodings(states[|steps|].lanes[i].arrived, decode)
  {
    var s := states[|steps|];
    WorkersLeaveForAReason(states, steps, decode, i);
    EveryRunKeepsInv(states, steps, decode);
    assert LaneOk(s, i, decode);
    assert s.lanes[i].arrived[..|s.lanes[i].arrived|] == s.lanes[i].arrived;
  }

  /** The notifications that arrive on a lane, in order. */
  function ArrivingOn(steps: seq<Step>, i: nat): seq<Notification> {
    if steps == [] then []
    else
      ArrivingOn(steps[..|steps| - 1], i) +
      match steps[|steps| - 1]
      case Arrive(j, n) => if i == j then [n] else []
      case _ => []
  }

  /** In every run, what has arrived on a lane is what was sent there, and ends are noticed. */
  lemma {:induction false} ArrivalsAreKept<E>(states: seq<State<E>>, steps: seq<Step>, decode: Decoder<E>, i: nat)
    requires IsRun(states, steps, decode) && i < |states[0].lanes|
    ensures var s := states[|steps|];
            && |s.lanes| == |states[0].lanes|
            && s.lanes[i].arrived == ArrivingOn(steps, i)
            && (s.lanes[i].ended <==> EndStream(i) in steps)
            && (s.contextDone <==> CancelContext in steps)
            && (s.sessionDone <==> CloseSession in steps)
  {
    if steps == [] {
      assert states[0].lanes[i] in states[0].lanes;
    } else {
      var k := |steps| - 1;
      ArrivalsAreKept(states[..k + 1], steps[..k], decode, i);
      assert Enabled(states[k], steps[k]) && states[k + 1] == After(states[k], steps[k], decode);
      StepNoticesEnds(states[k], steps[k], decode, i);
      assert steps == steps[..k] + [steps[k]];
    }
  }

  lemma StepNoticesEnds<E>(s: State<E>, step: Step, decode: Decoder<E>, i: nat)
    requires Enabled(s, step) && i < |s.lanes|
    ensures var s' := After(s, step, decode);
            && |s'.lanes| == |s.lanes|
            && s'.lanes[i].arrived == s.lanes[i].arrived + (if step.Arrive? && step.i == i then [step.n] else [])
            && (s'.lanes[i].ended <==> s.lanes[i].ended || step == EndStream(i))
            && (s'.contextDone <==> s.contextDone || step == CancelContext)
            && (s'.sessionDone <==> s.sessionDone || step == CloseSession)
  {
    match step
    case Arrive(_, _) =>
    case EndStream(_) =>
    case Take(_) =>
    case Send(_) =>
    case Report(_) =>
    case Quit(_) =>
    case Drained(_) =>
    case _ =>
  }

  /** A lane with nothing left to do whose stream has ended lets its worker go. */
  lemma EndedLaneLetsGo<E>(s: State<E>, decode: Decoder<E>, i: nat)
    requires Inv(s, decode) && i < |s.lanes| && LaneRests(s, i) && s.lanes[i].ended && !s.lanes[i].worker.Exited?
    ensures Enabled(s, Drained(i)) && After(s, Drained(i), decode).lanes[i].worker.Exited?
  {
    assert LaneOk(s, i, decode);
  }

  // ---- errors ------------------------------------------------------------------------------

  /** The context and the session can end at any time, and a stream until it has. */
  lemma AnythingCanEnd<E>(s: State<E>, i: nat)
    ensures Enabled(s, CancelContext) && Enabled(s, CloseSession)
    ensures Enabled(s, EndStream(i)) <==> i < |s.lanes| && !s.lanes[i].ended
    ensures forall n :: Enabled(s, Arrive(i, n)) <==> i < |s.lanes| && !s.lanes[i].ended
  {}

  /** An undecodable notification makes its worker report the error, and it does so before it leaves. */
  lemma UndecodableIsReported<E>(s: State<E>, i: nat, decode: Decoder<E>)
    requires Enabled(s, Take(i)) && decode(s.lanes[i].arrived[s.lanes[i].taken]).Err?
    ensures var s' := After(s, Take(i), decode);
            && s'.lanes[i].worker == Reporting(decode(s.lanes[i].arrived[s.lanes[i].taken]).error)
            && Enabled(s', Report(i)) && !Enabled(s', Quit(i)) && !Enabled(s', Drained(i))
  {}

  /** A queued error stays until it is received. */
  lemma ErrorStays<E>(s: State<E>, step: Step, decode: Decoder<E>)
    requires Enabled(s, step) && s.errors != [] && step != ReceiveError
    ensures After(s, step, decode).errors == s.errors
  {}

  /**
    An undecodable notification is reported: when no error is queued its error is, and it waits there until it
    is received, whatever else happens.
   */
  lemma {:induction false} ErrorWaits<E>(
    states: seq<State<E>>, steps: seq<Step>, decode: Decoder<E>, a: nat, b: nat, i: nat)
    requires IsRun(states, steps, decode) && a < b <= |steps| && steps[a] == Report(i)
    requires states[a].errors == [] && forall j :: a < j < b ==> steps[j] != ReceiveError
    ensures var lane := states[a].lanes[i];
            && 0 < lane.taken <= |lane.arrived| && decode(lane.arrived[lane.taken - 1]).Err?
            && states[b].errors == [decode(lane.arrived[lane.taken - 1]).error]
    decreases b
  {
    assert Enabled(states[b - 1], steps[b - 1]) && states[b] == After(states[b - 1], steps[b - 1], decode);
    if a + 1 == b {
      EveryRunKeepsInv(states[..a + 1], steps[..a], decode);
      ErrorIsQueued(states[a], i, decode);
    } else {
      ErrorWaits(states, steps, decode, a, b - 1, i);
      ErrorStays(states[b - 1], steps[b - 1], decode);
    }
  }

  lemma ErrorIsQueued<E>(s: State<E>, i: nat, decode: Decoder<E>)
    requires Inv(s, decode) && Enabled(s, Report(i)) && s.errors == []
    ensures var lane := s.lanes[i];
            && 0 < lane.taken <= |lane.arrived| && decode(lane.arrived[lane.taken - 1]).Err?
            && After(s, Report(i), decode).errors == [decode(lane.arrived[lane.taken - 1]).error]
  {
    assert LaneOk(s, i, decode);
  }

  /** The output is closed only after the context ended and all workers left; nothing is sent after that. */
  lemma ClosedOnlyAtTheEnd<E>(states: seq<State<E>>, steps: seq<Step>, decode: Decoder<E>)
    requires IsRun(states, steps, decode)
    ensures var s := states[|steps|];
            && !s.misused
            && (s.outputClosed ==> s.contextDone && AllExited(s))
            && (s.errorsClosed ==> s.outputClosed)
    ensures forall k :: 0 <= k < |steps| ==>
              && (steps[k].Send? ==> !states[k].outputClosed)
              && (steps[k].Report? ==> !states[k].errorsClosed)
  {
    EveryRunKeepsInv(states, steps, decode);
    forall k | 0 <= k < |steps|
      ensures steps[k].Send? ==> !states[k].outputClosed
      ensures steps[k].Report? ==> !states[k].errorsClosed
    {
      EveryRunKeepsInv(states[..k + 1], steps[..k], decode);
      assert Enabled(states[k], steps[k]);
    }
  }

  lemma {:induction false} NothingAfterClosing<E>(
    states: seq<State<E>>, steps: seq<Step>, decode: Decoder<E>, i: nat)
    requires IsRun(states, steps, decode) && i <= |steps| && states[i].outputClosed
    ensures states[|steps|].outputClosed && states[|steps|].output == states[i].output
  {
    if i < |steps| {
      var k := |steps| - 1;
      NothingAfterClosing(states[..k + 1], steps[..k], decode, i);
      EveryRunKeepsInv(states[..k + 1], steps[..k], decode);
      assert Enabled(states[k], steps[k]) && states[k + 1] == After(states[k], steps[k], decode);
    }
  }

  /** Closing the session stops the workers, but without the end of the context nothing is ever closed. */
  lemma {:induction false} SessionCloseIsNotEnough<E>(states: seq<State<E>>, steps: seq<Step>, decode: Decoder<E>)
    requires IsRun(states, steps, decode)
    requires CancelContext !in steps
    ensures !states[|steps|].contextDone && !states[|steps|].outputClosed && !states[|steps|].errorsClosed
  {
    if steps != [] {
      var k := |steps| - 1;
      SessionCloseIsNotEnough(states[..k + 1], steps[..k], decode);
      assert Enabled(states[k], steps[k]) && states[k + 1] == After(states[k], steps[k], decode);
      assert steps[k] in steps;
    }
  }

  // ---- shutting down -----------------------------------------------------------------------

  /** The steps of workers and closer, as against what sources, receivers and callers do. */
  predicate IsInner(step: Step) {
    step.Take? || step.Send? || step.Report? || step.Quit? || step.Drained? || step.CloseOutput? || step.CloseErrors?
  }

  /** What a worker has before it: two steps for each notification not taken, and those of its phase. */
  function Before<E>(lane: Lane<E>): nat {
    (if lane.taken <= |lane.arrived| then 2 * (|lane.arrived| - lane.taken) else 0)
    + match lane.worker
      case Waiting => 1
      case Sending(_) => 2
      case Reporting(_) => 2
      case Exited => 0
  }

  function AllBefore<E>(lanes: seq<Lane<E>>): nat {
    if lanes == [] then 0 else AllBefore(lanes[..|lanes| - 1]) + Before(lanes[|lanes| - 1])
  }

  function Measure<E>(s: State<E>): nat {
    AllBefore(s.lanes) + (if s.outputClosed then 0 else 1) + (if s.errorsClosed then 0 else 1)
  }

  lemma {:induction false} BeforeOfOne<E>(lanes: seq<Lane<E>>, i: nat, lane: Lane<E>)
    requires i < |lanes|
    ensures AllBefore(lanes[i := lane]) == AllBefore(lanes) - Before(lanes[i]) + Before(lane)
  {
    var k, changed := |lanes| - 1, lanes[i := lane];
    if i < k {
      BeforeOfOne(lanes[..k], i, lane);
      assert changed[..k] == lanes[..k][i := lane];
    } else {
      assert changed[..k] == lanes[..k];
    }
  }

  /** A worker's or the closer's step brings the end nearer, a notification puts it off by two; nothing else matters. */
  lemma StepMeasure<E>(s: State<E>, step: Step, decode: Decoder<E>)
    requires Inv(s, decode) && Enabled(s, step)
    ensures IsInner(step) ==> Measure(After(s, step, decode)) < Measure(s)
    ensures step.Arrive? ==> Measure(After(s, step, decode)) == Measure(s) + 2
    ensures !IsInner(step) && !step.Arrive? ==> Measure(After(s, step, decode)) == Measure(s)
  {
    var s' := After(s, step, decode);
    if step.Arrive? || step.EndStream? || step.Take? || step.Send? || step.Report? || step.Quit? || step.Drained? {
      assert LaneOk(s, step.i, decode);
      BeforeOfOne(s.lanes, step.i, s'.lanes[step.i]);
    }
  }

  function Count(steps: seq<Step>, counted: Step -> bool): nat {
    if steps == [] then 0 else Count(steps[1..], counted) + if counted(steps[0]) then 1 else 0
  }

  predicate IsArrival(step: Step) { step.Arrive? }

  /** However the steps are scheduled, workers and closer make a bounded number of them. */
  lemma {:induction false} InnerStepsAreBounded<E>(
    s: State<E>, states: seq<State<E>>, steps: seq<Step>, decode: Decoder<E>)
    requires Inv(s, decode) && |states| == |steps| + 1 && states[0] == s && Follows(states, steps, decode)
    ensures Inv(states[|steps|], decode)
    ensures Count(steps, IsInner) + Measure(states[|steps|]) <= Measure(s) + 2 * Count(steps, IsArrival)
    decreases |steps|
  {
    if steps != [] {
      assert Enabled(s, steps[0]) && states[1] == After(s, steps[0], decode);
      StepMeasure(s, steps[0], decode);
      StepKeepsInv(s, steps[0], decode);
      forall i | 0 <= i < |steps| - 1
        ensures Enabled(states[1..][i], steps[1..][i])
        ensures states[1..][i + 1] == After(states[1..][i], steps[1..][i], decode)
      {
        assert Enabled(states[i + 1], steps[i + 1]);
      }
      InnerStepsAreBounded(states[1], states[1..], steps[1..], decode);
      assert states[1..][|steps| - 1] == states[|steps|];
    }
  }

  /** Once the context has ended, only closed channels leave workers and closer with nothing to do. */
  lemma OnlyClosedIsDone<E>(s: State<E>, decode: Decoder<E>) returns (step: Step)
    requires Inv(s, decode) && s.contextDone && !(s.outputClosed && s.errorsClosed)
    ensures Enabled(s, step) && IsInner(step) && !step.Take? && !step.Send? && !step.Drained?
  {
    if s.outputClosed {
      step := CloseErrors;
    } else if AllExited(s) {
      step := CloseOutput;
    } else {
      var i :| 0 <= i < |s.lanes| && !s.lanes[i].worker.Exited?;
      step := if s.lanes[i].worker.Reporting? then Report(i) else Quit(i);
    }
  }

  /**
    Once the context has ended, steps that depend on nobody outside, neither a receiver nor a device, let
    every worker leave and close both channels: no decode failure and no full channel stands in the way.
   */
  lemma {:induction false} ShutsDown<E>(s: State<E>, decode: Decoder<E>)
    returns (states: seq<State<E>>, steps: seq<Step>)
    requires Inv(s, decode) && s.contextDone
    ensures |states| == |steps| + 1 && states[0] == s && Follows(states, steps, decode)
    ensures states[|steps|].outputClosed && states[|steps|].errorsClosed
    ensures forall step <- steps :: step.Report? || step.Quit? || step.CloseOutput? || step.CloseErrors?
    decreases Measure(s)
  {
    if s.outputClosed && s.errorsClosed {
      return [s], [];
    }
    var step := OnlyClosedIsDone(s, decode);
    StepMeasure(s, step, decode);
    StepKeepsInv(s, step, decode);
    var after, rest := ShutsDown(After(s, step, decode), decode);
    states, steps := [s] + after, [step] + rest;
    forall i | 0 <= i < |steps|
      ensures Enabled(states[i], steps[i]) && states[i + 1] == After(states[i], steps[i], decode)
    {
      assert i > 0 ==> Enabled(after[i - 1], rest[i - 1]);
    }
  }

  /**
    Closing the session, or ending the context, is enough to be rid of the workers: each of them can leave at
    once, or after reporting the error it is about to report.
   */
  lemma WorkersCanLeave<E>(s: State<E>, decode: Decoder<E>, i: nat) returns (steps: seq<Step>)
    requires Inv(s, decode) && (s.contextDone || s.sessionDone) && i < |s.lanes| && !s.lanes[i].worker.Exited?
    ensures steps == [Quit(i)] || steps == [Report(i), Quit(i)]
    ensures Enabled(s, steps[0]) && (|steps| == 2 ==> Enabled(After(s, steps[0], decode), steps[1]))
    ensures var last := if |steps| == 1 then s else After(s, steps[0], decode);
            Enabled(last, Quit(i)) && After(last, Quit(i), decode).lanes[i].worker.Exited?
  {
    steps := if s.lanes[i].worker.Reporting? then [Report(i), Quit(i)] else [Quit(i)];
  }

  lemma {:induction false} ContextStaysDone<E>(states: seq<State<E>>, steps: seq<Step>, decode: Decoder<E>)
    requires |states| == |steps| + 1 && Follows(states, steps, decode) && states[0].contextDone
    ensures states[|steps|].contextDone
    decreases |steps|
  {
    if steps != [] {
      var k := |steps| - 1;
      assert Enabled(states[k], steps[k]) && states[k + 1] == After(states[k], steps[k], decode);
      forall i | 0 <= i < k
        ensures Enabled(states[..k + 1][i], steps[..k][i])
        ensures states[..k + 1][i + 1] == After(states[..k + 1][i], steps[..k][i], decode)
      {
        assert Enabled(states[i], steps[i]);
      }
      ContextStaysDone(states[..k + 1], steps[..k], decode);
    }
  }

  /**
    The end is inevitable.  After the context ended, in every schedule workers and closer make at most so many
    steps, two more for each notification that still arrives; and as long as a channel is open one of them has
    a step to make.  So every schedule that lets them make their steps ends with both channels closed.
   */
  lemma EveryScheduleShutsDown<E>(s: State<E>, states: seq<State<E>>, steps: seq<Step>, decode: Decoder<E>)
    requires Inv(s, decode) && s.contextDone
    requires |states| == |steps| + 1 && states[0] == s && Follows(states, steps, decode)
    ensures Count(steps, IsInner) <= Measure(s) + 2 * Count(steps, IsArrival)
    ensures var last := states[|steps|];
            (last.outputClosed && last.errorsClosed) || exists step :: Enabled(last, step) && IsInner(step)
  {
    InnerStepsAreBounded(s, states, steps, decode);
    ContextStaysDone(states, steps, decode);
    var last := states[|steps|];
    if !(last.outputClosed && last.errorsClosed) {
      var step := OnlyClosedIsDone(last, decode);
    }
  }
}
