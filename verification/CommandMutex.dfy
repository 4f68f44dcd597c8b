/**
  Any number of threads working on one session: operations that use the command characteristic hold the
  operation mutex throughout, all others run freely, and the steps of different threads interleave.
 */
module CommandMutex {
  import Bytes
  import opened Device
  import opened Exchange
  import opened HistoryReads
  import opened Outcomes
  import opened Polling
  import opened Session
  import opened Settings

  /** One operation: its identity, whether it takes the mutex, and the accesses it will turn out to make. */
  datatype Op = Op(id: nat, locked: bool, trace: Log) {
    /** One block on the command characteristic under the mutex, nothing there without it. */
    ghost predicate Lawful() {
      if locked then IsBlock(OnCommand(trace)) else OnCommand(trace) == []
    }
  }

  datatype Thread = Idle | Waiting(op: Op) | Running(op: Op, done: nat)

  /** An access, marked with the operation that made it. */
  datatype Tagged = Tagged(op: nat, event: Event)

  datatype State = State(threads: seq<Thread>, holder: Option<nat>, log: seq<Tagged>, next: nat)

  datatype Step = Start(t: nat, locked: bool, trace: Log) | Enter(t: nat) | Access(t: nat) | Finish(t: nat)

  ghost predicate Initial(s: State) {
    s.holder == None && s.log == [] && forall th <- s.threads :: th == Idle
  }

  ghost predicate Enabled(s: State, step: Step) {
    && step.t < |s.threads|
    && var th := s.threads[step.t];
       match step
       case Start(_, locked, trace) => th == Idle && Op(s.next, locked, trace).Lawful()
       case Enter(_) => th.Waiting? && (th.op.locked ==> s.holder == None)
       case Access(_) => th.Running? && th.done < |th.op.trace|
       case Finish(_) => th.Running? && th.done == |th.op.trace|
  }

  function After(s: State, step: Step): State
    requires Enabled(s, step)
  {
    var t, th := step.t, s.threads[step.t];
    match step
    case Start(_, locked, trace) =>
      s.(threads := s.threads[t := Waiting(Op(s.next, locked, trace))], next := s.next + 1)
    case Enter(_) =>
      s.(threads := s.threads[t := Running(th.op, 0)], holder := if th.op.locked then Some(t) else s.holder)
    case Access(_) =>
      s.(threads := s.threads[t := Running(th.op, th.done + 1)],
         log := s.log + [Tagged(th.op.id, th.op.trace[th.done])])
    case Finish(_) =>
      s.(threads := s.threads[t := Idle], holder := if th.op.locked then None else s.holder)
  }

  /** A run: from an initial state, each step enabled in the state it is taken in. */
  ghost predicate IsRun(states: seq<State>, steps: seq<Step>) {
    && |states| == |steps| + 1
    && Initial(states[0])
    && forall i :: 0 <= i < |steps| ==> Enabled(states[i], steps[i]) && states[i + 1] == After(states[i], steps[i])
  }

  /** The accesses to the command characteristic, still marked with their operations. */
  function Commands(log: seq<Tagged>): seq<Tagged> {
    if log == [] then []
    else
      var last := log[|log| - 1];
      Commands(log[..|log| - 1]) + if Touches(last.event, Command) then [last] else []
  }

  function Tag(id: nat, log: Log): seq<Tagged> {
    seq(|log|, i requires 0 <= i < |log| => Tagged(id, log[i]))
  }

  /** The whole blocks of some operations, one after the other. */
  function Blocks(ops: seq<Op>): seq<Tagged> {
    if ops == [] then [] else Blocks(ops[..|ops| - 1]) + Tag(ops[|ops| - 1].id, OnCommand(ops[|ops| - 1].trace))
  }

  /** What the holder of the mutex has done so far. */
  function Current(s: State): seq<Tagged> {
    if s.holder.Some? && s.holder.value < |s.threads| then
      var th := s.threads[s.holder.value];
      if th.Running? && th.done <= |th.op.trace| then Tag(th.op.id, OnCommand(th.op.trace[..th.done])) else []
    else []
  }

  ghost predicate ThreadOk(s: State, t: nat)
    requires t < |s.threads|
  {
    var th := s.threads[t];
    && (th.Waiting? ==> th.op.Lawful() && th.op.id < s.next)
    && (th.Running? ==>
          th.op.Lawful() && th.op.id < s.next && th.done <= |th.op.trace| && (th.op.locked ==> s.holder == Some(t)))
  }

  ghost predicate Distinct(ops: seq<Op>) {
    forall i, j :: 0 <= i < j < |ops| ==> ops[i].id != ops[j].id
  }

  /** No operation under way has an identity that occurs among the finished ones or in another thread. */
  ghost predicate Fresh(s: State, ops: seq<Op>) {
    && (forall op <- ops :: op.id < s.next)
    && (forall t :: 0 <= t < |s.threads| && !s.threads[t].Idle? ==> forall op <- ops :: op.id != s.threads[t].op.id)
    && (forall t, u :: 0 <= t < u < |s.threads| && !s.threads[t].Idle? && !s.threads[u].Idle? ==>
          s.threads[t].op.id != s.threads[u].op.id)
  }

  /** The command accesses are the blocks of finished operations and then the holder's, so far. */
  ghost predicate Serial(s: State, ops: seq<Op>) {
    && Commands(s.log) == Blocks(ops) + Current(s)
    && Distinct(ops) && Fresh(s, ops)
    && (forall op <- ops :: op.locked && op.Lawful())
    && (forall t :: 0 <= t < |s.threads| ==> ThreadOk(s, t))
    && (s.holder.Some? ==>
          s.holder.value < |s.threads| && s.threads[s.holder.value].Running? && s.threads[s.holder.value].op.locked)
  }

  lemma {:induction false} NotOnCommand(log: Log, k: nat)
    requires OnCommand(log) == [] && k < |log|
    ensures !Touches(log[k], Command)
  {
    if k < |log| - 1 {
      NotOnCommand(log[..|log| - 1], k);
    }
  }

  /** An access under the mutex is the next of the holder's. */
  lemma HolderAccesses(s: State, t: nat, ops: seq<Op>)
    requires Serial(s, ops) && Enabled(s, Access(t)) && s.threads[t].op.locked
    ensures Commands(After(s, Access(t)).log) == Blocks(ops) + Current(After(s, Access(t)))
  {
    var th, s' := s.threads[t], After(s, Access(t));
    var k, e := th.done, th.op.trace[th.done];
    assert ThreadOk(s, t);
    assert s'.log[..|s.log|] == s.log;
    var longer := th.op.trace[..k + 1];
    assert longer[..k] == th.op.trace[..k];
    assert Current(s') == Current(s) + if Touches(e, Command) then [Tagged(th.op.id, e)] else [];
  }

  /** Any other access is not to the command characteristic. */
  lemma OtherAccesses(s: State, t: nat, ops: seq<Op>)
    requires Serial(s, ops) && Enabled(s, Access(t)) && !s.threads[t].op.locked
    ensures Commands(After(s, Access(t)).log) == Blocks(ops) + Current(After(s, Access(t)))
  {
    var th, s' := s.threads[t], After(s, Access(t));
    assert ThreadOk(s, t);
    assert s'.log[..|s.log|] == s.log;
    NotOnCommand(th.op.trace, th.done);
    assert Current(s') == Current(s);
  }

  lemma AccessKeepsSerial(s: State, t: nat, ops: seq<Op>)
    requires Serial(s, ops) && Enabled(s, Access(t))
    ensures Serial(After(s, Access(t)), ops)
  {
    var s' := After(s, Access(t));
    if s.threads[t].op.locked {
      HolderAccesses(s, t, ops);
    } else {
      OtherAccesses(s, t, ops);
    }
    assert ThreadOk(s, t);
    OthersUnchanged(s, s', t);
  }

  lemma OthersUnchanged(s: State, s': State, t: nat)
    requires t < |s.threads| == |s'.threads| && s'.threads == s.threads[t := s'.threads[t]]
    requires s'.next >= s.next && (s'.holder == s.holder || s.holder == None || s.holder == Some(t))
    requires forall u :: 0 <= u < |s.threads| ==> ThreadOk(s, u)
    requires ThreadOk(s', t)
    ensures forall u :: 0 <= u < |s'.threads| ==> ThreadOk(s', u)
  {
    forall u | 0 <= u < |s'.threads|
      ensures ThreadOk(s', u)
    {
      assert ThreadOk(s, u);
    }
  }

  lemma StartKeepsSerial(s: State, t: nat, locked: bool, trace: Log, ops: seq<Op>)
    requires Serial(s, ops) && Enabled(s, Start(t, locked, trace))
    ensures Serial(After(s, Start(t, locked, trace)), ops)
  {
    var s' := After(s, Start(t, locked, trace));
    forall u | 0 <= u < |s.threads| && !s.threads[u].Idle?
      ensures s.threads[u].op.id < s.next
    {
      assert ThreadOk(s, u);
    }
    OthersUnchanged(s, s', t);
    assert Current(s') == Current(s);
  }

  lemma EnterKeepsSerial(s: State, t: nat, ops: seq<Op>)
    requires Serial(s, ops) && Enabled(s, Enter(t))
    ensures Serial(After(s, Enter(t)), ops)
  {
    var s' := After(s, Enter(t));
    assert ThreadOk(s, t);
    OthersUnchanged(s, s', t);
    if s.threads[t].op.locked {
      assert s.threads[t].op.trace[..0] == [];
      assert Current(s') == [] == Current(s);
    } else {
      assert Current(s') == Current(s);
    }
  }

  lemma FinishKeepsSerial(s: State, t: nat, ops: seq<Op>) returns (ops': seq<Op>)
    requires Serial(s, ops) && Enabled(s, Finish(t))
    ensures Serial(After(s, Finish(t)), ops')
  {
    var th, s' := s.threads[t], After(s, Finish(t));
    assert ThreadOk(s, t);
    OthersUnchanged(s, s', t);
    if th.op.locked {
      ops' := ops + [th.op];
      assert ops'[..|ops|] == ops;
      assert th.op.trace[..th.done] == th.op.trace;
      assert Current(s') == [];
    } else {
      ops' := ops;
      assert Current(s') == Current(s);
    }
  }

  lemma StepKeepsSerial(s: State, step: Step, ops: seq<Op>) returns (ops': seq<Op>)
    requires Serial(s, ops) && Enabled(s, step)
    ensures Serial(After(s, step), ops')
  {
    ops' := ops;
    match step
    case Start(t, locked, trace) => StartKeepsSerial(s, t, locked, trace, ops);
    case Enter(t) => EnterKeepsSerial(s, t, ops);
    case Access(t) => AccessKeepsSerial(s, t, ops);
    case Finish(t) => ops' := FinishKeepsSerial(s, t, ops);
  }

  /**
    In every run the command accesses are a concatenation of whole blocks of distinct operations, then a
    beginning of one more while the mutex is held.
   */
  lemma {:induction false} EveryRunIsSerial(states: seq<State>, steps: seq<Step>) returns (ops: seq<Op>)
    requires IsRun(states, steps)
    ensures Serial(states[|steps|], ops)
  {
    if steps == [] {
      ops := [];
      assert forall t :: 0 <= t < |states[0].threads| ==> states[0].threads[t] in states[0].threads;
    } else {
      var k := |steps| - 1;
      var earlier := EveryRunIsSerial(states[..k + 1], steps[..k]);
      ops := StepKeepsSerial(states[k], steps[k], earlier);
    }
  }

  /** With the mutex free, there is no beginning: only whole blocks. */
  lemma WholeBlocksWhenFree(states: seq<State>, steps: seq<Step>) returns (ops: seq<Op>)
    requires IsRun(states, steps) && states[|steps|].holder == None
    ensures Commands(states[|steps|].log) == Blocks(ops) && Distinct(ops)
    ensures forall op <- ops :: op.locked && IsBlock(OnCommand(op.trace))
  {
    ops := EveryRunIsSerial(states, steps);
  }

  // ---- no acknowledgement is read across another operation's write -------------------------

  /** Position w is a write, and from there to i all accesses belong to one operation. */
  ghost predicate OwnWrite(c: seq<Tagged>, w: nat, i: nat) {
    && w <= i < |c| && IsWrite(c[w].event, Command)
    && forall k :: w <= k <= i ==> c[k].op == c[i].op
  }

  ghost predicate HasOwnWrite(c: seq<Tagged>, i: nat) {
    exists w :: OwnWrite(c, w, i)
  }

  ghost predicate EachHasOwnWrite(c: seq<Tagged>) {
    forall i :: 0 <= i < |c| ==> HasOwnWrite(c, i)
  }

  lemma BlockAfter(c: seq<Tagged>, id: nat, block: Log)
    requires EachHasOwnWrite(c) && IsBlock(block)
    ensures EachHasOwnWrite(c + Tag(id, block))
  {
    var longer := c + Tag(id, block);
    forall i | 0 <= i < |longer|
      ensures HasOwnWrite(longer, i)
    {
      if i < |c| {
        assert HasOwnWrite(c, i);
        var w :| OwnWrite(c, w, i);
        assert OwnWrite(longer, w, i);
      } else {
        assert OwnWrite(longer, |c|, i);
      }
    }
  }

  lemma {:induction false} BlocksHaveOwnWrites(ops: seq<Op>)
    requires forall op <- ops :: op.locked && op.Lawful()
    ensures EachHasOwnWrite(Blocks(ops))
  {
    if ops != [] {
      BlocksHaveOwnWrites(ops[..|ops| - 1]);
      BlockAfter(Blocks(ops[..|ops| - 1]), ops[|ops| - 1].id, OnCommand(ops[|ops| - 1].trace));
    }
  }

  lemma {:induction false} BeginningIsPrefix(log: Log, k: nat)
    requires k <= |log|
    ensures OnCommand(log[..k]) <= OnCommand(log)
  {
    if k < |log| {
      BeginningIsPrefix(log[..|log| - 1], k);
      assert log[..|log| - 1][..k] == log[..k];
    } else {
      assert log[..k] == log;
    }
  }

  /**
    Whatever the interleaving, between any read of an acknowledgement and the last command write before it
    there is no access by another operation: every read answers its own operation's write.
   */
  lemma AcknowledgementsAreOwn(states: seq<State>, steps: seq<Step>)
    requires IsRun(states, steps)
    ensures EachHasOwnWrite(Commands(states[|steps|].log))
  {
    var s := states[|steps|];
    var ops := EveryRunIsSerial(states, steps);
    BlocksHaveOwnWrites(ops);
    if s.holder.Some? {
      var th := s.threads[s.holder.value];
      assert ThreadOk(s, s.holder.value);
      BeginningIsPrefix(th.op.trace, th.done);
      BlockAfter(Blocks(ops), th.op.id, OnCommand(th.op.trace[..th.done]));
    } else {
      assert Blocks(ops) + [] == Blocks(ops);
    }
  }

  // ---- the operations of a session are lawful ----------------------------------------------

  lemma CommandsAreLawful(id: nat, x: Exchange, code: Bytes.Byte, payload: seq<Bytes.Byte>)
    requires x.Carries(code, payload)
    ensures Op(id, true, x.Trace()).Lawful()
  {
    ExchangeIsOneBlock(x, code, payload);
  }

  lemma HistoryIsLawful(id: nat, h: HistoryRead, v: Version, req: HistoryRequest)
    requires h.Follows(v, req)
    ensures Op(id, true, h.Trace()).Lawful()
  {
    HistoryIsOneBlock(h, v, req);
  }

  /** Authorization takes no mutex, and needs none for the command characteristic. */
  lemma AuthorizationIsLawful(id: nat, a: Authorization)
    ensures Op(id, false, a.Trace()).Lawful()
  {
    if a.Judged? {
      TraceOnlyReads(a.verdict, CommandResult);
    }
    OffCommand(a.Trace());
  }

  // ---- every operation gets its turn -------------------------------------------------------

  /** The steps a thread still has to make for the operation it is in. */
  function Left(th: Thread): nat {
    match th
    case Idle => 0
    case Waiting(op) => |op.trace| + 2
    case Running(op, done) => if done <= |op.trace| then |op.trace| - done + 1 else 1
  }

  function AllLeft(threads: seq<Thread>): nat {
    if threads == [] then 0 else AllLeft(threads[..|threads| - 1]) + Left(threads[|threads| - 1])
  }

  lemma {:induction false} LeftOfOne(threads: seq<Thread>, t: nat, th: Thread)
    requires t < |threads|
    ensures AllLeft(threads[t := th]) == AllLeft(threads) - Left(threads[t]) + Left(th)
  {
    var k, changed := |threads| - 1, threads[t := th];
    if t < k {
      LeftOfOne(threads[..k], t, th);
      assert changed[..k] == threads[..k][t := th];
    } else {
      assert changed[..k] == threads[..k];
    }
  }

  lemma {:induction false} NothingLeft(threads: seq<Thread>)
    requires AllLeft(threads) == 0
    ensures forall th <- threads :: th == Idle
  {
    if threads != [] {
      var k := |threads| - 1;
      NothingLeft(threads[..k]);
      assert threads == threads[..k] + [threads[k]];
    }
  }

  /** Every step other than the start of a new operation is one less to make. */
  lemma EveryStepCounts(s: State, step: Step)
    requires Enabled(s, step) && !step.Start?
    ensures AllLeft(After(s, step).threads) == AllLeft(s.threads) - 1
  {
    LeftOfOne(s.threads, step.t, After(s, step).threads[step.t]);
  }

  /** No deadlock: while some operation is unfinished, a thread can make a step of it. */
  lemma SomeThreadGoesOn(s: State, ops: seq<Op>) returns (step: Step)
    requires Serial(s, ops) && AllLeft(s.threads) > 0
    ensures Enabled(s, step) && !step.Start?
  {
    var t := Unfinished(s.threads);
    if s.threads[t].Waiting? && s.threads[t].op.locked && s.holder.Some? {
      t := s.holder.value;
    }
    assert ThreadOk(s, t);
    var th := s.threads[t];
    step := if th.Waiting? then Enter(t) else if th.done < |th.op.trace| then Access(t) else Finish(t);
  }

  lemma {:induction false} Unfinished(threads: seq<Thread>) returns (t: nat)
    requires AllLeft(threads) > 0
    ensures t < |threads| && !threads[t].Idle?
  {
    t := |threads| - 1;
    if threads[t].Idle? {
      t := Unfinished(threads[..t]);
    }
  }

  ghost predicate Path(s: State, states: seq<State>, steps: seq<Step>) {
    && |states| == |steps| + 1 && states[0] == s
    && forall i :: 0 <= i < |steps| ==> Enabled(states[i], steps[i]) && states[i + 1] == After(states[i], steps[i])
  }

  /** A path is its first step and the path from there. */
  lemma PathTail(s: State, states: seq<State>, steps: seq<Step>)
    requires Path(s, states, steps) && steps != []
    ensures Enabled(s, steps[0]) && states[1] == After(s, steps[0])
    ensures Path(states[1], states[1..], steps[1..]) && states[1..][|steps| - 1] == states[|steps|]
  {}

  lemma {:induction false} ScheduleCounts(
    s: State, ops: seq<Op>, states: seq<State>, steps: seq<Step>) returns (ops': seq<Op>)
    requires Serial(s, ops) && Path(s, states, steps) && forall step <- steps :: !step.Start?
    ensures AllLeft(states[|steps|].threads) == AllLeft(s.threads) - |steps| && Serial(states[|steps|], ops')
    decreases |steps|
  {
    ops' := ops;
    if steps != [] {
      PathTail(s, states, steps);
      assert steps[0] in steps;
      EveryStepCounts(s, steps[0]);
      var later := StepKeepsSerial(s, steps[0], ops);
      ops' := ScheduleCounts(states[1], later, states[1..], steps[1..]);
    }
  }

  /**
    From every reachable state, without new operations: no schedule makes more steps than there are left to
    make, and one that stops short of them can always go on.  So every waiting operation gets the mutex, and
    when the steps are made all operations have finished.
   */
  lemma EveryScheduleFinishes(run: seq<State>, taken: seq<Step>, states: seq<State>, steps: seq<Step>)
    requires IsRun(run, taken)
    requires Path(run[|taken|], states, steps) && forall step <- steps :: !step.Start?
    ensures |steps| <= AllLeft(run[|taken|].threads)
    ensures |steps| < AllLeft(run[|taken|].threads) ==>
              exists next :: Enabled(states[|steps|], next) && !next.Start?
    ensures |steps| == AllLeft(run[|taken|].threads) ==> forall th <- states[|steps|].threads :: th == Idle
  {
    var ops := EveryRunIsSerial(run, taken);
    var later := ScheduleCounts(run[|taken|], ops, states, steps);
    if |steps| < AllLeft(run[|taken|].threads) {
      var next := SomeThreadGoesOn(states[|steps|], later);
    } else {
      NothingLeft(states[|steps|].threads);
    }
  }

  // ---- every operation does what it set out to do ------------------------------------------

  /** The accesses that one operation made, in order. */
  function By(log: seq<Tagged>, id: nat): Log {
    if log == [] then []
    else
      var last := log[|log| - 1];
      By(log[..|log| - 1], id) + if last.op == id then [last.event] else []
  }

  lemma OneMoreBy(log: seq<Tagged>, e: Tagged, id: nat)
    ensures By(log + [e], id) == By(log, id) + if e.op == id then [e.event] else []
  {
    assert (log + [e])[..|log|] == log;
  }

  /** What the operation of a thread has done so far is the beginning of what it will do. */
  ghost predicate DoesItsOwn(s: State, t: nat)
    requires t < |s.threads|
  {
    match s.threads[t]
    case Idle => true
    case Waiting(op) => op.id < s.next && By(s.log, op.id) == []
    case Running(op, done) => op.id < s.next && done <= |op.trace| && By(s.log, op.id) == op.trace[..done]
  }

  ghost predicate AllDoTheirOwn(s: State) {
    && (forall t :: 0 <= t < |s.threads| ==> DoesItsOwn(s, t))
    && (forall t, u :: 0 <= t < u < |s.threads| && !s.threads[t].Idle? && !s.threads[u].Idle? ==>
          s.threads[t].op.id != s.threads[u].op.id)
    && (forall id :: id >= s.next ==> By(s.log, id) == [])
  }

  /** An operation that is over: nobody has it any more, and this is what it did. */
  ghost predicate IsOver(s: State, op: Op) {
    && op.id < s.next && By(s.log, op.id) == op.trace
    && forall t :: 0 <= t < |s.threads| && !s.threads[t].Idle? ==> s.threads[t].op.id != op.id
  }

  lemma AccessIsItsOwn(s: State, t: nat)
    requires AllDoTheirOwn(s) && Enabled(s, Access(t))
    ensures AllDoTheirOwn(After(s, Access(t)))
  {
    var s', th := After(s, Access(t)), s.threads[t];
    var e := Tagged(th.op.id, th.op.trace[th.done]);
    assert DoesItsOwn(s, t);
    assert th.op.trace[..th.done + 1] == th.op.trace[..th.done] + [th.op.trace[th.done]];
    forall u | 0 <= u < |s.threads|
      ensures DoesItsOwn(s', u)
    {
      assert DoesItsOwn(s, u);
      if !s.threads[u].Idle? {
        OneMoreBy(s.log, e, s.threads[u].op.id);
      }
    }
    forall id | id >= s.next
      ensures By(s'.log, id) == []
    {
      OneMoreBy(s.log, e, id);
    }
  }

  lemma StepIsItsOwn(s: State, step: Step)
    requires AllDoTheirOwn(s) && Enabled(s, step)
    ensures AllDoTheirOwn(After(s, step))
  {
    if step.Access? {
      AccessIsItsOwn(s, step.t);
    } else {
      var s' := After(s, step);
      forall u | 0 <= u < |s.threads|
        ensures DoesItsOwn(s', u)
      {
        assert DoesItsOwn(s, u);
      }
      forall u | 0 <= u < |s.threads| && !s.threads[u].Idle?
        ensures s.threads[u].op.id < s.next
      {
        assert DoesItsOwn(s, u);
      }
    }
  }

  lemma OverStaysOver(s: State, step: Step, op: Op)
    requires AllDoTheirOwn(s) && Enabled(s, step) && IsOver(s, op)
    ensures IsOver(After(s, step), op)
  {
    if step.Access? {
      var th := s.threads[step.t];
      OneMoreBy(s.log, Tagged(th.op.id, th.op.trace[th.done]), op.id);
    }
  }

  lemma {:induction false} EveryRunDoesItsOwn(states: seq<State>, steps: seq<Step>)
    requires IsRun(states, steps)
    ensures AllDoTheirOwn(states[|steps|])
  {
    if steps == [] {
      assert forall t :: 0 <= t < |states[0].threads| ==> states[0].threads[t] in states[0].threads;
    } else {
      var k := |steps| - 1;
      EveryRunDoesItsOwn(states[..k + 1], steps[..k]);
      StepIsItsOwn(states[k], steps[k]);
    }
  }

  /**
    In every run an operation that has finished has made all the accesses it set out to make, each once and in
    order, whatever others did in between and after; and one under way has made a beginning of them.
   */
  lemma {:induction false} FinishedMeansDone(states: seq<State>, steps: seq<Step>, b: nat, t: nat)
    requires IsRun(states, steps) && b < |steps| && steps[b] == Finish(t)
    ensures t < |states[b].threads| && states[b].threads[t].Running?
    ensures IsOver(states[|steps|], states[b].threads[t].op)
    decreases |steps|
  {
    var k := |steps| - 1;
    EveryRunDoesItsOwn(states[..k + 1], steps[..k]);
    assert Enabled(states[k], steps[k]) && states[k + 1] == After(states[k], steps[k]);
    if b == k {
      assert DoesItsOwn(states[k], t);
      var op := states[k].threads[t].op;
      assert op.trace[..|op.trace|] == op.trace;
    } else {
      FinishedMeansDone(states[..k + 1], steps[..k], b, t);
      OverStaysOver(states[k], steps[k], states[b].threads[t].op);
    }
  }

  /** The operation of thread t is this one, from its start until it finishes. */
  ghost predicate IsAt(s: State, t: nat, op: Op) {
    t < |s.threads| && !s.threads[t].Idle? && s.threads[t].op == op
  }

  lemma {:induction false} StaysAt(
    states: seq<State>, steps: seq<Step>, a: nat, b: nat, t: nat, locked: bool, trace: Log)
    requires IsRun(states, steps) && a < b <= |steps| && steps[a] == Start(t, locked, trace)
    requires forall j :: a < j < b ==> steps[j] != Finish(t)
    ensures IsAt(states[b], t, Op(states[a].next, locked, trace))
    decreases b
  {
    assert Enabled(states[b - 1], steps[b - 1]) && states[b] == After(states[b - 1], steps[b - 1]);
    if a + 1 < b {
      StaysAt(states, steps, a, b - 1, t, locked, trace);
    }
  }

  /** What was started is what is done: once it has finished, the log holds exactly its accesses, in order. */
  lemma StartedIsDone(
    states: seq<State>, steps: seq<Step>, a: nat, b: nat, t: nat, locked: bool, trace: Log)
    requires IsRun(states, steps) && a < b < |steps|
    requires steps[a] == Start(t, locked, trace) && steps[b] == Finish(t)
    requires forall j :: a < j < b ==> steps[j] != Finish(t)
    ensures By(states[|steps|].log, states[a].next) == trace
  {
    StaysAt(states, steps, a, b, t, locked, trace);
    FinishedMeansDone(states, steps, b, t);
  }
}
