/**
  From every reachable state of a connection's subscriptions, the threads at work finish their operations:
  the connection mutex and the locks of subscriptions never block each other for good.
 */
module Draining {
  import opened Outcomes
  import opened Subscriptions

  ghost predicate Path(s: State, states: seq<State>, steps: seq<Step>) {
    && |states| == |steps| + 1 && states[0] == s
    && forall i :: 0 <= i < |steps| ==> Enabled(states[i], steps[i]) && states[i + 1] == After(states[i], steps[i])
  }

  /** A path is its first step and the path from there. */
  lemma PathTail(s: State, states: seq<State>, steps: seq<Step>)
    requires Path(s, states, steps) && steps != []
    ensures Enabled(s, steps[0]) && states[1] == After(s, steps[0]) && steps[0] in steps
    ensures Path(states[1], states[1..], steps[1..]) && states[1..][|steps| - 1] == states[|steps|]
  {}

  /** One path after another. */
  lemma JoinPaths(s: State, a: seq<State>, before: seq<Step>, b: seq<State>, after: seq<Step>)
    requires Path(s, a, before) && Path(a[|before|], b, after)
    ensures Path(s, a[..|before|] + b, before + after)
    ensures (a[..|before|] + b)[|before| + |after|] == b[|after|]
  {
    var states, steps := a[..|before|] + b, before + after;
    forall i | 0 <= i < |steps|
      ensures Enabled(states[i], steps[i]) && states[i + 1] == After(states[i], steps[i])
    {
      if i >= |before| {
        assert Enabled(b[i - |before|], after[i - |before|]);
      } else {
        assert Enabled(a[i], before[i]);
      }
    }
  }

  /** A step with which a thread goes on with what it is doing; a device that is asked to notify agrees. */
  predicate GoesOn(step: Step) {
    match step
    case EnableResult(_, ok) => ok
    case Install(_) => true
    case Publish(_) => true
    case Remove(_) => true
    case CloseEnter(_) => true
    case CloseFinish(_) => true
    case Done(_) => true
    case DeliverSend(_) => true
    case _ => false
  }

  /** No operation is in flight; watchers may be waiting. */
  ghost predicate AtRest(s: State) {
    forall th <- s.threads :: th.work.Idle? || th.work.Watching?
  }

  // ---- how much is left to do --------------------------------------------------------------

  /** Two steps for each subscription to close, one of them taken inside. */
  function ClosingEffort(th: Thread): nat {
    if th.inside && th.todo != [] then 2 * |th.todo| - 1 else 2 * |th.todo|
  }

  function Effort(th: Thread): nat {
    match th.work
    case Idle => 0
    case Watching(_) => 0
    case Delivering(_) => 1
    case Canceling(_) => 4
    case Installing(_) => 4
    case Enabling(_) => 5
    case _ => 1 + ClosingEffort(th)
  }

  function TotalEffort(threads: seq<Thread>): nat {
    if threads == [] then 0 else TotalEffort(threads[..|threads| - 1]) + Effort(threads[|threads| - 1])
  }

  lemma {:induction false} EffortOfOne(threads: seq<Thread>, t: nat, th: Thread)
    requires t < |threads|
    ensures TotalEffort(threads[t := th]) == TotalEffort(threads) - Effort(threads[t]) + Effort(th)
  {
    var k, changed := |threads| - 1, threads[t := th];
    if t < k {
      EffortOfOne(threads[..k], t, th);
      assert changed[..k] == threads[..k][t := th];
    } else {
      assert changed[..k] == threads[..k];
    }
  }

  lemma WatchersNeedNoEffort(threads: seq<Thread>, i: SubId)
    ensures TotalEffort(threads + [Resting(Watching(i))]) == TotalEffort(threads)
  {
    assert (threads + [Resting(Watching(i))])[..|threads|] == threads;
  }

  lemma OneThreadGoesOn(s: State, step: Step)
    requires Inv(s) && Enabled(s, step) && GoesOn(step) && !step.Publish?
    ensures var s', t := After(s, step), step.t;
            s'.threads == s.threads[t := s'.threads[t]] && Effort(s'.threads[t]) < Effort(s.threads[t])
  {
    assert ThreadOk(s, step.t);
  }

  /** Going on, a thread has less to do than before. */
  lemma GoingOnShrinks(s: State, step: Step)
    requires Inv(s) && Enabled(s, step) && GoesOn(step)
    ensures TotalEffort(After(s, step).threads) < TotalEffort(s.threads)
  {
    var t := step.t;
    if step.Publish? {
      WatchersNeedNoEffort(s.threads[t := Resting(Idle)], s.threads[t].work.sub);
      EffortOfOne(s.threads, t, Resting(Idle));
    } else {
      OneThreadGoesOn(s, step);
      EffortOfOne(s.threads, t, After(s, step).threads[t]);
    }
  }

  // ---- some thread can always go on --------------------------------------------------------

  /**
    A thread with a subscription to close can go on, or else the holder of that subscription's lock can: it
    delivers or is closing itself.
   */
  lemma CloserGoesOn(s: State, t: nat) returns (step: Step)
    requires Inv(s) && t < |s.threads| && s.threads[t].todo != []
    ensures Enabled(s, step) && GoesOn(step)
  {
    var th := s.threads[t];
    assert ThreadOk(s, t) && th.todo[0] in th.todo;
    var i := th.todo[0];
    if th.inside {
      step := CloseFinish(t);
    } else if s.subs[i].holder.None? {
      step := CloseEnter(t);
    } else {
      assert SubOk(s, i);
      var u := s.subs[i].holder.value;
      assert ThreadOk(s, u);
      step := if s.threads[u].work.Delivering? then DeliverSend(u) else CloseFinish(u);
    }
  }

  /** No deadlock: while an operation is in flight, some thread can go on. */
  lemma SomeThreadGoesOn(s: State) returns (step: Step)
    requires Inv(s) && !AtRest(s)
    ensures Enabled(s, step) && GoesOn(step)
  {
    var th :| th in s.threads && !th.work.Idle? && !th.work.Watching?;
    var t: nat :| t < |s.threads| && s.threads[t] == th;
    assert ThreadOk(s, t);
    if th.todo == [] && (th.work.Installing? || th.work.Canceling?) && s.mutex.Some? {
      t := s.mutex.value;
      assert ThreadOk(s, t);
      th := s.threads[t];
    }
    if th.todo != [] {
      step := CloserGoesOn(s, t);
    } else {
      step := if th.work.Enabling? then EnableResult(t, true)
              else if th.work.Installing? then Install(t)
              else if th.work.Replacing? then Publish(t)
              else if th.work.Canceling? then Remove(t)
              else if th.work.Delivering? then DeliverSend(t)
              else Done(t);
    }
  }

  /** From every state that keeps the invariant, the threads at work come to rest in a bounded number of steps. */
  lemma {:induction false} ComesToRest(s: State) returns (states: seq<State>, steps: seq<Step>)
    requires Inv(s)
    ensures Path(s, states, steps) && |steps| <= TotalEffort(s.threads)
    ensures forall step <- steps :: GoesOn(step)
    ensures Inv(states[|steps|]) && AtRest(states[|steps|])
    decreases TotalEffort(s.threads)
  {
    if AtRest(s) {
      return [s], [];
    }
    var step := SomeThreadGoesOn(s);
    GoingOnShrinks(s, step);
    StepKeepsInv(s, step);
    var after, rest := ComesToRest(After(s, step));
    states, steps := [s] + after, [step] + rest;
  }

  /** However they are scheduled: no sequence of such steps is longer, so the threads cannot keep each other busy. */
  lemma {:induction false} GoingOnEnds(s: State, states: seq<State>, steps: seq<Step>)
    requires Inv(s) && Path(s, states, steps) && forall step <- steps :: GoesOn(step)
    ensures |steps| <= TotalEffort(s.threads) && Inv(states[|steps|])
    decreases |steps|
  {
    if steps != [] {
      PathTail(s, states, steps);
      GoingOnShrinks(s, steps[0]);
      StepKeepsInv(s, steps[0]);
      GoingOnEnds(states[1], states[1..], steps[1..]);
    }
  }

  /** A reachable connection at work can always come to rest, and then nothing has leaked. */
  lemma EveryRunCanRest(run: seq<State>, taken: seq<Step>) returns (states: seq<State>, steps: seq<Step>)
    requires IsRun(run, taken)
    ensures Path(run[|taken|], states, steps) && forall step <- steps :: GoesOn(step)
    ensures AtRest(states[|steps|])
    ensures forall i :: 0 <= i < |states[|steps|].subs| && states[|steps|].subs[i].handed ==>
              Registered(states[|steps|], i) || Ended(i) in states[|steps|].log
  {
    EveryRunKeepsInv(run, taken);
    states, steps := ComesToRest(run[|taken|]);
    JoinPaths(run[0], run, taken, states, steps);
    var whole, all := run[..|taken|] + states, taken + steps;
    forall i | 0 <= i < |states[|steps|].subs| && states[|steps|].subs[i].handed
      ensures Registered(states[|steps|], i) || Ended(i) in states[|steps|].log
    {
      NothingLeaksAtRest(whole, all, i);
    }
  }
}
