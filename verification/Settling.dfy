/**
  Cancelling works: from every reachable state of a connection the threads settle, whatever their schedule, and
  then every subscription whose context ended, and every one of a closed connection, has its channel closed.
 */
module Settling {
  import opened Draining
  import opened Outcomes
  import opened Subscriptions

  /** A step of the connection's own threads, watchers that wake included. */
  predicate Winds(step: Step) { GoesOn(step) || step.Wake? }

  /** No operation is in flight, and no watcher has a reason to wake. */
  ghost predicate Settled(s: State) {
    && AtRest(s)
    && forall t: nat :: t < |s.threads| ==> !Enabled(s, Wake(t))
  }

  // ---- somebody is always there to close ---------------------------------------------------

  /** Thread u watches the subscription, is about to cancel by its key, or has it to close. */
  predicate Minds(s: State, u: nat, i: SubId) {
    && u < |s.threads| && i < |s.subs|
    && var th := s.threads[u];
       th.work == Watching(i) || th.work == Canceling(s.subs[i].key) || i in th.todo
  }

  ghost predicate Minded(s: State, i: SubId) {
    exists u :: Minds(s, u, i)
  }

  /** An open subscription whose channel was handed out has a thread that minds it. */
  ghost predicate AllMinded(s: State) {
    forall i :: 0 <= i < |s.subs| && s.subs[i].handed && !s.subs[i].closed ==> Minded(s, i)
  }

  /** A thread that did not make the step minds what it minded. */
  lemma OthersMind(s: State, step: Step, u: nat, i: SubId)
    requires Enabled(s, step) && Minds(s, u, i) && (step.Receive? || step.EndContext? || step.t != u)
    ensures Minds(After(s, step), u, i)
  {
    KeysStay(s, step, i);
    match step
    case Receive(_) =>
    case EndContext(_) =>
    case _ => OneThreadSteps(s, step, u);
  }

  lemma KeysStay(s: State, step: Step, i: SubId)
    requires Enabled(s, step) && i < |s.subs|
    ensures i < |After(s, step).subs| && After(s, step).subs[i].key == s.subs[i].key
  {
    match step
    case Subscribe(_, _) =>
    case EnableResult(_, _) =>
    case Publish(_) =>
    case CloseEnter(_) =>
    case CloseFinish(_) =>
    case DeliverEnter(_, _) =>
    case DeliverSend(_) =>
    case Receive(_) =>
    case EndContext(_) =>
    case _ =>
  }

  lemma OneThreadSteps(s: State, step: Step, u: nat)
    requires Enabled(s, step) && !step.Receive? && !step.EndContext? && u < |s.threads| && step.t != u
    ensures u < |After(s, step).threads| && After(s, step).threads[u] == s.threads[u]
  {
    match step
    case EnableResult(_, _) =>
    case Install(_) =>
    case CloseEnter(_) =>
    case DeliverEnter(_, _) =>
    case DeliverSend(_) =>
    case _ =>
  }

  /** A watcher that wakes goes on to cancel. */
  lemma WakeMinds(s: State, t: nat, i: SubId)
    requires Inv(s) && Enabled(s, Wake(t)) && Minds(s, t, i)
    ensures Minds(After(s, Wake(t)), t, i)
  {
    assert ThreadOk(s, t);
  }

  /** Removing by key finds the subscription in the table, or else somebody already has it to close. */
  lemma RemoveMinds(s: State, t: nat, i: SubId)
    requires Inv(s) && Enabled(s, Remove(t)) && Minds(s, t, i) && s.subs[i].handed && !s.subs[i].closed
    ensures Minded(After(s, Remove(t)), i)
  {
    assert ThreadOk(s, t) && Accounted(s, i);
    var s' := After(s, Remove(t));
    if Registered(s, i) {
      assert i in s'.threads[t].todo;
      assert Minds(s', t, i);
    } else {
      var u :| 0 <= u < |s.threads| && i in s.threads[u].todo;
      OthersMind(s, Remove(t), u, i);
    }
  }

  /** Closing takes only closed subscriptions off the list. */
  lemma ClosingMinds(s: State, step: Step, i: SubId)
    requires Inv(s) && Enabled(s, step) && (step.CloseEnter? || step.CloseFinish?) && Minds(s, step.t, i)
    requires !After(s, step).subs[i].closed
    ensures Minds(After(s, step), step.t, i)
  {
    assert ThreadOk(s, step.t);
    FirstAndRest(s.threads[step.t].todo);
  }

  /** All other steps are made by threads that mind nothing. */
  lemma BusyMindsNothing(s: State, step: Step, i: SubId)
    requires Inv(s) && Enabled(s, step) && !step.Receive? && !step.EndContext?
    requires !step.Wake? && !step.Remove? && !step.CloseEnter? && !step.CloseFinish?
    ensures !Minds(s, step.t, i)
  {
    assert ThreadOk(s, step.t);
  }

  lemma MindedStays(s: State, step: Step, i: SubId)
    requires Inv(s) && Enabled(s, step) && i < |s.subs| && s.subs[i].handed && Minded(s, i)
    requires i < |After(s, step).subs| && !After(s, step).subs[i].closed && !s.subs[i].closed
    ensures Minded(After(s, step), i)
  {
    var u: nat :| Minds(s, u, i);
    if step.Receive? || step.EndContext? || step.t != u {
      OthersMind(s, step, u, i);
    } else if step.Wake? {
      WakeMinds(s, u, i);
    } else if step.Remove? {
      RemoveMinds(s, u, i);
    } else if step.CloseEnter? || step.CloseFinish? {
      ClosingMinds(s, step, i);
    } else {
      BusyMindsNothing(s, step, i);
    }
  }

  /** A subscription that a step hands out is watched from then on; no other is handed out, and none is reopened. */
  lemma HandedOut(s: State, step: Step, i: SubId)
    requires Inv(s) && Enabled(s, step) && i < |After(s, step).subs|
    requires After(s, step).subs[i].handed && !After(s, step).subs[i].closed
    ensures (i < |s.subs| && s.subs[i].handed && !s.subs[i].closed) || Minds(After(s, step), |s.threads|, i)
  {
    if step.Publish? {
      assert ThreadOk(s, step.t);
    } else {
      NotHandedOut(s, step, i);
    }
  }

  lemma NotHandedOut(s: State, step: Step, i: SubId)
    requires Enabled(s, step) && !step.Publish? && i < |After(s, step).subs|
    requires After(s, step).subs[i].handed && !After(s, step).subs[i].closed
    ensures i < |s.subs| && s.subs[i].handed && !s.subs[i].closed
  {
    match step
    case Subscribe(_, _) =>
    case EnableResult(_, _) =>
    case CloseEnter(_) =>
    case CloseFinish(_) =>
    case DeliverEnter(_, _) =>
    case DeliverSend(_) =>
    case Receive(_) =>
    case EndContext(_) =>
    case _ =>
  }

  lemma StepKeepsMinded(s: State, step: Step)
    requires Inv(s) && AllMinded(s) && Enabled(s, step)
    ensures AllMinded(After(s, step))
  {
    var s' := After(s, step);
    forall i | 0 <= i < |s'.subs| && s'.subs[i].handed && !s'.subs[i].closed
      ensures Minded(s', i)
    {
      HandedOut(s, step, i);
      if i < |s.subs| && s.subs[i].handed && !s.subs[i].closed {
        MindedStays(s, step, i);
      }
    }
  }

  /** In every run, nobody loses sight of an open subscription. */
  lemma {:induction false} EveryRunMinds(states: seq<State>, steps: seq<Step>)
    requires IsRun(states, steps)
    ensures AllMinded(states[|steps|])
  {
    if steps != [] {
      var k := |steps| - 1;
      EveryRunMinds(states[..k + 1], steps[..k]);
      EveryRunKeepsInv(states[..k + 1], steps[..k]);
      StepKeepsMinded(states[k], steps[k]);
    }
  }

  // ---- how much is left to do --------------------------------------------------------------

  /** A watcher, there or still to come, may have to cancel: one step to wake and those after it. */
  function Duty(th: Thread): nat {
    Effort(th) + match th.work
                 case Watching(_) => 5
                 case Enabling(_) => 5
                 case Installing(_) => 5
                 case Replacing(_) => 5
                 case _ => 0
  }

  function TotalDuty(threads: seq<Thread>): nat {
    if threads == [] then 0 else TotalDuty(threads[..|threads| - 1]) + Duty(threads[|threads| - 1])
  }

  lemma {:induction false} DutyOfOne(threads: seq<Thread>, t: nat, th: Thread)
    requires t < |threads|
    ensures TotalDuty(threads[t := th]) == TotalDuty(threads) - Duty(threads[t]) + Duty(th)
  {
    var k, changed := |threads| - 1, threads[t := th];
    if t < k {
      DutyOfOne(threads[..k], t, th);
      assert changed[..k] == threads[..k][t := th];
    } else {
      assert changed[..k] == threads[..k];
    }
  }

  lemma OneMoreWatcher(threads: seq<Thread>, i: SubId)
    ensures TotalDuty(threads + [Resting(Watching(i))]) == TotalDuty(threads) + 5
  {
    assert (threads + [Resting(Watching(i))])[..|threads|] == threads;
  }

  lemma OneThreadWinds(s: State, step: Step)
    requires Inv(s) && Enabled(s, step) && Winds(step) && !step.Publish?
    ensures var s', t := After(s, step), step.t;
            s'.threads == s.threads[t := s'.threads[t]] && Duty(s'.threads[t]) < Duty(s.threads[t])
  {
    assert ThreadOk(s, step.t);
  }

  /** Every step that a thread makes of its own leaves less to do. */
  lemma WindingShrinks(s: State, step: Step)
    requires Inv(s) && Enabled(s, step) && Winds(step)
    ensures TotalDuty(After(s, step).threads) < TotalDuty(s.threads)
  {
    var t := step.t;
    if step.Publish? {
      OneMoreWatcher(s.threads[t := Resting(Idle)], s.threads[t].work.sub);
      DutyOfOne(s.threads, t, Resting(Idle));
    } else {
      OneThreadWinds(s, step);
      DutyOfOne(s.threads, t, After(s, step).threads[t]);
    }
  }

  /** However they are scheduled, the threads make a bounded number of steps of their own. */
  lemma {:induction false} WindingEnds(s: State, states: seq<State>, steps: seq<Step>)
    requires Inv(s) && AllMinded(s) && Path(s, states, steps) && forall step <- steps :: Winds(step)
    ensures |steps| <= TotalDuty(s.threads) && Inv(states[|steps|]) && AllMinded(states[|steps|])
    decreases |steps|
  {
    if steps != [] {
      PathTail(s, states, steps);
      WindingShrinks(s, steps[0]);
      StepKeepsInv(s, steps[0]);
      StepKeepsMinded(s, steps[0]);
      WindingEnds(states[1], states[1..], steps[1..]);
    }
  }

  // ---- the end -----------------------------------------------------------------------------

  /** A subscription handed out whose context has ended, or that of a closed connection. */
  predicate ToEnd(s: State, i: SubId)
    requires i < |s.subs|
  {
    s.subs[i].handed && (s.subs[i].ended || s.closed)
  }

  lemma AtRestNothingIsHeld(s: State, i: SubId)
    requires Inv(s) && AtRest(s)
    ensures forall t :: 0 <= t < |s.threads| ==> s.threads[t].todo == [] && !Holds(s.threads[t], i)
    ensures forall t :: 0 <= t < |s.threads| ==> s.threads[t].work.Idle? || s.threads[t].work.Watching?
  {
    forall t | 0 <= t < |s.threads|
      ensures s.threads[t].todo == [] && !Holds(s.threads[t], i)
      ensures s.threads[t].work.Idle? || s.threads[t].work.Watching?
    {
      assert ThreadOk(s, t) && s.threads[t] in s.threads;
    }
  }

  /** The watcher of a subscription that is to end has a reason to wake. */
  lemma MinderWakes(s: State, i: SubId) returns (t: nat)
    requires Inv(s) && AtRest(s) && Minded(s, i) && i < |s.subs| && ToEnd(s, i)
    ensures Enabled(s, Wake(t))
  {
    AtRestNothingIsHeld(s, i);
    t :| Minds(s, t, i);
  }

  /** With nothing left to do, a subscription that was to end has ended. */
  lemma SettledIsClosed(s: State, i: SubId)
    requires Inv(s) && AllMinded(s) && Settled(s)
    requires i < |s.subs| && ToEnd(s, i)
    ensures s.subs[i].closed && Ended(i) in s.log
  {
    AtRestNothingIsHeld(s, i);
    assert SubOk(s, i);
    if !s.subs[i].closed {
      var t := MinderWakes(s, i);
    }
  }

  /**
    From every reachable state: no schedule of the connection's own threads is longer than so many steps, and
    where one can go no further, every subscription handed out whose context has ended, and on a closed
    connection every one, has its channel closed.
   */
  lemma EveryScheduleSettles(run: seq<State>, taken: seq<Step>, states: seq<State>, steps: seq<Step>)
    requires IsRun(run, taken)
    requires Path(run[|taken|], states, steps) && forall step <- steps :: Winds(step)
    ensures |steps| <= TotalDuty(run[|taken|].threads)
    ensures (exists next :: Enabled(states[|steps|], next) && Winds(next)) || Settled(states[|steps|])
    ensures Settled(states[|steps|]) ==>
              forall i :: 0 <= i < |states[|steps|].subs| && ToEnd(states[|steps|], i) ==> Ended(i) in states[|steps|].log
  {
    EveryRunKeepsInv(run, taken);
    EveryRunMinds(run, taken);
    WindingEnds(run[|taken|], states, steps);
    var s := states[|steps|];
    if !AtRest(s) {
      var next := Draining.SomeThreadGoesOn(s);
    }
    if Settled(s) {
      forall i | 0 <= i < |s.subs| && ToEnd(s, i)
        ensures Ended(i) in s.log
      {
        SettledIsClosed(s, i);
      }
    }
  }
}
