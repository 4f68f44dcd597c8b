/**
  What becomes of a notification that the device hands over: the books of a channel, and when a delivery sends.
 */
module Deliveries {
  import opened Outcomes
  import opened Subscriptions
  import opened WatcherSteps

  /** How many notifications were sent on a channel. */
  function SentOn(log: seq<ChannelEvent>, i: SubId): nat {
    if log == [] then 0 else SentOn(log[..|log| - 1], i) + if log[|log| - 1] == Sent(i) then 1 else 0
  }

  /** How many were received from it. */
  function ReceivedFrom(steps: seq<Step>, i: SubId): nat {
    if steps == [] then 0
    else ReceivedFrom(steps[..|steps| - 1], i) + if steps[|steps| - 1] == Receive(i) then 1 else 0
  }

  lemma {:induction false} NoneSent(log: seq<ChannelEvent>, i: SubId)
    requires forall e <- log :: e.sub != i
    ensures SentOn(log, i) == 0
  {
    if log != [] {
      NoneSent(log[..|log| - 1], i);
    }
  }

  lemma OneMoreSent(log: seq<ChannelEvent>, e: ChannelEvent, i: SubId)
    ensures SentOn(log + [e], i) == SentOn(log, i) + if e == Sent(i) then 1 else 0
  {
    assert (log + [e])[..|log|] == log;
  }

  /** The books of channel i, which is empty before there is a subscription with it. */
  ghost predicate Balanced(s: State, received: nat, i: SubId) {
    if i < |s.subs| then s.subs[i].queued + received == SentOn(s.log, i) else received == 0 && SentOn(s.log, i) == 0
  }

  /** All steps but the end of a delivery and a receipt leave the queues alone and send nothing. */
  lemma QueuesLeftAlone(s: State, step: Step)
    requires Enabled(s, step) && !step.DeliverSend? && !step.Receive?
    ensures var s' := After(s, step);
            && |s.subs| <= |s'.subs|
            && (forall j :: 0 <= j < |s.subs| ==> s'.subs[j].queued == s.subs[j].queued)
            && (forall j :: |s.subs| <= j < |s'.subs| ==> s'.subs[j].queued == 0)
  {
    match step
    case Subscribe(_, _) =>
    case EnableResult(_, _) =>
    case Install(_) =>
    case Publish(_) =>
    case CloseEnter(_) =>
    case CloseFinish(_) =>
    case DeliverEnter(_, _) =>
    case EndContext(_) =>
    case _ =>
  }

  lemma NothingIsSent(s: State, step: Step)
    requires Enabled(s, step) && !step.DeliverSend? && !step.Receive?
    ensures var log := After(s, step).log; log == s.log || (step.CloseFinish? && log == s.log + [Ended(s.threads[step.t].todo[0])])
  {
    match step
    case CloseFinish(_) =>
    case _ =>
  }

  lemma OtherStepsKeepBooks(s: State, step: Step, received: nat, i: SubId)
    requires Inv(s) && Enabled(s, step) && Balanced(s, received, i) && !step.DeliverSend? && !step.Receive?
    ensures Balanced(After(s, step), received, i)
  {
    QueuesLeftAlone(s, step);
    NothingIsSent(s, step);
    var s' := After(s, step);
    if step.CloseFinish? {
      OneMoreSent(s.log, Ended(s.threads[step.t].todo[0]), i);
    }
  }

  lemma SendKeepsBooks(s: State, t: nat, received: nat, i: SubId)
    requires Inv(s) && Enabled(s, DeliverSend(t)) && Balanced(s, received, i)
    ensures Balanced(After(s, DeliverSend(t)), received, i)
  {
    OneMoreSent(s.log, Sent(s.threads[t].work.sub), i);
  }

  /** Each step keeps the books: a delivery adds what it sends, a receipt takes one away, all others do neither. */
  lemma StepKeepsBooks(s: State, step: Step, received: nat, i: SubId)
    requires Inv(s) && Enabled(s, step) && Balanced(s, received, i)
    ensures Balanced(After(s, step), received + if step == Receive(i) then 1 else 0, i)
  {
    if step.DeliverSend? {
      SendKeepsBooks(s, step.t, received, i);
    } else if !step.Receive? {
      OtherStepsKeepBooks(s, step, received, i);
    }
  }

  /** In every run, what is queued on a channel is what was sent and not received, and it is at most eight. */
  lemma {:induction false} QueueIsSentNotReceived(states: seq<State>, steps: seq<Step>, i: SubId)
    requires IsRun(states, steps)
    ensures Balanced(states[|steps|], ReceivedFrom(steps, i), i)
    ensures i < |states[|steps|].subs| ==> states[|steps|].subs[i].queued <= 8
  {
    AtMostEight(states, steps, i);
    if steps != [] {
      var k := |steps| - 1;
      QueueIsSentNotReceived(states[..k + 1], steps[..k], i);
      EveryRunKeepsInv(states[..k + 1], steps[..k]);
      StepKeepsBooks(states[k], steps[k], ReceivedFrom(steps[..k], i), i);
    }
  }

  lemma AtMostEight(states: seq<State>, steps: seq<Step>, i: SubId)
    requires IsRun(states, steps)
    ensures i < |states[|steps|].subs| ==> states[|steps|].subs[i].queued <= 8
  {
    EveryRunKeepsInv(states, steps);
    assert i < |states[|steps|].subs| ==> SubOk(states[|steps|], i);
  }

  // ---- one delivery ------------------------------------------------------------------------

  /** In the middle of a delivery: the subscription is open, and its lock is held. */
  ghost predicate InDelivery(s: State, t: nat, i: SubId) {
    && t < |s.threads| && i < |s.subs| && s.threads[t] == Resting(Delivering(i))
    && !s.subs[i].closed && s.subs[i].holder == Some(t)
  }

  /** Nothing that other threads do interferes. */
  lemma DeliveryGoesOn(s: State, step: Step, t: nat, i: SubId)
    requires Inv(s) && Enabled(s, step) && InDelivery(s, t, i) && step != DeliverSend(t)
    ensures InDelivery(After(s, step), t, i)
  {
    assert ThreadOk(s, t);
    match step
    case Receive(_) =>
    case EndContext(_) =>
    case CloseEnter(_) => ClosersLeave(s, step, t, i);
    case CloseFinish(_) => ClosersLeave(s, step, t, i);
    case DeliverEnter(_, _) => DelivererLeaves(s, step, t, i);
    case DeliverSend(_) => DelivererLeaves(s, step, t, i);
    case _ => OtherThreadsLeave(s, step, t, i);
  }

  lemma DelivererLeaves(s: State, step: Step, t: nat, i: SubId)
    requires Inv(s) && Enabled(s, step) && InDelivery(s, t, i) && step != DeliverSend(t)
    requires step.DeliverEnter? || step.DeliverSend?
    ensures InDelivery(After(s, step), t, i)
  {
    assert ThreadOk(s, t) && ThreadOk(s, step.t);
  }

  lemma ClosersLeave(s: State, step: Step, t: nat, i: SubId)
    requires Inv(s) && Enabled(s, step) && InDelivery(s, t, i) && (step.CloseEnter? || step.CloseFinish?)
    ensures InDelivery(After(s, step), t, i)
  {
    assert ThreadOk(s, t) && ThreadOk(s, step.t);
  }

  lemma OtherThreadsLeave(s: State, step: Step, t: nat, i: SubId)
    requires Inv(s) && Enabled(s, step) && InDelivery(s, t, i)
    requires !step.Receive? && !step.EndContext? && !step.CloseEnter? && !step.CloseFinish? && !step.DeliverEnter?
    requires !step.DeliverSend?
    ensures InDelivery(After(s, step), t, i)
  {
    assert ThreadOk(s, t);
    match step
    case Subscribe(_, _) =>
    case EnableResult(_, _) =>
    case Install(_) =>
    case Publish(_) =>
    case _ =>
  }

  lemma DeliveryEnters(s: State, t: nat, i: SubId)
    requires Inv(s) && Enabled(s, DeliverEnter(t, i)) && !s.subs[i].closed
    ensures InDelivery(After(s, DeliverEnter(t, i)), t, i)
  {}

  lemma {:induction false} DeliveryStaysOn(states: seq<State>, steps: seq<Step>, a: nat, b: nat, t: nat, i: SubId)
    requires IsRun(states, steps) && a < b <= |steps| && steps[a] == DeliverEnter(t, i)
    requires i < |states[a].subs| && !states[a].subs[i].closed
    requires forall j :: a < j < b ==> steps[j] != DeliverSend(t)
    ensures InDelivery(states[b], t, i)
    decreases b
  {
    if a + 1 == b {
      EveryRunKeepsInv(states[..a + 1], steps[..a]);
      DeliveryEnters(states[a], t, i);
    } else {
      DeliveryStaysOn(states, steps, a, b - 1, t, i);
      EveryRunKeepsInv(states[..b], steps[..b - 1]);
      DeliveryGoesOn(states[b - 1], steps[b - 1], t, i);
    }
  }

  /**
    A delivery that found its subscription open ends, whatever happens in between, with the subscription still
    open; and it then sends the notification if and only if fewer than eight are queued.
   */
  lemma DeliverySendsUnlessFull(states: seq<State>, steps: seq<Step>, a: nat, b: nat, t: nat, i: SubId)
    requires IsRun(states, steps) && a < b < |steps|
    requires steps[a] == DeliverEnter(t, i) && steps[b] == DeliverSend(t)
    requires i < |states[a].subs| && !states[a].subs[i].closed
    requires forall j :: a < j < b ==> steps[j] != DeliverSend(t)
    ensures i < |states[b].subs| && !states[b].subs[i].closed
    ensures states[b + 1].log == states[b].log + if states[b].subs[i].queued < 8 then [Sent(i)] else []
    ensures SentOn(states[b + 1].log, i) == SentOn(states[b].log, i) + 1 <==> states[b].subs[i].queued < 8
  {
    DeliveryStaysOn(states, steps, a, b, t, i);
    assert Enabled(states[b], steps[b]) && states[b + 1] == After(states[b], steps[b]);
    OneMoreSent(states[b].log, Sent(i), i);
  }

  /** One that found it closed does nothing. */
  lemma DeliveryToClosed(s: State, t: nat, i: SubId)
    requires Enabled(s, DeliverEnter(t, i)) && s.subs[i].closed
    ensures After(s, DeliverEnter(t, i)) == s
  {}

  /** Until a channel is full, nothing is lost: with eight received or fewer sent, every delivery sends. */
  lemma NothingLostBelowCapacity(states: seq<State>, steps: seq<Step>, i: SubId)
    requires IsRun(states, steps) && i < |states[|steps|].subs|
    requires SentOn(states[|steps|].log, i) < 8 + ReceivedFrom(steps, i)
    ensures states[|steps|].subs[i].queued < 8
  {
    QueueIsSentNotReceived(states, steps, i);
  }

  // ---- who gets a channel ------------------------------------------------------------------

  /** The keys asked for, in order. */
  function AskedFor(steps: seq<Step>): seq<Key> {
    if steps == [] then []
    else
      AskedFor(steps[..|steps| - 1]) +
      match steps[|steps| - 1]
      case Subscribe(_, key) => [key]
      case _ => []
  }

  lemma StepKeepsKeys(s: State, step: Step)
    requires Enabled(s, step)
    ensures |After(s, step).subs| == |s.subs| + if step.Subscribe? then 1 else 0
    ensures forall i :: 0 <= i < |s.subs| ==> After(s, step).subs[i].key == s.subs[i].key
    ensures step.Subscribe? ==> After(s, step).subs[|s.subs|].key == step.key
  {
    match step
    case Subscribe(_, _) =>
    case EnableResult(_, _) =>
    case Publish(_) =>
    case CloseEnter(_) =>
    case CloseFinish(_) =>
    case DeliverEnter(_, _) =>
    case DeliverSend(_) =>
    case Receive(_) =>
    case EndContext(_) =>
    case _ =>
  }

  /** In every run the subscriptions are those asked for, each with its key. */
  lemma {:induction false} SubscriptionsAreThoseAskedFor(states: seq<State>, steps: seq<Step>)
    requires IsRun(states, steps)
    ensures |states[|steps|].subs| == |AskedFor(steps)|
    ensures forall i :: 0 <= i < |AskedFor(steps)| ==> states[|steps|].subs[i].key == AskedFor(steps)[i]
  {
    if steps != [] {
      var k := |steps| - 1;
      SubscriptionsAreThoseAskedFor(states[..k + 1], steps[..k]);
      StepKeepsKeys(states[k], steps[k]);
    }
  }

  /** A closed connection takes no more of them. */
  lemma {:induction false} ClosedTakesNoMore(states: seq<State>, steps: seq<Step>, i: nat)
    requires IsRun(states, steps) && i <= |steps| && states[i].closed
    ensures |states[|steps|].subs| == |states[i].subs|
  {
    if i < |steps| {
      var k := |steps| - 1;
      ClosedTakesNoMore(states[..k + 1], steps[..k], i);
      ClosedForEver(states[..k + 1], steps[..k], i);
      StepKeepsKeys(states[k], steps[k]);
    }
  }

  /** Nobody is setting the subscription up any more, and its channel was not handed out. */
  ghost predicate IsRefused(s: State, i: SubId) {
    && i < |s.subs| && !s.subs[i].handed
    && forall t :: 0 <= t < |s.threads| ==> !SetsUp(s.threads[t], i)
  }

  /** Only the last step of setting it up hands out a channel. */
  lemma OnlyPublishHands(s: State, step: Step, i: SubId)
    requires Enabled(s, step) && i < |s.subs|
    ensures i < |After(s, step).subs|
    ensures After(s, step).subs[i].handed ==>
              s.subs[i].handed || (step.Publish? && s.threads[step.t].work == Replacing(i))
  {
    match step
    case Subscribe(_, _) =>
    case EnableResult(_, _) =>
    case Publish(_) =>
    case CloseEnter(_) =>
    case CloseFinish(_) =>
    case DeliverEnter(_, _) =>
    case DeliverSend(_) =>
    case Receive(_) =>
    case EndContext(_) =>
    case _ =>
  }

  /** Nobody takes over the setting up of a subscription. */
  lemma NobodyTakesOver(s: State, step: Step, i: SubId, u: nat)
    requires Enabled(s, step) && i < |s.subs| && u < |After(s, step).threads|
    requires SetsUp(After(s, step).threads[u], i)
    ensures u < |s.threads| && SetsUp(s.threads[u], i)
  {
    match step
    case Subscribe(_, _) =>
    case EnableResult(_, _) =>
    case Install(_) =>
    case Publish(_) =>
    case CloseEnter(_) =>
    case CloseFinish(_) =>
    case DeliverEnter(_, _) =>
    case DeliverSend(_) =>
    case Receive(_) =>
    case EndContext(_) =>
    case _ =>
  }

  lemma StepKeepsRefused(s: State, step: Step, i: SubId)
    requires Enabled(s, step) && IsRefused(s, i)
    ensures IsRefused(After(s, step), i)
  {
    OnlyPublishHands(s, step, i);
    assert step.Publish? ==> !SetsUp(s.threads[step.t], i);
    forall u | 0 <= u < |After(s, step).threads|
      ensures !SetsUp(After(s, step).threads[u], i)
    {
      if SetsUp(After(s, step).threads[u], i) {
        NobodyTakesOver(s, step, i, u);
      }
    }
  }

  /** A device that does not agree to notify, or a connection closed meanwhile, refuses the subscription. */
  predicate Refuses(s: State, step: Step) {
    (step.EnableResult? && !step.ok) || (step.Install? && s.closed)
  }

  lemma RefusalRefuses(s: State, step: Step)
    requires Inv(s) && Origins(s) && Enabled(s, step) && Refuses(s, step)
    ensures IsRefused(After(s, step), s.threads[step.t].work.sub)
  {
    assert WorkOk(s, step.t) && SetsUp(s.threads[step.t], s.threads[step.t].work.sub);
  }

  /** In every run, a subscription that was refused never gets a channel into the hands of its caller. */
  lemma {:induction false} RefusedIsNeverHanded(states: seq<State>, steps: seq<Step>, a: nat, b: nat)
    requires IsRun(states, steps) && a < b <= |steps| && Refuses(states[a], steps[a])
    ensures steps[a].t < |states[a].threads|
    ensures var work := states[a].threads[steps[a].t].work;
            (work.Enabling? || work.Installing?) && IsRefused(states[b], work.sub)
    decreases b
  {
    assert Enabled(states[a], steps[a]);
    EveryRunKeepsInv(states[..b], steps[..b - 1]);
    if a + 1 == b {
      EveryRunKeepsOrigins(states[..b], steps[..a]);
      RefusalRefuses(states[a], steps[a]);
    } else {
      RefusedIsNeverHanded(states, steps, a, b - 1);
      StepKeepsRefused(states[b - 1], steps[b - 1], states[a].threads[steps[a].t].work.sub);
    }
  }
}
