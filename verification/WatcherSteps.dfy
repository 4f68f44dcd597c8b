/**
  What every step of a connection keeps, beyond safety: who may close what, who is busy with a key, and that
  a subscription nobody else is busy with stays as it is.
 */
module WatcherSteps {
  import opened Outcomes
  import opened Subscriptions

  // ---- what else every run keeps -----------------------------------------------------------

  /** The subscription a thread is setting up. */
  predicate SetsUp(th: Thread, i: SubId) {
    th.work == Enabling(i) || th.work == Installing(i) || th.work == Replacing(i)
  }

  /** A thread closes what it is about to replace, or what nobody has in the table any more. */
  ghost predicate MayClose(s: State, th: Thread, i: SubId)
    requires i < |s.subs|
  {
    s.closed ||
    (&& s.subs[i].handed
     && (Registered(s, i) ==>
           && th.work.Replacing? && th.work.sub < |s.subs| && th.work.sub != i
           && s.subs[th.work.sub].key == s.subs[i].key))
  }

  ghost predicate WorkOk(s: State, t: nat)
    requires t < |s.threads|
  {
    var th := s.threads[t];
    && (forall i :: 0 <= i < |s.subs| && SetsUp(th, i) ==>
          && !s.subs[i].handed
          && forall u :: 0 <= u < |s.threads| && u != t ==> !SetsUp(s.threads[u], i))
    && (th.work.Watching? ==> th.work.sub < |s.subs| && s.subs[th.work.sub].handed)
    && (th.work.Canceling? ==> exists j :: 0 <= j < |s.subs| && s.subs[j].key == th.work.key)
    && (forall i <- th.todo :: i < |s.subs| ==> MayClose(s, th, i))
  }

  predicate FlagsOk(sub: Sub) { sub.closed || sub.canceled ==> sub.ended }

  ghost predicate Origins(s: State) {
    && (forall t :: 0 <= t < |s.threads| ==> WorkOk(s, t))
    && (forall i :: 0 <= i < |s.subs| ==> FlagsOk(s.subs[i]))
    && (forall key <- s.table :: s.table[key] < |s.subs| && s.subs[s.table[key]].handed)
  }

  /** A step of thread t that neither makes nor hands out a subscription. */
  lemma OriginsKept(s: State, s': State, t: nat)
    requires Inv(s) && Origins(s) && |s.threads| == |s'.threads| && |s.subs| == |s'.subs|
    requires forall u :: 0 <= u < |s.threads| && u != t ==> s'.threads[u] == s.threads[u]
    requires forall j :: 0 <= j < |s.subs| ==>
               s'.subs[j].key == s.subs[j].key && s'.subs[j].handed == s.subs[j].handed && FlagsOk(s'.subs[j])
    requires s'.table.Keys <= s.table.Keys && forall key <- s'.table :: s'.table[key] == s.table[key]
    requires s.closed ==> s'.closed
    requires t < |s.threads| ==> WorkOk(s', t)
    ensures Origins(s')
  {
    forall u | 0 <= u < |s'.threads|
      ensures WorkOk(s', u)
    {
      if u != t {
        assert WorkOk(s, u);
        OtherWorkKept(s, s', t, u);
      }
    }
  }

  lemma OtherWorkKept(s: State, s': State, t: nat, u: nat)
    requires |s.threads| == |s'.threads| && |s.subs| == |s'.subs| && u < |s.threads| && u != t
    requires forall v :: 0 <= v < |s.threads| && v != t ==> s'.threads[v] == s.threads[v]
    requires forall j :: 0 <= j < |s.subs| ==>
               s'.subs[j].key == s.subs[j].key && s'.subs[j].handed == s.subs[j].handed
    requires s'.table.Keys <= s.table.Keys && forall key <- s'.table :: s'.table[key] == s.table[key]
    requires s.closed ==> s'.closed
    requires WorkOk(s, u) && (t < |s.threads| ==> WorkOk(s', t))
    ensures WorkOk(s', u)
  {
    var th := s.threads[u];
    if th.work.Canceling? {
      var j :| 0 <= j < |s.subs| && s.subs[j].key == th.work.key;
      assert s'.subs[j].key == th.work.key;
    }
    forall i | i in th.todo && i < |s'.subs|
      ensures MayClose(s', th, i)
    {
      assert MayClose(s, th, i);
    }
  }

  lemma SubscribeOrigins(s: State, t: nat, key: Key)
    requires Inv(s) && Origins(s) && Enabled(s, Subscribe(t, key))
    ensures Origins(After(s, Subscribe(t, key)))
  {
    var s', n := After(s, Subscribe(t, key)), |s.subs|;
    forall u | 0 <= u < |s.threads|
      ensures !SetsUp(s.threads[u], n)
    {
      assert ThreadOk(s, u);
    }
    forall u | 0 <= u < |s.threads|
      ensures WorkOk(s', u)
    {
      assert ThreadOk(s, u) && WorkOk(s, u) && ThreadOk(s, t);
      if s.threads[u].work.Canceling? {
        var j :| 0 <= j < |s.subs| && s.subs[j].key == s.threads[u].work.key;
        assert s'.subs[j].key == s.threads[u].work.key;
      }
      forall i | i in s'.threads[u].todo && i < |s'.subs|
        ensures MayClose(s', s'.threads[u], i)
      {
        assert MayClose(s, s.threads[u], i);
      }
    }
  }

  lemma PublishOrigins(s: State, t: nat)
    requires Inv(s) && Origins(s) && Enabled(s, Publish(t))
    ensures Origins(After(s, Publish(t)))
  {
    var s', n := After(s, Publish(t)), s.threads[t].work.sub;
    assert WorkOk(s, t) && ThreadOk(s, t);
    assert SetsUp(s.threads[t], n);
    forall u | 0 <= u < |s'.threads|
      ensures WorkOk(s', u)
    {
      if u < |s.threads| {
        assert WorkOk(s, u) && ThreadOk(s, u);
        if s.threads[u].work.Canceling? {
          var j :| 0 <= j < |s.subs| && s.subs[j].key == s.threads[u].work.key;
          assert s'.subs[j].key == s.threads[u].work.key;
        }
        forall i | i in s'.threads[u].todo && i < |s'.subs|
          ensures MayClose(s', s'.threads[u], i)
        {
          assert MayClose(s, s.threads[u], i);
        }
      }
    }
  }

  lemma InstallOrigins(s: State, t: nat)
    requires Inv(s) && Origins(s) && Enabled(s, Install(t))
    ensures Origins(After(s, Install(t)))
  {
    var s', n := After(s, Install(t)), s.threads[t].work.sub;
    assert WorkOk(s, t) && ThreadOk(s, t);
    assert SetsUp(s.threads[t], n);
    OriginsKept(s, s', t);
  }

  /** What a thread has still to close, it may close as before. */
  lemma TodoKept(s: State, s': State, t: nat)
    requires Inv(s) && Origins(s) && t < |s.threads| == |s'.threads| && |s.subs| == |s'.subs|
    requires s'.threads[t].work == s.threads[t].work && forall i <- s'.threads[t].todo :: i in s.threads[t].todo
    requires s'.table == s.table && s'.closed == s.closed
    requires forall j :: 0 <= j < |s.subs| ==>
               s'.subs[j].key == s.subs[j].key && s'.subs[j].handed == s.subs[j].handed
    ensures forall i <- s'.threads[t].todo :: i < |s'.subs| ==> MayClose(s', s'.threads[t], i)
  {
    assert WorkOk(s, t);
    forall i | i in s'.threads[t].todo && i < |s'.subs|
      ensures MayClose(s', s'.threads[t], i)
    {
      assert MayClose(s, s.threads[t], i);
    }
  }

  lemma CloseEnterOrigins(s: State, t: nat)
    requires Inv(s) && Origins(s) && Enabled(s, CloseEnter(t))
    ensures Origins(After(s, CloseEnter(t)))
  {
    var s' := After(s, CloseEnter(t));
    FirstAndRest(s.threads[t].todo);
    TodoKept(s, s', t);
    assert WorkOk(s, t);
    OriginsKept(s, s', t);
  }

  lemma CloseFinishOrigins(s: State, t: nat)
    requires Inv(s) && Origins(s) && Enabled(s, CloseFinish(t))
    ensures Origins(After(s, CloseFinish(t)))
  {
    var s' := After(s, CloseFinish(t));
    FirstAndRest(s.threads[t].todo);
    TodoKept(s, s', t);
    assert WorkOk(s, t);
    OriginsKept(s, s', t);
  }

  lemma RemoveOrigins(s: State, t: nat)
    requires Inv(s) && Origins(s) && Enabled(s, Remove(t))
    ensures Origins(After(s, Remove(t)))
  {
    assert WorkOk(s, t) && ThreadOk(s, t);
    OriginsKept(s, After(s, Remove(t)), t);
  }

  lemma ShutOrigins(s: State, t: nat, order: seq<SubId>)
    requires Inv(s) && Origins(s) && Enabled(s, Shut(t, order))
    ensures Origins(After(s, Shut(t, order)))
  {
    assert WorkOk(s, t);
    OriginsKept(s, After(s, Shut(t, order)), t);
  }

  lemma WatchingOrigins(s: State, step: Step)
    requires Inv(s) && Origins(s) && Enabled(s, step) && (step.EnableResult? || step.Wake?)
    ensures Origins(After(s, step))
  {
    var s', t := After(s, step), step.t;
    assert WorkOk(s, t) && ThreadOk(s, t);
    OriginsKept(s, s', t);
  }

  /** A thread that sets nothing up and closes nothing is in order. */
  lemma PlainWorkOk(s: State, t: nat)
    requires t < |s.threads| && (s.threads[t].work.Idle? || s.threads[t].work.Delivering?) && s.threads[t].todo == []
    ensures WorkOk(s, t)
  {}

  lemma DeliverEnterOrigins(s: State, t: nat, n: SubId)
    requires Inv(s) && Origins(s) && Enabled(s, DeliverEnter(t, n))
    ensures Origins(After(s, DeliverEnter(t, n)))
  {
    var s' := After(s, DeliverEnter(t, n));
    assert ThreadOk(s, t);
    PlainWorkOk(s', t);
    OriginsKept(s, s', t);
  }

  lemma DeliverSendOrigins(s: State, t: nat)
    requires Inv(s) && Origins(s) && Enabled(s, DeliverSend(t))
    ensures Origins(After(s, DeliverSend(t)))
  {
    var s' := After(s, DeliverSend(t));
    assert ThreadOk(s, t);
    PlainWorkOk(s', t);
    OriginsKept(s, s', t);
  }

  lemma OutsideOrigins(s: State, step: Step)
    requires Inv(s) && Origins(s) && Enabled(s, step) && (step.Receive? || step.EndContext? || step.Done?)
    ensures Origins(After(s, step))
  {
    var s' := After(s, step);
    if step.Done? {
      PlainWorkOk(s', step.t);
    }
    OriginsKept(s, s', if step.Done? then step.t else |s.threads|);
  }

  lemma StepKeepsOrigins(s: State, step: Step)
    requires Inv(s) && Origins(s) && Enabled(s, step)
    ensures Origins(After(s, step))
  {
    match step
    case Subscribe(t, key) => SubscribeOrigins(s, t, key);
    case Publish(t) => PublishOrigins(s, t);
    case Install(t) => InstallOrigins(s, t);
    case CloseEnter(t) => CloseEnterOrigins(s, t);
    case CloseFinish(t) => CloseFinishOrigins(s, t);
    case Remove(t) => RemoveOrigins(s, t);
    case Shut(t, order) => ShutOrigins(s, t, order);
    case DeliverEnter(t, sub) => DeliverEnterOrigins(s, t, sub);
    case DeliverSend(t) => DeliverSendOrigins(s, t);
    case EnableResult(_, _) => WatchingOrigins(s, step);
    case Wake(_) => WatchingOrigins(s, step);
    case _ => OutsideOrigins(s, step);
  }

  lemma {:induction false} EveryRunKeepsOrigins(states: seq<State>, steps: seq<Step>)
    requires IsRun(states, steps)
    ensures Inv(states[|steps|]) && Origins(states[|steps|])
  {
    EveryRunKeepsInv(states, steps);
    if steps == [] {
      assert forall t :: 0 <= t < |states[0].threads| ==> states[0].threads[t] in states[0].threads;
    } else {
      var k := |steps| - 1;
      EveryRunKeepsOrigins(states[..k + 1], steps[..k]);
      StepKeepsOrigins(states[k], steps[k]);
    }
  }

  // ---- rivals ------------------------------------------------------------------------------

  /** The subscription that a thread sets up or watches. */
  function Subject(work: Work): Option<SubId> {
    match work
    case Enabling(j) => Some(j)
    case Installing(j) => Some(j)
    case Replacing(j) => Some(j)
    case Watching(j) => Some(j)
    case _ => None
  }

  /** A thread is busy with a key when it sets up, watches or cancels a subscription of it. */
  predicate BusyWith(s: State, th: Thread, key: Key) {
    th.work == Canceling(key) ||
    (Subject(th.work).Some? && Subject(th.work).value < |s.subs| && s.subs[Subject(th.work).value].key == key)
  }

  /** A rival of a subscription is a thread busy with its key for another subscription, or about to cancel the key. */
  predicate IsRival(s: State, th: Thread, i: SubId)
    requires i < |s.subs|
  {
    BusyWith(s, th, s.subs[i].key) && Subject(th.work) != Some(i)
  }

  ghost predicate HasRival(s: State, i: SubId)
    requires i < |s.subs|
  {
    exists t :: 0 <= t < |s.threads| && IsRival(s, s.threads[t], i)
  }

  /** Unless its caller or the connection ended it: open, in the table once handed out, and not threatened. */
  ghost predicate Promising(s: State, i: SubId)
    requires i < |s.subs|
  {
    !s.closed && !s.subs[i].canceled ==>
      && !s.subs[i].ended && !s.subs[i].closed && !ToBeClosed(s, i) && !HasRival(s, i)
      && (s.subs[i].handed ==> Registered(s, i))
  }

  /** A step of thread t that takes nothing away from subscription i. */
  lemma PromiseKept(s: State, s': State, t: nat, i: SubId)
    requires Inv(s) && i < |s.subs| <= |s'.subs| && |s.threads| == |s'.threads| && Promising(s, i)
    requires forall u :: 0 <= u < |s.threads| && u != t ==> s'.threads[u] == s.threads[u]
    requires forall j :: 0 <= j < |s.subs| ==> s'.subs[j].key == s.subs[j].key
    requires !s'.closed && !s'.subs[i].canceled ==>
               && !s.closed && !s.subs[i].canceled
               && s'.subs[i].ended == s.subs[i].ended && s'.subs[i].closed == s.subs[i].closed
               && (s'.subs[i].handed ==> s.subs[i].handed) && (Registered(s, i) ==> Registered(s', i))
               && (t < |s.threads| ==> i !in s'.threads[t].todo && !IsRival(s', s'.threads[t], i))
    ensures Promising(s', i)
  {
    forall u | 0 <= u < |s.threads| && u != t
      ensures IsRival(s', s'.threads[u], i) ==> IsRival(s, s.threads[u], i)
    {
      assert ThreadOk(s, u);
    }
  }

  lemma SubscribingKeepsPromise(s: State, step: Step, i: SubId)
    requires Inv(s) && Enabled(s, step) && (step.Subscribe? || step.EnableResult?) && i < |s.subs| && Promising(s, i)
    requires step.Subscribe? ==> step.key != s.subs[i].key
    ensures Promising(After(s, step), i)
  {
    assert IsRival(s, s.threads[step.t], i) ==> HasRival(s, i);
    PromiseKept(s, After(s, step), step.t, i);
  }

  lemma InstallPromise(s: State, t: nat, i: SubId)
    requires Inv(s) && Origins(s) && Enabled(s, Install(t)) && i < |s.subs| && Promising(s, i)
    ensures Promising(After(s, Install(t)), i)
  {
    var n := s.threads[t].work.sub;
    assert WorkOk(s, t) && SetsUp(s.threads[t], n);
    assert IsRival(s, s.threads[t], i) ==> HasRival(s, i);
    PromiseKept(s, After(s, Install(t)), t, i);
  }

  lemma PublishPromise(s: State, t: nat, i: SubId)
    requires Inv(s) && Origins(s) && Enabled(s, Publish(t)) && i < |s.subs| && Promising(s, i)
    ensures Promising(After(s, Publish(t)), i)
  {
    var s', n := After(s, Publish(t)), s.threads[t].work.sub;
    assert IsRival(s, s.threads[t], i) ==> HasRival(s, i);
    forall u | 0 <= u < |s'.threads|
      ensures IsRival(s', s'.threads[u], i) ==> HasRival(s, i)
      ensures i in s'.threads[u].todo ==> ToBeClosed(s, i)
    {
      if u < |s.threads| && u != t {
        assert ThreadOk(s, u);
        assert IsRival(s', s'.threads[u], i) ==> IsRival(s, s.threads[u], i);
      }
    }
  }

  lemma CancelingKeepsPromise(s: State, step: Step, i: SubId)
    requires Inv(s) && Enabled(s, step) && (step.Wake? || step.Remove? || step.Done?)
    requires i < |s.subs| && Promising(s, i)
    ensures Promising(After(s, step), i)
  {
    assert IsRival(s, s.threads[step.t], i) ==> HasRival(s, i);
    PromiseKept(s, After(s, step), step.t, i);
  }

  lemma ClosingKeepsPromise(s: State, step: Step, i: SubId)
    requires Inv(s) && Enabled(s, step) && (step.CloseEnter? || step.CloseFinish?)
    requires i < |s.subs| && Promising(s, i)
    ensures Promising(After(s, step), i)
  {
    FirstAndRest(s.threads[step.t].todo);
    assert i in s.threads[step.t].todo ==> ToBeClosed(s, i);
    assert IsRival(s, s.threads[step.t], i) ==> HasRival(s, i);
    PromiseKept(s, After(s, step), step.t, i);
  }

  lemma DeliverEnterPromise(s: State, t: nat, n: SubId, i: SubId)
    requires Inv(s) && Enabled(s, DeliverEnter(t, n)) && i < |s.subs| && Promising(s, i)
    ensures Promising(After(s, DeliverEnter(t, n)), i)
  {
    assert i in s.threads[t].todo ==> ToBeClosed(s, i);
    PromiseKept(s, After(s, DeliverEnter(t, n)), t, i);
  }

  lemma DeliverSendPromise(s: State, t: nat, i: SubId)
    requires Inv(s) && Enabled(s, DeliverSend(t)) && i < |s.subs| && Promising(s, i)
    ensures Promising(After(s, DeliverSend(t)), i)
  {
    PromiseKept(s, After(s, DeliverSend(t)), t, i);
  }

  lemma EndingKeepsPromise(s: State, step: Step, i: SubId)
    requires Inv(s) && Enabled(s, step) && (step.Shut? || step.Receive? || step.EndContext?)
    requires i < |s.subs| && Promising(s, i)
    ensures Promising(After(s, step), i)
  {
    PromiseKept(s, After(s, step), if step.Shut? then step.t else |s.threads|, i);
  }

  /** Only a new subscription for its key can bring a promising subscription into danger. */
  lemma StepKeepsPromise(s: State, step: Step, i: SubId)
    requires Inv(s) && Origins(s) && Enabled(s, step) && i < |s.subs| && Promising(s, i)
    requires step.Subscribe? ==> step.key != s.subs[i].key
    ensures Promising(After(s, step), i)
  {
    if step.Subscribe? || step.EnableResult? {
      SubscribingKeepsPromise(s, step, i);
    } else if step.Install? {
      InstallPromise(s, step.t, i);
    } else if step.Publish? {
      PublishPromise(s, step.t, i);
    } else if step.Wake? || step.Remove? || step.Done? {
      CancelingKeepsPromise(s, step, i);
    } else if step.CloseEnter? || step.CloseFinish? {
      ClosingKeepsPromise(s, step, i);
    } else if step.Shut? || step.Receive? || step.EndContext? {
      EndingKeepsPromise(s, step, i);
    } else if step.DeliverEnter? {
      DeliverEnterPromise(s, step.t, step.sub, i);
    } else {
      DeliverSendPromise(s, step.t, i);
    }
  }
}
