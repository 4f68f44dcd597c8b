/**
  When a subscription that was handed out can be lost although its caller did nothing: exactly when some
  other thread is still busy with its characteristic.
 */
module Rivals {
  import opened Draining
  import opened Outcomes
  import opened Subscriptions
  import opened WatcherSteps

  // ---- without a rival nothing is lost -----------------------------------------------------

  /** What could be expected to end subscription i of a key, or to replace it. */
  predicate Provokes(step: Step, key: Key, i: SubId) {
    step.Shut? || step == EndContext(i) || (step.Subscribe? && step.key == key)
  }

  predicate Unprovoked(steps: seq<Step>, key: Key, i: SubId) {
    forall step <- steps :: !Provokes(step, key, i)
  }

  /** Open, in the table, and with a context that has not ended. */
  ghost predicate Serving(s: State, i: SubId)
    requires i < |s.subs|
  {
    !s.closed && s.subs[i].handed && Registered(s, i) && !s.subs[i].closed && !s.subs[i].ended
  }

  /** Subscriptions are only added, by subscribing, and keep their keys. */
  lemma StepKeepsKeys(s: State, step: Step)
    requires Enabled(s, step)
    ensures |After(s, step).subs| == |s.subs| + if step.Subscribe? then 1 else 0
    ensures step.Subscribe? ==> After(s, step).subs[|s.subs|].key == step.key
    ensures forall i :: 0 <= i < |s.subs| ==> After(s, step).subs[i].key == s.subs[i].key
  {}

  lemma StepKeepsHanded(s: State, step: Step, i: SubId)
    requires Enabled(s, step) && i < |s.subs| && s.subs[i].handed
    ensures i < |After(s, step).subs| && After(s, step).subs[i].handed
    ensures !step.Shut? ==> After(s, step).closed == s.closed
  {}

  lemma OnlyTheseCancel(s: State, step: Step, i: SubId)
    requires Enabled(s, step) && i < |s.subs|
    ensures i < |After(s, step).subs|
    ensures After(s, step).subs[i].canceled == s.subs[i].canceled
            || step == EndContext(i) || (step.EnableResult? && s.threads[step.t].work == Enabling(i))
  {}

  /** The context of a subscription that was handed out ends only by its caller. */
  lemma StepKeepsContext(s: State, step: Step, i: SubId)
    requires Inv(s) && Origins(s) && Enabled(s, step) && i < |s.subs| && s.subs[i].handed && step != EndContext(i)
    ensures i < |After(s, step).subs| && After(s, step).subs[i].canceled == s.subs[i].canceled
  {
    OnlyTheseCancel(s, step, i);
    if step.EnableResult? {
      assert WorkOk(s, step.t) && SetsUp(s.threads[step.t], s.threads[step.t].work.sub);
    }
  }

  lemma ServingWithoutRivalIsPromising(s: State, i: SubId)
    requires Inv(s) && Origins(s) && i < |s.subs| && Serving(s, i) && !HasRival(s, i)
    ensures Promising(s, i)
  {
    forall t | 0 <= t < |s.threads|
      ensures i !in s.threads[t].todo
    {
      assert WorkOk(s, t) && !IsRival(s, s.threads[t], i);
      assert i in s.threads[t].todo ==> MayClose(s, s.threads[t], i);
    }
  }

  lemma StepServesOn(s: State, step: Step, i: SubId)
    requires Inv(s) && Origins(s) && Enabled(s, step) && i < |s.subs|
    requires Serving(s, i) && !HasRival(s, i) && !Provokes(step, s.subs[i].key, i)
    ensures var s' := After(s, step);
            && i < |s'.subs| && s'.subs[i].key == s.subs[i].key && Serving(s', i) && !HasRival(s', i)
  {
    ServingWithoutRivalIsPromising(s, i);
    assert FlagsOk(s.subs[i]);
    StepKeepsKeys(s, step);
    StepKeepsHanded(s, step, i);
    StepKeepsContext(s, step, i);
    StepKeepsPromise(s, step, i);
  }

  lemma {:induction false} ServesOnWithoutRival(s: State, states: seq<State>, steps: seq<Step>, i: SubId)
    requires Inv(s) && Origins(s) && Path(s, states, steps) && i < |s.subs|
    requires Serving(s, i) && !HasRival(s, i) && Unprovoked(steps, s.subs[i].key, i)
    ensures i < |states[|steps|].subs| && Serving(states[|steps|], i) && !HasRival(states[|steps|], i)
    decreases |steps|
  {
    if steps != [] {
      var step := steps[0];
      PathTail(s, states, steps);
      StepServesOn(s, step, i);
      StepKeepsInv(s, step);
      StepKeepsOrigins(s, step);
      ServesOnWithoutRival(states[1], states[1..], steps[1..], i);
    }
  }

  // ---- with a rival it can be lost ---------------------------------------------------------

  /** Closed, about to be closed, or with a rival. */
  ghost predicate Doomed(s: State, i: SubId)
    requires i < |s.subs|
  {
    s.subs[i].handed && !s.closed && (s.subs[i].closed || ToBeClosed(s, i) || HasRival(s, i))
  }

  /** The threads of the connection act alone: no caller, no context and no delivery is needed. */
  predicate OnlyThreads(steps: seq<Step>) {
    forall step <- steps :: GoesOn(step) || step.Wake?
  }

  /** A subscription is closed although the connection is open and nobody ended its context. */
  ghost predicate LostSilently(s: State, last: State, i: SubId)
    requires i < |s.subs|
  {
    && !last.closed
    && i < |last.subs| && last.subs[i].canceled == s.subs[i].canceled
    && last.subs[i].closed && Ended(i) in last.log
  }

  lemma RivalGoesOn(s: State, step: Step, i: SubId)
    requires Inv(s) && Enabled(s, step) && GoesOn(step) && i < |s.subs| && s.subs[i].handed && !s.closed
    requires IsRival(s, s.threads[step.t], i)
    ensures i < |After(s, step).subs| && Doomed(After(s, step), i)
  {
    var s', t := After(s, step), step.t;
    assert ThreadOk(s, t) && Accounted(s, i);
    if step.Publish? {
      assert IsRival(s', s'.threads[|s.threads|], i);
    } else if step.Remove? {
      RemoverDooms(s, t, i);
    } else {
      assert IsRival(s', s'.threads[t], i);
    }
  }

  lemma RemoverDooms(s: State, t: nat, i: SubId)
    requires Inv(s) && Enabled(s, Remove(t)) && i < |s.subs| && s.subs[i].handed && !s.closed
    requires IsRival(s, s.threads[t], i)
    ensures i < |After(s, Remove(t)).subs| && Doomed(After(s, Remove(t)), i)
  {
    var s' := After(s, Remove(t));
    assert ThreadOk(s, t) && Accounted(s, i);
    if ToBeClosed(s, i) {
      var u :| 0 <= u < |s.threads| && i in s.threads[u].todo;
      assert i in s'.threads[u].todo;
    } else if Registered(s, i) {
      assert i in s'.threads[t].todo;
    }
  }

  lemma CloserKeepsDoom(s: State, step: Step, i: SubId)
    requires Inv(s) && Enabled(s, step) && GoesOn(step) && i < |s.subs| && s.subs[i].handed && !s.closed
    requires i in s.threads[step.t].todo
    ensures i < |After(s, step).subs| && Doomed(After(s, step), i)
  {
    var s', t := After(s, step), step.t;
    assert ThreadOk(s, t);
    FirstAndRest(s.threads[t].todo);
    assert s'.subs[i].closed || i in s'.threads[t].todo;
  }

  lemma OthersKeepDoom(s: State, step: Step, i: SubId, u: nat)
    requires Enabled(s, step) && GoesOn(step) && i < |s.subs| && s.subs[i].handed && !s.closed
    requires u < |s.threads| && u != step.t && (i in s.threads[u].todo || IsRival(s, s.threads[u], i))
    ensures i < |After(s, step).subs| && Doomed(After(s, step), i)
  {
    var s' := After(s, step);
    StepKeepsKeys(s, step);
    assert s'.threads[u] == s.threads[u];
    assert IsRival(s, s.threads[u], i) ==> IsRival(s', s'.threads[u], i);
  }

  lemma GoingOnKeepsDoom(s: State, step: Step, i: SubId)
    requires Inv(s) && Enabled(s, step) && GoesOn(step) && i < |s.subs| && Doomed(s, i)
    ensures i < |After(s, step).subs| && Doomed(After(s, step), i)
  {
    if !s.subs[i].closed {
      var u :| 0 <= u < |s.threads| && (i in s.threads[u].todo || IsRival(s, s.threads[u], i));
      if u != step.t {
        OthersKeepDoom(s, step, i, u);
      } else if i in s.threads[u].todo {
        CloserKeepsDoom(s, step, i);
      } else {
        RivalGoesOn(s, step, i);
      }
    }
  }

  lemma {:induction false} PathKeepsDoom(s: State, states: seq<State>, steps: seq<Step>, i: SubId)
    requires Inv(s) && Origins(s) && Path(s, states, steps) && forall step <- steps :: GoesOn(step)
    requires i < |s.subs| && Doomed(s, i)
    ensures var last := states[|steps|];
            && Inv(last) && Origins(last) && i < |last.subs| && Doomed(last, i)
            && last.subs[i].canceled == s.subs[i].canceled
    decreases |steps|
  {
    if steps != [] {
      var step := steps[0];
      PathTail(s, states, steps);
      GoingOnKeepsDoom(s, step, i);
      StepKeepsInv(s, step);
      StepKeepsOrigins(s, step);
      StepKeepsContext(s, step, i);
      PathKeepsDoom(states[1], states[1..], steps[1..], i);
    }
  }

  lemma WatcherAtRest(s: State, i: SubId) returns (t: nat, j: SubId)
    requires Inv(s) && Origins(s) && AtRest(s) && i < |s.subs| && Doomed(s, i) && !s.subs[i].closed
    ensures t < |s.threads| && s.threads[t] == Resting(Watching(j))
    ensures j < |s.subs| && j != i && s.subs[j].key == s.subs[i].key && s.subs[j].ended
    ensures Registered(s, i) && s.mutex == None && s.subs[i].holder == None
  {
    forall u | 0 <= u < |s.threads|
      ensures s.threads[u].todo == [] && !s.threads[u].inside && s.mutex != Some(u) && !Holds(s.threads[u], i)
    {
      assert s.threads[u] in s.threads && ThreadOk(s, u);
    }
    assert Accounted(s, i) && SubOk(s, i);
    t :| 0 <= t < |s.threads| && IsRival(s, s.threads[t], i);
    assert s.threads[t] in s.threads && WorkOk(s, t);
    j := s.threads[t].work.sub;
    assert Accounted(s, j) && FlagsOk(s.subs[j]);
  }

  /** At rest a rival is a watcher of a subscription that was closed, and it takes what its key has now. */
  lemma RivalAtRestCloses(s: State, i: SubId) returns (states: seq<State>, steps: seq<Step>)
    requires Inv(s) && Origins(s) && AtRest(s) && i < |s.subs| && Doomed(s, i) && !s.subs[i].closed
    ensures Path(s, states, steps) && OnlyThreads(steps)
    ensures LostSilently(s, states[|steps|], i)
  {
    var t, j := WatcherAtRest(s, i);
    var taking, taken := WatcherTakes(s, t, j, i);
    var closing, closed := TakenIsClosed(taking[2], t, i);
    JoinPaths(s, taking, taken, closing, closed);
    states, steps := taking[..2] + closing, taken + closed;
  }

  lemma WatcherTakes(s: State, t: nat, j: SubId, i: SubId) returns (states: seq<State>, steps: seq<Step>)
    requires t < |s.threads| && s.threads[t] == Resting(Watching(j)) && i < |s.subs| && Registered(s, i)
    requires j < |s.subs| && s.subs[j].key == s.subs[i].key && s.subs[j].ended && s.mutex == None
    ensures Path(s, states, steps) && OnlyThreads(steps) && |steps| == 2
    ensures var s2 := states[2];
            && s2.subs == s.subs && s2.closed == s.closed && s2.log == s.log
            && t < |s2.threads| && s2.threads[t] == Thread(Removing, [i], false)
  {
    var s1 := After(s, Wake(t));
    assert s1.threads[t] == Resting(Canceling(s.subs[i].key));
    states, steps := [s, s1, After(s1, Remove(t))], [Wake(t), Remove(t)];
  }

  lemma TakenIsClosed(s: State, t: nat, i: SubId) returns (states: seq<State>, steps: seq<Step>)
    requires t < |s.threads| && s.threads[t] == Thread(Removing, [i], false) && !s.closed
    requires i < |s.subs| && s.subs[i].holder == None && !s.subs[i].closed
    ensures Path(s, states, steps) && OnlyThreads(steps)
    ensures LostSilently(s, states[|steps|], i)
  {
    var s1 := After(s, CloseEnter(t));
    assert s1.threads[t] == Thread(Removing, [i], true);
    states, steps := [s, s1, After(s1, CloseFinish(t))], [CloseEnter(t), CloseFinish(t)];
  }

  /** A subscription with a rival can be lost, by steps of the connection's own threads alone. */
  lemma RivalCanClose(s: State, i: SubId) returns (states: seq<State>, steps: seq<Step>)
    requires Inv(s) && Origins(s) && i < |s.subs| && Serving(s, i) && HasRival(s, i)
    ensures Path(s, states, steps) && OnlyThreads(steps)
    ensures LostSilently(s, states[|steps|], i)
  {
    states, steps := ComesToRest(s);
    PathKeepsDoom(s, states, steps, i);
    var rest := states[|steps|];
    if rest.subs[i].closed {
      forall u | 0 <= u < |rest.threads|
        ensures !Holds(rest.threads[u], i)
      {
        assert rest.threads[u] in rest.threads && ThreadOk(rest, u);
      }
      assert SubOk(rest, i);
    } else {
      var more, last := RivalAtRestCloses(rest, i);
      JoinPaths(s, states, steps, more, last);
      states, steps := states[..|steps|] + more, steps + last;
    }
  }

  ghost predicate LosesIt(s: State, states: seq<State>, steps: seq<Step>, i: SubId)
    requires i < |s.subs|
  {
    Path(s, states, steps) && Unprovoked(steps, s.subs[i].key, i) && LostSilently(s, states[|steps|], i)
  }

  /** There is a way to go on, without anything that could be expected to end it, in which it is closed. */
  ghost predicate CanBeLost(s: State, i: SubId)
    requires i < |s.subs|
  {
    exists states, steps :: LosesIt(s, states, steps, i)
  }

  /**
    The exact condition.  In every reachable state, a subscription that serves its caller can be lost with no
    new subscription for its key, no end of its context and no closing of the connection if and only if some
    thread is busy with its key for another subscription, or about to cancel whatever the key has.
   */
  lemma LostExactlyByRivals(run: seq<State>, taken: seq<Step>, i: SubId)
    requires IsRun(run, taken) && i < |run[|taken|].subs| && Serving(run[|taken|], i)
    ensures CanBeLost(run[|taken|], i) <==> HasRival(run[|taken|], i)
  {
    var s := run[|taken|];
    EveryRunKeepsOrigins(run, taken);
    if HasRival(s, i) {
      var states, steps := RivalCanClose(s, i);
      assert LosesIt(s, states, steps, i);
    }
    if CanBeLost(s, i) {
      var states, steps :| LosesIt(s, states, steps, i);
      if !HasRival(s, i) {
        ServesOnWithoutRival(s, states, steps, i);
      }
    }
  }

  // ---- what a caller can rely on -----------------------------------------------------------

  /** All earlier subscriptions of a key are over and their watchers gone. */
  ghost predicate Quiet(s: State, key: Key) {
    forall th <- s.threads :: !BusyWith(s, th, key)
  }

  lemma NewcomerPromises(s: State, t: nat, key: Key)
    requires Inv(s) && Enabled(s, Subscribe(t, key)) && Quiet(s, key)
    ensures Promising(After(s, Subscribe(t, key)), |s.subs|)
  {
    var s', n := After(s, Subscribe(t, key)), |s.subs|;
    forall u | 0 <= u < |s'.threads|
      ensures n !in s'.threads[u].todo && !IsRival(s', s'.threads[u], n)
    {
      assert ThreadOk(s, u);
      if u != t {
        assert s.threads[u] in s.threads;
      }
    }
  }

  /** A promise once given holds to the end of a run in which its key is not subscribed to again. */
  lemma {:induction false} PromiseLasts(run: seq<State>, taken: seq<Step>, m: nat, i: SubId)
    requires IsRun(run, taken) && m <= |taken| && i < |run[m].subs| && Promising(run[m], i)
    requires forall k :: m <= k < |taken| ==> !(taken[k].Subscribe? && taken[k].key == run[m].subs[i].key)
    ensures i < |run[|taken|].subs| && run[|taken|].subs[i].key == run[m].subs[i].key && Promising(run[|taken|], i)
    decreases |taken|
  {
    if m < |taken| {
      var k := |taken| - 1;
      PromiseLasts(run[..k + 1], taken[..k], m, i);
      EveryRunKeepsOrigins(run[..k + 1], taken[..k]);
      StepKeepsKeys(run[k], taken[k]);
      StepKeepsPromise(run[k], taken[k], i);
    }
  }

  /**
    Subscribe when the earlier watchers of the key have gone, and the subscription stays live: as long as
    nobody subscribes to the key again, ends its context or closes the connection, it is open, and in the
    table once its channel was handed out.
   */
  lemma QuietSubscriptionStaysLive(run: seq<State>, taken: seq<Step>, m: nat)
    requires IsRun(run, taken) && m < |taken| && taken[m].Subscribe? && Quiet(run[m], taken[m].key)
    requires forall k :: m < k < |taken| ==> !(taken[k].Subscribe? && taken[k].key == taken[m].key)
    ensures var s, i := run[|taken|], |run[m].subs|;
            && i < |s.subs| && s.subs[i].key == taken[m].key
            && (!s.closed && !s.subs[i].canceled ==>
                  && !s.subs[i].closed && Ended(i) !in s.log && !HasRival(s, i)
                  && (s.subs[i].handed ==> Registered(s, i)))
  {
    var i := |run[m].subs|;
    assert Enabled(run[m], taken[m]) && run[m + 1] == After(run[m], taken[m]);
    EveryRunKeepsInv(run[..m + 1], taken[..m]);
    NewcomerPromises(run[m], taken[m].t, taken[m].key);
    PromiseLasts(run, taken, m + 1, i);
    EveryRunKeepsInv(run, taken);
    assert SubOk(run[|taken|], i);
  }

  /** No other subscription was ever made for its key. */
  ghost predicate Alone(s: State, i: SubId)
    requires i < |s.subs|
  {
    forall j :: 0 <= j < |s.subs| && j != i ==> s.subs[j].key != s.subs[i].key
  }

  /** The step that made a subscription. */
  lemma {:induction false} MadeBy(run: seq<State>, taken: seq<Step>, i: SubId) returns (m: nat)
    requires IsRun(run, taken) && i < |run[|taken|].subs|
    ensures m < |taken| && taken[m].Subscribe? && taken[m].key == run[|taken|].subs[i].key && |run[m].subs| == i
    decreases |taken|
  {
    var k := |taken| - 1;
    assert Enabled(run[k], taken[k]) && run[k + 1] == After(run[k], taken[k]);
    StepKeepsKeys(run[k], taken[k]);
    if i < |run[k].subs| {
      m := MadeBy(run[..k + 1], taken[..k], i);
    } else {
      m := k;
    }
  }

  /** Subscriptions are never forgotten and keep their keys. */
  lemma {:induction false} KeysLast(run: seq<State>, taken: seq<Step>, m: nat, j: SubId)
    requires IsRun(run, taken) && m <= |taken| && j < |run[m].subs|
    ensures j < |run[|taken|].subs| && run[|taken|].subs[j].key == run[m].subs[j].key
    decreases |taken|
  {
    if m < |taken| {
      var k := |taken| - 1;
      KeysLast(run[..k + 1], taken[..k], m, j);
      StepKeepsKeys(run[k], taken[k]);
    }
  }

  lemma AloneWasQuiet(run: seq<State>, taken: seq<Step>, m: nat, i: SubId)
    requires IsRun(run, taken) && m <= |taken| && i < |run[|taken|].subs| && Alone(run[|taken|], i)
    requires |run[m].subs| == i
    ensures Quiet(run[m], run[|taken|].subs[i].key)
  {
    var s, key := run[m], run[|taken|].subs[i].key;
    EveryRunKeepsOrigins(run[..m + 1], taken[..m]);
    forall j | 0 <= j < |s.subs|
      ensures s.subs[j].key != key
    {
      KeysLast(run, taken, m, j);
    }
    forall t | 0 <= t < |s.threads|
      ensures !BusyWith(s, s.threads[t], key)
    {
      assert WorkOk(s, t);
    }
  }

  /** In particular, a subscription that is the only one ever made for its key is never lost. */
  lemma LoneSubscriptionStaysLive(states: seq<State>, steps: seq<Step>, i: SubId)
    requires IsRun(states, steps)
    requires var s := states[|steps|];
             i < |s.subs| && s.subs[i].handed && Alone(s, i) && !s.subs[i].canceled && !s.closed
    ensures Registered(states[|steps|], i) && !states[|steps|].subs[i].closed
    ensures Ended(i) !in states[|steps|].log
  {
    var s := states[|steps|];
    var m := MadeBy(states, steps, i);
    AloneWasQuiet(states, steps, m, i);
    assert Enabled(states[m], steps[m]) && states[m + 1] == After(states[m], steps[m]);
    StepKeepsKeys(states[m], steps[m]);
    forall k | m < k < |steps|
      ensures !(steps[k].Subscribe? && steps[k].key == steps[m].key)
    {
      assert Enabled(states[k], steps[k]) && states[k + 1] == After(states[k], steps[k]);
      if steps[k].Subscribe? {
        StepKeepsKeys(states[k], steps[k]);
        KeysLast(states[..k + 1], steps[..k], m + 1, i);
        KeysLast(states, steps, k + 1, |states[k].subs|);
      }
    }
    QuietSubscriptionStaysLive(states, steps, m);
  }
}
