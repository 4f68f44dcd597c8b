/**
  Notification subscriptions of one macOS connection: the connection mutex, one mutex per subscription, and
  any number of threads that subscribe, deliver, cancel and close, in any interleaving.

  Each step is what one thread does between two points where another may run.  The lock of a subscription
  is held from marking it closed until its channel is closed, and during a delivery.
 */
module Subscriptions {
  import opened Outcomes

  type Key = nat
  type SubId = nat

  const CAPACITY := 8

  /**
    One subscription: closed under its lock, `ended` once its context is over, `canceled` if that was the
    caller's doing, `handed` once its channel was returned, and the notifications queued in the channel.
   */
  datatype Sub = Sub(
    key: Key, closed: bool, ended: bool, canceled: bool, handed: bool, holder: Option<nat>, queued: nat)

  /** What a thread is in the middle of. */
  datatype Work =
    | Idle
    | Enabling(sub: SubId)
    | Installing(sub: SubId)
    | Replacing(sub: SubId)
    | Rejecting
    | Watching(sub: SubId)
    | Canceling(key: Key)
    | Removing
    | Shutting
    | Delivering(sub: SubId)

  /** The subscriptions a thread still has to close, and whether it is between marking and closing the first. */
  datatype Thread = Thread(work: Work, todo: seq<SubId>, inside: bool)

  datatype ChannelEvent = Sent(sub: SubId) | Ended(sub: SubId)

  datatype State = State(
    subs: seq<Sub>, table: map<Key, SubId>, closed: bool, mutex: Option<nat>, threads: seq<Thread>,
    log: seq<ChannelEvent>)

  datatype Step =
    | Subscribe(t: nat, key: Key)
    | EnableResult(t: nat, ok: bool)
    | Install(t: nat)
    | Publish(t: nat)
    | Wake(t: nat)
    | Remove(t: nat)
    | Shut(t: nat, order: seq<SubId>)
    | CloseEnter(t: nat)
    | CloseFinish(t: nat)
    | Done(t: nat)
    | DeliverEnter(t: nat, sub: SubId)
    | DeliverSend(t: nat)
    | Receive(sub: SubId)
    | EndContext(sub: SubId)

  function Resting(work: Work): Thread { Thread(work, [], false) }

  function NewSub(key: Key): Sub { Sub(key, false, false, false, false, None, 0) }

  predicate Initial(s: State) {
    && s.subs == [] && s.table == map[] && !s.closed && s.mutex == None && s.log == []
    && forall th <- s.threads :: th == Resting(Idle)
  }

  ghost predicate Enabled(s: State, step: Step) {
    && (step.Receive? ==> step.sub < |s.subs| && s.subs[step.sub].queued > 0)
    && (step.EndContext? ==> step.sub < |s.subs|)
    && (!step.Receive? && !step.EndContext? ==>
          step.t < |s.threads| && EnabledFor(s, s.threads[step.t], step))
  }

  /** What a thread can do next. */
  ghost predicate EnabledFor(s: State, th: Thread, step: Step) {
    && !step.Receive? && !step.EndContext?
    && (step.Subscribe? ==> th.work == Idle && s.mutex == None && !s.closed)
    && (step.EnableResult? ==> th.work.Enabling? && th.work.sub < |s.subs|)
    && (step.Install? ==> th.work.Installing? && th.work.sub < |s.subs| && s.mutex == None)
    && (step.Publish? ==> th.work.Replacing? && th.work.sub < |s.subs| && th.todo == [])
    && (step.Wake? ==>
          th.work.Watching? && th.work.sub < |s.subs| && (s.subs[th.work.sub].ended || s.closed))
    && (step.Remove? ==> th.work.Canceling? && s.mutex == None)
    && (step.Shut? ==>
          && th.work == Idle && s.mutex == None && !s.closed
          && forall i :: i in step.order <==> i in s.table.Values)
    && (step.CloseEnter? ==>
          th.todo != [] && !th.inside && th.todo[0] < |s.subs| && s.subs[th.todo[0]].holder == None)
    && (step.CloseFinish? ==> th.todo != [] && th.inside && th.todo[0] < |s.subs|)
    && (step.Done? ==> (th.work == Rejecting || th.work == Removing || th.work == Shutting) && th.todo == [])
    && (step.DeliverEnter? ==> th.work == Idle && step.sub < |s.subs| && s.subs[step.sub].holder == None)
    && (step.DeliverSend? ==> th.work.Delivering? && th.work.sub < |s.subs|)
  }

  function SetThread(s: State, t: nat, th: Thread): State
    requires t < |s.threads|
  {
    s.(threads := s.threads[t := th])
  }

  function SetSub(s: State, i: SubId, sub: Sub): State
    requires i < |s.subs|
  {
    s.(subs := s.subs[i := sub])
  }

  /** Each step, as the code does it. */
  ghost function After(s: State, step: Step): State
    requires Enabled(s, step)
  {
    match step
    case Receive(i) => SetSub(s, i, s.subs[i].(queued := s.subs[i].queued - 1))
    case EndContext(i) => SetSub(s, i, s.subs[i].(ended := true, canceled := true))
    case _ => AfterThread(s, step.t, s.threads[step.t], step)
  }

  ghost function AfterThread(s: State, t: nat, th: Thread, step: Step): State
    requires t < |s.threads| && th == s.threads[t] && EnabledFor(s, th, step)
  {
    match step
    // The connection is open and knows the characteristic; the subscription object is made.
    case Subscribe(_, key) =>
      SetThread(s.(subs := s.subs + [NewSub(key)]), t, Resting(Enabling(|s.subs|)))
    // Enabling notifications succeeds, fails or times out.
    case EnableResult(_, ok) =>
      if ok then SetThread(s, t, Resting(Installing(th.work.sub)))
      else
        var sub := s.subs[th.work.sub].(ended := true, canceled := true);
        SetThread(SetSub(s, th.work.sub, sub), t, Resting(Idle))
    // Under the connection mutex: give up on a closed connection, or close what the key has now.
    case Install(_) =>
      var i := th.work.sub;
      if s.closed then SetThread(s, t, Thread(Rejecting, [i], false))
      else
        var key := s.subs[i].key;
        var current := if key in s.table then [s.table[key]] else [];
        SetThread(s.(mutex := Some(t)), t, Thread(Replacing(i), current, false))
    // Enter the table, release the mutex, start the watcher, and hand out the channel.
    case Publish(_) =>
      var i := th.work.sub;
      var s1 := SetThread(SetSub(s, i, s.subs[i].(handed := true)), t, Resting(Idle));
      s1.(table := s.table[s.subs[i].key := i], mutex := None, threads := s1.threads + [Resting(Watching(i))])
    // The watcher sees its context or the connection end.
    case Wake(_) => SetThread(s, t, Resting(Canceling(s.subs[th.work.sub].key)))
    // It removes whatever its key has in the table at that time.
    case Remove(_) =>
      var key := th.work.key;
      var found := if key in s.table then [s.table[key]] else [];
      SetThread(s.(table := s.table - {key}), t, Thread(Removing, found, false))
    // Closing the connection empties the table and closes what was in it.
    case Shut(_, order) => SetThread(s.(closed := true, table := map[]), t, Thread(Shutting, order, false))
    // Closing one subscription: nothing if it is closed, else mark it under its lock.
    case CloseEnter(_) =>
      var i := th.todo[0];
      if s.subs[i].closed then SetThread(s, t, Thread(th.work, th.todo[1..], false))
      else
        var sub := s.subs[i].(closed := true, ended := true, holder := Some(t));
        SetThread(SetSub(s, i, sub), t, Thread(th.work, th.todo, true))
    // Then close its channel and release the lock.
    case CloseFinish(_) =>
      var i := th.todo[0];
      var s1 := SetThread(SetSub(s, i, s.subs[i].(holder := None)), t, Thread(th.work, th.todo[1..], false));
      s1.(log := s.log + [Ended(i)])
    case Done(_) => SetThread(s, t, Resting(Idle))
    // A delivery finds the subscription closed, or holds its lock until it has sent or dropped.
    case DeliverEnter(_, i) =>
      if s.subs[i].closed then s
      else SetThread(SetSub(s, i, s.subs[i].(holder := Some(t))), t, Resting(Delivering(i)))
    case DeliverSend(_) =>
      var i := th.work.sub;
      var sub := s.subs[i].(holder := None);
      if sub.queued < CAPACITY then
        var s1 := SetThread(SetSub(s, i, sub.(queued := sub.queued + 1)), t, Resting(Idle));
        s1.(log := s.log + [Sent(i)])
      else SetThread(SetSub(s, i, sub), t, Resting(Idle))
    case _ => s
  }

  ghost predicate IsRun(states: seq<State>, steps: seq<Step>) {
    && |states| == |steps| + 1
    && Initial(states[0])
    && forall i :: 0 <= i < |steps| ==> Enabled(states[i], steps[i]) && states[i + 1] == After(states[i], steps[i])
  }

  // ---- what every step keeps ---------------------------------------------------------------

  /** A thread holds the lock of a subscription while it delivers to it or closes its channel. */
  predicate Holds(th: Thread, i: SubId) {
    th.work == Delivering(i) || (th.inside && th.todo != [] && th.todo[0] == i)
  }

  predicate Closing(work: Work) { work.Replacing? || work.Rejecting? || work.Removing? || work.Shutting? }

  ghost predicate SubOk(s: State, i: SubId)
    requires i < |s.subs|
  {
    var sub := s.subs[i];
    && (sub.holder.Some? ==> sub.holder.value < |s.threads| && Holds(s.threads[sub.holder.value], i))
    && (Ended(i) in s.log <==> sub.closed && sub.holder == None)
    && sub.queued <= CAPACITY
  }

  ghost predicate ThreadOk(s: State, t: nat)
    requires t < |s.threads|
  {
    var th := s.threads[t];
    && (forall i <- th.todo :: i < |s.subs|)
    && (th.todo != [] ==> Closing(th.work))
    && (th.inside ==>
          && th.todo != [] && th.todo[0] < |s.subs|
          && s.subs[th.todo[0]].closed && s.subs[th.todo[0]].holder == Some(t))
    && (th.work.Delivering? ==>
          th.work.sub < |s.subs| && !s.subs[th.work.sub].closed && s.subs[th.work.sub].holder == Some(t))
    && (th.work.Enabling? || th.work.Installing? || th.work.Watching? ==> th.work.sub < |s.subs|)
    && (th.work.Replacing? <==> s.mutex == Some(t))
    && (th.work.Replacing? ==>
          && !s.closed && th.work.sub < |s.subs|
          && var key := s.subs[th.work.sub].key;
             key in s.table && s.table[key] < |s.subs| ==> s.table[key] in th.todo || s.subs[s.table[key]].closed)
  }

  ghost predicate TableOk(s: State) {
    && (s.closed ==> s.table == map[])
    && (forall key <- s.table :: s.table[key] < |s.subs| && s.subs[s.table[key]].key == key)
    && (s.mutex.Some? ==> s.mutex.value < |s.threads|)
  }

  /** On each channel, nothing happens after it was closed. */
  ghost predicate Sound(log: seq<ChannelEvent>) {
    forall p, q :: 0 <= p < q < |log| && log[p].Ended? ==> log[q].sub != log[p].sub
  }

  predicate Registered(s: State, i: SubId)
    requires i < |s.subs|
  {
    s.subs[i].key in s.table && s.table[s.subs[i].key] == i
  }

  ghost predicate ToBeClosed(s: State, i: SubId) {
    exists t :: 0 <= t < |s.threads| && i in s.threads[t].todo
  }

  /** A subscription whose channel was handed out is registered, closed, or about to be closed. */
  ghost predicate Accounted(s: State, i: SubId)
    requires i < |s.subs|
  {
    s.subs[i].handed ==> Registered(s, i) || s.subs[i].closed || ToBeClosed(s, i)
  }

  ghost predicate Inv(s: State) {
    && TableOk(s)
    && (forall t :: 0 <= t < |s.threads| ==> ThreadOk(s, t))
    && (forall i :: 0 <= i < |s.subs| ==> SubOk(s, i))
    && (forall i :: 0 <= i < |s.subs| ==> Accounted(s, i))
    && (forall e <- s.log :: e.sub < |s.subs|)
    && Sound(s.log)
  }

  /** What a step of thread t leaves alone of the others. */
  ghost predicate Frame(s: State, s': State, t: nat) {
    && |s.threads| <= |s'.threads| && |s.subs| <= |s'.subs|
    && (forall u :: 0 <= u < |s.threads| && u != t ==> s'.threads[u] == s.threads[u])
    && (forall i :: 0 <= i < |s.subs| ==>
          && s'.subs[i].key == s.subs[i].key
          && (s.subs[i].closed ==> s'.subs[i].closed)
          && (s.subs[i].holder.Some? && s.subs[i].holder.value != t ==>
                s'.subs[i].holder == s.subs[i].holder && s'.subs[i].closed == s.subs[i].closed))
    && (s.mutex.Some? && s.mutex.value != t ==>
          s'.mutex == s.mutex && s'.table == s.table && s'.closed == s.closed)
    && (s'.mutex.Some? && s'.mutex.value != t ==> s.mutex == s'.mutex)
  }

  lemma OtherThreadsKept(s: State, s': State, t: nat)
    requires Inv(s) && Frame(s, s', t)
    ensures forall u :: 0 <= u < |s.threads| && u != t ==> ThreadOk(s', u)
  {
    forall u | 0 <= u < |s.threads| && u != t
      ensures ThreadOk(s', u)
    {
      assert ThreadOk(s, u);
    }
  }

  /** A subscription that a step leaves as it was, apart from flags that do not matter here. */
  ghost predicate Untouched(s: State, s': State, t: nat, i: SubId)
    requires i < |s.subs| <= |s'.subs|
  {
    && s'.subs[i].closed == s.subs[i].closed && s'.subs[i].holder == s.subs[i].holder
    && s'.subs[i].queued <= CAPACITY
    && (Ended(i) in s'.log <==> Ended(i) in s.log)
    && (s.subs[i].holder == Some(t) ==> t < |s'.threads| && Holds(s'.threads[t], i))
  }

  lemma UntouchedKept(s: State, s': State, t: nat, i: SubId)
    requires Inv(s) && Frame(s, s', t) && i < |s.subs| && Untouched(s, s', t, i)
    ensures SubOk(s', i)
  {
    assert SubOk(s, i);
  }

  /** A thread holds the locks that its work says it holds, and no others. */
  lemma HeldLocks(s: State, t: nat)
    requires Inv(s) && t < |s.threads|
    ensures forall i :: 0 <= i < |s.subs| && s.subs[i].holder == Some(t) ==> Holds(s.threads[t], i)
    ensures forall i :: 0 <= i < |s.subs| ==> s.subs[i].queued <= CAPACITY
  {
    forall i | 0 <= i < |s.subs|
      ensures s.subs[i].holder == Some(t) ==> Holds(s.threads[t], i)
      ensures s.subs[i].queued <= CAPACITY
    {
      assert SubOk(s, i);
    }
  }

  /** What thread t was to close is closed now, or still to be closed. */
  lemma StillAccounted(s: State, s': State, t: nat, i: SubId)
    requires Inv(s) && Frame(s, s', t) && i < |s.subs| && t < |s'.threads|
    requires s'.subs[i].handed == s.subs[i].handed
    requires Registered(s, i) ==> Registered(s', i) || s'.subs[i].closed || ToBeClosed(s', i)
    requires t < |s.threads| && i in s.threads[t].todo ==> s'.subs[i].closed || i in s'.threads[t].todo
    ensures Accounted(s', i)
  {
    assert Accounted(s, i);
    if ToBeClosed(s, i) {
      var u :| 0 <= u < |s.threads| && i in s.threads[u].todo;
      assert i in s'.threads[u].todo || s'.subs[i].closed;
    }
  }

  /** A step that opens nothing, closes nothing and only moves thread t along. */
  lemma MoveKept(s: State, s': State, t: nat)
    requires Inv(s) && Frame(s, s', t) && t < |s.threads| == |s'.threads| && |s.subs| == |s'.subs|
    requires s'.log == s.log && TableOk(s') && ThreadOk(s', t)
    requires forall i :: 0 <= i < |s.subs| ==> Untouched(s, s', t, i) && s'.subs[i].handed == s.subs[i].handed
    requires forall i :: 0 <= i < |s.subs| ==>
               && (Registered(s, i) ==> Registered(s', i) || s'.subs[i].closed || ToBeClosed(s', i))
               && (i in s.threads[t].todo ==> s'.subs[i].closed || i in s'.threads[t].todo)
    ensures Inv(s')
  {
    OtherThreadsKept(s, s', t);
    forall i | 0 <= i < |s.subs|
      ensures SubOk(s', i) && Accounted(s', i)
    {
      UntouchedKept(s, s', t, i);
      StillAccounted(s, s', t, i);
    }
  }

  lemma SubscribeKept(s: State, t: nat, key: Key)
    requires Inv(s) && Enabled(s, Subscribe(t, key))
    ensures Inv(After(s, Subscribe(t, key)))
  {
    var s' := After(s, Subscribe(t, key));
    assert ThreadOk(s, t);
    HeldLocks(s, t);
    OtherThreadsKept(s, s', t);
    forall i | 0 <= i < |s.subs|
      ensures SubOk(s', i) && Accounted(s', i)
    {
      assert SubOk(s, i);
      UntouchedKept(s, s', t, i);
      StillAccounted(s, s', t, i);
    }
    assert Ended(|s.subs|) !in s.log;
  }

  lemma EnableResultKept(s: State, t: nat, ok: bool)
    requires Inv(s) && Enabled(s, EnableResult(t, ok))
    ensures Inv(After(s, EnableResult(t, ok)))
  {
    assert ThreadOk(s, t);
    HeldLocks(s, t);
    MoveKept(s, After(s, EnableResult(t, ok)), t);
  }

  lemma InstallKept(s: State, t: nat)
    requires Inv(s) && Enabled(s, Install(t))
    ensures Inv(After(s, Install(t)))
  {
    assert ThreadOk(s, t);
    HeldLocks(s, t);
    MoveKept(s, After(s, Install(t)), t);
  }

  lemma PublishKept(s: State, t: nat)
    requires Inv(s) && Enabled(s, Publish(t))
    ensures Inv(After(s, Publish(t)))
  {
    var s', n := After(s, Publish(t)), s.threads[t].work.sub;
    assert ThreadOk(s, t);
    HeldLocks(s, t);
    OtherThreadsKept(s, s', t);
    forall i | 0 <= i < |s.subs|
      ensures SubOk(s', i) && Accounted(s', i)
    {
      assert SubOk(s, i);
      UntouchedKept(s, s', t, i);
      if i != n {
        StillAccounted(s, s', t, i);
      }
    }
  }

  lemma WakeKept(s: State, t: nat)
    requires Inv(s) && Enabled(s, Wake(t))
    ensures Inv(After(s, Wake(t)))
  {
    assert ThreadOk(s, t);
    HeldLocks(s, t);
    MoveKept(s, After(s, Wake(t)), t);
  }

  lemma RemoveKept(s: State, t: nat)
    requires Inv(s) && Enabled(s, Remove(t))
    ensures Inv(After(s, Remove(t)))
  {
    var s' := After(s, Remove(t));
    assert ThreadOk(s, t);
    HeldLocks(s, t);
    forall i | 0 <= i < |s.subs| && Registered(s, i)
      ensures Registered(s', i) || ToBeClosed(s', i)
    {
      assert !Registered(s', i) ==> i in s'.threads[t].todo;
    }
    MoveKept(s, s', t);
  }

  lemma ShutKept(s: State, t: nat, order: seq<SubId>)
    requires Inv(s) && Enabled(s, Shut(t, order))
    ensures Inv(After(s, Shut(t, order)))
  {
    var s' := After(s, Shut(t, order));
    assert ThreadOk(s, t);
    HeldLocks(s, t);
    forall i | 0 <= i < |s.subs| && Registered(s, i)
      ensures ToBeClosed(s', i)
    {
      assert i in s'.threads[t].todo;
    }
    MoveKept(s, s', t);
  }

  lemma DoneKept(s: State, t: nat)
    requires Inv(s) && Enabled(s, Done(t))
    ensures Inv(After(s, Done(t)))
  {
    assert ThreadOk(s, t);
    HeldLocks(s, t);
    MoveKept(s, After(s, Done(t)), t);
  }

  lemma FirstAndRest(todo: seq<SubId>)
    requires todo != []
    ensures forall i :: i in todo <==> i == todo[0] || i in todo[1..]
  {
    assert todo == [todo[0]] + todo[1..];
    forall i
      ensures i in todo <==> i == todo[0] || i in todo[1..]
    {
      assert i in [todo[0]] + todo[1..] <==> i in [todo[0]] || i in todo[1..];
    }
  }

  lemma CloseEnterKept(s: State, t: nat)
    requires Inv(s) && Enabled(s, CloseEnter(t))
    ensures Inv(After(s, CloseEnter(t)))
  {
    var s', n := After(s, CloseEnter(t)), s.threads[t].todo[0];
    assert ThreadOk(s, t);
    FirstAndRest(s.threads[t].todo);
    HeldLocks(s, t);
    OtherThreadsKept(s, s', t);
    forall i | 0 <= i < |s.subs|
      ensures SubOk(s', i) && Accounted(s', i)
    {
      assert SubOk(s, i);
      if i != n {
        UntouchedKept(s, s', t, i);
      }
      StillAccounted(s, s', t, i);
    }
  }

  lemma CloseFinishKept(s: State, t: nat)
    requires Inv(s) && Enabled(s, CloseFinish(t))
    ensures Inv(After(s, CloseFinish(t)))
  {
    var s', n := After(s, CloseFinish(t)), s.threads[t].todo[0];
    assert ThreadOk(s, t);
    FirstAndRest(s.threads[t].todo);
    assert SubOk(s, n);
    HeldLocks(s, t);
    OtherThreadsKept(s, s', t);
    forall i | 0 <= i < |s.subs|
      ensures SubOk(s', i) && Accounted(s', i)
    {
      assert SubOk(s, i);
      if i != n {
        UntouchedKept(s, s', t, i);
      }
      StillAccounted(s, s', t, i);
    }
    SoundAppend(s.log, Ended(n));
  }

  lemma SoundAppend(log: seq<ChannelEvent>, e: ChannelEvent)
    requires Sound(log) && Ended(e.sub) !in log
    ensures Sound(log + [e])
  {
    var longer := log + [e];
    assert forall p :: 0 <= p < |log| && log[p].Ended? ==> log[p] == Ended(log[p].sub);
  }

  lemma DeliverEnterKept(s: State, t: nat, n: SubId)
    requires Inv(s) && Enabled(s, DeliverEnter(t, n))
    ensures Inv(After(s, DeliverEnter(t, n)))
  {
    var s' := After(s, DeliverEnter(t, n));
    assert ThreadOk(s, t);
    HeldLocks(s, t);
    OtherThreadsKept(s, s', t);
    forall i | 0 <= i < |s.subs|
      ensures SubOk(s', i) && Accounted(s', i)
    {
      assert SubOk(s, i);
      if i != n {
        UntouchedKept(s, s', t, i);
      }
      StillAccounted(s, s', t, i);
    }
  }

  /** A delivery ends by releasing its lock, with or without one more notification queued. */
  lemma ReleaseKept(s: State, s': State, t: nat, n: SubId)
    requires Inv(s) && t < |s.threads| && n < |s.subs| && s.threads[t] == Resting(Delivering(n))
    requires s' == s.(threads := s.threads[t := Resting(Idle)], subs := s'.subs, log := s'.log)
    requires |s'.subs| == |s.subs| && s'.subs[n].queued <= CAPACITY
    requires s'.subs == s.subs[n := s.subs[n].(holder := None, queued := s'.subs[n].queued)]
    requires s'.log == s.log || s'.log == s.log + [Sent(n)]
    ensures Inv(s')
  {
    assert ThreadOk(s, t);
    assert SubOk(s, n);
    HeldLocks(s, t);
    OtherThreadsKept(s, s', t);
    forall i | 0 <= i < |s.subs|
      ensures SubOk(s', i) && Accounted(s', i)
    {
      assert SubOk(s, i);
      if i != n {
        UntouchedKept(s, s', t, i);
      }
      StillAccounted(s, s', t, i);
    }
    SoundAppend(s.log, Sent(n));
  }

  lemma DeliverSendKept(s: State, t: nat)
    requires Inv(s) && Enabled(s, DeliverSend(t))
    ensures Inv(After(s, DeliverSend(t)))
  {
    assert ThreadOk(s, t);
    var n := s.threads[t].work.sub;
    assert s.threads[t].work == Delivering(n) && s.threads[t] == Resting(Delivering(n));
    HeldLocks(s, t);
    ReleaseKept(s, After(s, DeliverSend(t)), t, n);
  }

  /** Receiving and the end of a context touch one subscription and no thread. */
  lemma OutsideStepsKept(s: State, step: Step)
    requires Inv(s) && Enabled(s, step) && (step.Receive? || step.EndContext?)
    ensures Inv(After(s, step))
  {
    var s', t := After(s, step), |s.threads|;
    OtherThreadsKept(s, s', t);
    forall i | 0 <= i < |s.subs|
      ensures SubOk(s', i) && Accounted(s', i)
    {
      assert SubOk(s, i) && Accounted(s, i);
      if ToBeClosed(s, i) {
        assert ToBeClosed(s', i);
      }
    }
  }

  lemma StepKeepsInv(s: State, step: Step)
    requires Inv(s) && Enabled(s, step)
    ensures Inv(After(s, step))
  {
    match step
    case Subscribe(t, key) => SubscribeKept(s, t, key);
    case EnableResult(t, ok) => EnableResultKept(s, t, ok);
    case Install(t) => InstallKept(s, t);
    case Publish(t) => PublishKept(s, t);
    case Wake(t) => WakeKept(s, t);
    case Remove(t) => RemoveKept(s, t);
    case Shut(t, order) => ShutKept(s, t, order);
    case CloseEnter(t) => CloseEnterKept(s, t);
    case CloseFinish(t) => CloseFinishKept(s, t);
    case Done(t) => DoneKept(s, t);
    case DeliverEnter(t, sub) => DeliverEnterKept(s, t, sub);
    case DeliverSend(t) => DeliverSendKept(s, t);
    case _ => OutsideStepsKept(s, step);
  }

  lemma {:induction false} EveryRunKeepsInv(states: seq<State>, steps: seq<Step>)
    requires IsRun(states, steps)
    ensures Inv(states[|steps|])
  {
    if steps == [] {
      assert forall t :: 0 <= t < |states[0].threads| ==> states[0].threads[t] in states[0].threads;
    } else {
      var k := |steps| - 1;
      EveryRunKeepsInv(states[..k + 1], steps[..k]);
      StepKeepsInv(states[k], steps[k]);
    }
  }

  // ---- what callers may rely on ------------------------------------------------------------

  /** No channel is closed twice, and none is sent to after it was closed. */
  lemma ChannelsAreUsedSoundly(states: seq<State>, steps: seq<Step>)
    requires IsRun(states, steps)
    ensures forall p, q :: 0 <= p < q < |states[|steps|].log| && states[|steps|].log[p].Ended? ==>
              states[|steps|].log[q].sub != states[|steps|].log[p].sub
  {
    EveryRunKeepsInv(states, steps);
  }

  /** A closed connection stays closed, with an empty subscription table. */
  lemma {:induction false} ClosedForEver(states: seq<State>, steps: seq<Step>, i: nat)
    requires IsRun(states, steps) && i <= |steps| && states[i].closed
    ensures states[|steps|].closed && states[|steps|].table == map[]
  {
    EveryRunKeepsInv(states, steps);
    if i < |steps| {
      var k := |steps| - 1;
      ClosedForEver(states[..k + 1], steps[..k], i);
      assert After(states[k], steps[k]).closed;
    }
  }

  /** With no operation in flight, every subscription handed out is registered, or its channel is closed. */
  lemma NothingLeaksAtRest(states: seq<State>, steps: seq<Step>, i: SubId)
    requires IsRun(states, steps)
    requires forall th <- states[|steps|].threads :: th.work.Idle? || th.work.Watching?
    requires i < |states[|steps|].subs| && states[|steps|].subs[i].handed
    ensures Registered(states[|steps|], i) || Ended(i) in states[|steps|].log
    ensures states[|steps|].closed ==> Ended(i) in states[|steps|].log
  {
    var s := states[|steps|];
    EveryRunKeepsInv(states, steps);
    assert SubOk(s, i) && Accounted(s, i);
    forall t | 0 <= t < |s.threads|
      ensures s.threads[t].todo == [] && !Holds(s.threads[t], i)
    {
      assert ThreadOk(s, t) && s.threads[t] in s.threads;
    }
  }

  /** One more step at the end of a run. */
  lemma OneMoreStep(states: seq<State>, steps: seq<Step>, step: Step) returns (states': seq<State>, steps': seq<Step>)
    requires IsRun(states, steps) && Enabled(states[|steps|], step)
    ensures IsRun(states', steps') && states'[|steps'|] == After(states[|steps|], step)
    ensures |steps'| == |steps| + 1
  {
    states', steps' := states + [After(states[|steps|], step)], steps + [step];
  }

  /** One thread subscribes to a key and the device agrees to notify. */
  lemma FirstIsEnabled() returns (states: seq<State>, steps: seq<Step>)
    ensures IsRun(states, steps)
    ensures states[|steps|] == State(
              [Sub(0, false, false, false, false, None, 0)], map[], false, None, [Resting(Installing(0))], [])
  {
    states, steps := [State([], map[], false, None, [Resting(Idle)], [])], [];
    states, steps := OneMoreStep(states, steps, Subscribe(0, 0));
    states, steps := OneMoreStep(states, steps, EnableResult(0, true));
  }

  /** It gets its channel; a watcher thread starts. */
  lemma FirstSubscription() returns (states: seq<State>, steps: seq<Step>)
    ensures IsRun(states, steps)
    ensures states[|steps|] == State(
              [Sub(0, false, false, false, true, None, 0)], map[0 := 0], false, None,
              [Resting(Idle), Resting(Watching(0))], [])
  {
    states, steps := FirstIsEnabled();
    states, steps := OneMoreStep(states, steps, Install(0));
    states, steps := OneMoreStep(states, steps, Publish(0));
  }

  /** It subscribes to the same key again, and holds the mutex while the first subscription is still open. */
  lemma SecondIsInstalled() returns (states: seq<State>, steps: seq<Step>)
    ensures IsRun(states, steps)
    ensures states[|steps|] == State(
              [Sub(0, false, false, false, true, None, 0), Sub(0, false, false, false, false, None, 0)],
              map[0 := 0], false, Some(0),
              [Thread(Replacing(1), [0], false), Resting(Watching(0))], [])
  {
    states, steps := FirstSubscription();
    states, steps := OneMoreStep(states, steps, Subscribe(0, 0));
    states, steps := OneMoreStep(states, steps, EnableResult(0, true));
    states, steps := OneMoreStep(states, steps, Install(0));
  }

  /** That closes the first subscription. */
  lemma SecondSubscription() returns (states: seq<State>, steps: seq<Step>)
    ensures IsRun(states, steps)
    ensures states[|steps|] == State(
              [Sub(0, true, true, false, true, None, 0), Sub(0, false, false, false, true, None, 0)],
              map[0 := 1], false, None,
              [Resting(Idle), Resting(Watching(0)), Resting(Watching(1))], [Ended(0)])
  {
    states, steps := SecondIsInstalled();
    states, steps := OneMoreStep(states, steps, CloseEnter(0));
    states, steps := OneMoreStep(states, steps, CloseFinish(0));
    states, steps := OneMoreStep(states, steps, Publish(0));
  }

  /**
    The newest subscription need not stay live: the watcher of the one it replaced wakes up and cancels by
    key, closing the replacement although nobody canceled it and the connection is open.
   */
  lemma ReplacementMayBeLost() returns (states: seq<State>, steps: seq<Step>)
    ensures IsRun(states, steps)
    ensures var s := states[|steps|];
            && |s.subs| == 2 && s.subs[1].handed && s.subs[1].closed && !s.subs[1].canceled
            && !s.closed && s.table == map[]
  {
    states, steps := SecondSubscription();
    states, steps := OneMoreStep(states, steps, Wake(1));
    states, steps := OneMoreStep(states, steps, Remove(1));
    assert states[|steps|].threads[1] == Thread(Removing, [1], false);
    states, steps := OneMoreStep(states, steps, CloseEnter(1));
    states, steps := OneMoreStep(states, steps, CloseFinish(1));
  }
}
