/**
  One connection to a device, seen through the accesses made to it.

  The device is a strategy: what it answers may depend in any way on everything done to it so far, so
  a statement about all devices covers every run against every device.  The log records each access
  and each wait in order; statements about runs are statements about the log.
 */
module Device {
  import opened Bytes
  import opened Outcomes

  datatype Characteristic =
    | DeviceName | ManufacturerName | ModelNumber | HardwareRevision | FirmwareRevision | SystemId
    | Battery | Events | Facets | CommandResult | Command | DoubleTap | SystemState | Password | HistoryData

  datatype ReadResult = Data(payload: seq<Byte>) | Failed(error: Error)

  /** Which arm of a poll's select fires: the poll timer, the deadline, or the end of the context. */
  datatype Arm = TimerFired | DeadlinePassed | ContextDone(error: Error)

  datatype Event =
    | Read(ch: Characteristic, result: ReadResult)
    | Write(ch: Characteristic, payload: seq<Byte>, error: Option<Error>)
    | Wait(arm: Arm)
    | Close

  type Log = seq<Event>

  /**
    The environment of a connection: answers to reads and writes, the error of the caller's context once
    it has ended, how long an access takes, and which of two ready arms a select picks.
   */
  datatype Peer = Peer(
    read: (Log, Characteristic) -> ReadResult,
    write: (Log, Characteristic, seq<Byte>) -> Option<Error>,
    contextError: Log -> Option<Error>,
    duration: Log -> nat,
    prefersDeadline: Log -> bool)

  /** What an access got is what the peer gives after everything before it. */
  ghost predicate AnsweredBy(peer: Peer, before: Log, e: Event) {
    match e
    case Read(ch, r) => r == peer.read(before, ch)
    case Write(ch, payload, error) => error == peer.write(before, ch, payload)
    case Wait(ContextDone(error)) => peer.contextError(before) == Some(error)
    case _ => true
  }

  /** A log in which every access got what the peer gives. */
  ghost predicate Genuine(peer: Peer, log: Log) {
    forall i {:trigger AnsweredBy(peer, log[..i], log[i])} :: 0 <= i < |log| ==> AnsweredBy(peer, log[..i], log[i])
  }

  lemma OneMoreAccess(peer: Peer, log: Log, e: Event)
    requires Genuine(peer, log) && AnsweredBy(peer, log, e)
    ensures Genuine(peer, log + [e])
  {
    var longer := log + [e];
    forall i | 0 <= i < |longer|
      ensures AnsweredBy(peer, longer[..i], longer[i])
    {
      assert longer[..i] == log[..i];
      assert i < |log| ==> AnsweredBy(peer, log[..i], log[i]);
    }
  }

  /** The way to one device: what answers there, and every connection that was ever made to it, in order. */
  class Radio {
    const peer: Peer
    ghost var connections: seq<Connection>

    constructor (peer: Peer)
      ensures this.peer == peer && connections == []
    {
      this.peer, connections := peer, [];
    }
  }

  class Connection {
    const peer: Peer
    var log: Log
    var now: nat

    ghost predicate Valid()
      reads this
    {
      Genuine(peer, log)
    }

    /** Nobody connects unnoticed: the radio keeps account of its connections. */
    constructor (radio: Radio)
      modifies radio`connections
      ensures peer == radio.peer && log == [] && now == 0 && Valid()
      ensures radio.connections == old(radio.connections) + [this]
    {
      peer := radio.peer;
      log, now := [], 0;
      new;
      radio.connections := radio.connections + [this];
    }

    method ReadValue(ch: Characteristic) returns (r: ReadResult)
      requires Valid()
      modifies this
      ensures Valid()
      ensures r == peer.read(old(log), ch)
      ensures log == old(log) + [Read(ch, r)]
      ensures now >= old(now)
    {
      r := peer.read(log, ch);
      OneMoreAccess(peer, log, Read(ch, r));
      now := now + peer.duration(log);
      log := log + [Read(ch, r)];
    }

    method WriteValue(ch: Characteristic, payload: seq<Byte>) returns (error: Option<Error>)
      requires Valid()
      modifies this
      ensures Valid()
      ensures error == peer.write(old(log), ch, payload)
      ensures log == old(log) + [Write(ch, payload, error)]
      ensures now >= old(now)
    {
      error := peer.write(log, ch, payload);
      OneMoreAccess(peer, log, Write(ch, payload, error));
      now := now + peer.duration(log);
      log := log + [Write(ch, payload, error)];
    }

    /** The select between the end of the context, an optional deadline and a poll timer. */
    method Select(interval: nat, deadline: Option<nat>) returns (arm: Arm)
      requires Valid()
      modifies this
      ensures Valid()
      ensures log == old(log) + [Wait(arm)]
      ensures arm.ContextDone? ==> peer.contextError(old(log)) == Some(arm.error)
      ensures arm.DeadlinePassed? ==> deadline.Some? && deadline.value <= old(now) + interval
      ensures arm.DeadlinePassed? ==> deadline.value <= now
      ensures now >= old(now)
      ensures arm.TimerFired? ==> now == old(now) + interval && (deadline.Some? ==> now <= deadline.value)
      ensures peer.contextError(old(log)).None? && (deadline.None? || deadline.value > old(now) + interval) ==>
                arm.TimerFired?
      ensures peer.contextError(old(log)).Some? && (deadline.None? || deadline.value > old(now)) ==> arm.ContextDone?
    {
      var timer := now + interval;
      var ended := peer.contextError(log);
      var passed := deadline.Some? && deadline.value <= now;
      if ended.Some? && !(passed && peer.prefersDeadline(log)) {
        arm := ContextDone(ended.value);
      } else if deadline.Some? && (deadline.value < timer || (deadline.value == timer && peer.prefersDeadline(log))) {
        arm := DeadlinePassed;
        now := if deadline.value > now then deadline.value else now;
      } else {
        arm := TimerFired;
        now := timer;
      }
      OneMoreAccess(peer, log, Wait(arm));
      log := log + [Wait(arm)];
    }

    method Shut()
      requires Valid()
      modifies this
      ensures Valid()
      ensures log == old(log) + [Close]
    {
      OneMoreAccess(peer, log, Close);
      log := log + [Close];
    }
  }

  // ---- reading logs ------------------------------------------------------------------------

  predicate IsRead(e: Event, ch: Characteristic) { e.Read? && e.ch == ch }

  predicate IsWrite(e: Event, ch: Characteristic) { e.Write? && e.ch == ch }

  predicate Touches(e: Event, ch: Characteristic) { IsRead(e, ch) || IsWrite(e, ch) }

  /** Successful reads of one characteristic, one after the other. */
  function Reads(ch: Characteristic, payloads: seq<seq<Byte>>): (log: Log)
    ensures |log| == |payloads|
    ensures forall i :: 0 <= i < |log| ==> log[i] == Read(ch, Data(payloads[i]))
  {
    seq(|payloads|, i requires 0 <= i < |payloads| => Read(ch, Data(payloads[i])))
  }

  lemma OneMoreRead(ch: Characteristic, payloads: seq<seq<Byte>>, p: seq<Byte>)
    ensures Reads(ch, payloads + [p]) == Reads(ch, payloads) + [Read(ch, Data(p))]
  {}

  /** Two stretches of accesses, one after the other. */
  lemma OneAfterTheOther(before: Log, a: Log, b: Log)
    ensures before + a + b == before + (a + b)
  {}

  predicate HeadIs(payload: seq<Byte>, b: Byte) { |payload| > 0 && payload[0] == b }
}
