/** The typed messages of protocol.go, decoded from what the codec reads. */
module Messages {
  import opened Bytes
  import opened Codec
  import opened Outcomes

  datatype HistoryEntry = HistoryEntry(
    eventNumber: nat, facet: Byte, undefinedFacet: bool, accelerometerError: bool, pause: bool,
    moment: nat, duration: nat, previous: nat, raw: seq<Byte>)

  datatype History = History(entries: seq<HistoryEntry>, complete: bool, previous: nat)

  // ---- history -----------------------------------------------------------------------------

  function EntryV4(e: RawEntry): HistoryEntry {
    HistoryEntry(
      e.eventNumber, if e.side > 127 then e.side - 128 else e.side, e.side == 0, e.side == 66, e.side > 127,
      e.moment, e.duration, e.previous, e.raw)
  }

  function EntryV3(e: RawEntry): HistoryEntry {
    HistoryEntry(0, e.side, e.side == 0, e.side == 66, e.side == 63, 0, e.duration, 0, e.raw)
  }

  function EntriesV4(raws: seq<RawEntry>): seq<HistoryEntry> {
    seq(|raws|, i requires 0 <= i < |raws| => EntryV4(raws[i]))
  }

  function EntriesV3(raws: seq<RawEntry>): seq<HistoryEntry> {
    seq(|raws|, i requires 0 <= i < |raws| => EntryV3(raws[i]))
  }

  lemma EntriesV3Concat(a: seq<RawEntry>, b: seq<RawEntry>)
    ensures EntriesV3(a + b) == EntriesV3(a) + EntriesV3(b)
  {}

  function HistoryOfV4(payload: seq<Byte>): Result<History> {
    match PacketV4(payload)
    case Err(_) => Err(ProtocolError)
    case Ok(packet) => Ok(History(EntriesV4(packet.entries), packet.complete, packet.previous))
  }

  function HistoryOfV3(payload: seq<Byte>): Result<History> {
    match PacketV3(payload)
    case Err(_) => Err(ProtocolError)
    case Ok(packet) => Ok(History(EntriesV3(packet.entries), packet.complete, 0))
  }

  method DecodeHistory(payload: seq<Byte>) returns (r: Result<History>)
    ensures r == HistoryOfV4(payload)
  {
    var packet := DecodeHistoryPacket(payload);
    if packet.Err? {
      return Err(ProtocolError);
    }
    var raws := packet.value.entries;
    var entries: seq<HistoryEntry> := [];
    for i := 0 to |raws|
      invariant entries == EntriesV4(raws[..i])
    {
      var side := raws[i].side;
      var entry := HistoryEntry(
        raws[i].eventNumber, side, side == 0, side == 66, side > 127,
        raws[i].moment, raws[i].duration, raws[i].previous, raws[i].raw);
      if entry.pause {
        entry := entry.(facet := side - 128);
      }
      entries := entries + [entry];
    }
    assert raws[..|raws|] == raws;
    return Ok(History(entries, packet.value.complete, packet.value.previous));
  }

  method DecodeHistoryV3(payload: seq<Byte>) returns (r: Result<History>)
    ensures r == HistoryOfV3(payload)
  {
    var packet := DecodeHistoryPacketV3(payload);
    if packet.Err? {
      return Err(ProtocolError);
    }
    var raws := packet.value.entries;
    var entries: seq<HistoryEntry> := [];
    for i := 0 to |raws|
      invariant entries == EntriesV3(raws[..i])
    {
      entries := entries + [EntryV3(raws[i])];
    }
    assert raws[..|raws|] == raws;
    return Ok(History(entries, packet.value.complete, 0));
  }

  /** What a caller should see of a record: the side without its pause bit, and the marks of special sides. */
  function EntryOfRecord(e: RecordV4, raw: seq<Byte>): HistoryEntry {
    HistoryEntry(
      e.eventNumber, e.side % 128, e.side == 0, e.side == 66, e.side >= 128, e.moment, e.duration, e.previous, raw)
  }

  /** The side byte that a decoded v4 entry came from. */
  function SideOf(e: HistoryEntry): int {
    if e.pause then e.facet + 128 else e.facet
  }

  /** The record that a decoded v4 entry stands for. */
  function RecordOf(e: HistoryEntry): Option<RecordV4> {
    if SideOf(e) < 256 then Some(RecordV4(e.eventNumber, SideOf(e), e.moment, e.duration, e.previous)) else None
  }

  /**
    Reading back a v4 stream packet: the zero record ends the stream and hands over the number of the
    previous event; every other record comes back whole, with its pause bit taken from the facet.
   */
  lemma StreamPacketRoundTrip(e: RecordV4)
    requires e.Fits()
    ensures var r := HistoryOfV4(StreamPacketV4(e));
            && r.Ok? && r.value.previous == e.previous
            && (r.value.complete <==> e == RecordV4(0, 0, 0, 0, e.previous))
            && (r.value.complete ==> r.value.entries == [])
            && (!r.value.complete ==> r.value.entries == [EntryOfRecord(e, StreamPacketV4(e))])
  {
    RecordFields(e, BigEndian(3, e.previous));
    ReadsBackWhatWasWritten(3, e.previous);
    EndsExactlyOnTheZeroRecord(e);
    assert StreamPacketV4(e)[..17] == RecordBytes(e);
  }

  /** A single 17-byte record comes back whole as well, with no previous event. */
  lemma SingleRecordRoundTrip(e: RecordV4)
    requires e.Fits() && e.previous == 0
    ensures var r := HistoryOfV4(RecordBytes(e));
            && r.Ok? && r.value.previous == 0
            && (r.value.complete <==> e == RecordV4(0, 0, 0, 0, 0))
            && (r.value.complete ==> r.value.entries == [])
            && (!r.value.complete ==> r.value.entries == [EntryOfRecord(e, RecordBytes(e))])
  {
    RecordFields(e, []);
    EndsExactlyOnTheZeroRecord(e);
    assert RecordBytes(e) + [] == RecordBytes(e) == RecordBytes(e)[..17];
  }

  /** The other direction: whatever 20 bytes decode to an entry are the packet of that entry's record. */
  lemma StreamPacketFromEntry(payload: seq<Byte>)
    requires |payload| == 20
    requires var r := HistoryOfV4(payload); r.Ok? && !r.value.complete
    ensures var entries := HistoryOfV4(payload).value.entries;
            && |entries| == 1
            && var e := RecordOf(entries[0]);
               e.Some? && e.value.Fits() && StreamPacketV4(e.value) == payload
               && entries[0] == EntryOfRecord(e.value, payload)
  {
    PacketIsItsRecord(payload);
  }

  /** Nothing else is decoded at all. */
  lemma PacketSizes(payload: seq<Byte>)
    ensures HistoryOfV4(payload).Ok? <==> |payload| == 17 || |payload| == 20
    ensures HistoryOfV3(payload).Ok? <==> |payload| == 21
    ensures HistoryOfV4(payload).Err? ==> HistoryOfV4(payload).error == ProtocolError
    ensures HistoryOfV3(payload).Err? ==> HistoryOfV3(payload).error == ProtocolError
    ensures HistoryOfV3(payload).Ok? ==> (HistoryOfV3(payload).value.complete <==> AllZero(payload))
  {}

  /** A v3 side has six bits, so the accelerometer-error side 66 never comes out of a v3 packet. */
  lemma NoAccelerometerErrorInV3(payload: seq<Byte>)
    requires HistoryOfV3(payload).Ok?
    ensures forall e <- HistoryOfV3(payload).value.entries :: !e.accelerometerError && e.facet < 64
  {
    SidesBelow64(payload);
  }

  lemma {:induction false} SidesBelow64(blocks: seq<Byte>)
    ensures forall e <- EntriesOfBlocks(blocks) :: e.side < 64
  {
    if |blocks| >= 3 {
      SidesBelow64(blocks[..|blocks| - 3]);
      SecondsBelowDocumentedMaximum(blocks[|blocks| - 3..]);
    }
  }

  // ---- command acknowledgements ------------------------------------------------------------

  datatype CommandStatus = CommandStatus(code: Byte, ok: bool, raw: seq<Byte>)

  /** The bytes before the first NUL. */
  function BeforeNul(payload: seq<Byte>): (s: seq<Byte>)
    ensures s <= payload && 0 !in s
    ensures |s| < |payload| ==> payload[|s|] == 0
  {
    if payload == [] || payload[0] == 0 then [] else [payload[0]] + BeforeNul(payload[1..])
  }

  /** The acknowledgement in a value of the command characteristic: at most four bytes before the first NUL. */
  function Acknowledgement(payload: seq<Byte>): (ack: seq<Byte>)
    ensures ack <= payload && 0 !in ack && |ack| <= 4
    ensures |ack| == 4 || |ack| == |payload| || payload[|ack|] == 0
  {
    var s := BeforeNul(payload);
    if |s| <= 4 then s else s[..4]
  }

  method CommandAcknowledgementBytes(payload: seq<Byte>) returns (ack: seq<Byte>)
    ensures ack == Acknowledgement(payload)
  {
    ack := payload;
    for i := 0 to |payload|
      invariant ack == payload
      invariant 0 !in payload[..i]
      invariant i <= |BeforeNul(payload)|
    {
      if payload[i] == 0 {
        ack := payload[..i];
        break;
      }
      assert payload[..i + 1] == payload[..i] + [payload[i]];
    }
    if |ack| <= 4 {
      return;
    }
    ack := ack[..4];
  }

  function CommandStatusOf(payload: seq<Byte>): Result<CommandStatus> {
    var ack := Acknowledgement(payload);
    match AckOf(ack)
    case Err(e) => Err(e)
    case Ok(pair) => Ok(CommandStatus(pair.0, pair.1, ack))
  }

  /**
    When an acknowledgement is understood and what it then says: only the first two bytes decide,
    neither may be NUL, and what is kept is a NUL-free prefix of two to four bytes.
   */
  lemma AcknowledgementMeaning(payload: seq<Byte>)
    ensures var r := CommandStatusOf(payload);
            && (r.Ok? <==> |payload| >= 2 && payload[0] != 0 && IsFlag(payload[1]))
            && (r.Ok? ==>
                  && r.value.code == payload[0]
                  && (r.value.ok <==> payload[1] == 0x02)
                  && r.value.raw <= payload && 2 <= |r.value.raw| <= 4 && 0 !in r.value.raw)
            && (r.Err? ==> r.error == ProtocolError)
  {
    assert |payload| >= 1 && payload[0] == 0 ==> Acknowledgement(payload) == [];
  }
}
