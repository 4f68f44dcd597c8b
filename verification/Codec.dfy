/** The byte-level codec of internal/protocol: history packets, command bytes and acknowledgements. */
module Codec {
  import opened Bytes
  import opened Outcomes

  datatype RawEntry = RawEntry(
    eventNumber: nat, side: Byte, moment: nat, duration: nat, previous: nat, raw: seq<Byte>)

  datatype RawPacket = RawPacket(entries: seq<RawEntry>, complete: bool, previous: nat)

  /** The flag loop with which both history decoders recognise the end of a stream. */
  method ScanForZeros(bytes: seq<Byte>) returns (allZero: bool)
    ensures allZero <==> AllZero(bytes)
  {
    for i := 0 to |bytes|
      invariant AllZero(bytes[..i])
    {
      if bytes[i] != 0 {
        return false;
      }
    }
    assert bytes[..|bytes|] == bytes;
    return true;
  }

  // ---- v4 history packets ------------------------------------------------------------------

  /** What a v4 packet means: 17 bytes for a single record, 20 in a stream, where a zero prefix ends it. */
  function PacketV4(payload: seq<Byte>): Result<RawPacket> {
    if |payload| != 17 && |payload| != 20 then
      Err(ProtocolError)
    else
      var previous := FromBigEndian(payload[17..]);
      if AllZero(payload[..17]) then
        Ok(RawPacket([], true, previous))
      else
        Ok(RawPacket([EntryOfPacketV4(payload)], false, previous))
  }

  function EntryOfPacketV4(payload: seq<Byte>): RawEntry
    requires |payload| >= 17
  {
    RawEntry(
      FromBigEndian(payload[0..4]), payload[4], FromBigEndian(payload[5..13]),
      FromBigEndian(payload[13..17]), FromBigEndian(payload[17..]), payload)
  }

  method DecodeHistoryPacket(payload: seq<Byte>) returns (r: Result<RawPacket>)
    ensures r == PacketV4(payload)
  {
    if |payload| != 17 && |payload| != 20 {
      return Err(ProtocolError);
    }
    var allZeroPrefix := ScanForZeros(payload[..17]);
    if allZeroPrefix {
      if |payload| == 17 {
        return Ok(RawPacket([], true, 0));
      }
      return Ok(RawPacket([], true, FromBigEndian(payload[17..])));
    }
    var previous := 0;
    if |payload| == 20 {
      previous := FromBigEndian(payload[17..]);
    }
    var entry := RawEntry(
      FromBigEndian(payload[0..4]), payload[4], FromBigEndian(payload[5..13]),
      FromBigEndian(payload[13..17]), previous, payload);
    return Ok(RawPacket([entry], false, entry.previous));
  }

  /** A history record as a v4 device holds it. */
  datatype RecordV4 = RecordV4(eventNumber: nat, side: Byte, moment: nat, duration: nat, previous: nat) {
    predicate Fits() {
      && eventNumber < Span(4) && moment < Span(8) && duration < Span(4) && previous < Span(3)
    }
  }

  /** The first 17 bytes of a v4 packet. */
  function RecordBytes(e: RecordV4): (s: seq<Byte>)
    requires e.Fits()
    ensures |s| == 17
  {
    BigEndian(4, e.eventNumber) + [e.side] + BigEndian(8, e.moment) + BigEndian(4, e.duration)
  }

  /** A v4 stream packet: the record followed by the number of the previous event. */
  function StreamPacketV4(e: RecordV4): (s: seq<Byte>)
    requires e.Fits()
    ensures |s| == 20
  {
    RecordBytes(e) + BigEndian(3, e.previous)
  }

  lemma RecordFields(e: RecordV4, tail: seq<Byte>)
    requires e.Fits()
    ensures var p := RecordBytes(e) + tail;
            && FromBigEndian(p[0..4]) == e.eventNumber && p[4] == e.side
            && FromBigEndian(p[5..13]) == e.moment && FromBigEndian(p[13..17]) == e.duration
            && p[17..] == tail
  {
    var p := RecordBytes(e) + tail;
    assert p[0..4] == BigEndian(4, e.eventNumber);
    assert p[5..13] == BigEndian(8, e.moment);
    assert p[13..17] == BigEndian(4, e.duration);
    ReadsBackWhatWasWritten(4, e.eventNumber);
    ReadsBackWhatWasWritten(8, e.moment);
    ReadsBackWhatWasWritten(4, e.duration);
  }

  /** A packet ends a stream exactly when the record in it has every field zero. */
  lemma EndsExactlyOnTheZeroRecord(e: RecordV4)
    requires e.Fits()
    ensures AllZero(RecordBytes(e)) <==> e.eventNumber == 0 && e.side == 0 && e.moment == 0 && e.duration == 0
  {
    RecordFields(e, []);
    var p := RecordBytes(e);
    assert p + [] == p;
    ZeroField(p[0..4]);
    ZeroField(p[5..13]);
    ZeroField(p[13..17]);
    assert p == p[0..4] + [p[4]] + p[5..13] + p[13..17];
  }

  /** Every 20-byte payload is the stream packet of exactly the record read from it. */
  lemma PacketIsItsRecord(payload: seq<Byte>)
    requires |payload| == 20
    ensures var d := EntryOfPacketV4(payload);
            var e := RecordV4(d.eventNumber, d.side, d.moment, d.duration, d.previous);
            e.Fits() && StreamPacketV4(e) == payload
  {
    WritesBackWhatWasRead(payload[0..4]);
    WritesBackWhatWasRead(payload[5..13]);
    WritesBackWhatWasRead(payload[13..17]);
    WritesBackWhatWasRead(payload[17..]);
    assert payload == payload[0..4] + [payload[4]] + payload[5..13] + payload[13..17] + payload[17..];
  }

  // ---- v3 history packets ------------------------------------------------------------------

  const PACKET_V3 := 21
  const BLOCKS_PER_PACKET := 7

  /** The code takes the low two bits of the last byte as the low duration bits, leaving a gap above them. */
  function BlockSeconds(b0: nat, b1: nat, b2: nat): nat {
    b0 * 0x1_0000 + b1 * 0x100 + b2 % 4
  }

  /** The entry in one three-byte block: six bits of side over two low duration bits in the last byte. */
  function EntryOfBlock(block: seq<Byte>): RawEntry
    requires |block| == 3
  {
    RawEntry(0, block[2] / 4, 0, BlockSeconds(block[0], block[1], block[2]), 0, block)
  }

  /** The entries of consecutive blocks, where a zero block is filling and stands for nothing. */
  function EntriesOfBlocks(blocks: seq<Byte>): (entries: seq<RawEntry>)
    ensures 3 * |entries| <= |blocks|
  {
    if |blocks| < 3 then []
    else EntriesOfBlocks(blocks[..|blocks| - 3]) + EntriesOfLastBlock(blocks)
  }

  function EntriesOfLastBlock(blocks: seq<Byte>): (entries: seq<RawEntry>)
    requires |blocks| >= 3
    ensures |entries| <= 1
  {
    var block := blocks[|blocks| - 3..];
    if AllZero(block) then [] else [EntryOfBlock(block)]
  }

  /** What a v3 packet means: seven blocks, or the end of the stream when every byte is zero. */
  function PacketV3(payload: seq<Byte>): Result<RawPacket> {
    if |payload| != PACKET_V3 then Err(ProtocolError)
    else if AllZero(payload) then Ok(RawPacket([], true, 0))
    else Ok(RawPacket(EntriesOfBlocks(payload), false, 0))
  }

  lemma EntryIsZeroOnlyForTheZeroBlock(block: seq<Byte>)
    requires |block| == 3
    ensures EntryOfBlock(block).duration == 0 && EntryOfBlock(block).side == 0 <==> AllZero(block)
  {}

  lemma NextBlock(blocks: seq<Byte>, i: nat)
    requires i + 3 <= |blocks|
    ensures var entry := EntryOfBlock(blocks[i..i + 3]);
            EntriesOfBlocks(blocks[..i + 3]) ==
            EntriesOfBlocks(blocks[..i]) + if entry.duration == 0 && entry.side == 0 then [] else [entry]
  {
    var prefix := blocks[..i + 3];
    assert prefix[..i] == blocks[..i] && prefix[i..] == blocks[i..i + 3];
    EntryIsZeroOnlyForTheZeroBlock(blocks[i..i + 3]);
  }

  method DecodeHistoryPacketV3(payload: seq<Byte>) returns (r: Result<RawPacket>)
    ensures r == PacketV3(payload)
  {
    if |payload| != PACKET_V3 {
      return Err(ProtocolError);
    }
    var allZero := ScanForZeros(payload);
    if allZero {
      return Ok(RawPacket([], true, 0));
    }
    var entries := DecodeBlocks(payload);
    return Ok(RawPacket(entries, false, 0));
  }

  /** The block loop of the v3 decoder, one step for each of the seven blocks. */
  method DecodeBlocks(payload: seq<Byte>) returns (entries: seq<RawEntry>)
    requires |payload| == PACKET_V3
    ensures entries == EntriesOfBlocks(payload)
  {
    entries := [];
    for k := 0 to BLOCKS_PER_PACKET
      invariant entries == EntriesOfBlocks(payload[..3 * k])
    {
      NextBlock(payload, 3 * k);
      var entry := EntryOfBlock(payload[3 * k..3 * k + 3]);
      if !(entry.duration == 0 && entry.side == 0) {
        entries := entries + [entry];
      }
    }
    assert payload[..PACKET_V3] == payload;
  }

  /** An interval as a v3 device can report it: a side and the duration bits the code looks at. */
  datatype Interval = Interval(side: nat, high: Byte, middle: Byte, low: nat) {
    predicate Fits() { side < 64 && low < 4 }
    predicate Zero() { side == 0 && high == 0 && middle == 0 && low == 0 }
    function Seconds(): nat { 0x1_0000 * high as int + 0x100 * middle as int + low }
  }

  function Block(v: Interval): (block: seq<Byte>)
    requires v.Fits()
    ensures |block| == 3
  {
    var last := v.side * 4 + v.low;
    [v.high, v.middle, last]
  }

  /** A block gives back its interval: side and seconds together lose nothing. */
  lemma BlockRoundTrip(v: Interval)
    requires v.Fits()
    ensures EntryOfBlock(Block(v)) == RawEntry(0, v.side, 0, v.Seconds(), 0, Block(v))
    ensures AllZero(Block(v)) <==> v.Zero()
  {
    LastByteSplits(v.side, v.low);
    SecondsOfBytes(v.high, v.middle, v.side * 4 + v.low, v.low);
    EntryOfBytes(v.high, v.middle, v.side * 4 + v.low);
    ZeroBytes(v.high, v.middle, v.side * 4 + v.low);
  }

  lemma EntryOfBytes(b0: Byte, b1: Byte, b2: Byte)
    ensures EntryOfBlock([b0, b1, b2]) == RawEntry(0, b2 / 4, 0, BlockSeconds(b0, b1, b2), 0, [b0, b1, b2])
  {}

  lemma ZeroBytes(b0: Byte, b1: Byte, b2: Byte)
    ensures AllZero([b0, b1, b2]) <==> b0 == 0 && b1 == 0 && b2 == 0
  {
    assert [b0, b1, b2][0] == b0 && [b0, b1, b2][1] == b1 && [b0, b1, b2][2] == b2;
  }

  lemma SecondsOfBytes(b0: nat, b1: nat, b2: nat, low: nat)
    requires b2 % 4 == low
    ensures BlockSeconds(b0, b1, b2) == 0x1_0000 * b0 + 0x100 * b1 + low
  {}

  lemma LastByteSplits(side: nat, low: nat)
    requires low < 4
    ensures (side * 4 + low) / 4 == side && (side * 4 + low) % 4 == low == low % 4
  {}

  lemma SecondsDetermineBytes(a0: nat, a1: nat, a2: nat, b0: nat, b1: nat, b2: nat)
    requires a1 < 0x100 && b1 < 0x100
    requires BlockSeconds(a0, a1, a2) == BlockSeconds(b0, b1, b2)
    ensures a0 == b0 && a1 == b1 && a2 % 4 == b2 % 4
  {}

  /** Distinct blocks have distinct side and seconds, although the seconds skip most values. */
  lemma BlocksAreTellable(a: seq<Byte>, b: seq<Byte>)
    requires |a| == 3 && |b| == 3
    requires EntryOfBlock(a).side == EntryOfBlock(b).side && EntryOfBlock(a).duration == EntryOfBlock(b).duration
    ensures a == b
  {
    SecondsDetermineBytes(a[0], a[1], a[2], b[0], b[1], b[2]);
    assert a == [a[0], a[1], a[2]] && b == [b[0], b[1], b[2]];
  }

  /** The 18-bit maximum of the v3 document: the code keeps below it exactly for a small first byte. */
  lemma SecondsBelowDocumentedMaximum(block: seq<Byte>)
    requires |block| == 3
    ensures EntryOfBlock(block).duration < 0x4_0000 <==> block[0] < 4
    ensures EntryOfBlock(block).duration % 0x100 < 4
    ensures EntryOfBlock(block).side < 64
  {}

  /** A block that reads as more than the documented maximum of 262144 seconds. */
  lemma SecondsMayExceedDocumentedMaximum()
    ensures EntryOfBlock([0xFF, 0xFF, 0x03]).duration == 0xFF_FF03 > 262144
  {
    assert [0xFF, 0xFF, 0x03][0] == 0xFF;
  }

  // ---- commands ----------------------------------------------------------------------------

  const MAX_COMMAND_PAYLOAD := 19

  /** The bytes written for a command, unless its payload is too long. */
  function CommandBytes(code: Byte, payload: seq<Byte>): Result<seq<Byte>> {
    if |payload| > MAX_COMMAND_PAYLOAD then Err(InvalidInput) else Ok([code] + payload)
  }

  method EncodeCommand(code: Byte, payload: seq<Byte>) returns (r: Result<seq<Byte>>)
    ensures r.Ok? <==> |payload| <= 19
    ensures r.Ok? ==> 1 <= |r.value| <= 20 && r.value[0] == code && r.value[1..] == payload
    ensures r.Err? ==> r.error == InvalidInput
    ensures r == CommandBytes(code, payload)
  {
    if |payload| > MAX_COMMAND_PAYLOAD {
      return Err(InvalidInput);
    }
    var out := [code];
    out := out + payload;
    return Ok(out);
  }

  /** The command an acknowledgement names and whether it was executed. */
  function AckOf(ack: seq<Byte>): Result<(Byte, bool)> {
    if |ack| < 2 then Err(ProtocolError)
    else if ack[1] == 0x02 then Ok((ack[0], true))
    else if ack[1] == 0x01 then Ok((ack[0], false))
    else Err(ProtocolError)
  }

  predicate IsFlag(b: Byte) { b == 0x01 || b == 0x02 }

  /** Lock, pause and auto-pause minutes from the answer to command 0x10. */
  function TrackerStatusOf(payload: seq<Byte>): Result<(bool, bool, nat)> {
    if |payload| < 4 || !IsFlag(payload[0]) || !IsFlag(payload[1]) then Err(ProtocolError)
    else Ok((payload[0] == 0x01, payload[1] == 0x01, FromBigEndian(payload[2..4])))
  }

  /** How a device lays out its status: lock, pause, and sixteen bits of auto-pause minutes. */
  function StatusBytes(lock: bool, pause: bool, minutes: nat): (s: seq<Byte>)
    requires minutes < Span(2)
    ensures |s| == 4
  {
    [if lock then 0x01 else 0x02, if pause then 0x01 else 0x02] + BigEndian(2, minutes)
  }

  /** A status is read exactly from the payloads that start with its layout. */
  lemma TrackerStatusIsExact(payload: seq<Byte>, lock: bool, pause: bool, minutes: nat)
    requires minutes < Span(2)
    ensures TrackerStatusOf(payload) == Ok((lock, pause, minutes)) <==> StatusBytes(lock, pause, minutes) <= payload
    ensures TrackerStatusOf(payload).Ok? ==> TrackerStatusOf(payload).value.2 < Span(2)
  {
    StartsWith(payload, if lock then 0x01 else 0x02, if pause then 0x01 else 0x02, BigEndian(2, minutes));
    if |payload| >= 4 {
      FieldIs(payload[2..4], minutes);
    }
  }

  lemma FieldIs(field: seq<Byte>, value: nat)
    requires value < Span(|field|)
    ensures FromBigEndian(field) == value <==> field == BigEndian(|field|, value)
  {
    ReadsBackWhatWasWritten(|field|, value);
    WritesBackWhatWasRead(field);
  }

  lemma StartsWith(payload: seq<Byte>, b0: Byte, b1: Byte, field: seq<Byte>)
    requires |field| == 2
    ensures [b0, b1] + field <= payload <==>
            |payload| >= 4 && payload[0] == b0 && payload[1] == b1 && payload[2..4] == field
  {
    var s := [b0, b1] + field;
    assert s[2..] == field;
    if |payload| >= 4 {
      assert payload[..4] == [payload[0], payload[1]] + payload[2..4];
      assert s <= payload <==> s == payload[..4];
    }
  }
}
