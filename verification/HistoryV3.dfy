/**
  The v3 history stream: what a read-out of packets means, and the packing of an honest device that the
  reader undoes.
 */
module HistoryV3 {
  import opened Bytes
  import opened Codec
  import opened Device
  import opened Messages
  import opened Outcomes

  const MAX_PACKETS := 4096

  /** How a read-out ended, after the packets that carried blocks. */
  datatype StreamEnd = Finished | Broken(error: Error) | Malformed(payload: seq<Byte>) | OverBudget

  function LastAccess(end: StreamEnd): Log {
    match end
    case Finished => [Read(CommandResult, Data(Zeros(PACKET_V3)))]
    case Broken(e) => [Read(CommandResult, Failed(e))]
    case Malformed(p) => [Read(CommandResult, Data(p))]
    case OverBudget => []
  }

  /** Packets of the right size that are not the end of the stream. */
  ghost predicate CarryBlocks(packets: seq<seq<Byte>>) {
    forall p <- packets :: |p| == PACKET_V3 && !AllZero(p)
  }

  /** One read-out: the packets with blocks in them, and how it ended. */
  datatype ReadOut = ReadOut(packets: seq<seq<Byte>>, end: StreamEnd) {

    /** The packets come before the first zero packet, and no more than the budget is read. */
    ghost predicate Possible() {
      && CarryBlocks(packets)
      && (end.Malformed? ==> |end.payload| != PACKET_V3)
      && (if end.OverBudget? then |packets| == 4096 else |packets| < 4096)
    }

    /** The accesses it makes to the command-result characteristic. */
    function Accesses(): Log {
      Reads(CommandResult, packets) + LastAccess(end)
    }

    /** What it returns, as a function of nothing but the packets read. */
    function Outcome(): Result<seq<HistoryEntry>> {
      match end
      case Finished => Ok(CutToCount(EntriesOf(packets), LastCount(packets)))
      case Broken(e) => Err(WrapContext(e))
      case Malformed(_) => Err(ProtocolError)
      case OverBudget => Err(ProtocolError)
    }
  }

  /** What one packet of a read-out turned out to be. */
  datatype Packet = Entries(raw: seq<Byte>, entries: seq<HistoryEntry>) | Stop(end: StreamEnd)

  function PacketEntries(packet: seq<Byte>): (entries: seq<HistoryEntry>)
    ensures 3 * |entries| <= |packet|
  {
    EntriesV3(EntriesOfBlocks(packet))
  }

  /** The decodings of all packets, one after the other. */
  function EntriesOf(packets: seq<seq<Byte>>): seq<HistoryEntry> {
    if packets == [] then [] else PacketEntries(packets[0]) + EntriesOf(packets[1..])
  }

  function LastOf(packets: seq<seq<Byte>>): seq<Byte> {
    if packets == [] then [] else packets[|packets| - 1]
  }

  /** The first two bytes of the last packet, taken as a count of entries. */
  function LastCount(packets: seq<seq<Byte>>): nat {
    if |LastOf(packets)| < 2 then 0 else FromBigEndian(LastOf(packets)[..2])
  }

  /** A count cuts the list only when it is positive and smaller than the list. */
  function CutToCount(entries: seq<HistoryEntry>, count: nat): seq<HistoryEntry> {
    if 0 < count < |entries| then entries[..count] else entries
  }

  lemma Regrouped(a: seq<HistoryEntry>, b: seq<HistoryEntry>, c: seq<HistoryEntry>)
    ensures a + (b + c) == (a + b) + c
  {}

  lemma {:induction false} EntriesOfAppend(packets: seq<seq<Byte>>, packet: seq<Byte>)
    ensures EntriesOf(packets + [packet]) == EntriesOf(packets) + PacketEntries(packet)
  {
    var longer := packets + [packet];
    if packets == [] {
      assert longer[1..] == [];
    } else {
      EntriesOfAppend(packets[1..], packet);
      assert longer[1..] == packets[1..] + [packet];
      Regrouped(PacketEntries(packets[0]), EntriesOf(packets[1..]), PacketEntries(packet));
    }
  }

  /** One packet more, in the log and in what is made of it. */
  lemma OnePacketMore(before: Log, packets: seq<seq<Byte>>, packet: seq<Byte>)
    requires CarryBlocks(packets) && |packet| == PACKET_V3 && !AllZero(packet)
    ensures CarryBlocks(packets + [packet]) && LastOf(packets + [packet]) == packet
    ensures EntriesOf(packets + [packet]) == EntriesOf(packets) + PacketEntries(packet)
    ensures before + Reads(CommandResult, packets + [packet]) ==
            before + Reads(CommandResult, packets) + [Read(CommandResult, Data(packet))]
  {
    EntriesOfAppend(packets, packet);
    OneMoreRead(CommandResult, packets, packet);
    OneAfterTheOther(before, Reads(CommandResult, packets), [Read(CommandResult, Data(packet))]);
  }

  lemma {:induction false} AtMostSevenEach(packets: seq<seq<Byte>>)
    requires forall p <- packets :: |p| == PACKET_V3
    ensures |EntriesOf(packets)| <= 7 * |packets|
  {
    if packets != [] {
      AtMostSevenEach(packets[1..]);
    }
  }

  /** Whatever the device sends, one read-out makes at most 4096 reads and yields at most 28665 entries. */
  lemma ReadOutIsBounded(out: ReadOut)
    requires out.Possible()
    ensures |out.Accesses()| <= 4096
    ensures out.Outcome().Ok? ==> |out.Outcome().value| <= 28665
  {
    AtMostSevenEach(out.packets);
  }

  // ---- an honest device --------------------------------------------------------------------

  type Intervals = seq<Interval>

  ghost predicate Reportable(vs: Intervals) {
    forall v <- vs :: v.Fits() && !v.Zero()
  }

  /** The blocks of some intervals, one after the other. */
  function Blocks(vs: Intervals): (s: seq<Byte>)
    requires Reportable(vs)
    ensures |s| == 3 * |vs|
  {
    if vs == [] then [] else Blocks(vs[..|vs| - 1]) + Block(vs[|vs| - 1])
  }

  /** One packet: up to seven blocks, filled up with zeros. */
  function DataPacket(vs: Intervals): (p: seq<Byte>)
    requires Reportable(vs) && |vs| <= BLOCKS_PER_PACKET
    ensures |p| == PACKET_V3
  {
    Blocks(vs) + Zeros(3 * (BLOCKS_PER_PACKET - |vs|))
  }

  function DataPackets(vs: Intervals): seq<seq<Byte>>
    requires Reportable(vs)
  {
    if vs == [] then []
    else if |vs| <= BLOCKS_PER_PACKET then [DataPacket(vs)]
    else [DataPacket(vs[..BLOCKS_PER_PACKET])] + DataPackets(vs[BLOCKS_PER_PACKET..])
  }

  /** The penultimate packet carries the number of blocks in its first two bytes. */
  function CountPacket(n: nat): (p: seq<Byte>)
    requires n < 0x1_0000
    ensures |p| == PACKET_V3
  {
    FieldWidths();
    BigEndian(2, n) + Zeros(PACKET_V3 - 2)
  }

  /** The entry a caller should see for an interval. */
  function EntryOf(v: Interval): HistoryEntry
    requires v.Fits()
  {
    HistoryEntry(0, v.side, v.side == 0, false, v.side == 63, 0, v.Seconds(), 0, Block(v))
  }

  function EntriesFor(vs: Intervals): seq<HistoryEntry>
    requires Reportable(vs)
  {
    seq(|vs|, i requires 0 <= i < |vs| => EntryOf(vs[i]))
  }

  // ---- unpacking ---------------------------------------------------------------------------

  lemma BlockAppended(s: seq<Byte>, block: seq<Byte>)
    requires |block| == 3
    ensures EntriesOfBlocks(s + block) == EntriesOfBlocks(s) + if AllZero(block) then [] else [EntryOfBlock(block)]
  {
    assert (s + block)[..|s|] == s && (s + block)[|s|..] == block;
  }

  lemma {:induction false} FillingAddsNothing(s: seq<Byte>, k: nat)
    ensures EntriesOfBlocks(s + Zeros(3 * k)) == EntriesOfBlocks(s)
  {
    if k == 0 {
      assert s + Zeros(0) == s;
    } else {
      FillingAddsNothing(s, k - 1);
      BlockAppended(s + Zeros(3 * (k - 1)), Zeros(3));
      assert s + Zeros(3 * k) == s + Zeros(3 * (k - 1)) + Zeros(3);
    }
  }

  lemma OneMoreUnpacks(s: seq<Byte>, v: Interval)
    requires v.Fits() && !v.Zero()
    ensures PacketEntries(s + Block(v)) == PacketEntries(s) + [EntryOf(v)]
  {
    BlockRoundTrip(v);
    BlockAppended(s, Block(v));
    var entry := EntryOfBlock(Block(v));
    assert EntryV3(entry) == EntryOf(v);
    EntriesV3Concat(EntriesOfBlocks(s), [entry]);
  }

  lemma EntriesForSplit(vs: Intervals, k: nat)
    requires Reportable(vs) && k <= |vs|
    ensures EntriesFor(vs) == EntriesFor(vs[..k]) + EntriesFor(vs[k..])
  {}

  lemma {:induction false} BlocksUnpack(vs: Intervals)
    requires Reportable(vs)
    ensures PacketEntries(Blocks(vs)) == EntriesFor(vs)
  {
    if vs != [] {
      var k := |vs| - 1;
      BlocksUnpack(vs[..k]);
      OneMoreUnpacks(Blocks(vs[..k]), vs[k]);
      EntriesForSplit(vs, k);
    }
  }

  lemma PacketUnpacks(vs: Intervals)
    requires Reportable(vs) && |vs| <= BLOCKS_PER_PACKET
    ensures PacketEntries(DataPacket(vs)) == EntriesFor(vs)
  {
    BlocksUnpack(vs);
    var blocks, filling := Blocks(vs), BLOCKS_PER_PACKET - |vs|;
    FillingAddsNothing(blocks, filling);
    assert DataPacket(vs) == blocks + Zeros(3 * filling);
  }

  lemma {:induction false} DataPacketsUnpack(vs: Intervals)
    requires Reportable(vs)
    ensures EntriesOf(DataPackets(vs)) == EntriesFor(vs)
  {
    if vs == [] {
    } else if |vs| <= BLOCKS_PER_PACKET {
      PacketUnpacks(vs);
      assert [DataPacket(vs)][1..] == [];
    } else {
      var head, tail := vs[..BLOCKS_PER_PACKET], vs[BLOCKS_PER_PACKET..];
      PacketUnpacks(head);
      DataPacketsUnpack(tail);
      assert ([DataPacket(head)] + DataPackets(tail))[1..] == DataPackets(tail);
      EntriesForSplit(vs, BLOCKS_PER_PACKET);
    }
  }

  /** Read as blocks, the count packet yields one bogus entry. */
  lemma CountPacketUnpacks(n: nat)
    requires 0 < n < 0x1_0000
    ensures |PacketEntries(CountPacket(n))| == 1 && !AllZero(CountPacket(n))
  {
    var field := CountField(n);
    var block := field + Zeros(1);
    assert CountPacket(n) == block + Zeros(18);
    var i :| 0 <= i < 2 && field[i] != 0;
    assert block[i] != 0 && CountPacket(n)[i] != 0;
    BlockAppended([], block);
    assert [] + block == block;
    FillingAddsNothing(block, 6);
  }

  /** The two count bytes: not both zero for a positive count, and they read back as the count. */
  lemma CountField(n: nat) returns (field: seq<Byte>)
    requires n < 0x1_0000
    ensures |field| == 2 && FromBigEndian(field) == n && CountPacket(n) == field + Zeros(PACKET_V3 - 2)
    ensures AllZero(field) <==> n == 0
  {
    FieldWidths();
    field := BigEndian(2, n);
    ReadsBackWhatWasWritten(2, n);
    ZeroField(field);
  }

  // ---- how many packets --------------------------------------------------------------------

  lemma {:induction false} DataPacketsShape(vs: Intervals)
    requires Reportable(vs)
    ensures 7 * |DataPackets(vs)| - 6 <= |vs| <= 7 * |DataPackets(vs)| || vs == []
    ensures vs == [] ==> DataPackets(vs) == []
    ensures forall p <- DataPackets(vs) :: |p| == PACKET_V3 && !AllZero(p)
  {
    if vs == [] {
    } else if |vs| <= BLOCKS_PER_PACKET {
      DataPacketIsNotZero(vs);
    } else {
      DataPacketIsNotZero(vs[..BLOCKS_PER_PACKET]);
      DataPacketsShape(vs[BLOCKS_PER_PACKET..]);
    }
  }

  lemma DataPacketIsNotZero(vs: Intervals)
    requires Reportable(vs) && 0 < |vs| <= BLOCKS_PER_PACKET
    ensures !AllZero(DataPacket(vs))
  {
    PacketUnpacks(vs);
    if AllZero(DataPacket(vs)) {
      assert DataPacket(vs) == [] + Zeros(3 * 7);
      FillingAddsNothing([], 7);
      assert false;
    }
  }

  // ---- round trip --------------------------------------------------------------------------

  /** The packets of a read-out are those the device sent, as far as the read-out went. */
  ghost predicate ReadsFrom(out: ReadOut, sent: seq<seq<Byte>>) {
    && !out.end.Broken?
    && |out.Accesses()| <= |sent|
    && forall i :: 0 <= i < |out.Accesses()| ==> out.Accesses()[i] == Read(CommandResult, Data(sent[i]))
  }

  lemma ReadsThePrefix(out: ReadOut, sent: seq<seq<Byte>>)
    requires ReadsFrom(out, sent)
    ensures |out.packets| <= |sent| && out.packets == sent[..|out.packets|]
    ensures out.end.Finished? ==> |out.packets| < |sent| && sent[|out.packets|] == Zeros(PACKET_V3)
    ensures out.end.Malformed? ==> |out.packets| < |sent| && sent[|out.packets|] == out.end.payload
  {
    forall i | 0 <= i < |out.packets|
      ensures out.packets[i] == sent[i]
    {
      assert out.Accesses()[i] == Read(CommandResult, Data(out.packets[i]));
    }
    if !out.end.OverBudget? {
      assert out.Accesses()[|out.packets|] == Read(CommandResult, Data(sent[|out.packets|]));
    }
  }

  /** A read-out stops at the first zero packet, or with the budget if that comes first. */
  lemma StopsAtFirstZero(out: ReadOut, sent: seq<seq<Byte>>, first: nat)
    requires out.Possible() && ReadsFrom(out, sent)
    requires first < |sent| && sent[first] == Zeros(PACKET_V3)
    requires forall i :: 0 <= i < first ==> |sent[i]| == PACKET_V3 && !AllZero(sent[i])
    ensures first < MAX_PACKETS ==> out == ReadOut(sent[..first], Finished)
    ensures first >= MAX_PACKETS ==> out.end.OverBudget?
  {
    ReadsThePrefix(out, sent);
    assert forall p <- out.packets :: p != Zeros(PACKET_V3);
  }

  /** Data packets, then a packet that announces some count, then a zero packet. */
  function Announcing(vs: Intervals, count: nat): seq<seq<Byte>>
    requires Reportable(vs) && count < 0x1_0000
  {
    DataPackets(vs) + [CountPacket(count), Zeros(PACKET_V3)]
  }

  /** The count packet yields one entry more, and the announced count cuts the list when it is smaller. */
  lemma AnnouncedCountCuts(vs: Intervals, count: nat, out: ReadOut)
    requires Reportable(vs) && vs != [] && 0 < count < 0x1_0000
    requires out.Possible() && ReadsFrom(out, Announcing(vs, count))
    ensures out.Outcome() ==
            if |vs| <= 28658 then Ok(CutToCount(EntriesFor(vs) + PacketEntries(CountPacket(count)), count))
            else Err(ProtocolError)
  {
    var data := DataPackets(vs);
    var packets := data + [CountPacket(count)];
    DataPacketsShape(vs);
    CountPacketUnpacks(count);
    assert Announcing(vs, count)[..|packets|] == packets;
    StopsAtFirstZero(out, Announcing(vs, count), |packets|);
    EntriesOfAppend(data, CountPacket(count));
    DataPacketsUnpack(vs);
    var field := CountField(count);
    assert CountPacket(count)[..2] == field;
  }

  /**
    The round trip: reading out what an honest device sends for a history gives back exactly its
    intervals, in order and without the bogus entry of the count packet, as long as the packets fit the
    budget; a longer history is an error, never a shortened list.
   */
  lemma TransmissionRoundTrip(vs: Intervals, out: ReadOut)
    requires Reportable(vs) && |vs| < 0x1_0000
    requires out.Possible() && ReadsFrom(out, Announcing(vs, |vs|))
    ensures out.Outcome() == if |vs| <= 28658 then Ok(EntriesFor(vs)) else Err(ProtocolError)
  {
    if vs == [] {
      var field := CountField(0);
      assert CountPacket(0) == Zeros(PACKET_V3);
      StopsAtFirstZero(out, Announcing([], 0), 0);
    } else {
      AnnouncedCountCuts(vs, |vs|, out);
      CountPacketUnpacks(|vs|);
    }
  }

  /**
    The count has to be the number of blocks.  A device that announced anything else, the number of its
    packets for example, would have its history read back wrongly, except where the two are the same.
   */
  lemma OnlyTheBlockCountWorks(vs: Intervals, count: nat, out: ReadOut)
    requires Reportable(vs) && 0 < |vs| <= 28658 && 0 < count < 0x1_0000
    requires out.Possible() && ReadsFrom(out, Announcing(vs, count))
    ensures out.Outcome() == Ok(EntriesFor(vs)) <==> count == |vs|
  {
    AnnouncedCountCuts(vs, count, out);
    CountPacketUnpacks(count);
  }

  /** The first interval in the last data packet. */
  function LastPacketStart(n: nat): nat
    requires n > 0
  {
    (n - 1) / 7 * 7
  }

  /** A device that leaves out the count packet. */
  function WithoutCount(vs: Intervals): seq<seq<Byte>>
    requires Reportable(vs)
  {
    DataPackets(vs) + [Zeros(PACKET_V3)]
  }

  /**
    Without a count packet the reader takes the first two bytes of the last data packet as one.  The
    history then comes back whole exactly when those bytes are zero or at least the number of intervals.
   */
  lemma WithoutCountRoundTrip(vs: Intervals, out: ReadOut)
    requires Reportable(vs) && 0 < |vs| <= 28665
    requires out.Possible() && ReadsFrom(out, WithoutCount(vs))
    ensures var last := vs[LastPacketStart(|vs|)];
            var bytes := 0x100 * last.high as int + last.middle;
            out.Outcome() == Ok(EntriesFor(vs)) <==> bytes == 0 || bytes >= |vs|
  {
    var data := DataPackets(vs);
    DataPacketsShape(vs);
    assert WithoutCount(vs)[..|data|] == data;
    StopsAtFirstZero(out, WithoutCount(vs), |data|);
    DataPacketsUnpack(vs);
    LastDataPacket(vs);
  }

  lemma {:induction false} LastDataPacket(vs: Intervals)
    requires Reportable(vs) && vs != []
    ensures DataPackets(vs) != []
    ensures var last := vs[LastPacketStart(|vs|)];
            LastCount(DataPackets(vs)) == 0x100 * last.high as int + last.middle
  {
    if |vs| <= BLOCKS_PER_PACKET {
      assert LastPacketStart(|vs|) == 0;
      BlocksStart(vs);
      assert DataPacket(vs)[..2] == [vs[0].high, vs[0].middle];
      SixteenBits(vs[0].high, vs[0].middle);
    } else {
      var head, tail := vs[..BLOCKS_PER_PACKET], vs[BLOCKS_PER_PACKET..];
      LastDataPacket(tail);
      assert LastPacketStart(|vs|) == LastPacketStart(|tail|) + 7;
      assert DataPackets(vs)[|DataPackets(vs)| - 1] == DataPackets(tail)[|DataPackets(tail)| - 1];
    }
  }

  lemma {:induction false} BlocksStart(vs: Intervals)
    requires Reportable(vs) && vs != []
    ensures Blocks(vs)[0] == vs[0].high && Blocks(vs)[1] == vs[0].middle
  {
    if |vs| > 1 {
      BlocksStart(vs[..|vs| - 1]);
    }
  }

  /** Two short intervals of which a device without a count packet loses the second. */
  lemma CountPacketIsNeeded(out: ReadOut)
    requires out.Possible()
    requires ReadsFrom(out, WithoutCount([Interval(5, 0, 1, 0), Interval(6, 0, 2, 0)]))
    ensures out.Outcome() != Ok(EntriesFor([Interval(5, 0, 1, 0), Interval(6, 0, 2, 0)]))
  {
    WithoutCountRoundTrip([Interval(5, 0, 1, 0), Interval(6, 0, 2, 0)], out);
  }
}
