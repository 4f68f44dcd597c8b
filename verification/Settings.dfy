/** The commands the typed setters write, and the device parser that maps each back to its operation. */
module Settings {
  import opened Bytes
  import opened Codec
  import opened Outcomes

  datatype Version = Auto | V3 | V4

  type UInt16 = n: int | 0 <= n < 0x1_0000
  type UInt32 = n: int | 0 <= n < 0x1_0000_0000

  /** One command with its arguments.  The LED setter sends two of them. */
  datatype Setting =
    | SetPassword(password: seq<Byte>)
    | SetName(name: seq<Byte>)
    | SetLock(on: bool)
    | SetPause(on: bool)
    | SetAutoPause(minutes: UInt16)
    | Brightness(percent: Byte)
    | BlinkPeriod(seconds: Byte)
    | FacetColor(facet: Byte, red: UInt16, green: UInt16, blue: UInt16)
    | TaskParameters(facet: Byte, mode: Byte, limitSeconds: UInt32)
    | TapSettings(threshold: Byte, limit: Byte, latency: Byte, window: Byte)
    | ResetTaskInfo
    | FactoryReset

  const HISTORY_READ: Byte := 0x01
  const STATUS: Byte := 0x10
  const READ_TASK: Byte := 0x14
  const TAP_READ: Byte := 0x17

  function CodeOf(s: Setting): Byte {
    match s
    case SetLock(_) => 0x04
    case SetAutoPause(_) => 0x05
    case SetPause(_) => 0x06
    case Brightness(_) => 0x09
    case BlinkPeriod(_) => 0x0A
    case FacetColor(_, _, _, _) => 0x11
    case TaskParameters(_, _, _) => 0x13
    case SetName(_) => 0x15
    case TapSettings(_, _, _, _) => 0x16
    case SetPassword(_) => 0x30
    case ResetTaskInfo => 0xFE
    case FactoryReset => 0xFF
  }

  function Word(n: UInt16): (s: seq<Byte>)
    ensures |s| == 2 && FromBigEndian(s) == n
  {
    FieldWidths();
    ReadsBackWhatWasWritten(2, n);
    BigEndian(2, n)
  }

  function LongWord(n: UInt32): (s: seq<Byte>)
    ensures |s| == 4 && FromBigEndian(s) == n
  {
    FieldWidths();
    ReadsBackWhatWasWritten(4, n);
    BigEndian(4, n)
  }

  /** The longest name a setter lets through; the v3 limit is one more than a command can carry. */
  function NameLimit(v: Version): nat {
    if v == V3 then 19 else 18
  }

  /** What the setters check before they send anything. */
  predicate PassesChecks(s: Setting, v: Version) {
    match s
    case SetPassword(pw) => |pw| == 6
    case SetName(name) => 1 <= |name| <= NameLimit(v)
    case Brightness(percent) => 1 <= percent <= 100
    case BlinkPeriod(seconds) => 5 <= seconds <= 60
    case _ => true
  }

  function OnOff(on: bool): Byte { if on then 0x01 else 0x02 }

  /** The payload of a setter's command; the length byte of a name is its length. */
  function PayloadOf(s: Setting): seq<Byte>
    requires s.SetName? ==> |s.name| < 256
  {
    match s
    case SetPassword(pw) => pw
    case SetName(name) => var length: Byte := |name|; [length] + name
    case SetLock(on) => [OnOff(on)]
    case SetPause(on) => [OnOff(on)]
    case SetAutoPause(minutes) => Word(minutes)
    case Brightness(percent) => [percent]
    case BlinkPeriod(seconds) => [seconds]
    case FacetColor(facet, r, g, b) => [facet] + Word(r) + Word(g) + Word(b)
    case TaskParameters(facet, mode, limit) => [facet, mode] + LongWord(limit)
    case TapSettings(th, li, la, wi) => [0x3A, th, 0x3B, li, 0x3C, la, 0x3D, wi]
    case ResetTaskInfo => []
    case FactoryReset => []
  }

  /** The bytes a setter writes to the command characteristic, or its refusal. */
  function WireBytes(s: Setting, v: Version): Result<seq<Byte>> {
    if !PassesChecks(s, v) then Err(InvalidInput) else CommandBytes(CodeOf(s), PayloadOf(s))
  }

  // ---- the device's side -------------------------------------------------------------------

  /** A device's reading of a command, from the command tables of the protocol documents. */
  function Parse(bytes: seq<Byte>): Option<Setting> {
    if bytes == [] then None
    else
      var args := bytes[1..];
      match bytes[0]
      case 0x04 => if |args| == 1 && IsFlag(args[0]) then Some(SetLock(args[0] == 0x01)) else None
      case 0x05 => if |args| == 2 then Some(SetAutoPause(WordOf(args))) else None
      case 0x06 => if |args| == 1 && IsFlag(args[0]) then Some(SetPause(args[0] == 0x01)) else None
      case 0x09 => if |args| == 1 && 1 <= args[0] <= 100 then Some(Brightness(args[0])) else None
      case 0x0A => if |args| == 1 && 5 <= args[0] <= 60 then Some(BlinkPeriod(args[0])) else None
      case 0x11 => if |args| == 7 then
                     Some(FacetColor(args[0], WordOf(args[1..3]), WordOf(args[3..5]), WordOf(args[5..])))
                   else None
      case 0x13 => if |args| == 6 then Some(TaskParameters(args[0], args[1], LongWordOf(args[2..]))) else None
      case 0x15 => if 2 <= |args| <= 19 && args[0] == |args| - 1 then Some(SetName(args[1..])) else None
      case 0x16 => if |args| == 8 && args[0] == 0x3A && args[2] == 0x3B && args[4] == 0x3C && args[6] == 0x3D then
                     Some(TapSettings(args[1], args[3], args[5], args[7]))
                   else None
      case 0x30 => if |args| == 6 then Some(SetPassword(args)) else None
      case 0xFE => if args == [] then Some(ResetTaskInfo) else None
      case 0xFF => if args == [] then Some(FactoryReset) else None
      case _ => None
  }

  function WordOf(s: seq<Byte>): (n: UInt16)
    requires |s| == 2
    ensures Word(n) == s
  {
    FieldWidths();
    WritesBackWhatWasRead(s);
    FromBigEndian(s)
  }

  function LongWordOf(s: seq<Byte>): (n: UInt32)
    requires |s| == 4
    ensures LongWord(n) == s
  {
    FieldWidths();
    WritesBackWhatWasRead(s);
    FromBigEndian(s)
  }

  /** What a setter writes, the device reads as exactly that operation with those arguments. */
  lemma DeviceUnderstands(s: Setting, v: Version)
    requires WireBytes(s, v).Ok?
    ensures Parse(WireBytes(s, v).value) == Some(s)
    ensures 1 <= |WireBytes(s, v).value| <= 20
  {
    var args := PayloadOf(s);
    assert WireBytes(s, v).value == [CodeOf(s)] + args;
    ParsesBack(s, args);
  }

  lemma ParsesBack(s: Setting, args: seq<Byte>)
    requires PassesChecks(s, V3) && (s.SetName? ==> |s.name| <= 18) && args == PayloadOf(s)
    ensures Parse([CodeOf(s)] + args) == Some(s)
  {
    assert ([CodeOf(s)] + args)[1..] == args;
    match s
    case SetAutoPause(minutes) =>
    case FacetColor(facet, r, g, b) => ColorFields(facet, r, g, b);
    case TaskParameters(facet, mode, limit) => TaskFields(facet, mode, limit);
    case SetName(name) => assert args[1..] == name;
    case _ =>
  }

  lemma ColorFields(facet: Byte, r: UInt16, g: UInt16, b: UInt16)
    ensures var args := [facet] + Word(r) + Word(g) + Word(b);
            args[0] == facet && WordOf(args[1..3]) == r && WordOf(args[3..5]) == g && WordOf(args[5..]) == b
  {
    var args := [facet] + Word(r) + Word(g) + Word(b);
    assert args[1..3] == Word(r) && args[3..5] == Word(g) && args[5..] == Word(b);
  }

  lemma TaskFields(facet: Byte, mode: Byte, limit: UInt32)
    ensures var args := [facet, mode] + LongWord(limit);
            args[0] == facet && args[1] == mode && LongWordOf(args[2..]) == limit
  {
    var args := [facet, mode] + LongWord(limit);
    assert args[2..] == LongWord(limit);
  }

  /** A command the device reads as some operation is what the setter of that operation writes. */
  lemma DeviceReadsNothingElse(bytes: seq<Byte>, v: Version)
    requires Parse(bytes).Some?
    ensures WireBytes(Parse(bytes).value, v) == Ok(bytes)
  {
    ParsedChecks(bytes, v);
    ParsedPayload(bytes);
    assert bytes == [bytes[0]] + bytes[1..];
  }

  lemma ParsedChecks(bytes: seq<Byte>, v: Version)
    requires Parse(bytes).Some?
    ensures bytes != [] && |bytes[1..]| <= MAX_COMMAND_PAYLOAD
    ensures CodeOf(Parse(bytes).value) == bytes[0] && PassesChecks(Parse(bytes).value, v)
  {}

  lemma ParsedPayload(bytes: seq<Byte>)
    requires Parse(bytes).Some?
    ensures var s := Parse(bytes).value;
            bytes != [] && (s.SetName? ==> |s.name| < 256) && PayloadOf(s) == bytes[1..]
  {
    var s, args := Parse(bytes).value, bytes[1..];
    match s
    case SetAutoPause(_) =>
    case FacetColor(_, _, _, _) =>
      assert [args[0]] + args[1..3] + args[3..5] + args[5..] == args;
    case TaskParameters(_, _, _) =>
      assert [args[0], args[1]] + args[2..] == args;
    case TapSettings(_, _, _, _) =>
      assert args == [args[0], args[1], args[2], args[3], args[4], args[5], args[6], args[7]];
    case SetName(_) => assert args == [args[0]] + args[1..];
    case _ => OneByteBack(args);
  }

  lemma OneByteBack(args: seq<Byte>)
    ensures |args| == 1 ==> args == [args[0]]
  {}

  /** The wire format is a bijection between accepted settings and the commands a device reads. */
  lemma WireFormatIsExact(s: Setting, v: Version, bytes: seq<Byte>)
    ensures WireBytes(s, v) == Ok(bytes) <==> Parse(bytes) == Some(s)
  {
    if WireBytes(s, v) == Ok(bytes) {
      DeviceUnderstands(s, v);
    }
    if Parse(bytes) == Some(s) {
      DeviceReadsNothingElse(bytes, v);
    }
  }

  /** No two setter calls write the same bytes, whatever the versions of their sessions. */
  lemma DistinctSettersWriteDistinctBytes(s: Setting, v: Version, t: Setting, w: Version)
    requires WireBytes(s, v).Ok? && WireBytes(s, v) == WireBytes(t, w)
    ensures s == t
  {
    DeviceUnderstands(s, v);
    DeviceUnderstands(t, w);
  }

  /** A name that passes the checks is written exactly when it has at most 18 bytes, on v3 as well. */
  lemma NamesThatCanBeWritten(name: seq<Byte>, v: Version)
    requires PassesChecks(SetName(name), v)
    ensures WireBytes(SetName(name), v).Ok? <==> |name| <= 18
  {}

  /** The v3 document allows 19 bytes, and a v3 session lets them pass, but no command holds them. */
  lemma NineteenByteNameIsRefused()
    ensures PassesChecks(SetName(Zeros(19)), V3) && WireBytes(SetName(Zeros(19)), V3) == Err(InvalidInput)
  {}

  // ---- read-backs --------------------------------------------------------------------------

  datatype Tap = Tap(threshold: Byte, limit: Byte, latency: Byte, window: Byte)

  /** The tap registers in an answer to command 0x17; the register numbers themselves are not looked at. */
  function TapOf(payload: seq<Byte>): Result<Tap> {
    if |payload| < 9 || payload[0] != TAP_READ then Err(ProtocolError)
    else Ok(Tap(payload[2], payload[4], payload[6], payload[8]))
  }

  /** How a device lays out its tap settings, with what it names as registers. */
  function TapBytes(t: Tap, r0: Byte, r1: Byte, r2: Byte, r3: Byte): seq<Byte> {
    [TAP_READ, r0, t.threshold, r1, t.limit, r2, t.latency, r3, t.window]
  }

  lemma TapIsExact(payload: seq<Byte>)
    ensures TapOf(payload).Ok? <==> |payload| >= 9 && payload[0] == 0x17
    ensures TapOf(payload).Ok? ==>
              TapBytes(TapOf(payload).value, payload[1], payload[3], payload[5], payload[7]) <= payload
  {
    if |payload| >= 9 {
      var p := payload;
      assert p[..9] == [p[0], p[1], p[2], p[3], p[4], p[5], p[6], p[7], p[8]];
    }
  }

  /** A device that answers with the registers as they were written gives the written settings back. */
  lemma TapReadsBackWhatWasWritten(s: Setting)
    requires s.TapSettings?
    ensures TapOf([TAP_READ] + PayloadOf(s)) == Ok(Tap(s.threshold, s.limit, s.latency, s.window))
  {}

  datatype Task = Task(facet: Byte, mode: Byte, limitSeconds: UInt32, elapsedSeconds: UInt32)

  function TaskOf(payload: seq<Byte>): Result<Task> {
    if |payload| < 11 || payload[0] != READ_TASK then Err(ProtocolError)
    else Ok(Task(payload[1], payload[2], LongWordOf(payload[3..7]), LongWordOf(payload[7..11])))
  }

  /** How a device lays out the task of a facet. */
  function TaskBytes(t: Task): seq<Byte> {
    [READ_TASK, t.facet, t.mode] + LongWord(t.limitSeconds) + LongWord(t.elapsedSeconds)
  }

  lemma TaskIsExact(payload: seq<Byte>)
    ensures TaskOf(payload).Ok? <==> |payload| >= 11 && payload[0] == 0x14
    ensures TaskOf(payload).Ok? ==> TaskBytes(TaskOf(payload).value) <= payload
  {
    if |payload| >= 11 {
      var p := payload;
      assert p[..11] == [p[0], p[1], p[2]] + p[3..7] + p[7..11];
    }
  }

  /** Likewise for task parameters, with the elapsed seconds that the device adds. */
  lemma TaskReadsBackWhatWasWritten(s: Setting, elapsed: UInt32)
    requires s.TaskParameters?
    ensures TaskOf([READ_TASK] + PayloadOf(s) + LongWord(elapsed)) ==
            Ok(Task(s.facet, s.mode, s.limitSeconds, elapsed))
  {
    var p := [READ_TASK] + PayloadOf(s) + LongWord(elapsed);
    assert p[3..7] == LongWord(s.limitSeconds) && p[7..11] == LongWord(elapsed);
  }
}
