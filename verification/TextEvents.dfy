/**
  Events told in words on the event characteristic, beside the one-byte notifications that say the same.

  Lower case is a table of the source's library, taken as a parameter of which only what matters here is
  known: it is the usual one for ASCII, two runes beyond have an ASCII lower case, and all others have not.
 */
module TextEvents {
  import opened Bytes
  import opened Outcomes
  import opened Trimming
  import opened Utf8

  datatype Event =
    | FacetEvent(facet: Byte, undefined: bool, wrongPassword: bool)
    | DoubleTapEvent(facet: Byte, pause: bool)
    | PauseStateEvent(paused: bool)

  // ---- the one-byte notifications ----------------------------------------------------------

  function DecodeFacet(payload: seq<Byte>): Result<Event> {
    if |payload| != 1 then Err(ProtocolError)
    else
      var undefined := payload[0] == 0;
      Ok(FacetEvent(payload[0], undefined, undefined))
  }

  function DecodeDoubleTap(payload: seq<Byte>): Result<Event> {
    if |payload| != 1 then Err(ProtocolError)
    else if payload[0] >= 128 then Ok(DoubleTapEvent(payload[0] - 128, true))
    else Ok(DoubleTapEvent(payload[0], false))
  }

  // ---- text --------------------------------------------------------------------------------

  predicate IsPadding(r: char) { r == 0 as char || r == ' ' }

  function CutPadding(payload: seq<Byte>): (cut: seq<Byte>)
    ensures cut <= payload
  {
    if payload != [] && (payload[|payload| - 1] == 0x00 || payload[|payload| - 1] == 0x20) then
      CutPadding(payload[..|payload| - 1])
    else payload
  }

  function HexDigit(d: nat): (r: char)
    requires d < 16
    ensures '0' <= r <= '9' || 'A' <= r <= 'F'
  {
    if d < 10 then '0' + d as char else 'A' + (d - 10) as char
  }

  function Hex(payload: seq<Byte>): (s: string)
    ensures forall r <- s :: '0' <= r <= '9' || 'A' <= r <= 'F'
  {
    if payload == [] then "" else [HexDigit(payload[0] / 16), HexDigit(payload[0] % 16)] + Hex(payload[1..])
  }

  /** The text of a payload without its padding; bytes that are no text are shown in hexadecimal. */
  function CleanString(payload: seq<Byte>): string {
    var cut := CutPadding(payload);
    match Decode(cut)
    case Some(text) => text
    case None => Hex(cut)
  }

  function Lower(r: char): char { if 'A' <= r <= 'Z' then r + 0x20 as char else r }

  /** The lower case of ASCII letters. */
  function ToLower(s: string): string {
    seq(|s|, i requires 0 <= i < |s| => Lower(s[i]))
  }

  /** Letter by letter, and nothing else has another lower case. */
  lemma LowerCaseOfAscii(r: char)
    ensures ToLower("ABCDEFGHIJKLMNOPQRSTUVWXYZ") == "abcdefghijklmnopqrstuvwxyz"
    ensures Lower(r) != r ==> r in "ABCDEFGHIJKLMNOPQRSTUVWXYZ"
  {
    var upper, lower := "ABCDEFGHIJKLMNOPQRSTUVWXYZ", "abcdefghijklmnopqrstuvwxyz";
    assert forall i :: 0 <= i < 26 ==> upper[i] as int == 0x41 + i && lower[i] as int == 0x61 + i;
    if 'A' <= r <= 'Z' {
      assert upper[r as int - 0x41] == r;
    }
  }

  type CaseTable = char -> char

  ghost predicate IsCaseTable(table: CaseTable) {
    && (forall r: char :: r < 0x80 as char ==> table(r) == Lower(r))
    && (forall r: char :: r >= 0x80 as char && table(r) < 0x80 as char ==>
          (r == 0x130 as char && table(r) == 'i') || (r == 0x212A as char && table(r) == 'k'))
  }

  function Fold(s: string, table: CaseTable): string {
    seq(|s|, i requires 0 <= i < |s| => table(s[i]))
  }

  const BROKEN := 0xFFFD as char

  function Broken(k: nat): string { seq(k, _ => BROKEN) }

  /** What is left of a text without so many of its bytes; of a rune cut in two, broken bytes are left. */
  function DropBytes(s: string, n: nat): string
    decreases |s|
  {
    if n == 0 || s == "" then s
    else
      var size := RuneSize(s[0]);
      if size <= n then DropBytes(s[1..], n - size) else Broken(size - n) + s[1..]
  }

  // ---- numbers -----------------------------------------------------------------------------

  function DigitOf(r: char): nat {
    if '0' <= r <= '9' then (r as int) - ('0' as int)
    else if 'a' <= Lower(r) <= 'z' then (Lower(r) as int) - ('a' as int) + 10
    else 36
  }

  /** The value of a run of digits, in which underscores say nothing. */
  function DigitsValue(base: nat, s: string): Option<nat> {
    if s == "" then Some(0)
    else
      var r := s[|s| - 1];
      match DigitsValue(base, s[..|s| - 1])
      case None => None
      case Some(n) =>
        if r == '_' then Some(n)
        else if DigitOf(r) < base then Some(n * base + DigitOf(r))
        else None
  }

  /** The base a number is written in, and the digits after what tells the base. */
  function Radix(s: string): (nat, string)
    requires s != ""
  {
    if s[0] != '0' then (10, s)
    else if |s| >= 3 && Lower(s[1]) == 'b' then (2, s[2..])
    else if |s| >= 3 && Lower(s[1]) == 'o' then (8, s[2..])
    else if |s| >= 3 && Lower(s[1]) == 'x' then (16, s[2..])
    else (8, s[1..])
  }

  predicate IsDigit(hex: bool, r: char) { '0' <= r <= '9' || (hex && 'a' <= Lower(r) <= 'f') }

  /** Each underscore stands after a digit or the base prefix and before a digit. */
  predicate UnderscoresOk(s: string) {
    var prefixed := |s| >= 2 && s[0] == '0' && Lower(s[1]) in {'b', 'o', 'x'};
    var hex := prefixed && Lower(s[1]) == 'x';
    forall i :: 0 <= i < |s| && s[i] == '_' ==>
                  && i > 0 && (IsDigit(hex, s[i - 1]) || (prefixed && i == 2))
                  && i + 1 < |s| && IsDigit(hex, s[i + 1])
  }

  /** An unsigned number of eight bits, as an integer literal of the source's language. */
  function ParseByte(s: string): Option<Byte> {
    if s == "" then None
    else
      var (base, digits) := Radix(s);
      match DigitsValue(base, digits)
      case None => None
      case Some(n) => if n < 256 && UnderscoresOk(s) then Some(n) else None
  }

  // ---- events in words ---------------------------------------------------------------------

  /** What may come before the number, and whether it tells of a tap; the first that fits is taken. */
  const PREFIXES: seq<(string, bool)> :=
    [("new side:", false), ("side:", false), ("double tap:", true), ("doubletap:", true), ("tap:", true)]

  function FirstFit(normalized: string, candidates: seq<(string, bool)>): Option<(string, bool)> {
    if candidates == [] then None
    else if candidates[0].0 <= normalized then Some(candidates[0])
    else FirstFit(normalized, candidates[1..])
  }

  /** The texts, in lower case, that tell a pause or its end. */
  function PauseOf(words: string): Option<bool> {
    if words in {"pause on", "pause: on"} then Some(true)
    else if words in {"pause off", "pause: off"} then Some(false)
    else None
  }

  function ParsePauseState(text: string, table: CaseTable): Option<bool> {
    PauseOf(Fold(TrimSpace(text), table))
  }

  /** The number told and whether it was told of a tap. */
  function ParseSide(text: string, table: CaseTable): Option<(Byte, bool)> {
    var trimmed := TrimSpace(text);
    match FirstFit(Fold(trimmed, table), PREFIXES)
    case None => None
    case Some((prefix, tap)) =>
      match ParseByte(TrimSpace(DropBytes(trimmed, |prefix|)))
      case None => None
      case Some(n) => Some((n, tap))
  }

  function SideEvent(side: Byte, tap: bool): Event {
    if tap || side >= 128 then
      var pause := side >= 128;
      DoubleTapEvent(if pause then side - 128 else side, pause)
    else FacetEvent(side, side == 0, side == 0)
  }

  function DecodeTextEvent(payload: seq<Byte>, table: CaseTable): Option<Event> {
    var text := CleanString(payload);
    match ParsePauseState(text, table)
    case Some(paused) => Some(PauseStateEvent(paused))
    case None =>
      match ParseSide(text, table)
      case None => None
      case Some((side, tap)) => Some(SideEvent(side, tap))
  }

  // ---- which texts tell which event --------------------------------------------------------

  lemma {:induction false} DigitsHold(base: nat, s: string, i: nat)
    requires DigitsValue(base, s).Some? && i < |s|
    ensures s[i] == '_' || DigitOf(s[i]) < base
  {
    if i < |s| - 1 {
      DigitsHold(base, s[..|s| - 1], i);
    }
  }

  predicate Stays(r: char) { !IsSpace(r) && !IsPadding(r) }

  lemma LiteralStays(s: string)
    requires ParseByte(s).Some?
    ensures s != "" && Stays(s[0]) && Stays(s[|s| - 1])
  {
    var (base, digits) := Radix(s);
    if digits != "" {
      DigitsHold(base, digits, 0);
      DigitsHold(base, digits, |digits| - 1);
      assert digits[|digits| - 1] == s[|s| - 1];
    }
  }

  /** No prefix starts another: some place tells them apart. */
  lemma PrefixesDiffer(i: nat, j: nat) returns (k: nat)
    requires i < |PREFIXES| && j < |PREFIXES| && i != j
    ensures k < |PREFIXES[i].0| && k < |PREFIXES[j].0| && PREFIXES[i].0[k] != PREFIXES[j].0[k]
  {
    k := if PREFIXES[i].0[0] == PREFIXES[j].0[0] then 6 else 0;
    assert PREFIXES[2].0[6] == ' ' && PREFIXES[3].0[6] == 't';
  }

  /** So the order in which they are tried does not matter. */
  lemma {:induction false} FirstFitIsTheOnlyFit(normalized: string, k: nat, i: nat)
    requires k <= i < |PREFIXES| && PREFIXES[i].0 <= normalized
    ensures FirstFit(normalized, PREFIXES[k..]) == Some(PREFIXES[i])
    decreases i - k
  {
    assert PREFIXES[k..][0] == PREFIXES[k] && PREFIXES[k..][1..] == PREFIXES[k + 1..];
    if k < i {
      var place := PrefixesDiffer(i, k);
      assert normalized[place] == PREFIXES[i].0[place];
      FirstFitIsTheOnlyFit(normalized, k + 1, i);
    }
  }

  lemma PrefixIsAscii(i: nat, k: nat)
    requires i < |PREFIXES| && k < |PREFIXES[i].0|
    ensures PREFIXES[i].0[k] < 0x80 as char
    ensures PREFIXES[i].0[|PREFIXES[i].0| - 1] == ':'
  {}

  // ---- from bytes to text ------------------------------------------------------------------

  /** Cutting padding bytes off is cutting padding runes off. */
  lemma {:induction false} CleanText(payload: seq<Byte>)
    ensures Decode(payload).None? ==> Decode(CutPadding(payload)).None?
    ensures Decode(payload).Some? ==> Decode(CutPadding(payload)) == Some(TrimRight(Decode(payload).value, IsPadding))
  {
    var n := |payload|;
    if n > 0 && (payload[n - 1] == 0x00 || payload[n - 1] == 0x20) {
      var front := payload[..n - 1];
      assert payload == front + [payload[n - 1]];
      DecodeOneMore(front, payload[n - 1]);
      CleanText(front);
      if Decode(front).Some? {
        assert Decode(payload).value[..|Decode(payload).value| - 1] == Decode(front).value;
      }
    } else if Decode(payload).Some? && Decode(payload).value != "" {
      AsciiAtTheEnd(payload);
    }
  }

  /** Padding and white space around a text that ends in neither do not matter. */
  lemma AroundTheText(payload: seq<Byte>, before: string, core: string, after: string, padding: string)
    requires Decode(payload) == Some(before + core + after + padding)
    requires AllCut(before, IsSpace) && AllCut(after, IsSpace) && AllCut(padding, IsPadding)
    requires core != "" && Stays(core[0]) && Stays(core[|core| - 1])
    ensures TrimSpace(CleanString(payload)) == core
  {
    CleanText(payload);
    TrimRightDrops(before + core + after, padding, IsPadding);
    var rest := TrimRightStops(before + core, after, IsPadding);
    TrimSpaceIsExact(before, core, rest);
  }

  predicate IsHex(r: char) { '0' <= r <= '9' || 'A' <= r <= 'F' }

  lemma HexTellsNothing(text: string, table: CaseTable)
    requires IsCaseTable(table) && forall r <- text :: IsHex(r)
    ensures ParsePauseState(text, table).None? && ParseSide(text, table).None?
  {
    var before, after := TrimSpaceSplits(text);
    var core := TrimSpace(text);
    var normalized := Fold(core, table);
    forall k | 0 <= k < |core|
      ensures normalized[k] != ':' && normalized[k] != 'p'
    {
      assert core[k] == (before + core + after)[|before| + k];
      assert text[|before| + k] in text && IsHex(core[k]);
    }
    NoColonNoFit(normalized, PREFIXES);
    assert normalized != "" ==> normalized[0] != 'p';
  }

  lemma {:induction false} NoColonNoFit(normalized: string, candidates: seq<(string, bool)>)
    requires forall k :: 0 <= k < |normalized| ==> normalized[k] != ':'
    requires forall c <- candidates :: c.0 != "" && c.0[|c.0| - 1] == ':'
    ensures FirstFit(normalized, candidates).None?
  {
    if candidates != [] {
      assert candidates[0] in candidates;
      var prefix := candidates[0].0;
      assert |prefix| <= |normalized| ==> normalized[|prefix| - 1] != prefix[|prefix| - 1];
      NoColonNoFit(normalized, candidates[1..]);
    }
  }

  /** Bytes that are not UTF-8 tell nothing, since what is shown for them has no letter of a known text. */
  lemma InvalidTellsNothing(payload: seq<Byte>, table: CaseTable)
    requires IsCaseTable(table) && Decode(payload).None?
    ensures DecodeTextEvent(payload, table).None?
  {
    CleanText(payload);
    HexTellsNothing(CleanString(payload), table);
  }

  // ---- prefixes in ASCII and beyond --------------------------------------------------------

  predicate IsAscii(s: string) { forall i :: 0 <= i < |s| ==> s[i] < 0x80 as char }

  lemma {:induction false} DropAscii(s: string, rest: string)
    requires IsAscii(s)
    ensures DropBytes(s + rest, |s|) == rest
  {
    if s == "" {
      assert s + rest == rest;
    } else {
      assert (s + rest)[1..] == s[1..] + rest;
      DropAscii(s[1..], rest);
    }
  }

  function Size(s: string): (n: nat)
    ensures n >= |s|
  {
    if s == "" then 0 else RuneSize(s[0]) + Size(s[1..])
  }

  lemma {:induction false} LongerThanAscii(s: string)
    requires !IsAscii(s)
    ensures Size(s) > |s|
  {
    if s[0] < 0x80 as char {
      assert exists i :: 0 <= i < |s[1..]| && s[1..][i] >= 0x80 as char by {
        var i :| 0 <= i < |s| && s[i] >= 0x80 as char;
        assert s[1..][i - 1] == s[i];
      }
      LongerThanAscii(s[1..]);
    }
  }

  lemma {:induction false} DropWithin(s: string, rest: string, n: nat)
    requires n <= Size(s)
    ensures DropBytes(s + rest, n) == DropBytes(s, n) + rest
  {
    if s == "" || n == 0 {
      assert s == "" ==> s + rest == rest;
    } else {
      assert (s + rest)[1..] == s[1..] + rest;
      var size := RuneSize(s[0]);
      if size <= n {
        DropWithin(s[1..], rest, n - size);
      } else {
        assert Broken(size - n) + (s[1..] + rest) == (Broken(size - n) + s[1..]) + rest;
      }
    }
  }

  /** No number has a colon in it. */
  lemma ColonIsNoNumber(s: string, at: nat)
    requires at < |s| && s[at] == ':'
    ensures ParseByte(TrimSpace(s)).None?
  {
    var before, after := TrimSpaceSplits(s);
    var core := TrimSpace(s);
    assert !IsSpace(':');
    var k := if |before| <= at < |before| + |core| then at - |before| else 0;
    assert k < |core| && core[k] == ':';
    if ParseByte(core).Some? {
      DigitsEverywhere(core, k);
    }
  }

  /** What a number is read from has digits and underscores, after what tells its base. */
  lemma DigitsEverywhere(s: string, k: nat)
    requires ParseByte(s).Some? && k < |s|
    ensures s[k] != ':'
  {
    var (base, digits) := Radix(s);
    var skipped := |s| - |digits|;
    if k >= skipped {
      DigitsHold(base, digits, k - skipped);
      assert digits[k - skipped] == s[k];
    }
  }

  /** The runes of a text that fold to a prefix: all ASCII, or what follows them is no number. */
  lemma FoldedPrefix(front: string, rest: string, table: CaseTable, i: nat)
    requires IsCaseTable(table) && i < |PREFIXES| && PREFIXES[i].0 == Fold(front, table)
    ensures var n := |PREFIXES[i].0|;
            && (IsAscii(front) ==> ToLower(front) == PREFIXES[i].0 && DropBytes(front + rest, n) == rest)
            && (!IsAscii(front) ==> ParseByte(TrimSpace(DropBytes(front + rest, n))).None?)
  {
    if IsAscii(front) {
      assert Fold(front, table) == ToLower(front);
      DropAscii(front, rest);
    } else {
      PrefixIsAscii(i, |front| - 1);
      BeyondAscii(front, rest, table);
    }
  }

  lemma BeyondAscii(front: string, rest: string, table: CaseTable)
    requires IsCaseTable(table) && !IsAscii(front)
    requires Fold(front, table)[|front| - 1] == ':'
    ensures ParseByte(TrimSpace(DropBytes(front + rest, |front|))).None?
  {
    var k := |front| - 1;
    var letters := front[..k];
    assert table(front[k]) == ':' && front[k] == ':';
    assert exists i :: 0 <= i < k && letters[i] >= 0x80 as char by {
      var i :| 0 <= i < |front| && front[i] >= 0x80 as char;
      assert letters[i] == front[i];
    }
    LongerThanAscii(letters);
    assert front + rest == letters + (":" + rest);
    DropWithin(letters, ":" + rest, |front|);
    ColonIsNoNumber(DropBytes(front + rest, |front|), |DropBytes(letters, |front|)|);
  }

  lemma PrefixFits(prefix: string, rest: string, table: CaseTable, i: nat)
    requires IsCaseTable(table) && i < |PREFIXES| && ToLower(prefix) == PREFIXES[i].0
    ensures FirstFit(Fold(prefix + rest, table), PREFIXES) == Some(PREFIXES[i])
    ensures PauseOf(Fold(prefix + rest, table)).None?
    ensures DropBytes(prefix + rest, |PREFIXES[i].0|) == rest
  {
    var normalized := Fold(prefix + rest, table);
    forall k | 0 <= k < |prefix|
      ensures prefix[k] < 0x80 as char && normalized[k] == PREFIXES[i].0[k]
    {
      PrefixIsAscii(i, k);
      assert ToLower(prefix)[k] == Lower(prefix[k]);
    }
    FirstFitIsTheOnlyFit(normalized, 0, i);
    assert normalized[0] == PREFIXES[i].0[0] != 'p';
    DropAscii(prefix, rest);
  }

  // ---- side texts --------------------------------------------------------------------------

  /** What is read of a text that is a prefix in any case, white space and a literal. */
  lemma TrimmedSideText(
    text: string, prefix: string, between: string, literal: string, table: CaseTable, i: nat)
    requires IsCaseTable(table) && TrimSpace(text) == prefix + between + literal && AllCut(between, IsSpace)
    requires i < |PREFIXES| && ToLower(prefix) == PREFIXES[i].0 && ParseByte(literal).Some?
    ensures ParseSide(text, table) == Some((ParseByte(literal).value, PREFIXES[i].1))
    ensures ParsePauseState(text, table).None?
  {
    assert TrimSpace(text) == prefix + (between + literal);
    PrefixFits(prefix, between + literal, table, i);
    LiteralStays(literal);
    TrimSpaceIsExact(between, literal, "");
    assert between + literal + "" == between + literal;
  }

  /** The prefixes of texts that tell a side, in lower case, and those of texts that tell a tap. */
  predicate TellsSide(prefix: string) { prefix == "new side:" || prefix == "side:" }

  predicate TellsTap(prefix: string) { prefix == "double tap:" || prefix == "doubletap:" || prefix == "tap:" }

  lemma PlaceOf(prefix: string) returns (i: nat)
    requires TellsSide(prefix) || TellsTap(prefix)
    ensures i < |PREFIXES| && PREFIXES[i] == (prefix, TellsTap(prefix))
  {
    i := if prefix == "new side:" then 0 else if prefix == "side:" then 1 else if prefix == "double tap:" then 2
         else if prefix == "doubletap:" then 3 else 4;
    TapsAreNoSides(i);
  }

  lemma TapsAreNoSides(i: nat)
    requires i < |PREFIXES|
    ensures TellsSide(PREFIXES[i].0) || TellsTap(PREFIXES[i].0)
    ensures PREFIXES[i].1 <==> TellsTap(PREFIXES[i].0)
  {
    var k := |PREFIXES[i].0|;
    assert PREFIXES[i].0[0] == 's' || PREFIXES[i].0[0] == 'n' ==> !TellsTap(PREFIXES[i].0);
  }

  /**
    A side text in any case, with any white space and padding, tells the number that its literal stands for:
    a facet for a number below 128 behind a side prefix, else a tap, whose high bit is the pause.
   */
  lemma SideTextIsRead(
    payload: seq<Byte>, before: string, prefix: string, between: string, literal: string, after: string,
    padding: string, table: CaseTable)
    requires IsCaseTable(table)
    requires Decode(payload) == Some(before + (prefix + between + literal) + after + padding)
    requires AllCut(before, IsSpace) && AllCut(between, IsSpace) && AllCut(after, IsSpace)
    requires AllCut(padding, IsPadding)
    requires (TellsSide(ToLower(prefix)) || TellsTap(ToLower(prefix))) && ParseByte(literal).Some?
    ensures var n := ParseByte(literal).value;
            DecodeTextEvent(payload, table) ==
            Some(if TellsTap(ToLower(prefix)) || n >= 128 then DoubleTapEvent(n % 128, n >= 128)
                 else FacetEvent(n, n == 0, n == 0))
  {
    var i := PlaceOf(ToLower(prefix));
    SideTextAt(payload, before, prefix, between, literal, after, padding, table, i);
    SideEventMeans(ParseByte(literal).value, PREFIXES[i].1);
  }

  lemma SideEventMeans(n: Byte, tap: bool)
    ensures SideEvent(n, tap) ==
            if tap || n >= 128 then DoubleTapEvent(n % 128, n >= 128) else FacetEvent(n, n == 0, n == 0)
  {}

  lemma SideTextAt(
    payload: seq<Byte>, before: string, prefix: string, between: string, literal: string, after: string,
    padding: string, table: CaseTable, i: nat)
    requires IsCaseTable(table)
    requires Decode(payload) == Some(before + (prefix + between + literal) + after + padding)
    requires AllCut(before, IsSpace) && AllCut(between, IsSpace) && AllCut(after, IsSpace)
    requires AllCut(padding, IsPadding)
    requires i < |PREFIXES| && ToLower(prefix) == PREFIXES[i].0 && ParseByte(literal).Some?
    ensures DecodeTextEvent(payload, table) == Some(SideEvent(ParseByte(literal).value, PREFIXES[i].1))
  {
    LiteralStays(literal);
    assert Lower(prefix[0]) == PREFIXES[i].0[0];
    AroundTheText(payload, before, prefix + between + literal, after, padding);
    TrimmedSideText(CleanString(payload), prefix, between, literal, table, i);
  }

  lemma SplitSideText(text: string, table: CaseTable)
    returns (prefix: string, between: string, literal: string, i: nat)
    requires IsCaseTable(table) && ParseSide(text, table).Some?
    ensures TrimSpace(text) == prefix + between + literal && AllCut(between, IsSpace)
    ensures i < |PREFIXES| && ToLower(prefix) == PREFIXES[i].0 && ParseByte(literal).Some?
  {
    var core := TrimSpace(text);
    var _, _ := TrimSpaceSplits(text);
    i := FitIsAPrefix(Fold(core, table), PREFIXES);
    var n := |PREFIXES[i].0|;
    assert Fold(core, table)[..n] == Fold(core[..n], table);
    assert core == core[..n] + core[n..];
    FoldedPrefix(core[..n], core[n..], table, i);
    prefix, between, literal := SplitAt(core, n);
  }

  lemma SplitAt(core: string, n: nat) returns (prefix: string, between: string, literal: string)
    requires n <= |core| && IsTrimmed(core, IsSpace)
    ensures prefix == core[..n] && literal == TrimSpace(core[n..])
    ensures core == prefix + between + literal && AllCut(between, IsSpace)
  {
    var behind: string;
    between, behind := TrimSpaceSplits(core[n..]);
    prefix, literal := core[..n], TrimSpace(core[n..]);
    assert core == core[..n] + (between + literal + behind);
  }

  /**
    And only such texts do, of all payloads there are: every side text read is a prefix in ASCII letters of
    either case, a literal, white space and padding.
   */
  lemma OnlySideTextsAreRead(payload: seq<Byte>, table: CaseTable)
    returns (before: string, prefix: string, between: string, literal: string, after: string, padding: string)
    requires IsCaseTable(table)
    requires var e := DecodeTextEvent(payload, table); e.Some? && !e.value.PauseStateEvent?
    ensures Decode(payload) == Some(before + (prefix + between + literal) + after + padding)
    ensures AllCut(before, IsSpace) && AllCut(between, IsSpace) && AllCut(after, IsSpace)
    ensures AllCut(padding, IsPadding)
    ensures (TellsSide(ToLower(prefix)) || TellsTap(ToLower(prefix))) && ParseByte(literal).Some?
  {
    if Decode(payload).None? {
      InvalidTellsNothing(payload, table);
    }
    CleanText(payload);
    var text := CleanString(payload);
    padding := CutRight(Decode(payload).value, IsPadding);
    before, after := TrimSpaceSplits(text);
    var i;
    prefix, between, literal, i := SplitSideText(text, table);
    TapsAreNoSides(i);
  }

  lemma {:induction false} FitIsAPrefix(normalized: string, candidates: seq<(string, bool)>) returns (i: nat)
    requires FirstFit(normalized, candidates).Some?
    ensures i < |candidates| && FirstFit(normalized, candidates) == Some(candidates[i])
    ensures candidates[i].0 <= normalized
  {
    i := 0;
    if !(candidates[0].0 <= normalized) {
      i := FitIsAPrefix(normalized, candidates[1..]);
      i := i + 1;
    }
  }

  // ---- numbers as they are printed ---------------------------------------------------------

  function DigitChar(d: nat): (r: char)
    requires d < 16
    ensures DigitOf(r) == d && r != '_' && Lower(r) == r
  {
    if d < 10 then '0' + d as char else 'a' + (d - 10) as char
  }

  function Digits(base: nat, n: nat): (s: string)
    requires 2 <= base <= 16
    ensures s != "" && '_' !in s
    decreases n
  {
    if n < base then [DigitChar(n)] else Digits(base, n / base) + [DigitChar(n % base)]
  }

  function ZeroDigits(k: nat): (s: string)
    ensures |s| == k && '_' !in s
  {
    seq(k, _ => '0')
  }

  datatype Notation =
    | Decimal | OldOctal(zeros: nat) | Binary(zeros: nat) | Octal(zeros: nat) | Hexadecimal(zeros: nat)

  /** A number in some notation; a leading zero makes it octal. */
  function Printed(n: nat, notation: Notation): string {
    match notation
    case Decimal => Digits(10, n)
    case OldOctal(k) => "0" + (ZeroDigits(k) + Digits(8, n))
    case Binary(k) => "0b" + (ZeroDigits(k) + Digits(2, n))
    case Octal(k) => "0o" + (ZeroDigits(k) + Digits(8, n))
    case Hexadecimal(k) => "0x" + (ZeroDigits(k) + Digits(16, n))
  }

  lemma {:induction false} ZeroDigitsAreNothing(base: nat, k: nat)
    requires base > 0
    ensures DigitsValue(base, ZeroDigits(k)) == Some(0)
  {
    if k > 0 {
      ZeroDigitsAreNothing(base, k - 1);
      assert ZeroDigits(k)[..k - 1] == ZeroDigits(k - 1);
    }
  }

  lemma {:induction false} OneDigitMore(base: nat, front: string, r: char)
    requires DigitsValue(base, front).Some? && r != '_' && DigitOf(r) < base
    ensures DigitsValue(base, front + [r]) == Some(DigitsValue(base, front).value * base + DigitOf(r))
  {
    assert (front + [r])[..|front|] == front;
  }

  lemma {:induction false} DigitsAreRead(base: nat, k: nat, n: nat)
    requires 2 <= base <= 16
    ensures DigitsValue(base, ZeroDigits(k) + Digits(base, n)) == Some(n)
    decreases n
  {
    if n < base {
      ZeroDigitsAreNothing(base, k);
      OneDigitMore(base, ZeroDigits(k), DigitChar(n));
    } else {
      var q, r := LastDigit(base, n);
      DigitsAreRead(base, k, q);
      OneDigitMore(base, ZeroDigits(k) + Digits(base, q), DigitChar(r));
      assert ZeroDigits(k) + Digits(base, n) == ZeroDigits(k) + Digits(base, q) + [DigitChar(r)];
    }
  }

  lemma LastDigit(base: nat, n: nat) returns (q: nat, r: nat)
    requires 2 <= base <= 16 && n >= base
    ensures q < n && r < base && q * base + r == n
    ensures Digits(base, n) == Digits(base, q) + [DigitChar(r)]
  {
    q, r := n / base, n % base;
  }

  /** The case of digits does not matter. */
  lemma {:induction false} DigitsInAnyCase(base: nat, s: string)
    ensures DigitsValue(base, s) == DigitsValue(base, ToLower(s))
  {
    if s != "" {
      var front := s[..|s| - 1];
      DigitsInAnyCase(base, front);
      assert ToLower(s)[..|s| - 1] == ToLower(front);
    }
  }

  lemma DecimalIsRead(n: nat, literal: string)
    requires ToLower(literal) == Digits(10, n)
    ensures DigitsValue(Radix(literal).0, Radix(literal).1) == Some(n)
  {
    DecimalStart(n);
    assert ToLower(literal)[0] == Lower(literal[0]);
    if n == 0 {
      assert literal[1..] == "";
    } else {
      assert Radix(literal) == (10, literal);
      DigitsAreRead(10, 0, n);
      assert ZeroDigits(0) + Digits(10, n) == Digits(10, n);
      DigitsInAnyCase(10, literal);
    }
  }

  /** The letter after a zero that tells a base. */
  function BaseLetter(base: nat): char { if base == 2 then 'b' else if base == 8 then 'o' else 'x' }

  lemma PrefixedIsRead(base: nat, k: nat, n: nat, literal: string)
    requires base in {2, 8, 16} && ToLower(literal) == ['0', BaseLetter(base)] + (ZeroDigits(k) + Digits(base, n))
    ensures Radix(literal) == (base, literal[2..]) && DigitsValue(base, literal[2..]) == Some(n)
  {
    var shown := ['0', BaseLetter(base)] + (ZeroDigits(k) + Digits(base, n));
    assert ToLower(literal)[0] == Lower(literal[0]) && ToLower(literal)[1] == Lower(literal[1]) == BaseLetter(base);
    assert ToLower(literal[2..]) == shown[2..] == ZeroDigits(k) + Digits(base, n);
    DigitsAreRead(base, k, n);
    DigitsInAnyCase(base, literal[2..]);
  }

  lemma OldOctalIsRead(k: nat, n: nat, literal: string)
    requires ToLower(literal) == "0" + (ZeroDigits(k) + Digits(8, n))
    ensures Radix(literal) == (8, literal[1..]) && DigitsValue(8, literal[1..]) == Some(n)
  {
    var shown := ZeroDigits(k) + Digits(8, n);
    DigitsAreRead(8, k, n);
    OldOctalShape(literal, shown);
    DigitsInAnyCase(8, literal[1..]);
  }

  lemma OldOctalShape(literal: string, shown: string)
    requires ToLower(literal) == "0" + shown && shown != "" && '_' !in shown && DigitsValue(8, shown).Some?
    ensures ToLower(literal[1..]) == shown && Radix(literal) == (8, literal[1..])
  {
    DigitsHold(8, shown, 0);
    assert forall i :: 0 <= i < |literal| ==> ("0" + shown)[i] == Lower(literal[i]);
    assert shown[0] in shown && Lower(literal[1]) == shown[0];
  }

  lemma NoUnderscore(literal: string, n: nat, notation: Notation)
    requires ToLower(literal) == Printed(n, notation)
    ensures literal != "" && '_' !in literal
  {
    var shown := ToLower(literal);
    assert '_' !in Printed(n, notation);
    forall i | 0 <= i < |literal|
      ensures literal[i] != '_'
    {
      assert shown[i] == Lower(literal[i]) && shown[i] in shown;
    }
  }

  /** A number below 256 is read from any of its notations, in any case. */
  lemma PrintedIsRead(n: nat, notation: Notation, literal: string)
    requires n < 256 && ToLower(literal) == Printed(n, notation)
    ensures ParseByte(literal) == Some(n)
  {
    NoUnderscore(literal, n, notation);
    match notation
    case Decimal => DecimalIsRead(n, literal);
    case OldOctal(k) => OldOctalIsRead(k, n, literal);
    case Binary(k) => PrefixedIsRead(2, k, n, literal);
    case Octal(k) => PrefixedIsRead(8, k, n, literal);
    case Hexadecimal(k) => PrefixedIsRead(16, k, n, literal);
  }

  // ---- which literals there are -------------------------------------------------------------

  /** A literal without its underscores. */
  function Strip(s: string): string {
    if s == "" then "" else Strip(s[..|s| - 1]) + if s[|s| - 1] == '_' then "" else [s[|s| - 1]]
  }

  lemma {:induction false} StripKeepsValue(base: nat, s: string)
    ensures DigitsValue(base, Strip(s)) == DigitsValue(base, s)
  {
    if s != "" {
      var front, r := s[..|s| - 1], s[|s| - 1];
      StripKeepsValue(base, front);
      if r == '_' {
        assert Strip(s) == Strip(front);
      } else {
        assert Strip(s)[..|Strip(s)| - 1] == Strip(front);
      }
    }
  }

  lemma {:induction false} StripConcat(a: string, b: string)
    ensures Strip(a + b) == Strip(a) + Strip(b)
  {
    if b == "" {
      assert a + b == a;
    } else {
      StripConcat(a, b[..|b| - 1]);
      assert (a + b)[..|a + b| - 1] == a + b[..|b| - 1];
    }
  }

  lemma {:induction false} StripPlain(s: string)
    requires '_' !in s
    ensures Strip(s) == s
  {
    if s != "" {
      assert s[|s| - 1] in s;
      StripPlain(s[..|s| - 1]);
    }
  }

  lemma StripOfRest(a: string, b: string)
    requires '_' !in a
    ensures Strip(a + b) == a + Strip(b)
  {
    StripPlain(a);
    StripConcat(a, b);
  }

  lemma {:induction false} NothingToStrip(s: string)
    ensures '_' !in Strip(s)
  {
    if s != "" {
      NothingToStrip(s[..|s| - 1]);
    }
  }

  predicate IsBase(base: nat) { base == 2 || base == 8 || base == 10 || base == 16 }

  /** Digits without underscores are those of their value, behind some zeros. */
  lemma {:induction false} DigitsOfValue(base: nat, s: string) returns (k: nat)
    requires IsBase(base) && s != "" && '_' !in s && DigitsValue(base, s).Some?
    ensures ToLower(s) == ZeroDigits(k) + Digits(base, DigitsValue(base, s).value)
  {
    var front, r := s[..|s| - 1], s[|s| - 1];
    assert r in s;
    LastCharacter(base, r);
    assert ToLower(s) == ToLower(front) + [Lower(r)];
    if front == "" {
      k := 0;
      assert ToLower(s) == [Lower(r)];
    } else {
      k := DigitsOfValue(base, front);
      k := GrowingDigits(base, k, DigitsValue(base, front).value, DigitOf(r));
    }
  }

  lemma GrowingDigits(base: nat, k: nat, m: nat, d: nat) returns (more: nat)
    requires IsBase(base) && d < base
    ensures ZeroDigits(k) + Digits(base, m) + [DigitChar(d)] == ZeroDigits(more) + Digits(base, m * base + d)
  {
    if m == 0 {
      more := k + 1;
      assert ZeroDigits(k + 1) == ZeroDigits(k) + "0" == ZeroDigits(k) + Digits(base, 0);
    } else {
      more := k;
      OneMoreDigit(base, m, d);
    }
  }

  lemma LastCharacter(base: nat, r: char)
    requires base <= 16
    ensures r != '_' && DigitOf(r) < base ==> Lower(r) == DigitChar(DigitOf(r))
  {}

  lemma OneMoreDigit(base: nat, m: nat, d: nat)
    requires IsBase(base) && m > 0 && d < base
    ensures Digits(base, m * base + d) == Digits(base, m) + [DigitChar(d)]
  {
    if base == 2 {
      assert (m * 2 + d) / 2 == m;
    } else if base == 8 {
      assert (m * 8 + d) / 8 == m;
    } else if base == 10 {
      assert (m * 10 + d) / 10 == m;
    } else {
      assert (m * 16 + d) / 16 == m;
    }
  }

  /** A literal without underscores that is read is a notation of its number. */
  lemma PlainLiteral(s: string) returns (notation: Notation)
    requires '_' !in s && ParseByte(s).Some?
    ensures ToLower(s) == Printed(ParseByte(s).value, notation)
  {
    var (base, digits) := Radix(s);
    assert forall r <- digits :: r in s;
    if digits == "" {
      notation := Decimal;
      assert s == "0" && ToLower(s) == "0";
      return;
    }
    var k := DigitsOfValue(base, digits);
    notation := NotationOf(s, k);
  }

  lemma NotationOf(s: string, k: nat) returns (notation: Notation)
    requires ParseByte(s).Some? && Radix(s).1 != ""
    requires ToLower(Radix(s).1) == ZeroDigits(k) + Digits(Radix(s).0, ParseByte(s).value)
    ensures ToLower(s) == Printed(ParseByte(s).value, notation)
  {
    var (base, digits) := Radix(s);
    assert forall i :: 0 <= i < |s| ==> ToLower(s)[i] == Lower(s[i]);
    if s[0] != '0' {
      notation := Decimal;
      assert Lower(s[0]) != '0';
      assert k == 0;
      assert ZeroDigits(0) + Digits(10, ParseByte(s).value) == Digits(10, ParseByte(s).value);
    } else if |digits| == |s| - 1 {
      notation := OldOctal(k);
      assert ToLower(s) == [Lower(s[0])] + ToLower(digits);
    } else {
      notation := if base == 2 then Binary(k) else if base == 8 then Octal(k) else Hexadecimal(k);
      assert ToLower(s) == [Lower(s[0]), Lower(s[1])] + ToLower(digits);
    }
  }

  /**
    Exactly these literals are read as a number below 256: its notations, in any case, with underscores put
    in where they may stand.
   */
  lemma LiteralsAreExact(s: string, n: nat)
    requires n < 256
    ensures ParseByte(s) == Some(n) <==>
            UnderscoresOk(s) && exists notation :: ToLower(Strip(s)) == Printed(n, notation)
  {
    if UnderscoresOk(s) {
      UnderscoresSayNothing(s);
      NothingToStrip(s);
      if ParseByte(s) == Some(n) {
        var notation := PlainLiteral(Strip(s));
      }
      if exists notation :: ToLower(Strip(s)) == Printed(n, notation) {
        var notation :| ToLower(Strip(s)) == Printed(n, notation);
        PrintedIsRead(n, notation, Strip(s));
      }
    }
  }

  /** In a decimal number underscores may stand exactly between digits. */
  lemma UnderscorePlaces(s: string)
    requires s != "" && s[0] != '0' && forall r <- s :: r == '_' || '0' <= r <= '9'
    ensures UnderscoresOk(s) <==>
            && s[0] != '_' && s[|s| - 1] != '_'
            && forall i :: 0 <= i < |s| - 1 && s[i] == '_' ==> s[i + 1] != '_'
  {
    assert forall i :: 0 <= i < |s| ==> s[i] in s;
  }

  /** Where underscores may stand, they say nothing. */
  lemma UnderscoresSayNothing(s: string)
    requires UnderscoresOk(s)
    ensures ParseByte(s) == ParseByte(Strip(s))
  {
    NothingToStrip(s);
    PlainIsOk(Strip(s));
    if s != "" {
      StripKeepsRadix(s);
      StripKeepsValue(Radix(s).0, Radix(s).1);
      SameNumber(s, Strip(s));
    }
  }

  lemma PlainIsOk(s: string)
    requires '_' !in s
    ensures UnderscoresOk(s)
  {
    assert forall i :: 0 <= i < |s| ==> s[i] in s;
  }

  lemma SameNumber(s: string, t: string)
    requires s != "" && t != "" && UnderscoresOk(s) && UnderscoresOk(t) && Radix(s).0 == Radix(t).0
    requires DigitsValue(Radix(s).0, Radix(s).1) == DigitsValue(Radix(s).0, Radix(t).1)
    ensures ParseByte(s) == ParseByte(t)
  {}

  lemma StripKeepsRadix(s: string)
    requires s != "" && UnderscoresOk(s)
    ensures Strip(s) != "" && Radix(Strip(s)) == (Radix(s).0, Strip(Radix(s).1))
  {
    var last := |s| - 1;
    assert s[last] != '_';
    assert s == [s[0]] + s[1..];
    StripOfRest([s[0]], s[1..]);
    if |s| >= 2 && s[1] != '_' {
      assert s == [s[0], s[1]] + s[2..];
      StripOfRest([s[0], s[1]], s[2..]);
    }
    EndStays(s);
    if |s| >= 3 && s[1] == '_' {
      assert s[2] != '_';
      assert s[1..] == ['_', s[2]] + s[3..];
      SecondCharacter(s);
    }
  }

  lemma EndStays(s: string)
    requires s != "" && s[|s| - 1] != '_'
    ensures Strip(s) != "" && Strip(s)[|Strip(s)| - 1] == s[|s| - 1]
  {}

  lemma SecondCharacter(s: string)
    requires |s| >= 3 && s[0] != '_' && s[1] == '_' && s[2] != '_'
    ensures |Strip(s)| >= 2 && Strip(s)[0] == s[0] && Strip(s)[1] == s[2]
  {
    assert s == [s[0]] + s[1..];
    StripOfRest([s[0]], s[1..]);
    StripPrefix(s[1..]);
  }

  lemma {:induction false} StripPrefix(s: string)
    requires |s| >= 2 && s[0] == '_' && s[1] != '_'
    ensures Strip(s) != "" && Strip(s)[0] == s[1]
    decreases |s|
  {
    var front := s[..|s| - 1];
    if |s| > 2 {
      StripPrefix(front);
    } else {
      assert front[..0] == "" && Strip(front) == "";
    }
  }

  /** Only zero starts with a zero in decimal. */
  lemma {:induction false} DecimalStart(n: nat)
    ensures n == 0 ==> Digits(10, n) == "0"
    ensures n > 0 ==> '1' <= Digits(10, n)[0] <= '9'
    decreases n
  {
    if n >= 10 {
      DecimalStart(n / 10);
      assert Digits(10, n)[0] == Digits(10, n / 10)[0];
    }
  }

  /**
    Words and bytes agree. For every number, printed in any notation after any known prefix, whatever the
    case, the white space and the padding: told without a tap and below 128 it is the facet notification of
    that byte; otherwise it is the double-tap notification of that byte.
   */
  lemma WordsAgreeWithBytes(
    payload: seq<Byte>, before: string, prefix: string, between: string, literal: string, after: string,
    padding: string, table: CaseTable, n: Byte, notation: Notation)
    requires IsCaseTable(table)
    requires Decode(payload) == Some(before + (prefix + between + literal) + after + padding)
    requires AllCut(before, IsSpace) && AllCut(between, IsSpace) && AllCut(after, IsSpace)
    requires AllCut(padding, IsPadding)
    requires (TellsSide(ToLower(prefix)) || TellsTap(ToLower(prefix))) && ToLower(literal) == Printed(n, notation)
    ensures var told := DecodeTextEvent(payload, table);
            && told.Some?
            && Ok(told.value) ==
               if TellsTap(ToLower(prefix)) || n >= 128 then DecodeDoubleTap([n]) else DecodeFacet([n])
  {
    PrintedIsRead(n, notation, literal);
    var i := PlaceOf(ToLower(prefix));
    SideTextAt(payload, before, prefix, between, literal, after, padding, table, i);
    SideEventIsNotified(n, PREFIXES[i].1);
  }

  lemma SideEventIsNotified(n: Byte, tap: bool)
    ensures Ok(SideEvent(n, tap)) == if tap || n >= 128 then DecodeDoubleTap([n]) else DecodeFacet([n])
  {}

  /** Every event read from a side text is one that a single byte can notify as well. */
  lemma WordsSayNothingElse(payload: seq<Byte>, table: CaseTable) returns (n: Byte)
    requires var e := DecodeTextEvent(payload, table); e.Some? && !e.value.PauseStateEvent?
    ensures Ok(DecodeTextEvent(payload, table).value) in {DecodeFacet([n]), DecodeDoubleTap([n])}
  {
    n := ParseSide(CleanString(payload), table).value.0;
  }

  /** The pause texts are read in any case and with any white space and padding around them. */
  lemma PauseTextIsRead(
    payload: seq<Byte>, before: string, words: string, after: string, padding: string, table: CaseTable, paused: bool)
    requires IsCaseTable(table) && Decode(payload) == Some(before + words + after + padding)
    requires AllCut(before, IsSpace) && AllCut(after, IsSpace) && AllCut(padding, IsPadding)
    requires Fold(words, table) in (if paused then {"pause on", "pause: on"} else {"pause off", "pause: off"})
    ensures DecodeTextEvent(payload, table) == Some(PauseStateEvent(paused))
  {
    var spelled := Fold(words, table);
    assert spelled[0] == 'p' == table(words[0]);
    assert spelled[|words| - 1] in {'n', 'f'} && spelled[|words| - 1] == table(words[|words| - 1]);
    AroundTheText(payload, before, words, after, padding);
  }

  /** And only they are read as a pause. */
  lemma OnlyPauseTextsAreRead(payload: seq<Byte>, table: CaseTable)
    returns (before: string, words: string, after: string, padding: string)
    requires IsCaseTable(table)
    requires var e := DecodeTextEvent(payload, table); e.Some? && e.value.PauseStateEvent?
    ensures Decode(payload) == Some(before + words + after + padding)
    ensures AllCut(before, IsSpace) && AllCut(after, IsSpace) && AllCut(padding, IsPadding)
    ensures Fold(words, table) in
            if DecodeTextEvent(payload, table).value.paused then {"pause on", "pause: on"}
            else {"pause off", "pause: off"}
  {
    if Decode(payload).None? {
      InvalidTellsNothing(payload, table);
    }
    CleanText(payload);
    padding := CutRight(Decode(payload).value, IsPadding);
    before, after := TrimSpaceSplits(CleanString(payload));
    words := TrimSpace(CleanString(payload));
  }

  // ---- where a natural expectation fails ---------------------------------------------------

  /**
    A decimal number written with a zero in front is taken as octal, so it comes back as itself exactly
    when it has one octal digit: a zero-padded 10 is read as 8, and a zero-padded 8 is not read at all.
   */
  lemma ZeroPaddedDecimal(n: nat)
    requires n < 256
    ensures ParseByte("0" + Digits(10, n)) == Some(n) <==> n < 8
  {
    var digits := Digits(10, n);
    var padded := "0" + digits;
    DecimalDigitsOnly(n);
    assert digits[0] in digits && padded[1] == digits[0] && padded[1..] == digits;
    assert Radix(padded) == (8, digits);
    assert '_' !in padded;
    OctalReadingOfDecimal(n);
  }

  lemma {:induction false} DecimalDigitsOnly(n: nat)
    ensures forall r <- Digits(10, n) :: '0' <= r <= '9'
    decreases n
  {
    if n >= 10 {
      DecimalDigitsOnly(n / 10);
    }
  }

  lemma {:induction false} OctalReadingOfDecimal(n: nat)
    ensures var m := DigitsValue(8, Digits(10, n));
            && (n < 8 ==> m == Some(n))
            && (m.Some? ==> m.value <= n)
            && (n >= 8 && m.Some? ==> m.value < n)
    decreases n
  {
    var s := Digits(10, n);
    var front := s[..|s| - 1];
    if n < 10 {
      assert front == "" && s == "" + [DigitChar(n)];
      assert DigitsValue(8, front) == Some(0);
    } else {
      assert front == Digits(10, n / 10);
      OctalReadingOfDecimal(n / 10);
    }
  }

  /**
    A prefix spelled with a capital I that has a dot folds to a known one, and is found; but it is longer in
    bytes than the prefix found, so that its last letters are taken for the number and nothing is read.
   */
  lemma DottedPrefixIsFoundButNotRead(rest: string, table: CaseTable)
    requires IsCaseTable(table) && table(0x130 as char) == 'i'
    ensures FirstFit(Fold(['s', 0x130 as char, 'd', 'e', ':'] + rest, table), PREFIXES) == Some(PREFIXES[1])
    ensures ParseByte(TrimSpace(DropBytes(['s', 0x130 as char, 'd', 'e', ':'] + rest, 5))).None?
  {
    var spelled := ['s', 0x130 as char, 'd', 'e', ':'];
    var core := spelled + rest;
    var normalized := Fold(core, table);
    assert PREFIXES[1].0 == normalized[..5];
    FirstFitIsTheOnlyFit(normalized, 0, 1);
    assert Fold(spelled, table) == normalized[..5];
    assert spelled[1] == 0x130 as char;
    FoldedPrefix(spelled, rest, table, 1);
  }
}
