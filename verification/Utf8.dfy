/** UTF-8, as the source's string library reads and writes it. */
module Utf8 {
  import opened Bytes
  import opened Outcomes

  predicate IsContinuation(b: Byte) { 0x80 <= b < 0xC0 }

  predicate IsScalar(v: int) { 0 <= v < 0xD800 || 0xE000 <= v < 0x11_0000 }

  function Rune(v: int): (r: char)
    requires IsScalar(v)
    ensures r as int == v
  {
    v as char
  }

  function Tail(b: Byte): nat { b % 64 }

  function Value2(b0: nat, b1: Byte): nat { b0 % 32 * 0x40 + Tail(b1) }

  function Value3(b0: nat, b1: Byte, b2: Byte): nat { b0 % 16 * 0x1000 + Tail(b1) * 0x40 + Tail(b2) }

  function Value4(b0: nat, b1: Byte, b2: Byte, b3: Byte): nat {
    b0 % 8 * 0x4_0000 + Tail(b1) * 0x1000 + Tail(b2) * 0x40 + Tail(b3)
  }

  /** The first rune and its length, in its shortest form only. */
  function FirstRune(b: seq<Byte>): (r: Option<(char, nat)>)
    requires b != []
    ensures r.Some? ==> 1 <= r.value.1 <= |b|
    ensures r.Some? ==> (r.value.0 < 0x80 as char <==> b[0] < 0x80)
    ensures b[0] < 0x80 ==> r == Some((b[0] as char, 1))
    ensures r.Some? ==> forall i :: 1 <= i < r.value.1 ==> IsContinuation(b[i])
  {
    if b[0] < 0x80 then Some((b[0] as char, 1))
    else if 0xC2 <= b[0] < 0xE0 && |b| >= 2 && IsContinuation(b[1]) then
      ShortestForm2(b[0], b[1]);
      Some((Rune(Value2(b[0], b[1])), 2))
    else if 0xE0 <= b[0] < 0xF0 && |b| >= 3 && IsContinuation(b[1]) && IsContinuation(b[2]) then
      var v := Value3(b[0], b[1], b[2]);
      if v >= 0x800 && IsScalar(v) then Some((Rune(v), 3)) else None
    else if 0xF0 <= b[0] < 0xF5 && |b| >= 4 && IsContinuation(b[1]) && IsContinuation(b[2]) && IsContinuation(b[3]) then
      var v := Value4(b[0], b[1], b[2], b[3]);
      if v >= 0x1_0000 && IsScalar(v) then Some((Rune(v), 4)) else None
    else None
  }

  lemma ShortestForm2(b0: Byte, b1: Byte)
    requires 0xC2 <= b0 < 0xE0
    ensures 0x80 <= Value2(b0, b1) < 0x800
  {}

  /** The text of some bytes, unless they are not UTF-8. */
  function Decode(b: seq<Byte>): Option<string> {
    if b == [] then Some("")
    else
      match FirstRune(b)
      case None => None
      case Some((r, n)) =>
        match Decode(b[n..])
        case None => None
        case Some(t) => Some([r] + t)
  }

  /** How many bytes a rune takes. */
  function RuneSize(r: char): (n: nat)
    ensures 1 <= n <= 4
    ensures r < 0x80 as char <==> n == 1
  {
    var v := r as int;
    if v < 0x80 then 1 else if v < 0x800 then 2 else if v < 0x1_0000 then 3 else 4
  }

  /** Two, three or four groups of six bits, the highest in the first byte. */
  function EncodeRune(r: char): (b: seq<Byte>)
    ensures |b| == RuneSize(r)
  {
    var v := r as int;
    var v1 := v / 0x40;
    var v2 := v1 / 0x40;
    var v3 := v2 / 0x40;
    if v < 0x80 then [v]
    else if v < 0x800 then [0xC0 + v1, 0x80 + v % 0x40]
    else if v < 0x1_0000 then [0xE0 + v2, 0x80 + v1 % 0x40, 0x80 + v % 0x40]
    else [0xF0 + v3, 0x80 + v2 % 0x40, 0x80 + v1 % 0x40, 0x80 + v % 0x40]
  }

  function Encode(s: string): seq<Byte> {
    if s == "" then [] else EncodeRune(s[0]) + Encode(s[1..])
  }

  lemma Groups2(g1: nat, g0: nat)
    requires g1 < 0x20 && g0 < 0x40
    ensures Value2(0xC0 + g1, 0x80 + g0) == g1 * 0x40 + g0
  {}

  lemma Groups3(g2: nat, g1: nat, g0: nat)
    requires g2 < 0x10 && g1 < 0x40 && g0 < 0x40
    ensures Value3(0xE0 + g2, 0x80 + g1, 0x80 + g0) == g2 * 0x1000 + g1 * 0x40 + g0
  {}

  lemma Groups4(g3: nat, g2: nat, g1: nat, g0: nat)
    requires g3 < 8 && g2 < 0x40 && g1 < 0x40 && g0 < 0x40
    ensures Value4(0xF0 + g3, 0x80 + g2, 0x80 + g1, 0x80 + g0) == g3 * 0x4_0000 + g2 * 0x1000 + g1 * 0x40 + g0
  {}

  lemma FirstRuneOfEncoded(r: char, rest: seq<Byte>)
    ensures FirstRune(EncodeRune(r) + rest) == Some((r, RuneSize(r)))
  {
    var v, b := r as int, EncodeRune(r) + rest;
    var v1 := v / 0x40;
    var v2 := v1 / 0x40;
    var v3 := v2 / 0x40;
    if v < 0x80 {
    } else if v < 0x800 {
      Groups2(v1, v % 0x40);
    } else if v < 0x1_0000 {
      Groups3(v2, v1 % 0x40, v % 0x40);
    } else {
      Groups4(v3, v2 % 0x40, v1 % 0x40, v % 0x40);
    }
  }

  /** Every text is read back from its bytes. */
  lemma {:induction false} DecodesWhatWasEncoded(s: string)
    ensures Decode(Encode(s)) == Some(s)
  {
    if s != "" {
      FirstRuneOfEncoded(s[0], Encode(s[1..]));
      assert Encode(s)[RuneSize(s[0])..] == Encode(s[1..]);
      DecodesWhatWasEncoded(s[1..]);
      assert s == [s[0]] + s[1..];
    }
  }

  lemma Regrouped(b: Byte)
    ensures IsContinuation(b) ==> b == 0x80 + Tail(b) && Tail(b) < 0x40
    ensures 0xC2 <= b < 0xE0 ==> b == 0xC0 + b % 32
    ensures 0xE0 <= b < 0xF0 ==> b == 0xE0 + b % 16
    ensures 0xF0 <= b < 0xF5 ==> b == 0xF0 + b % 8
  {}

  /** The groups of six bits of a value made of them. */
  lemma GroupsOf(g3: nat, g2: nat, g1: nat, g0: nat)
    requires g2 < 0x40 && g1 < 0x40 && g0 < 0x40
    ensures var v := g3 * 0x4_0000 + g2 * 0x1000 + g1 * 0x40 + g0;
            && v % 0x40 == g0 && v / 0x40 % 0x40 == g1 && v / 0x40 / 0x40 % 0x40 == g2 && v / 0x40 / 0x40 / 0x40 == g3
  {
    var v := g3 * 0x4_0000 + g2 * 0x1000 + g1 * 0x40 + g0;
    assert v == (g3 * 0x1000 + g2 * 0x40 + g1) * 0x40 + g0;
    assert v / 0x40 == g3 * 0x1000 + g2 * 0x40 + g1;
    assert v / 0x40 == (g3 * 0x40 + g2) * 0x40 + g1;
    assert v / 0x40 / 0x40 == g3 * 0x40 + g2;
  }

  /** A rune is written in the bytes it was read from. */
  lemma FirstRuneIsShortest(b: seq<Byte>)
    requires b != [] && FirstRune(b).Some?
    ensures var (r, n) := FirstRune(b).value; EncodeRune(r) == b[..n]
  {
    var (r, n) := FirstRune(b).value;
    Regrouped(b[0]);
    if n >= 2 {
      Regrouped(b[1]);
    }
    if n >= 3 {
      Regrouped(b[2]);
    }
    if n == 2 {
      GroupsOf(0, 0, b[0] % 32, Tail(b[1]));
      TwoBytes(b[0], b[1], r);
    } else if n == 3 {
      GroupsOf(0, b[0] % 16, Tail(b[1]), Tail(b[2]));
    } else if n == 4 {
      Regrouped(b[3]);
      GroupsOf(b[0] % 8, Tail(b[1]), Tail(b[2]), Tail(b[3]));
    }
  }

  lemma TwoBytes(b0: Byte, b1: Byte, r: char)
    requires 0xC2 <= b0 < 0xE0 && IsContinuation(b1) && r as int == Value2(b0, b1)
    ensures EncodeRune(r) == [b0, b1]
  {
    Regrouped(b0);
    Regrouped(b1);
    GroupsOf(0, 0, b0 % 32, Tail(b1));
  }

  lemma EncodeOneMore(r: char, rest: string)
    ensures Encode([r] + rest) == EncodeRune(r) + Encode(rest)
  {
    assert ([r] + rest)[1..] == rest;
  }

  /** And every text is read from exactly one sequence of bytes: none but its own. */
  lemma {:induction false} EncodesWhatWasDecoded(b: seq<Byte>)
    requires Decode(b).Some?
    ensures Encode(Decode(b).value) == b
    decreases |b|
  {
    if b != [] {
      var (r, n) := FirstRune(b).value;
      FirstRuneIsShortest(b);
      EncodesWhatWasDecoded(b[n..]);
      EncodeOneMore(r, Decode(b[n..]).value);
      assert b == b[..n] + b[n..];
    }
  }

  // ---- ASCII at the end --------------------------------------------------------------------

  lemma FirstRuneStays(b: seq<Byte>, x: Byte)
    requires b != [] && x < 0x80
    ensures FirstRune(b + [x]) == FirstRune(b)
  {}

  /** An ASCII byte at the end is an ASCII rune at the end. */
  lemma {:induction false} DecodeOneMore(b: seq<Byte>, x: Byte)
    requires x < 0x80
    ensures Decode(b + [x]) == if Decode(b).Some? then Some(Decode(b).value + [x as char]) else None
    decreases |b|
  {
    var longer := b + [x];
    if b == [] {
      assert longer[1..] == [];
      assert [x as char] + "" == "" + [x as char];
    } else {
      FirstRuneStays(b, x);
      if FirstRune(b).Some? {
        var n := FirstRune(b).value.1;
        DecodeOneMore(b[n..], x);
        assert longer[n..] == b[n..] + [x];
        if Decode(b[n..]).Some? {
          var r, t := FirstRune(b).value.0, Decode(b[n..]).value;
          assert [r] + (t + [x as char]) == [r] + t + [x as char];
        }
      }
    }
  }

  /** A text that ends in an ASCII rune comes from bytes that end in that byte. */
  lemma {:induction false} AsciiAtTheEnd(b: seq<Byte>)
    requires Decode(b).Some? && Decode(b).value != ""
    ensures b != []
    ensures var t := Decode(b).value; t[|t| - 1] < 0x80 as char ==> b[|b| - 1] == t[|t| - 1] as int
    decreases |b|
  {
    var n := FirstRune(b).value.1;
    if b[n..] != [] {
      AsciiAtTheEnd(b[n..]);
      assert Decode(b[n..]).value != "" by { assert FirstRune(b[n..]).Some?; }
    }
  }
}
