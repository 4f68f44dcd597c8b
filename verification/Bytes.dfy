/** Bytes and big-endian fields, as read and written by the wire formats. */
module Bytes {

  type Byte = b: int | 0 <= b < 256

  /** 256 to the power `width`: the number of values of a field of `width` bytes. */
  function Span(width: nat): (n: nat)
    ensures n >= 1
  {
    if width == 0 then 1 else 256 * Span(width - 1)
  }

  /** The big-endian bytes of an unsigned field. */
  function BigEndian(width: nat, value: nat): (s: seq<Byte>)
    requires value < Span(width)
    ensures |s| == width
  {
    if width == 0 then [] else BigEndian(width - 1, value / 256) + [value % 256]
  }

  /** The unsigned value of a big-endian field. */
  function FromBigEndian(s: seq<Byte>): (value: nat)
    ensures value < Span(|s|)
  {
    if s == [] then 0 else 256 * FromBigEndian(s[..|s| - 1]) + s[|s| - 1]
  }

  lemma {:induction false} ReadsBackWhatWasWritten(width: nat, value: nat)
    requires value < Span(width)
    ensures FromBigEndian(BigEndian(width, value)) == value
  {
    if width > 0 {
      ReadsBackWhatWasWritten(width - 1, value / 256);
      var s := BigEndian(width, value);
      assert s[..|s| - 1] == BigEndian(width - 1, value / 256);
    }
  }

  lemma {:induction false} WritesBackWhatWasRead(s: seq<Byte>)
    ensures BigEndian(|s|, FromBigEndian(s)) == s
  {
    if s != [] {
      WritesBackWhatWasRead(s[..|s| - 1]);
    }
  }

  /** The field widths that occur: two, three, four and eight bytes. */
  lemma FieldWidths()
    ensures Span(1) == 0x100 && Span(2) == 0x1_0000 && Span(3) == 0x100_0000 && Span(4) == 0x1_0000_0000
    ensures Span(8) == 0x1_0000_0000_0000_0000
  {
    assert Span(2) == 256 * Span(1) && Span(4) == 256 * Span(3);
    assert Span(6) == 256 * Span(5) && Span(8) == 256 * Span(7);
  }

  /** A sixteen-bit field is its high byte times 256 plus its low byte. */
  lemma SixteenBits(hi: Byte, lo: Byte)
    ensures FromBigEndian([hi, lo]) == 256 * hi + lo
    ensures BigEndian(2, 256 * hi + lo) == [hi, lo]
  {
    assert [hi, lo][..1] == [hi];
    assert FromBigEndian([hi]) == hi by { assert [hi][..0] == []; }
    WritesBackWhatWasRead([hi, lo]);
  }

  predicate AllZero(s: seq<Byte>) {
    forall i :: 0 <= i < |s| ==> s[i] == 0
  }

  function Zeros(n: nat): (s: seq<Byte>)
    ensures |s| == n && AllZero(s)
  {
    seq(n, _ => 0)
  }

  lemma {:induction false} ZeroField(s: seq<Byte>)
    ensures FromBigEndian(s) == 0 <==> AllZero(s)
  {
    if s != [] {
      ZeroField(s[..|s| - 1]);
      assert s == s[..|s| - 1] + [s[|s| - 1]];
    }
  }
}
