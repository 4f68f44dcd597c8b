/** Trimming runs of characters off a string, as the source's string library does it. */
module Trimming {

  /** White space as a trim sees it. */
  predicate IsSpace(r: char) {
    || 0x09 as char <= r <= 0x0D as char || r == ' ' || r == 0x85 as char || r == 0xA0 as char
    || r == 0x1680 as char || 0x2000 as char <= r <= 0x200A as char || r == 0x2028 as char
    || r == 0x2029 as char || r == 0x202F as char || r == 0x205F as char || r == 0x3000 as char
  }

  /** These are the white space of Unicode, 25 characters of it. */
  lemma WhiteSpaceIs(r: char)
    ensures var v := r as int;
            IsSpace(r) <==>
            || v in {0x09, 0x0A, 0x0B, 0x0C, 0x0D, 0x20, 0x85, 0xA0, 0x1680}
            || v in {0x2000, 0x2001, 0x2002, 0x2003, 0x2004, 0x2005, 0x2006, 0x2007, 0x2008, 0x2009, 0x200A}
            || v in {0x2028, 0x2029, 0x202F, 0x205F, 0x3000}
  {}

  type Cutset = char -> bool

  predicate AllCut(s: string, cut: Cutset) { forall i :: 0 <= i < |s| ==> cut(s[i]) }

  function TrimLeft(s: string, cut: Cutset): string {
    if s != "" && cut(s[0]) then TrimLeft(s[1..], cut) else s
  }

  function TrimRight(s: string, cut: Cutset): string {
    if s != "" && cut(s[|s| - 1]) then TrimRight(s[..|s| - 1], cut) else s
  }

  function TrimSpace(s: string): string { TrimRight(TrimLeft(s, IsSpace), IsSpace) }

  /** Neither end is to be cut. */
  predicate IsTrimmed(s: string, cut: Cutset) {
    s != "" ==> !cut(s[0]) && !cut(s[|s| - 1])
  }

  lemma {:induction false} TrimLeftDrops(w: string, s: string, cut: Cutset)
    requires AllCut(w, cut)
    ensures TrimLeft(w + s, cut) == TrimLeft(s, cut)
  {
    if w == "" {
      assert w + s == s;
    } else {
      assert (w + s)[1..] == w[1..] + s;
      TrimLeftDrops(w[1..], s, cut);
    }
  }

  lemma {:induction false} TrimRightDrops(s: string, w: string, cut: Cutset)
    requires AllCut(w, cut)
    ensures TrimRight(s + w, cut) == TrimRight(s, cut)
  {
    var n := |w|;
    if n == 0 {
      assert s + w == s;
    } else {
      assert (s + w)[..|s + w| - 1] == s + w[..n - 1];
      TrimRightDrops(s, w[..n - 1], cut);
    }
  }

  /** A cut from the right stops at a character that stays; what remains after it is the start of what was there. */
  lemma {:induction false} TrimRightStops(s: string, w: string, cut: Cutset) returns (rest: string)
    requires s != "" && !cut(s[|s| - 1])
    ensures rest <= w && TrimRight(s + w, cut) == s + rest
  {
    var n := |w|;
    if n == 0 || !cut(w[n - 1]) {
      rest := w;
      assert (s + w)[|s + w| - 1] == if n == 0 then s[|s| - 1] else w[n - 1];
    } else {
      assert (s + w)[..|s + w| - 1] == s + w[..n - 1];
      rest := TrimRightStops(s, w[..n - 1], cut);
    }
  }

  /** Trimming takes all the white space at both ends and nothing else. */
  lemma TrimSpaceIsExact(before: string, s: string, after: string)
    requires AllCut(before, IsSpace) && AllCut(after, IsSpace) && IsTrimmed(s, IsSpace)
    ensures TrimSpace(before + s + after) == s
  {
    assert before + s + after == before + (s + after);
    TrimLeftDrops(before, s + after, IsSpace);
    if s == "" {
      assert s + after == after + "";
      TrimLeftDrops(after, "", IsSpace);
    } else {
      TrimRightDrops(s, after, IsSpace);
    }
  }

  /** Every string is trimmed that way: what was taken is white space, and no white space is left at the ends. */
  lemma TrimSpaceSplits(s: string) returns (before: string, after: string)
    ensures AllCut(before, IsSpace) && AllCut(after, IsSpace) && IsTrimmed(TrimSpace(s), IsSpace)
    ensures s == before + TrimSpace(s) + after
  {
    before := CutLeft(s);
    after := CutRight(TrimLeft(s, IsSpace), IsSpace);
  }

  lemma {:induction false} CutLeft(s: string) returns (before: string)
    ensures AllCut(before, IsSpace) && s == before + TrimLeft(s, IsSpace)
    ensures TrimLeft(s, IsSpace) != "" ==> !IsSpace(TrimLeft(s, IsSpace)[0])
  {
    before := "";
    if s != "" && IsSpace(s[0]) {
      before := CutLeft(s[1..]);
      before := [s[0]] + before;
    }
  }

  lemma {:induction false} CutRight(s: string, cut: Cutset) returns (after: string)
    ensures AllCut(after, cut) && s == TrimRight(s, cut) + after
    ensures TrimRight(s, cut) != "" ==> !cut(TrimRight(s, cut)[|TrimRight(s, cut)| - 1])
  {
    after := "";
    var n := |s|;
    if n > 0 && cut(s[n - 1]) {
      after := CutRight(s[..n - 1], cut);
      after := after + [s[n - 1]];
    }
  }
}
