/**
  The demo's raw-mode line editor: a line and a cursor changed key by key, with recall of earlier lines.
  The terminal is the sequence of bytes that will be read from it; drawing is not modelled.
 */
module LineEditor {
  import opened Bytes
  import opened Outcomes
  import opened Trimming

  const HISTORY_LIMIT := 100

  // ---- keys --------------------------------------------------------------------------------

  datatype Key = Interrupt | Enter | Backspace | Up | Down | Right | Left | Insert(r: char) | Ignored

  /** The next key and how many bytes it takes: an escape takes two more bytes, or all that are left. */
  function NextKey(input: seq<Byte>): (k: (Key, nat))
    requires input != []
    ensures 1 <= k.1 <= |input|
  {
    var b := input[0];
    if b == 3 || b == 4 then (Interrupt, 1)
    else if b == 13 || b == 10 then (Enter, 1)
    else if b == 127 || b == 8 then (Backspace, 1)
    else if b == 27 then
      if |input| < 3 then (Ignored, |input|) else (EscapeKey(input[1], input[2]), 3)
    else if 0x20 <= b < 0x7F then (Insert(b as char), 1)
    else (Ignored, 1)
  }

  function EscapeKey(first: Byte, second: Byte): Key {
    if first != 0x5B then Ignored
    else if second == 0x41 then Up
    else if second == 0x42 then Down
    else if second == 0x43 then Right
    else if second == 0x44 then Left
    else Ignored
  }

  // ---- the reference: a zipper -------------------------------------------------------------

  /** The text before and after the cursor. */
  datatype Zipper = Zipper(left: string, right: string) {
    function Text(): string { left + right }
  }

  /** A line being edited, the place in the history, and the line put aside while recalling. */
  datatype Editing = Editing(z: Zipper, index: nat, pending: string)

  function Fresh(history: seq<string>): Editing {
    Editing(Zipper("", ""), |history|, "")
  }

  function AtEnd(text: string): Zipper { Zipper(text, "") }

  function Edit(history: seq<string>, s: Editing, key: Key): Editing {
    match key
    case Backspace => if s.z.left == "" then s else s.(z := s.z.(left := s.z.left[..|s.z.left| - 1]))
    case Insert(r) => s.(z := s.z.(left := s.z.left + [r]))
    case Right =>
      if s.z.right == "" then s else s.(z := Zipper(s.z.left + [s.z.right[0]], s.z.right[1..]))
    case Left =>
      if s.z.left == "" then s
      else
        var k := |s.z.left| - 1;
        s.(z := Zipper(s.z.left[..k], [s.z.left[k]] + s.z.right))
    case Up =>
      if history == [] || s.index == 0 || s.index > |history| then s
      else
        Editing(AtEnd(history[s.index - 1]), s.index - 1, if s.index == |history| then s.z.Text() else s.pending)
    case Down =>
      if s.index >= |history| then s
      else if s.index + 1 == |history| then s.(z := AtEnd(s.pending), index := |history|)
      else s.(z := AtEnd(history[s.index + 1]), index := s.index + 1)
    case _ => s
  }

  /** What reading a line from some input gives: a line, the end of the session, or a failed read. */
  function Outcome(history: seq<string>, s: Editing, input: seq<Byte>): Result<string>
    decreases |input|
  {
    if input == [] then Err(Foreign(0))
    else
      var (key, n) := NextKey(input);
      if key == Enter then Ok(TrimSpace(s.z.Text()))
      else if key == Interrupt && s.z.Text() == "" then Err(EndOfInput)
      else Outcome(history, Edit(history, s, key), input[n..])
  }

  // ---- the stored history ------------------------------------------------------------------

  function LastHundred(lines: seq<string>): seq<string> {
    if |lines| > 100 then lines[|lines| - 100..] else lines
  }

  /** A line is stored unless it is blank or repeats the newest one. */
  function Remember(history: seq<string>, value: string): seq<string> {
    if value != "" && (history == [] || history[|history| - 1] != value) then LastHundred(history + [value])
    else history
  }

  /** All lines without those that repeat the line right before them. */
  function WithoutRepeats(lines: seq<string>): seq<string> {
    var n := |lines|;
    if n == 0 then []
    else WithoutRepeats(lines[..n - 1]) + if n > 1 && lines[n - 2] == lines[n - 1] then [] else [lines[n - 1]]
  }

  lemma {:induction false} NewestIsKept(lines: seq<string>)
    requires lines != []
    ensures var kept := WithoutRepeats(lines); kept != [] && kept[|kept| - 1] == lines[|lines| - 1]
  {
    var n := |lines|;
    if n > 1 {
      NewestIsKept(lines[..n - 1]);
    }
  }

  lemma WindowSlides(kept: seq<string>, value: string)
    ensures LastHundred(LastHundred(kept) + [value]) == LastHundred(kept + [value])
    ensures kept != [] ==> LastHundred(kept) != [] && LastHundred(kept)[|LastHundred(kept)| - 1] == kept[|kept| - 1]
  {
    if |kept| > 100 {
      var cut := |kept| - 100;
      assert (kept[cut..] + [value])[1..] == (kept + [value])[cut + 1..];
    }
  }

  lemma OneLineMore(lines: seq<string>, value: string)
    ensures WithoutRepeats(lines + [value]) ==
            WithoutRepeats(lines) + if lines != [] && lines[|lines| - 1] == value then [] else [value]
  {
    assert (lines + [value])[..|lines|] == lines;
  }

  /** Dropping the oldest lines never changes a later decision about repeats. */
  lemma RememberingKeepsTheTail(lines: seq<string>, value: string)
    requires value != ""
    ensures Remember(LastHundred(WithoutRepeats(lines)), value) == LastHundred(WithoutRepeats(lines + [value]))
  {
    var kept := WithoutRepeats(lines);
    OneLineMore(lines, value);
    WindowSlides(kept, value);
    if lines != [] {
      NewestIsKept(lines);
      if lines[|lines| - 1] == value {
        assert kept + [] == kept;
      }
    }
  }

  // ---- recall ------------------------------------------------------------------------------

  function EditAll(history: seq<string>, s: Editing, keys: seq<Key>): Editing {
    if keys == [] then s else Edit(history, EditAll(history, s, keys[..|keys| - 1]), keys[|keys| - 1])
  }

  predicate Navigates(key: Key) { key == Up || key == Down || key == Left || key == Right }

  /** The line being typed is in the editor at the bottom of the history, and put aside everywhere else. */
  ghost predicate Keeps(history: seq<string>, s: Editing, text: string) {
    && s.index <= |history|
    && (s.index == |history| ==> s.z.Text() == text)
    && (s.index < |history| ==> s.pending == text)
  }

  lemma NavigationKeeps(history: seq<string>, s: Editing, text: string, key: Key)
    requires Keeps(history, s, text) && Navigates(key)
    ensures Keeps(history, Edit(history, s, key), text)
  {
    if key == Left && s.z.left != "" {
      var k := |s.z.left| - 1;
      assert s.z.left == s.z.left[..k] + [s.z.left[k]];
    }
    if key == Right && s.z.right != "" {
      assert s.z.right == [s.z.right[0]] + s.z.right[1..];
    }
  }

  /**
    Any run of arrow keys that starts and ends at the bottom of the history gives back the line that was
    being typed.
   */
  lemma {:induction false} RecallRestoresTheLine(history: seq<string>, s: Editing, keys: seq<Key>)
    requires s.index == |history| && forall k <- keys :: Navigates(k)
    ensures Keeps(history, EditAll(history, s, keys), s.z.Text())
    ensures EditAll(history, s, keys).index == |history| ==> EditAll(history, s, keys).z.Text() == s.z.Text()
  {
    if keys != [] {
      var k := |keys| - 1;
      RecallRestoresTheLine(history, s, keys[..k]);
      NavigationKeeps(history, EditAll(history, s, keys[..k]), s.z.Text(), keys[k]);
    }
  }

  /** So many presses of the arrow up. */
  function Ups(k: nat): (keys: seq<Key>)
    ensures |keys| == k && forall key <- keys :: key == Up
  {
    seq(k, _ => Up)
  }

  /** Going up from the bottom recalls the submitted lines, newest first, and stops at the oldest. */
  lemma {:induction false} UpRecalls(history: seq<string>, s: Editing, k: nat)
    requires s.index == |history|
    ensures var up := EditAll(history, s, Ups(k));
            && up.index == (if k <= |history| then |history| - k else 0)
            && (k > 0 && history != [] ==> up.z == AtEnd(history[up.index]))
            && (k == 0 || history == [] ==> up == s)
  {
    if k > 0 {
      UpRecalls(history, s, k - 1);
      assert Ups(k)[..k - 1] == Ups(k - 1);
    }
  }

  /** Going down from there leads back to the next newer line, or to the one being typed. */
  lemma DownGoesBack(history: seq<string>, s: Editing, k: nat)
    requires s.index == |history| && 0 < k <= |history|
    ensures var down := Edit(history, EditAll(history, s, Ups(k)), Down);
            && down.index == |history| - k + 1
            && down.z == AtEnd(if k == 1 then s.z.Text() else history[|history| - k + 1])
  {
    UpRecalls(history, s, k);
    RecallRestoresTheLine(history, s, Ups(k));
  }

  // ---- what the keys do to the line ---------------------------------------------------------

  /** The place of the cursor in the text. */
  function Place(s: Editing): nat { |s.z.left| }

  /** Seen as a text with a cursor: what typing, deleting and moving do, at any place. */
  lemma EditedText(history: seq<string>, s: Editing, r: char)
    ensures var text, p := s.z.Text(), Place(s);
            var typed, deleted := Edit(history, s, Insert(r)), Edit(history, s, Backspace);
            var left, right := Edit(history, s, Left), Edit(history, s, Right);
            && typed.z.Text() == text[..p] + [r] + text[p..] && Place(typed) == p + 1
            && (p > 0 ==> deleted.z.Text() == text[..p - 1] + text[p..] && Place(deleted) == p - 1)
            && (p == 0 ==> deleted == s)
            && left.z.Text() == text && Place(left) == (if p > 0 then p - 1 else 0)
            && right.z.Text() == text && Place(right) == (if p < |text| then p + 1 else p)
  {
    var text, p := s.z.Text(), Place(s);
    assert text[..p] == s.z.left && text[p..] == s.z.right;
    if p > 0 {
      assert text[..p - 1] == s.z.left[..p - 1];
      assert s.z.left == s.z.left[..p - 1] + [s.z.left[p - 1]];
    }
    if s.z.right != "" {
      assert s.z.right == [s.z.right[0]] + s.z.right[1..];
    }
  }

  /** What a terminal sends for a key. */
  function KeyBytes(key: Key): seq<Byte>
    requires key.Insert? ==> ' ' <= key.r <= '~'
  {
    match key
    case Interrupt => [0x03]
    case Enter => [0x0D]
    case Backspace => [0x7F]
    case Up => [0x1B, 0x5B, 0x41]
    case Down => [0x1B, 0x5B, 0x42]
    case Right => [0x1B, 0x5B, 0x43]
    case Left => [0x1B, 0x5B, 0x44]
    case Insert(r) => [r as int]
    case Ignored => [0x00]
  }

  lemma KeyIsRead(key: Key, rest: seq<Byte>)
    requires key.Insert? ==> ' ' <= key.r <= '~'
    ensures NextKey(KeyBytes(key) + rest) == (key, |KeyBytes(key)|)
    ensures (KeyBytes(key) + rest)[|KeyBytes(key)|..] == rest
  {}

  /** The other codes for the same keys, the bytes that are no key, and escapes that are none or not complete. */
  lemma OtherCodes(b: Byte, rest: seq<Byte>)
    ensures b == 0x04 ==> NextKey([b] + rest) == (Interrupt, 1)
    ensures b == 0x0A ==> NextKey([b] + rest) == (Enter, 1)
    ensures b == 0x08 ==> NextKey([b] + rest) == (Backspace, 1)
    ensures b >= 0x80 || (b < 0x20 && b !in {0x03, 0x04, 0x08, 0x0A, 0x0D, 0x1B}) ==>
              NextKey([b] + rest) == (Ignored, 1)
    ensures b == 0x1B && |rest| < 2 ==> NextKey([b] + rest) == (Ignored, 1 + |rest|)
    ensures b == 0x1B && |rest| >= 2 && rest[0] != 0x5B ==> NextKey([b] + rest) == (Ignored, 3)
    ensures b == 0x1B && |rest| >= 2 && !(0x41 <= rest[1] <= 0x44) ==> NextKey([b] + rest) == (Ignored, 3)
  {}

  predicate IsEditing(key: Key) { key != Enter && key != Interrupt && (key.Insert? ==> ' ' <= key.r <= '~') }

  predicate AllEditing(keys: seq<Key>) { forall i :: 0 <= i < |keys| ==> IsEditing(keys[i]) }

  function BytesOf(keys: seq<Key>): seq<Byte>
    requires AllEditing(keys)
  {
    if keys == [] then [] else KeyBytes(keys[0]) + BytesOf(keys[1..])
  }

  lemma {:induction false} EditFirst(history: seq<string>, s: Editing, keys: seq<Key>)
    requires keys != []
    ensures EditAll(history, s, keys) == EditAll(history, Edit(history, s, keys[0]), keys[1..])
  {
    var n := |keys| - 1;
    if n > 0 {
      EditFirst(history, s, keys[..n]);
      assert keys[1..][..n - 1] == keys[..n][1..];
    }
  }

  lemma OneKeyRead(history: seq<string>, s: Editing, key: Key, later: seq<Byte>)
    requires IsEditing(key)
    ensures Outcome(history, s, KeyBytes(key) + later) == Outcome(history, Edit(history, s, key), later)
  {
    KeyIsRead(key, later);
    LineEditor.OneKeyLater(history, s, KeyBytes(key) + later);
  }

  lemma EnterEnds(history: seq<string>, s: Editing, rest: seq<Byte>)
    ensures Outcome(history, s, KeyBytes(Enter) + rest) == Ok(TrimSpace(s.z.Text()))
  {
    KeyIsRead(Enter, rest);
  }

  /** Whatever keys are pressed before it, Enter returns the line they made, without white space around it. */
  lemma {:induction false} EnterReturnsTheLine(history: seq<string>, s: Editing, keys: seq<Key>, rest: seq<Byte>)
    requires AllEditing(keys)
    ensures Outcome(history, s, BytesOf(keys) + (KeyBytes(Enter) + rest)) ==
            Ok(TrimSpace(EditAll(history, s, keys).z.Text()))
    decreases |keys|
  {
    if keys == [] {
      EnterEnds(history, s, rest);
      assert [] + (KeyBytes(Enter) + rest) == KeyBytes(Enter) + rest;
    } else {
      var later := BytesOf(keys[1..]) + (KeyBytes(Enter) + rest);
      assert BytesOf(keys) + (KeyBytes(Enter) + rest) == KeyBytes(keys[0]) + later;
      OneKeyRead(history, s, keys[0], later);
      EditFirst(history, s, keys);
      EnterReturnsTheLine(history, Edit(history, s, keys[0]), keys[1..], rest);
    }
  }

  /** An interrupt ends the session on an empty line and is ignored on any other; both ways to send it do. */
  lemma InterruptOnlyEndsEmptyLines(history: seq<string>, s: Editing, b: Byte, rest: seq<Byte>)
    requires b == 0x03 || b == 0x04
    ensures Outcome(history, s, [b] + rest) == if s.z.Text() == "" then Err(EndOfInput) else Outcome(history, s, rest)
  {
    assert ([b] + rest)[1..] == rest;
  }

  // ---- the editor --------------------------------------------------------------------------

  class LineEditor {
    var history: seq<string>
    /** Every line that was not blank and was submitted with history on. */
    ghost var submitted: seq<string>

    ghost predicate Valid()
      reads this
    {
      history == LastHundred(WithoutRepeats(submitted))
    }

    constructor ()
      ensures Valid() && history == [] && submitted == []
    {
      history, submitted := [], [];
    }

    /** What the editor holds, as the reference sees it. */
    static function View(line: string, pos: nat, index: nat, pending: string): Editing
      requires pos <= |line|
    {
      Editing(Zipper(line[..pos], line[pos..]), index, pending)
    }

    static lemma BackspaceView(history: seq<string>, line: string, pos: nat, index: nat, pending: string)
      requires 0 < pos <= |line|
      ensures View(line[..pos - 1] + line[pos..], pos - 1, index, pending) ==
              Edit(history, View(line, pos, index, pending), Backspace)
    {
      var cut := line[..pos - 1] + line[pos..];
      assert line[..pos][..pos - 1] == line[..pos - 1] == cut[..pos - 1];
      assert cut[pos - 1..] == line[pos..];
    }

    static lemma InsertView(history: seq<string>, line: string, pos: nat, index: nat, pending: string, r: char)
      requires pos <= |line|
      ensures View(line[..pos] + [r] + line[pos..], pos + 1, index, pending) ==
              Edit(history, View(line, pos, index, pending), Insert(r))
    {
      var longer := line[..pos] + [r] + line[pos..];
      assert longer[..pos + 1] == line[..pos] + [r];
      assert longer[pos + 1..] == line[pos..];
    }

    static lemma RightView(history: seq<string>, line: string, pos: nat, index: nat, pending: string)
      requires pos < |line|
      ensures View(line, pos + 1, index, pending) == Edit(history, View(line, pos, index, pending), Right)
    {
      assert line[..pos + 1] == line[..pos] + [line[pos..][0]];
      assert line[pos + 1..] == line[pos..][1..];
    }

    static lemma LeftView(history: seq<string>, line: string, pos: nat, index: nat, pending: string)
      requires 0 < pos <= |line|
      ensures View(line, pos - 1, index, pending) == Edit(history, View(line, pos, index, pending), Left)
    {
      assert line[..pos - 1] == line[..pos][..pos - 1];
      assert line[pos - 1..] == [line[..pos][pos - 1]] + line[pos..];
    }

    /** What is read ahead of a key that neither ends the line nor the session does not matter. */
    static lemma OneKeyLater(history: seq<string>, s: Editing, input: seq<Byte>)
      requires input != [] && NextKey(input).0 != Enter
      requires NextKey(input).0 == Interrupt ==> s.z.Text() != ""
      ensures Outcome(history, s, input) ==
              Outcome(history, Edit(history, s, NextKey(input).0), input[NextKey(input).1..])
    {
    }

    method ReadLine(input: seq<Byte>, addHistory: bool) returns (r: Result<string>)
      requires Valid()
      modifies this
      ensures Valid()
      ensures r == Outcome(old(history), Fresh(old(history)), input)
      ensures submitted ==
              old(submitted) + if r.Ok? && addHistory && r.value != "" then [r.value] else []
    {
      var line, pending := "", "";
      var pos: nat, historyIndex: nat, used: nat := 0, |history|, 0;
      ghost var promised := Outcome(history, Fresh(history), input);
      assert input[0..] == input;
      while used < |input|
        invariant used <= |input| && pos <= |line| && historyIndex <= |history|
        invariant history == old(history) && submitted == old(submitted)
        invariant Outcome(history, View(line, pos, historyIndex, pending), input[used..]) == promised
        decreases |input| - used
      {
        var rest := input[used..];
        ghost var view := View(line, pos, historyIndex, pending);
        assert view.z.Text() == line;
        var b := rest[0];
        if (b == 3 || b == 4) && line == "" {
          assert promised == Err(EndOfInput);
          return Err(EndOfInput);
        } else if b == 13 || b == 10 {
          var value := TrimSpace(line);
          assert promised == Ok(value);
          if addHistory {
            Submit(value);
          }
          return Ok(value);
        }
        OneKeyLater(history, view, rest);
        var n: nat;
        line, pos, historyIndex, pending, n := EditLine(rest, line, pos, historyIndex, pending);
        used := used + n;
        assert rest[n..] == input[used..];
      }
      r := Err(Foreign(0));
    }

    /** The keys that change the line, the cursor or the place in the history, and how many bytes were taken. */
    method EditLine(input: seq<Byte>, line0: string, pos0: nat, index0: nat, pending0: string)
      returns (line: string, pos: nat, index: nat, pending: string, used: nat)
      requires input != [] && pos0 <= |line0| && index0 <= |history|
      ensures pos <= |line| && index <= |history| && used == NextKey(input).1
      ensures NextKey(input).0 != Enter ==>
                View(line, pos, index, pending) ==
                Edit(history, View(line0, pos0, index0, pending0), NextKey(input).0)
    {
      line, pos, index, pending := line0, pos0, index0, pending0;
      var b := input[0];
      used := 1;
      if b == 127 || b == 8 {
        if pos > 0 {
          BackspaceView(history, line, pos, index, pending);
          line := line[..pos - 1] + line[pos..];
          pos := pos - 1;
        }
      } else if b == 27 {
        if |input| - used < 2 {
          used := |input|;
        } else {
          line, pos, index, pending := ReadEscape(input[1], input[2], line, pos, index, pending);
          used := 3;
        }
      } else if 0x20 <= b < 0x7F {
        InsertView(history, line, pos, index, pending, b as char);
        line := line[..pos] + [b as char] + line[pos..];
        pos := pos + 1;
      }
    }

    /** Remember a line that is not blank. */
    method Submit(value: string)
      requires Valid()
      modifies this
      ensures Valid()
      ensures submitted == old(submitted) + if value != "" then [value] else []
    {
      if value != "" {
        RememberingKeepsTheTail(submitted, value);
        submitted := submitted + [value];
      }
      if value != "" && (|history| == 0 || history[|history| - 1] != value) {
        history := history + [value];
        if |history| > HISTORY_LIMIT {
          history := history[|history| - HISTORY_LIMIT..];
        }
      }
    }

    /** The two bytes after an escape; the editor's variables go in and come out changed. */
    method ReadEscape(first: Byte, second: Byte, line0: string, pos0: nat, index0: nat, pending0: string)
      returns (line: string, pos: nat, index: nat, pending: string)
      requires pos0 <= |line0| && index0 <= |history|
      ensures pos <= |line| && index <= |history|
      ensures View(line, pos, index, pending) ==
              Edit(history, View(line0, pos0, index0, pending0), EscapeKey(first, second))
    {
      line, pos, index, pending := line0, pos0, index0, pending0;
      if first != 0x5B {
        return;
      }
      if second == 0x41 {
        if |history| == 0 || index == 0 {
          return;
        }
        if index == |history| {
          assert line == line[..pos] + line[pos..];
          pending := line;
        }
        index := index - 1;
        line := history[index];
        pos := |line|;
      } else if second == 0x42 {
        if index >= |history| {
          return;
        }
        index := index + 1;
        line := if index == |history| then pending else history[index];
        pos := |line|;
      } else if second == 0x43 {
        if pos < |line| {
          RightView(history, line, pos, index, pending);
          pos := pos + 1;
        }
      } else if second == 0x44 {
        if pos > 0 {
          LeftView(history, line, pos, index, pending);
          pos := pos - 1;
        }
      }
    }
  }
}
